# Dynomite cluster generator: planning core in Dafny

This project models the pure planning core of the Dynomite functional-test
cluster generator `test/cluster_generator.py`, together with the order in
which it launches and tears down a cluster.

The planner takes a request, which is a list of datacenters, each a list of
`(rack name, node count)` pairs. It places evenly spaced tokens on a 2^32
ring for every rack (`pick_tokens`, `tokens_for_rack`, `tokens_for_dc`,
`tokens_for_cluster`). It draws one address per node from a counter
(`generate_ips`), and it emits one `DynoSpec` per node with its peer counts
(`dict_request`, `sum_racks`, `generate_nodes`).

`DynoSpec.__new__` derives each node's seed string. `_generate_config`
renders a node's dynomite configuration, including the seed list without
the node's own seed. `launch_dynomite`, `DynoSpec.launch` and
`launch_redis` are modelled as an abstract event trace.

Modules, one per file:

- `Wrappers`: `Option` and `Result`.
- `Text`: decimal rendering of naturals, and `a:b` joining and splitting.
- `Ring`: `pick_tokens`.
- `Addresses`: `generate_ips`, plus a dotted-quad rendering that stands in for `int2quad`.
- `PyDict`: an insertion-ordered Python `dict` built from pairs, where the last value for a key wins.
- `Topology`:
  - the request and token-plan types;
  - `tokens_for_rack`, `tokens_for_dc` and `tokens_for_cluster`;
  - `dict_request` and `sum_racks`.
- `Specs`: `DynoSpec` and its seed string.
- `Planner`: `generate_nodes`, and the address draws of `main`.
- `Reference`: an independent, dict-free definition of the node list a plan should produce.
  - `Planner` is proved to agree with it.
- `Placement`: what each generated node looks like, and the seed list the cluster hands out.
- `Config`: `_generate_config` and the seed list.
- `Lifecycle`: the launch and teardown trace.

Random offsets are an input: a sequence `draws` with one offset per rack, in
datacenter-then-rack order. That is the order in which `tokens_for_rack`
consumes Python's global random state.

Addresses are integers. The `k`-th address drawn is `BASE_IPADDRESS + k`.

Each `DynoSpec` keeps the fields of its seed string, in format order. The
string itself is rendered by `SeedText` wherever it is compared or handed
on.

**Seed string order.** The call in `generate_nodes` passes `dc, rack`, but
`DynoSpec.__new__` declares `rack, dc`. The positional call to the
namedtuple constructor swaps them back, so the fields are right.

The seed string, however, comes out as `ip:port:dc:rack:token`.
`Specs.CallSiteSwap` states both effects.

## Model

| member | source | states |
|---|---|---|
| Ring.PickTokens | test/cluster_generator.py:56-61 | a positive count yields exactly that many tokens; a negative count yields none (zero is the division error handled by `TokensForRack`) |
| Ring.PickTokensAt | test/cluster_generator.py:56-61 | token `i` is `(offset + i * (2^32 div count)) mod 2^32`, so the first is the offset reduced mod the ring and every token lies on the ring |
| Ring.PickTokensSpacing | test/cluster_generator.py:57-61 | each token is the previous one plus the stride, modulo the ring size |
| Ring.PickTokensWrapAround | test/cluster_generator.py:57-61 | the gap from the last token back to the first is the stride plus `2^32 mod count`, so the gaps cover the ring exactly once |
| Ring.PickTokensDistinct | test/cluster_generator.py:56-61 | with at most 2^32 tokens, they are pairwise distinct |
| Ring.EmitAt | test/cluster_generator.py:58-61 | the loop's `i`-th yield is the start plus `i` strides, reduced mod 2^32 |
| Topology.TokensForRack | test/cluster_generator.py:63-65 | raises ZeroDivision exactly when the count is zero; otherwise yields one token per requested node, and none for a negative count |
| Topology.TokensForDc | test/cluster_generator.py:67-71 | a datacenter's token lists are built exactly when no rack asks for zero nodes, one list per rack; otherwise it raises ZeroDivision |
| Topology.TokensForDcAt | test/cluster_generator.py:67-71 | entry `j` pairs rack `j`'s name with `pick_tokens` of its count, started at that rack's own offset |
| Topology.TokensForCluster | test/cluster_generator.py:73-80 | the cluster's plan is built exactly when no rack in any datacenter asks for zero nodes, one entry per datacenter; otherwise it raises ZeroDivision |
| Topology.TokensForClusterAt | test/cluster_generator.py:73-80 | entry `i` pairs datacenter `i`'s name with its racks' token lists, whose offsets follow those of all earlier datacenters |
| Topology.TokensForClusterShape | test/cluster_generator.py:63-80 | the plan keeps datacenter and rack order and names; rack `j` of datacenter `i` gets `count` tokens (none for a negative count) from the offset drawn in that position |
| Topology.RackPairsAt | test/cluster_generator.py:162-165 | `dict(dc['racks'])` is built from the rack pairs in order; distinct rack names give distinct keys |
| Topology.DcPairsAt | test/cluster_generator.py:162-165 | `dict_request` is built from one `(name, rack dict)` pair per datacenter, in order; distinct names give distinct keys |
| Topology.DictRequest | test/cluster_generator.py:156-165 | the result is a dict; with distinct datacenter names, entry `i` is datacenter `i`'s name with the dict of its racks |
| Topology.DictRequestLookup | test/cluster_generator.py:156-165 | with distinct names, looking up a datacenter then a rack in `dict_request` yields that rack's requested count |
| Topology.SumRacks | test/cluster_generator.py:167-171 | `sum_racks` keeps each datacenter key in order and maps it to the sum of its rack counts, so a dict stays a dict |
| Topology.DcSumAt | test/cluster_generator.py:167-171 | for the dicts of a request, datacenter `i` sums to its requested node count when its rack names are distinct |
| Topology.SumRacksOfRequest | test/cluster_generator.py:167-171 | for a well-formed request, every datacenter maps to its node count and the values sum to the request's total |
| PyDict.GetFromPairs | test/cluster_generator.py:162-165 | a dict built from pairs maps each key to the last value given for it |
| PyDict.FromPairsOfUniqueKeys | test/cluster_generator.py:162-165 | pairs with distinct keys become the dict unchanged, in order |
| PyDict.KeyIndexNone | test/cluster_generator.py:179-183 | a lookup finds nothing exactly when no entry has the key |
| PyDict.GetAt | test/cluster_generator.py:179-183 | with distinct keys, looking up entry `i`'s key yields entry `i`'s value |
| PyDict.GetAfterSet | test/cluster_generator.py:162-165 | assigning a key changes the lookup of that key only |
| Planner.Lookup | test/cluster_generator.py:179-183 | `d[key]` succeeds exactly when some entry has the key, with the value `d.get(key)` finds; otherwise it raises KeyError for that key |
| Planner.LookupFinds | test/cluster_generator.py:179-183 | a successful `d[key]` gives the value of an entry with that key; in a dict it is the value of the one entry with that key |
| Planner.PlanTokens | test/cluster_generator.py:184-187 | one spec per token, whose addresses are the generator's successive draws, with the generator advanced by the number of tokens |
| Planner.PlanRack | test/cluster_generator.py:182-187 | a rack's specs draw consecutive addresses; with the rack's count in the dict they are its reference nodes; a missing rack raises KeyError |
| Planner.PlanRacks | test/cluster_generator.py:182-187 | a datacenter's racks in order yield one spec per token at consecutive addresses, equal to the reference nodes when the dict describes them |
| Planner.DcLookups | test/cluster_generator.py:179-180 | both lookups succeed exactly when the datacenter is a key of both dicts, giving its node count and rack dict; otherwise KeyError for its name |
| Planner.PlanDc | test/cluster_generator.py:178-187 | a datacenter yields one spec per token, with remote count `total - its own total`, equal to the reference nodes when the dicts describe it |
| Planner.PlanDcs | test/cluster_generator.py:178-187 | the datacenters in order yield the reference node list at consecutive addresses when the dicts describe the plan |
| Planner.GenerateNodes | test/cluster_generator.py:173-187 | on success the specs sit at consecutive addresses from the generator's state, and the generator advances by one per spec |
| Planner.GenerateNodesZeroDivision | test/cluster_generator.py:173-187 | planning raises ZeroDivision exactly when some rack asks for zero nodes; any other failure is a KeyError |
| Planner.GenerateNodesAsExpected | test/cluster_generator.py:173-187 | a well-formed request always succeeds and yields exactly the reference node list for its token plan, one spec per requested node |
| Planner.PlanRun | test/cluster_generator.py:212-214 | the standalone redis takes the base address and the nodes the following ones, so all addresses are distinct |
| Reference.TokenNodesAt | test/cluster_generator.py:184-187 | the reference node for token `t` sits at the base address plus `t` and carries that token |
| Reference.RequestDescribesPlan | test/cluster_generator.py:174-177 | for a well-formed request, the dicts built from it describe its token plan, and the node total equals the plan's token total |
| Addresses.Draws | test/cluster_generator.py:86-90 | `n` successive draws yield the addresses from the generator's state upwards, one apart, and leave it `n` further on |
| Addresses.DrawsDistinct | test/cluster_generator.py:86-90 | the generator never repeats an address, within a run of draws or across later draws |
| Addresses.Int2QuadInjective | test/cluster_generator.py:89 | distinct addresses render to distinct dotted quads |
| Addresses.NoCharInQuad | test/cluster_generator.py:89 | a rendered address holds only digits and dots, so no colon |
| Text.DigitsValueOfNatToString | test/cluster_generator.py:98 | the decimal rendering of a number reads back as that number |
| Text.NatToStringInjective | test/cluster_generator.py:98 | distinct numbers render differently |
| Text.SplitAtSeparator | test/cluster_generator.py:98 | a colon-joined string splits back into its colon-free head and its tail |
| Specs.NewDynoSpec | test/cluster_generator.py:96-100 | the `rack` parameter fills the `dc` field and the `dc` parameter the `rack` field; the seed string is formatted in parameter order, which matches the fields |
| Specs.CallSiteSwap | test/cluster_generator.py:184-187 | called with `dc, rack` as `generate_nodes` does, the spec's `dc` and `rack` fields are right and its seed string is `ip:port:dc:rack:token` |
| Specs.SeedFieldsDistinct | test/cluster_generator.py:98 | seed strings of nodes at different addresses differ, whatever their other fields |
| Specs.SeedFieldsInjective | test/cluster_generator.py:98 | with colon-free names, a seed string determines address, port, both names and token |
| Config.WithoutSeed | test/cluster_generator.py:111 | the own-seed filter keeps exactly the seeds that differ from the node's own, and never lengthens the list |
| Config.WithoutSeedAppend | test/cluster_generator.py:111 | the own-seed filter keeps order: filtering a concatenation filters each part |
| Config.WithoutSeedCounts | test/cluster_generator.py:111 | the filter removes every occurrence of the own seed and keeps every other seed as often as it occurs |
| Config.WithoutSeedUnchanged | test/cluster_generator.py:111 | the filter leaves a list alone exactly when the own seed is absent |
| Config.GenerateConfig | test/cluster_generator.py:102-117 | `dyn_seeds` holds the given seeds, less every copy of the node's own seed string |
| Config.OnlySeedsVary | test/cluster_generator.py:102-117 | two renderings of one spec with different seed lists agree on every key but `dyn_seeds` |
| Config.WithoutSeedAround | test/cluster_generator.py:111 | with the own seed once in the middle, the filter leaves the parts around it |
| Config.WithoutUnique | test/cluster_generator.py:111 | filtering out an entry that occurs once removes exactly that position |
| Config.SeedsList | test/cluster_generator.py:146 | the seed list has one entry per node, and entry `k` is node `k`'s seed string |
| Config.SeedsListAppend | test/cluster_generator.py:146 | the seed list of a concatenation is the concatenation of the seed lists |
| Config.SeedsDistinct | test/cluster_generator.py:146 | nodes at distinct addresses contribute distinct seed strings |
| Config.OtherSeeds | test/cluster_generator.py:111 | with distinct addresses, node `k`'s `dyn_seeds` is the seed list with exactly position `k` removed |
| Placement.RackNodesAt | test/cluster_generator.py:182-187 | token `t` of rack `j` becomes the node at that position, with the rack's token and local count `tokens - 1` |
| Placement.DcNodesAt | test/cluster_generator.py:178-187 | a datacenter's nodes follow those of the earlier datacenters in the node list |
| Placement.PlanNodeAt | test/cluster_generator.py:178-187 | token `t` of rack `j` of datacenter `i` sits at position tokens-before plus `t`, with its names, token and both peer counts |
| Placement.NodePlacement | test/cluster_generator.py:173-187 | node `k` is token `t` of rack `j` of datacenter `i`, at address base + `k`, with its names, its `pick_tokens` token, local count `count - 1` and remote count `total - datacenter total` |
| Placement.NodeCount | test/cluster_generator.py:173-187 | a well-formed request yields one spec per requested node |
| Placement.DcNodesConsistent | test/cluster_generator.py:186 | every planned node's seed string is formatted from its own address, port, datacenter, rack and token |
| Placement.GeneratedAddressed | test/cluster_generator.py:184-187 | generated specs carry consistent seed strings and pairwise distinct addresses |
| Placement.ClusterSeeds | test/cluster_generator.py:144-152 | in a generated cluster, node `k` is handed every other node's seed string, once each and in list order |
| Lifecycle.EnterNode | test/cluster_generator.py:119-141 | entering a node's `launch` (with `launch_redis` at lines 46-54 inside it) succeeds exactly when no step raises; all its events are about that node and any config it writes is that node's; dynomite is started only on success, and a failed entry that started redis has reaped it |
| Lifecycle.EnterStack | test/cluster_generator.py:148-152 | after the comprehension the exit stack holds the nodes before the first raise, in order; the cluster is up exactly when nothing raised |
| Lifecycle.RanksOfEnterNode | test/cluster_generator.py:126-141 | a clean entry consists only of the node's start events; an entry that raises may end with that node's stop events, after all its starts |
| Lifecycle.RanksOfEnter | test/cluster_generator.py:149-152 | nodes are entered by ascending position, and a raising node's cleanup comes last |
| Lifecycle.RanksOfUnwind | test/cluster_generator.py:148-154 | the exit stack tears nodes down by descending position |
| Lifecycle.LaunchRanked | test/cluster_generator.py:144-154 | the seed list is computed first and only once; starts come in list order, then the cluster body, then stops in reverse order |
| Lifecycle.LaunchDynomite | test/cluster_generator.py:144-154 | the trace starts with the seed list of all nodes, and the cluster comes up exactly when no node's launch raises |
| Lifecycle.EnterFromOf | test/cluster_generator.py:149-152 | the comprehension touches a node only if it comes before or at the first raise, and then only by entering it |
| Lifecycle.UnwindOf | test/cluster_generator.py:148-154 | unwinding stops each entered node exactly once, and no other node |
| Lifecycle.NodeHistory | test/cluster_generator.py:126-154 | a node before the first raise is started (config, redis, dynomite) and later stopped (SIGINT and wait to dynomite, then kill and wait to redis); the raising node sees only its partial entry; later nodes are never touched |
| Lifecycle.LaunchOrder | test/cluster_generator.py:144-154 | starts come in ascending and stops in descending node order; no start follows any stop; the cluster body follows every start and precedes every stop |
| Lifecycle.WrittenConfigs | test/cluster_generator.py:127-150 | every config a launch writes is the node's own spec rendered with the seed list of all nodes |

## Left out

- Process control is not modelled: plumbum, signals, `kill`, `wait` and the binaries. `Lifecycle` records each step as an abstract event, and which step of which node raises is an input.
- Teardown steps are taken to succeed. An exception during teardown, or inside the cluster body, is not modelled.
- The exit statuses are not modelled. `BG(-9)` at test/cluster_generator.py:49 and `BG(1)` at test/cluster_generator.py:135 tell `wait()` which status to expect, and the `wait()` calls at lines 54 and 141 would raise on any other status. That would be a raise during teardown, which the model leaves out (see above). The `return_code` variable at line 141 is otherwise unused.
- The first `launched_nodes` list at test/cluster_generator.py:147 is unused, so it is not modelled.
- The `DynoNode`, `RedisNode` and `DynoCluster` handles that the contexts yield are not modelled, and their constructors are taken not to raise, so `Lifecycle.Stage` has no stage for them. Those classes are not part of this model.
- `write_config` is not modelled: YAML serialisation, the config file name and file writes. The model keeps the configuration as a value.
- `setup_temp_dir`, `main`'s argument parsing, `sleep`, the stats fetch and `comparison_test` are I/O. Only `main`'s address draws are modelled (`Planner.PlanRun`).
- The Python global random state is replaced by an explicit sequence of offsets, one per rack. The seeding branch of `tokens_for_cluster` is dead, since it is only called with `None`, and is not modelled.
- The offsets' range `[0, 2^32)` from `random.randrange` is not assumed. Tokens are reduced mod 2^32 either way.
- `ip_util.quad2int` and `ip_util.int2quad` are not part of this model.
  - `BASE_IPADDRESS` is the constant `127.0.1.1` computed by hand.
  - `Addresses.Int2Quad` is a stand-in dotted-quad rendering, injective on every natural number.
  - What `int2quad` does past 2^32 - 1 is unknown, so running out of addresses is not modelled.
- `Placement.NodePlacement`, `Placement.ClusterSeeds` and `Planner.GenerateNodesAsExpected` assume a well-formed request: positive counts, distinct datacenter names, and distinct rack names within a datacenter. For other requests only the error behaviour is stated (`Planner.GenerateNodesZeroDivision`), because `dict_request` collapses duplicate names.
- `PyDict.KeyIndexNone`: the lookup scans from the back. This only matters for pair lists with repeated keys, and dicts never have those.
- `Ring.PickTokensDistinct` needs at most 2^32 tokens: beyond that the stride is zero and tokens repeat.
