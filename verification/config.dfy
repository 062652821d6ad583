/** The dynomite configuration `DynoSpec._generate_config` renders for one
    node (test/cluster_generator.py:102-117), and the seed list
    `launch_dynomite` hands every node (test/cluster_generator.py:146). */
module Config {
  import opened Text
  import opened Addresses
  import opened Specs

  /** `DYN_O_MITE_DEFAULTS` (test/cluster_generator.py:28-33). */
  const SECURE_SERVER_OPTION: string := "datacenter"
  const PEM_KEY_FILE: string := "conf/dynomite.pem"
  const DATA_STORE: nat := 0
  const DATASTORE_CONNECTIONS: nat := 1

  /** The `dyn_o_mite` section: the four defaults followed by the keys
      `_generate_config` sets, in the order it sets them. */
  datatype DynomiteConf = DynomiteConf(
    secureServerOption: string,
    pemKeyFile: string,
    dataStore: nat,
    datastoreConnections: nat,
    datacenter: string,
    rack: string,
    dynListen: string,
    listen: string,
    dynSeeds: seq<string>,
    servers: seq<string>,
    statsListen: string,
    tokens: nat,
    localPeerConnections: int,
    remotePeerConnections: int)

  /** `dict(dyn_o_mite=conf)`. */
  datatype Conf = Conf(dynOMite: DynomiteConf)

  /** `'{}:{}'.format(ip, port)` for an address kept as an integer. */
  function Endpoint(ip: nat, port: nat): string {
    Joined(':', Int2Quad(ip), NatToString(port))
  }

  /** `[s for s in seeds if s != own]`. */
  function WithoutSeed(seeds: seq<string>, own: string): (r: seq<string>)
    ensures |r| <= |seeds|
    ensures forall x :: x in r <==> x in seeds && x != own
    decreases |seeds|
  {
    if seeds == [] then []
    else if seeds[0] == own then WithoutSeed(seeds[1..], own)
    else [seeds[0]] + WithoutSeed(seeds[1..], own)
  }

  /** The filter keeps order: filtering a concatenation filters each part. */
  lemma {:induction false} WithoutSeedAppend(a: seq<string>, b: seq<string>, own: string)
    ensures WithoutSeed(a + b, own) == WithoutSeed(a, own) + WithoutSeed(b, own)
    decreases |a|
  {
    if a == [] {
      assert a + b == b;
    } else {
      assert (a + b)[0] == a[0] && (a + b)[1..] == a[1..] + b;
      WithoutSeedAppend(a[1..], b, own);
      if a[0] != own {
        assert [a[0]] + (WithoutSeed(a[1..], own) + WithoutSeed(b, own))
            == [a[0]] + WithoutSeed(a[1..], own) + WithoutSeed(b, own);
      }
    }
  }

  /** The filter drops every seed whose string is the node's own and keeps
      every other one as often as it occurs. */
  lemma {:induction false} WithoutSeedCounts(seeds: seq<string>, own: string)
    ensures multiset(WithoutSeed(seeds, own)) == multiset(seeds)[own := 0]
    decreases |seeds|
  {
    if seeds != [] {
      WithoutSeedCounts(seeds[1..], own);
      assert seeds == [seeds[0]] + seeds[1..];
    }
  }

  /** The filter leaves a seed list alone exactly when no entry has the own string. */
  lemma {:induction false} WithoutSeedUnchanged(seeds: seq<string>, own: string)
    ensures WithoutSeed(seeds, own) == seeds <==> own !in seeds
    decreases |seeds|
  {
    if seeds != [] {
      WithoutSeedUnchanged(seeds[1..], own);
      if seeds[0] == own {
        assert |WithoutSeed(seeds, own)| <= |seeds[1..]| < |seeds|;
      } else {
        assert seeds == [seeds[0]] + seeds[1..];
      }
    }
  }

  /** `_generate_config(seeds_list)`: the defaults, the node's own names,
      listen addresses, token and peer counts, its redis server, and the
      seed list without the node's own seed. */
  function GenerateConfig(spec: DynoSpec, seeds: seq<string>): (c: Conf)
    ensures multiset(c.dynOMite.dynSeeds) == multiset(seeds)[SeedText(spec.seedString) := 0]
  {
    WithoutSeedCounts(seeds, SeedText(spec.seedString));
    Conf(DynomiteConf(
      SECURE_SERVER_OPTION, PEM_KEY_FILE, DATA_STORE, DATASTORE_CONNECTIONS,
      spec.dc,
      spec.rack,
      Endpoint(spec.ip, spec.port),
      Endpoint(spec.ip, CLIENT_LISTEN),
      WithoutSeed(seeds, SeedText(spec.seedString)),
      [Joined(':', Endpoint(spec.ip, REDIS_PORT), "0")],
      Endpoint(spec.ip, STATS_PORT),
      spec.token,
      spec.localConnections,
      spec.remoteConnections))
  }

  /** The seed list decides only `dyn_seeds`: two renderings of the same
      spec agree on every other key. */
  lemma OnlySeedsVary(spec: DynoSpec, seeds: seq<string>, seeds': seq<string>)
    ensures GenerateConfig(spec, seeds).dynOMite.(dynSeeds := [])
         == GenerateConfig(spec, seeds').dynOMite.(dynSeeds := [])
  {
  }

  /** `[n.seed_string for n in nodes]`. */
  function SeedsList(specs: seq<DynoSpec>): (r: seq<string>)
    ensures |r| == |specs|
    ensures forall k :: 0 <= k < |specs| ==> r[k] == SeedText(specs[k].seedString)
    decreases |specs|
  {
    if specs == [] then [] else [SeedText(specs[0].seedString)] + SeedsList(specs[1..])
  }

  /** The seed list of a concatenation is the concatenation of the seed lists. */
  lemma {:induction false} SeedsListAppend(a: seq<DynoSpec>, b: seq<DynoSpec>)
    ensures SeedsList(a + b) == SeedsList(a) + SeedsList(b)
    decreases |a|
  {
    if a == [] {
      assert a + b == b;
    } else {
      assert (a + b)[0] == a[0] && (a + b)[1..] == a[1..] + b;
      SeedsListAppend(a[1..], b);
      assert [SeedText(a[0].seedString)] + (SeedsList(a[1..]) + SeedsList(b))
          == [SeedText(a[0].seedString)] + SeedsList(a[1..]) + SeedsList(b);
    }
  }

  /** Specs whose seed strings are formatted from their own fields and
      which sit at pairwise distinct addresses, as `generate_nodes` makes them. */
  predicate Addressed(specs: seq<DynoSpec>) {
    && (forall k :: 0 <= k < |specs| ==> SeedConsistent(specs[k]))
    && (forall k, k' :: 0 <= k < k' < |specs| ==> specs[k].ip != specs[k'].ip)
  }

  /** Node seed strings differ pairwise when the nodes sit at distinct addresses. */
  lemma SeedsDistinct(specs: seq<DynoSpec>, p: nat, q: nat)
    requires Addressed(specs) && p < |specs| && q < |specs| && p != q
    ensures SeedsList(specs)[p] != SeedsList(specs)[q]
  {
    var s, o := specs[p].seedString, specs[q].seedString;
    SeedFieldsDistinct(s.ip, s.port, s.first, s.second, s.token, o.ip, o.port, o.first, o.second, o.token);
  }

  /** Filtering a list with the own seed in the middle, and nowhere else,
      leaves the parts around it. */
  lemma WithoutSeedAround(a: seq<string>, own: string, b: seq<string>)
    requires own !in a && own !in b
    ensures WithoutSeed(a + [own] + b, own) == a + b
  {
    WithoutSeedAppend(a + [own], b, own);
    WithoutSeedAppend(a, [own], own);
    assert WithoutSeed([own], own) == WithoutSeed([], own) == [];
    WithoutSeedUnchanged(a, own);
    WithoutSeedUnchanged(b, own);
    assert WithoutSeed(a + [own], own) == a + [];
    assert a + [] == a;
  }

  /** A list is its part before `k`, entry `k` and its part after `k`. */
  lemma Recompose<T>(xs: seq<T>, k: nat)
    requires k < |xs|
    ensures xs[..k] + [xs[k]] + xs[k + 1..] == xs
  {
    assert xs[k..] == [xs[k]] + xs[k + 1..];
    assert xs == xs[..k] + xs[k..];
  }

  /** Filtering out an entry that occurs only once removes just that entry. */
  lemma WithoutUnique(seeds: seq<string>, k: nat)
    requires k < |seeds|
    requires forall p :: 0 <= p < |seeds| && p != k ==> seeds[p] != seeds[k]
    ensures WithoutSeed(seeds, seeds[k]) == seeds[..k] + seeds[k + 1..]
  {
    var front, back := seeds[..k], seeds[k + 1..];
    assert forall p :: 0 <= p < |front| ==> front[p] == seeds[p];
    assert forall p :: 0 <= p < |back| ==> back[p] == seeds[k + 1 + p];
    Recompose(seeds, k);
    WithoutSeedAround(front, seeds[k], back);
  }

  /** With every node at its own address, node `k`'s `dyn_seeds` are the
      seed strings of all the other nodes, once each and in list order. */
  lemma OtherSeeds(specs: seq<DynoSpec>, k: nat)
    requires Addressed(specs) && k < |specs|
    ensures GenerateConfig(specs[k], SeedsList(specs)).dynOMite.dynSeeds
         == SeedsList(specs)[..k] + SeedsList(specs)[k + 1..]
  {
    var seeds := SeedsList(specs);
    forall p | 0 <= p < |seeds| && p != k
      ensures seeds[p] != seeds[k]
    {
      SeedsDistinct(specs, p, k);
    }
    WithoutUnique(seeds, k);
  }
}
