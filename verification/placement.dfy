/** Where each requested node ends up in the list `generate_nodes`
    (test/cluster_generator.py:173-187) returns: node `t` of rack `j` of
    datacenter `i` comes after every node of the earlier datacenters and of
    the earlier racks of its own datacenter, and its spec carries that
    rack's `t`-th token, the address of its position and the peer counts of
    its rack and datacenter. */
module Placement {
  import opened Ring
  import opened Addresses
  import opened Topology
  import opened Specs
  import opened Reference
  import opened Planner
  import opened Config

  /** An index into the front part of a concatenation. */
  lemma AppendLeft<T>(a: seq<T>, b: seq<T>, k: nat)
    requires k < |a|
    ensures (a + b)[k] == a[k]
  {
  }

  /** An index into the back part of a concatenation. */
  lemma AppendRight<T>(a: seq<T>, b: seq<T>, k: nat, r: nat)
    requires k == |a| + r && r < |b|
    ensures (a + b)[k] == b[r]
  {
  }

  /** Rack `j`'s tokens all come before the tokens of rack `m`. */
  lemma {:induction false} TokensBeforeBelow(racks: seq<RackTokens>, j: nat, m: nat)
    requires j < m <= |racks|
    ensures TokensBefore(racks, j) + |racks[j].tokens| <= TokensBefore(racks, m)
    decreases m
  {
    if j < m - 1 {
      TokensBeforeBelow(racks, j, m - 1);
    }
  }

  /** Datacenter `i`'s tokens all come before the tokens of datacenter `n`. */
  lemma {:induction false} PlanBeforeBelow(plan: seq<DcTokens>, i: nat, n: nat)
    requires i < n <= |plan|
    ensures PlanBefore(plan, i) + TokenTotal(plan[i].racks) <= PlanBefore(plan, n)
    decreases n
  {
    if i < n - 1 {
      PlanBeforeBelow(plan, i, n - 1);
    }
  }

  /** Adding a rack keeps the nodes of the earlier racks where they were. */
  lemma RackNodesOfPrefix(dc: string, racks: seq<RackTokens>, remote: int, base: nat, m: nat, k: nat)
    requires 0 < m <= |racks| && k < TokensBefore(racks, m - 1)
    ensures RackNodesOf(dc, racks, remote, base, m)[k] == RackNodesOf(dc, racks, remote, base, m - 1)[k]
  {
    var last := TokenNodes(dc, racks[m - 1].name, racks[m - 1].tokens, |racks[m - 1].tokens| - 1, remote,
                           base + TokensBefore(racks, m - 1), |racks[m - 1].tokens|);
    AppendLeft(RackNodesOf(dc, racks, remote, base, m - 1), last, k);
  }

  /** The added rack's token `t` becomes node `k`, right after the earlier
      racks' nodes, at address `ip`. */
  lemma RackNodesOfLast(dc: string, racks: seq<RackTokens>, remote: int, base: nat, m: nat,
                        t: nat, k: nat, ip: nat)
    requires 0 < m <= |racks| && t < |racks[m - 1].tokens|
    requires k == TokensBefore(racks, m - 1) + t && ip == base + k
    ensures RackNodesOf(dc, racks, remote, base, m)[k]
         == NodeSpec(ip, dc, racks[m - 1].name, racks[m - 1].tokens[t], |racks[m - 1].tokens| - 1, remote)
  {
    var rack := racks[m - 1];
    var mid := base + TokensBefore(racks, m - 1);
    var last := TokenNodes(dc, rack.name, rack.tokens, |rack.tokens| - 1, remote, mid, |rack.tokens|);
    TokenNodesAt(dc, rack.name, rack.tokens, |rack.tokens| - 1, remote, mid, |rack.tokens|, t);
    AppendRight(RackNodesOf(dc, racks, remote, base, m - 1), last, k, t);
  }

  /** Within one datacenter, token `t` of rack `j` becomes node `k`, right
      after the tokens of the earlier racks, at address `ip`, with its
      rack's local peer count. */
  lemma {:induction false} RackNodesAt(dc: string, racks: seq<RackTokens>, remote: int, base: nat,
                                       m: nat, j: nat, t: nat, k: nat, ip: nat)
    requires j < m <= |racks| && t < |racks[j].tokens|
    requires k == TokensBefore(racks, j) + t && ip == base + k
    ensures k < TokensBefore(racks, m)
    ensures RackNodesOf(dc, racks, remote, base, m)[k]
         == NodeSpec(ip, dc, racks[j].name, racks[j].tokens[t], |racks[j].tokens| - 1, remote)
    decreases m
  {
    TokensBeforeBelow(racks, j, m);
    if j == m - 1 {
      RackNodesOfLast(dc, racks, remote, base, m, t, k, ip);
    } else {
      TokensBeforeBelow(racks, j, m - 1);
      RackNodesAt(dc, racks, remote, base, m - 1, j, t, k, ip);
      RackNodesOfPrefix(dc, racks, remote, base, m, k);
    }
  }

  /** Adding a datacenter keeps the nodes of the earlier ones where they were. */
  lemma DcNodesOfPrefix(plan: seq<DcTokens>, total: int, base: nat, n: nat, idx: nat)
    requires 0 < n <= |plan| && idx < PlanBefore(plan, n - 1)
    ensures DcNodesOf(plan, total, base, n)[idx] == DcNodesOf(plan, total, base, n - 1)[idx]
  {
    var last := RackNodesOf(plan[n - 1].name, plan[n - 1].racks, total - TokenTotal(plan[n - 1].racks),
                            base + PlanBefore(plan, n - 1), |plan[n - 1].racks|);
    AppendLeft(DcNodesOf(plan, total, base, n - 1), last, idx);
  }

  /** Node `k` of the added datacenter, whose first node has address
      `first`, becomes node `idx`, right after the earlier datacenters' nodes. */
  lemma DcNodesOfLast(plan: seq<DcTokens>, total: int, base: nat, n: nat, k: nat, idx: nat, first: nat)
    requires 0 < n <= |plan| && k < TokenTotal(plan[n - 1].racks)
    requires idx == PlanBefore(plan, n - 1) + k && first == base + PlanBefore(plan, n - 1)
    ensures DcNodesOf(plan, total, base, n)[idx]
         == RackNodesOf(plan[n - 1].name, plan[n - 1].racks, total - TokenTotal(plan[n - 1].racks),
                        first, |plan[n - 1].racks|)[k]
  {
    var last := RackNodesOf(plan[n - 1].name, plan[n - 1].racks, total - TokenTotal(plan[n - 1].racks),
                            first, |plan[n - 1].racks|);
    AppendRight(DcNodesOf(plan, total, base, n - 1), last, idx, k);
  }

  /** Node `k` of datacenter `i`, whose first node has address `first`, is
      node `idx` of the cluster, right after the nodes of the earlier
      datacenters. */
  lemma {:induction false} DcNodesAt(plan: seq<DcTokens>, total: int, base: nat, n: nat, i: nat,
                                     k: nat, idx: nat, first: nat)
    requires i < n <= |plan| && k < TokenTotal(plan[i].racks)
    requires idx == PlanBefore(plan, i) + k && first == base + PlanBefore(plan, i)
    ensures idx < PlanBefore(plan, n)
    ensures DcNodesOf(plan, total, base, n)[idx]
         == RackNodesOf(plan[i].name, plan[i].racks, total - TokenTotal(plan[i].racks), first, |plan[i].racks|)[k]
    decreases n
  {
    PlanBeforeBelow(plan, i, n);
    if i == n - 1 {
      DcNodesOfLast(plan, total, base, n, k, idx, first);
    } else {
      PlanBeforeBelow(plan, i, n - 1);
      DcNodesAt(plan, total, base, n - 1, i, k, idx, first);
      DcNodesOfPrefix(plan, total, base, n, idx);
    }
  }

  /** Token `t` of rack `j` of datacenter `i` of a token plan becomes node
      `idx`, the one after the tokens of the earlier datacenters and racks,
      at address `ip`, and its remote peers are all nodes outside
      datacenter `i`. */
  lemma PlanNodeAt(plan: seq<DcTokens>, base: nat, i: nat, j: nat, t: nat,
                    idx: nat, ip: nat, local: int, remote: int)
    requires i < |plan| && j < |plan[i].racks| && t < |plan[i].racks[j].tokens|
    requires idx == PlanBefore(plan, i) + TokensBefore(plan[i].racks, j) + t && ip == base + idx
    requires local == |plan[i].racks[j].tokens| - 1 && remote == PlanTotal(plan) - TokenTotal(plan[i].racks)
    ensures idx < PlanTotal(plan)
    ensures NodesOf(plan, base)[idx]
         == NodeSpec(ip, plan[i].name, plan[i].racks[j].name, plan[i].racks[j].tokens[t], local, remote)
  {
    var racks := plan[i].racks;
    var first := base + PlanBefore(plan, i);
    var k := TokensBefore(racks, j) + t;
    RackNodesAt(plan[i].name, racks, remote, first, |racks|, j, t, k, ip);
    DcNodesAt(plan, PlanTotal(plan), base, |plan|, i, k, idx, first);
    assert NodesOf(plan, base) == DcNodesOf(plan, PlanTotal(plan), base, |plan|);
  }

  /** One spec per requested node, in datacenter, rack, token order: node
      `t` of rack `j` of datacenter `i` is node `k`, after every node of
      the earlier datacenters and of the earlier racks of its own
      datacenter. It gets the address of that position, keeps its
      datacenter and rack, holds token `t` of its rack's evenly spaced
      tokens, and has the other nodes of its rack as local peers and the
      nodes of the other datacenters as remote peers. */
  lemma NodePlacement(request: Request, draws: seq<int>, ips: IpStream, i: nat, j: nat, t: nat, k: nat)
    requires RackCount(request) <= |draws|
    requires WellFormed(request)
    requires i < |request| && j < |request[i].racks| && t < request[i].racks[j].count
    requires k == NodesBefore(request, i) + CountBefore(request[i].racks, j) + t
    ensures RacksBefore(request, i) + j < |draws|
    ensures t < |PickTokens(request[i].racks[j].count, draws[RacksBefore(request, i) + j])|
    ensures GenerateNodes(request, draws, ips).Success?
    ensures k < |GenerateNodes(request, draws, ips).value.0|
    ensures GenerateNodes(request, draws, ips).value.0[k]
         == NodeSpec(ips.state + k, request[i].name, request[i].racks[j].name,
                     PickTokens(request[i].racks[j].count, draws[RacksBefore(request, i) + j])[t],
                     request[i].racks[j].count - 1,
                     TotalNodes(request) - RackNodes(request[i].racks))
  {
    GenerateNodesAsExpected(request, draws, ips);
    TokensForClusterShape(request, draws, i, j);
    PlanTokensBefore(request, draws, i);
    DcTokensCount(request, draws, i);
    var plan := TokensForCluster(request, draws, |request|).value;
    TokensForClusterAt(request, draws, |request|, i);
    RackTokensBefore(request[i].racks, draws, RacksBefore(request, i), j);
    var count := request[i].racks[j].count;
    assert count >= 1;
    assert plan[i].racks[j].tokens == PickTokens(count, draws[RacksBefore(request, i) + j]);
    PlanNodeAt(plan, ips.state, i, j, t, k, ips.state + k, count - 1, TotalNodes(request) - RackNodes(request[i].racks));
  }

  /** `generate_nodes` yields exactly as many specs as the racks ask for in total. */
  lemma NodeCount(request: Request, draws: seq<int>, ips: IpStream)
    requires RackCount(request) <= |draws|
    requires WellFormed(request)
    ensures GenerateNodes(request, draws, ips).Success?
    ensures |GenerateNodes(request, draws, ips).value.0| == TotalNodes(request)
  {
    GenerateNodesAsExpected(request, draws, ips);
  }

  /** Every spec's seed string is formatted from its own fields. */
  predicate AllSeedConsistent(specs: seq<DynoSpec>) {
    forall k :: 0 <= k < |specs| ==> SeedConsistent(specs[k])
  }

  lemma ConsistentAppend(a: seq<DynoSpec>, b: seq<DynoSpec>)
    requires AllSeedConsistent(a) && AllSeedConsistent(b)
    ensures AllSeedConsistent(a + b)
  {
    forall k | 0 <= k < |a + b|
      ensures SeedConsistent((a + b)[k])
    {
      if k < |a| {
        AppendLeft(a, b, k);
      } else {
        AppendRight(a, b, k, k - |a|);
      }
    }
  }

  lemma {:induction false} TokenNodesConsistent(dc: string, rack: string, tokens: seq<nat>, local: int, remote: int,
                                                base: nat, t: nat)
    requires t <= |tokens|
    ensures AllSeedConsistent(TokenNodes(dc, rack, tokens, local, remote, base, t))
    decreases t
  {
    if t > 0 {
      TokenNodesConsistent(dc, rack, tokens, local, remote, base, t - 1);
      ConsistentAppend(TokenNodes(dc, rack, tokens, local, remote, base, t - 1),
                       [NodeSpec(base + t - 1, dc, rack, tokens[t - 1], local, remote)]);
    }
  }

  lemma {:induction false} RackNodesConsistent(dc: string, racks: seq<RackTokens>, remote: int, base: nat, m: nat)
    requires m <= |racks|
    ensures AllSeedConsistent(RackNodesOf(dc, racks, remote, base, m))
    decreases m
  {
    if m > 0 {
      var rack := racks[m - 1];
      var mid := base + TokensBefore(racks, m - 1);
      RackNodesConsistent(dc, racks, remote, base, m - 1);
      TokenNodesConsistent(dc, rack.name, rack.tokens, |rack.tokens| - 1, remote, mid, |rack.tokens|);
      ConsistentAppend(RackNodesOf(dc, racks, remote, base, m - 1),
                       TokenNodes(dc, rack.name, rack.tokens, |rack.tokens| - 1, remote, mid, |rack.tokens|));
    }
  }

  lemma {:induction false} DcNodesConsistent(plan: seq<DcTokens>, total: int, base: nat, n: nat)
    requires n <= |plan|
    ensures AllSeedConsistent(DcNodesOf(plan, total, base, n))
    decreases n
  {
    if n > 0 {
      var dc := plan[n - 1];
      var mid := base + PlanBefore(plan, n - 1);
      DcNodesConsistent(plan, total, base, n - 1);
      RackNodesConsistent(dc.name, dc.racks, total - TokenTotal(dc.racks), mid, |dc.racks|);
      ConsistentAppend(DcNodesOf(plan, total, base, n - 1),
                       RackNodesOf(dc.name, dc.racks, total - TokenTotal(dc.racks), mid, |dc.racks|));
    }
  }

  /** The nodes `generate_nodes` plans for a well-formed request sit at
      distinct addresses and carry seed strings formatted from their own
      fields. */
  lemma GeneratedAddressed(request: Request, draws: seq<int>, ips: IpStream)
    requires RackCount(request) <= |draws|
    requires WellFormed(request)
    ensures GenerateNodes(request, draws, ips).Success?
    ensures Addressed(GenerateNodes(request, draws, ips).value.0)
  {
    GenerateNodesAsExpected(request, draws, ips);
    var plan := TokensForCluster(request, draws, |request|).value;
    DcNodesConsistent(plan, PlanTotal(plan), ips.state, |plan|);
    var nodes := GenerateNodes(request, draws, ips).value.0;
    assert Consecutive(nodes, ips.state);
    assert nodes == NodesOf(plan, ips.state);
  }

  /** Each planned node's configuration lists the seed strings of all the
      other nodes of the cluster, in cluster order, and not its own. */
  lemma ClusterSeeds(request: Request, draws: seq<int>, ips: IpStream, k: nat)
    requires RackCount(request) <= |draws|
    requires WellFormed(request)
    requires k < TotalNodes(request)
    ensures GenerateNodes(request, draws, ips).Success?
    ensures k < |GenerateNodes(request, draws, ips).value.0|
    ensures GenerateConfig(GenerateNodes(request, draws, ips).value.0[k],
                           SeedsList(GenerateNodes(request, draws, ips).value.0)).dynOMite.dynSeeds
         == SeedsList(GenerateNodes(request, draws, ips).value.0)[..k]
            + SeedsList(GenerateNodes(request, draws, ips).value.0)[k + 1..]
  {
    NodeCount(request, draws, ips);
    GeneratedAddressed(request, draws, ips);
    OtherSeeds(GenerateNodes(request, draws, ips).value.0, k);
  }
}
