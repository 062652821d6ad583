/** What `generate_nodes` (test/cluster_generator.py:173-187) is meant to
    yield, written directly over the token plan: no dicts, no address
    generator, no error paths. A rack of `n` tokens has `n - 1` local peers;
    a datacenter has as remote peers every node of the cluster outside it;
    node `t` of rack `j` sits after all tokens of the earlier racks and
    datacenters and gets the address of its position. */
module Reference {
  import opened Wrappers
  import opened PyDict
  import opened Ring
  import opened Topology
  import opened Specs

  /** The spec a node of datacenter `dc` and rack `rack` at address `ip`
      holding `token` should get: it listens on the inter-node port, keeps
      the given peer counts, and its seed string is formatted from its own
      fields in the order ip, port, dc, rack, token. */
  function NodeSpec(ip: nat, dc: string, rack: string, token: nat, local: int, remote: int): (s: DynoSpec)
  {
    DynoSpec(ip, INTERNODE_LISTEN, dc, rack, token, local, remote,
             SeedString(ip, INTERNODE_LISTEN, dc, rack, token))
  }

  /** The specs of the first `t` tokens of one rack, at consecutive
      addresses from `base`. */
  function TokenNodes(dc: string, rack: string, tokens: seq<nat>, local: int, remote: int, base: nat, t: nat)
    : (r: seq<DynoSpec>)
    requires t <= |tokens|
    ensures |r| == t
  {
    if t == 0 then []
    else TokenNodes(dc, rack, tokens, local, remote, base, t - 1) + [NodeSpec(base + t - 1, dc, rack, tokens[t - 1], local, remote)]
  }

  /** Token `t` of the rack gets the `t`-th address from `base`. */
  lemma {:induction false} TokenNodesAt(dc: string, rack: string, tokens: seq<nat>, local: int, remote: int,
                                        base: nat, n: nat, t: nat)
    requires t < n <= |tokens|
    ensures TokenNodes(dc, rack, tokens, local, remote, base, n)[t] == NodeSpec(base + t, dc, rack, tokens[t], local, remote)
    decreases n
  {
    if t < n - 1 {
      TokenNodesAt(dc, rack, tokens, local, remote, base, n - 1, t);
    }
  }

  /** The nodes of the first `m` racks of datacenter `dc`, rack after rack,
      the first one at address `base`. */
  function RackNodesOf(dc: string, racks: seq<RackTokens>, remote: int, base: nat, m: nat): (r: seq<DynoSpec>)
    requires m <= |racks|
    ensures |r| == TokensBefore(racks, m)
  {
    if m == 0 then []
    else
      RackNodesOf(dc, racks, remote, base, m - 1)
        + TokenNodes(dc, racks[m - 1].name, racks[m - 1].tokens, |racks[m - 1].tokens| - 1, remote,
                     base + TokensBefore(racks, m - 1), |racks[m - 1].tokens|)
  }

  /** One more rack: the nodes of the first `m - 1` racks followed by the
      last rack's token nodes from address `mid` are the nodes of the first
      `m` racks, when `mid` is where the last rack starts. */
  lemma RackNodesOfStep(dc: string, racks: seq<RackTokens>, remote: int, base: nat, m: nat,
                        prefix: seq<DynoSpec>, last: seq<DynoSpec>, mid: nat)
    requires 0 < m <= |racks| && mid == base + TokensBefore(racks, m - 1)
    ensures prefix == RackNodesOf(dc, racks, remote, base, m - 1)
         && last == TokenNodes(dc, racks[m - 1].name, racks[m - 1].tokens, |racks[m - 1].tokens| - 1, remote, mid, |racks[m - 1].tokens|)
        ==> prefix + last == RackNodesOf(dc, racks, remote, base, m)
  {
  }

  /** The nodes of the first `n` datacenters of a cluster of `total` nodes,
      the first one at address `base`. */
  function DcNodesOf(plan: seq<DcTokens>, total: int, base: nat, n: nat): (r: seq<DynoSpec>)
    requires n <= |plan|
    ensures |r| == PlanBefore(plan, n)
  {
    if n == 0 then []
    else
      DcNodesOf(plan, total, base, n - 1)
        + RackNodesOf(plan[n - 1].name, plan[n - 1].racks, total - TokenTotal(plan[n - 1].racks),
                      base + PlanBefore(plan, n - 1), |plan[n - 1].racks|)
  }

  /** One more datacenter, likewise. */
  lemma DcNodesOfStep(plan: seq<DcTokens>, total: int, base: nat, n: nat,
                      prefix: seq<DynoSpec>, last: seq<DynoSpec>, mid: nat)
    requires 0 < n <= |plan| && mid == base + PlanBefore(plan, n - 1)
    ensures prefix == DcNodesOf(plan, total, base, n - 1)
         && last == RackNodesOf(plan[n - 1].name, plan[n - 1].racks, total - TokenTotal(plan[n - 1].racks), mid, |plan[n - 1].racks|)
        ==> prefix + last == DcNodesOf(plan, total, base, n)
  {
  }

  /** The nodes a token plan should become, from address `base`. */
  function NodesOf(plan: seq<DcTokens>, base: nat): (r: seq<DynoSpec>)
    ensures |r| == PlanTotal(plan)
  {
    DcNodesOf(plan, PlanTotal(plan), base, |plan|)
  }

  /** The rack dict maps each rack of the plan to its number of tokens. */
  predicate RackDictDescribes(racks: seq<RackTokens>, rackCount: Dict<int>) {
    forall j :: 0 <= j < |racks| ==> Get(rackCount, racks[j].name) == Some(|racks[j].tokens|)
  }

  /** The dicts `dict_request` and `sum_racks` describe datacenter `dc` of
      the plan: it maps to its token total and each of its racks to its
      number of tokens. */
  predicate DcDescribed(dc: DcTokens, byRack: Dict<Dict<int>>, byDc: Dict<int>) {
    && Get(byDc, dc.name) == Some(TokenTotal(dc.racks))
    && Get(byRack, dc.name).Some?
    && RackDictDescribes(dc.racks, Get(byRack, dc.name).value)
  }

  /** The dicts describe every datacenter of the plan. */
  predicate DictsDescribe(plan: seq<DcTokens>, byRack: Dict<Dict<int>>, byDc: Dict<int>) {
    forall i :: 0 <= i < |plan| ==> DcDescribed(plan[i], byRack, byDc)
  }

  lemma RackDictDescribesAt(racks: seq<RackTokens>, rackCount: Dict<int>, j: nat)
    requires j < |racks|
    ensures RackDictDescribes(racks, rackCount) ==> Get(rackCount, racks[j].name) == Some(|racks[j].tokens|)
  {
  }

  lemma DictsDescribeAt(plan: seq<DcTokens>, byRack: Dict<Dict<int>>, byDc: Dict<int>, i: nat)
    requires i < |plan|
    ensures DictsDescribe(plan, byRack, byDc) ==> DcDescribed(plan[i], byRack, byDc)
  {
  }

  // ---------------------------------------------------------------------
  // The token plan of a request has the request's counts

  /** When every rack asks for at least one node, the first `m` token lists
      of a datacenter hold as many tokens as those racks request nodes. */
  lemma {:induction false} RackTokensBefore(racks: seq<Rack>, draws: seq<int>, from: nat, m: nat)
    requires from + |racks| <= |draws| && m <= |racks|
    requires forall j :: 0 <= j < |racks| ==> racks[j].count >= 1
    ensures TokensForDc(racks, draws, from, |racks|).Success?
    ensures TokensBefore(TokensForDc(racks, draws, from, |racks|).value, m) == CountBefore(racks, m)
    decreases m
  {
    if m > 0 {
      RackTokensBefore(racks, draws, from, m - 1);
      TokensForDcAt(racks, draws, from, |racks|, m - 1);
    }
  }

  /** Datacenter `i` of the plan holds as many tokens as it requests nodes,
      and has one token list per requested rack. */
  lemma {:induction false} DcTokensCount(dcs: Request, draws: seq<int>, i: nat)
    requires RackCount(dcs) <= |draws| && i < |dcs|
    requires PositiveCounts(dcs)
    ensures TokensForCluster(dcs, draws, |dcs|).Success?
    ensures |TokensForCluster(dcs, draws, |dcs|).value[i].racks| == |dcs[i].racks|
    ensures TokenTotal(TokensForCluster(dcs, draws, |dcs|).value[i].racks) == RackNodes(dcs[i].racks)
  {
    TokensForClusterAt(dcs, draws, |dcs|, i);
    RackTokensBefore(dcs[i].racks, draws, RacksBefore(dcs, i), |dcs[i].racks|);
  }

  /** Token plans whose datacenters each hold as many tokens as the
      matching datacenter of the request asks for nodes hold, over their
      first `n` datacenters, as many tokens as those request nodes. */
  lemma {:induction false} PlanBeforeOfCounts(dcs: Request, plan: seq<DcTokens>, n: nat)
    requires n <= |dcs| && n <= |plan|
    requires forall i :: 0 <= i < n ==> TokenTotal(plan[i].racks) == RackNodes(dcs[i].racks)
    ensures PlanBefore(plan, n) == NodesBefore(dcs, n)
    decreases n
  {
    if n > 0 {
      PlanBeforeOfCounts(dcs, plan, n - 1);
    }
  }

  /** The same, datacenter by datacenter: the first `n` datacenters of the
      plan hold as many tokens as they request nodes. */
  lemma PlanTokensBefore(dcs: Request, draws: seq<int>, n: nat)
    requires RackCount(dcs) <= |draws| && n <= |dcs|
    requires PositiveCounts(dcs)
    ensures TokensForCluster(dcs, draws, |dcs|).Success?
    ensures PlanBefore(TokensForCluster(dcs, draws, |dcs|).value, n) == NodesBefore(dcs, n)
  {
    forall i | 0 <= i < n
      ensures TokenTotal(TokensForCluster(dcs, draws, |dcs|).value[i].racks) == RackNodes(dcs[i].racks)
    {
      DcTokensCount(dcs, draws, i);
    }
    PlanBeforeOfCounts(dcs, TokensForCluster(dcs, draws, |dcs|).value, n);
  }

  // ---------------------------------------------------------------------
  // A well-formed request is described by its own dicts

  /** The token lists of a datacenter whose rack dict holds every rack's
      count: the dict describes them. */
  lemma RackDictOfRequest(racks: seq<Rack>, draws: seq<int>, from: nat, rackCount: Dict<int>)
    requires from + |racks| <= |draws|
    requires forall j :: 0 <= j < |racks| ==>
      racks[j].count >= 1 && Get(rackCount, racks[j].name) == Some(racks[j].count)
    ensures TokensForDc(racks, draws, from, |racks|).Success?
    ensures RackDictDescribes(TokensForDc(racks, draws, from, |racks|).value, rackCount)
  {
    forall j | 0 <= j < |racks| {
      TokensForDcAt(racks, draws, from, |racks|, j);
    }
  }

  /** The dicts hold every datacenter's node count and every rack's count. */
  predicate DictsHoldCounts(dcs: Request, byRack: Dict<Dict<int>>, byDc: Dict<int>) {
    && (forall i :: 0 <= i < |dcs| ==>
          Get(byDc, dcs[i].name) == Some(RackNodes(dcs[i].racks)) && Get(byRack, dcs[i].name).Some?)
    && (forall i, j :: 0 <= i < |dcs| && 0 <= j < |dcs[i].racks| ==>
          Get(Get(byRack, dcs[i].name).value, dcs[i].racks[j].name) == Some(dcs[i].racks[j].count))
  }

  /** Dicts that hold the request's counts describe datacenter `i` of its
      token plan. */
  lemma {:induction false} DcDictOfRequest(dcs: Request, draws: seq<int>, byRack: Dict<Dict<int>>, byDc: Dict<int>, i: nat)
    requires RackCount(dcs) <= |draws| && i < |dcs|
    requires PositiveCounts(dcs)
    requires DictsHoldCounts(dcs, byRack, byDc)
    ensures TokensForCluster(dcs, draws, |dcs|).Success?
    ensures DcDescribed(TokensForCluster(dcs, draws, |dcs|).value[i], byRack, byDc)
  {
    var racks := dcs[i].racks;
    var from := RacksBefore(dcs, i);
    TokensForClusterAt(dcs, draws, |dcs|, i);
    RackTokensBefore(racks, draws, from, |racks|);
    RackDictOfRequest(racks, draws, from, Get(byRack, dcs[i].name).value);
  }

  /** The same for the whole request: dicts that hold the request's counts
      describe its token plan. */
  lemma DictsOfRequest(dcs: Request, draws: seq<int>, byRack: Dict<Dict<int>>, byDc: Dict<int>)
    requires RackCount(dcs) <= |draws|
    requires PositiveCounts(dcs)
    requires DictsHoldCounts(dcs, byRack, byDc)
    ensures TokensForCluster(dcs, draws, |dcs|).Success?
    ensures DictsDescribe(TokensForCluster(dcs, draws, |dcs|).value, byRack, byDc)
  {
    forall i | 0 <= i < |dcs| {
      DcDictOfRequest(dcs, draws, byRack, byDc, i);
    }
  }

  /** `generate_nodes` builds its dicts from the request itself; for a
      well-formed request they describe the token plan, and the node total
      `sum(counts_by_dc.values())` is the plan's size. */
  lemma {:induction false} RequestDescribesPlan(request: Request, draws: seq<int>)
    requires RackCount(request) <= |draws|
    ensures WellFormed(request) ==> TokensForCluster(request, draws, |request|).Success?
    ensures WellFormed(request) ==>
      var plan := TokensForCluster(request, draws, |request|).value;
      var byRack := DictRequest(request);
      var byDc := SumRacks(byRack);
      && DictsDescribe(plan, byRack, byDc)
      && SumValues(byDc) == PlanTotal(plan) == TotalNodes(request)
  {
    if WellFormed(request) {
      var byRack := DictRequest(request);
      SumRacksOfRequest(request);
      forall i | 0 <= i < |request|
        ensures Get(byRack, request[i].name) == Some(RackPairs(request[i].racks, |request[i].racks|))
        ensures forall j :: 0 <= j < |request[i].racks| ==>
          Get(RackPairs(request[i].racks, |request[i].racks|), request[i].racks[j].name) == Some(request[i].racks[j].count)
      {
        DictRequestLookup(request, i);
      }
      DictsOfRequest(request, draws, byRack, SumRacks(byRack));
      PlanTokensBefore(request, draws, |request|);
    }
  }
}
