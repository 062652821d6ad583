/** Node planning: `generate_nodes` (test/cluster_generator.py:173-187) and
    the address draws of `main` (test/cluster_generator.py:212-214). */
module Planner {
  import opened Wrappers
  import opened PyDict
  import opened Addresses
  import opened Topology
  import opened Specs
  import opened Reference

  /** `d[key]`, raising `KeyError` when the key is missing: the value
      `d.get(key)` finds, if it finds one. */
  function Lookup<V>(d: Dict<V>, key: string): (r: Result<V, PlanError>)
    ensures r.Success? <==> HasKey(d, key)
    ensures r.Success? ==> Get(d, key) == Some(r.value)
    ensures r.Failure? ==> r.error == KeyError(key)
  {
    GetSome(d, key);
    match Get(d, key)
    case Some(v) => Success(v)
    case None => Failure(KeyError(key))
  }

  /** A successful `d[key]` gives the value of an entry with the key; in a
      dict that entry is the only one. */
  lemma LookupFinds<V>(d: Dict<V>, key: string)
    ensures Lookup(d, key).Success? ==> exists i :: 0 <= i < |d| && d[i] == (key, Lookup(d, key).value)
    ensures UniqueKeys(d) ==> forall i :: 0 <= i < |d| && d[i].0 == key ==> Lookup(d, key) == Success(d[i].1)
  {
  }

  /** Specs at consecutive addresses from `base`. */
  predicate Consecutive(nodes: seq<DynoSpec>, base: nat) {
    forall k :: 0 <= k < |nodes| ==> nodes[k].ip == base + k
  }

  /** Two runs of consecutive addresses, the second starting where the first
      ends, make one run. */
  lemma ConsecutiveAppend(a: seq<DynoSpec>, b: seq<DynoSpec>, base: nat, mid: nat)
    requires Consecutive(a, base) && Consecutive(b, mid) && mid == base + |a|
    ensures Consecutive(a + b, base)
  {
    forall k | 0 <= k < |a + b|
      ensures (a + b)[k].ip == base + k
    {
      if k >= |a| {
        assert (a + b)[k] == b[k - |a|];
      }
    }
  }

  /** The first `t` iterations of the innermost loop of `generate_nodes`:
      one spec per token of a rack, each drawing the next address. The call
      passes `dc, rack` into the `rack, dc` parameters of `DynoSpec.__new__`. */
  function PlanTokens(dc: string, rack: string, tokens: seq<nat>, local: int, remote: int,
                      ips: IpStream, t: nat): (r: (seq<DynoSpec>, IpStream))
    requires t <= |tokens|
    ensures r.0 == TokenNodes(dc, rack, tokens, local, remote, ips.state, t)
    ensures r.1 == IpStream(ips.state + t) == Draws(ips, t).1
    ensures forall k :: 0 <= k < t ==> r.0[k].ip == Draws(ips, t).0[k]
    ensures Consecutive(r.0, ips.state)
  {
    if t == 0 then ([], ips)
    else
      var before := PlanTokens(dc, rack, tokens, local, remote, ips, t - 1);
      var drawn := Next(before.1);
      var spec := NewDynoSpec(drawn.0, INTERNODE_LISTEN, dc, rack, tokens[t - 1], local, remote);
      ConsecutiveAppend(before.0, [spec], ips.state, before.1.state);
      (before.0 + [spec], drawn.1)
  }

  /** One iteration of the rack loop of `generate_nodes`: look up the
      rack's count (`local_count = rack_count[rack] - 1`), then plan its tokens. */
  function PlanRack(dc: string, rack: RackTokens, rackCount: Dict<int>, remote: int, ips: IpStream)
    : (r: Result<(seq<DynoSpec>, IpStream), PlanError>)
    ensures r.Success? <==> HasKey(rackCount, rack.name)
    ensures r.Failure? ==> r.error == KeyError(rack.name)
    ensures r.Success? ==> && |r.value.0| == |rack.tokens|
                           && r.value.1.state == ips.state + |rack.tokens|
                           && Consecutive(r.value.0, ips.state)
    ensures Get(rackCount, rack.name) == Some(|rack.tokens|)
        ==> r.Success? && r.value.0 == TokenNodes(dc, rack.name, rack.tokens, |rack.tokens| - 1, remote, ips.state, |rack.tokens|)
  {
    LookupFinds(rackCount, rack.name);
    var count :- Lookup(rackCount, rack.name);
    Success(PlanTokens(dc, rack.name, rack.tokens, count - 1, remote, ips, |rack.tokens|))
  }

  /** The first `m` iterations of the rack loop for one datacenter. */
  function PlanRacks(dc: string, racks: seq<RackTokens>, rackCount: Dict<int>, remote: int,
                     ips: IpStream, m: nat): (r: Result<(seq<DynoSpec>, IpStream), PlanError>)
    requires m <= |racks|
    ensures r.Failure? ==> r.error.KeyError?
    ensures r.Success? ==> && |r.value.0| == TokensBefore(racks, m)
                           && r.value.1.state == ips.state + TokensBefore(racks, m)
                           && Consecutive(r.value.0, ips.state)
    ensures RackDictDescribes(racks, rackCount)
        ==> r.Success? && r.value.0 == RackNodesOf(dc, racks, remote, ips.state, m)
  {
    if m == 0 then Success(([], ips))
    else
      RackDictDescribesAt(racks, rackCount, m - 1);
      match PlanRacks(dc, racks, rackCount, remote, ips, m - 1)
      case Failure(e) => Failure(e)
      case Success(before) =>
        match PlanRack(dc, racks[m - 1], rackCount, remote, before.1)
        case Failure(e) => Failure(e)
        case Success(rack) =>
          ConsecutiveAppend(before.0, rack.0, ips.state, before.1.state);
          RackNodesOfStep(dc, racks, remote, ips.state, m, before.0, rack.0, before.1.state);
          Success((before.0 + rack.0, rack.1))
  }

  /** The two lookups that open one iteration of the datacenter loop of
      `generate_nodes`: the datacenter's node count, then its rack dict. */
  function DcLookups(name: string, byRack: Dict<Dict<int>>, byDc: Dict<int>)
    : (r: Result<(int, Dict<int>), PlanError>)
    ensures r.Success? <==> HasKey(byDc, name) && HasKey(byRack, name)
    ensures r.Failure? ==> r.error == KeyError(name)
    ensures r.Success? ==> Get(byDc, name) == Some(r.value.0) && Get(byRack, name) == Some(r.value.1)
    ensures Get(byDc, name).Some? && Get(byRack, name).Some?
        ==> r == Success((Get(byDc, name).value, Get(byRack, name).value))
  {
    GetSome(byDc, name);
    GetSome(byRack, name);
    var dcCount :- Lookup(byDc, name);
    var rackCount :- Lookup(byRack, name);
    Success((dcCount, rackCount))
  }

  /** One iteration of the datacenter loop of `generate_nodes`: look up the
      datacenter's node count and rack dict, fix `remote_count =
      total_nodes - dc_count`, then run the rack loop. */
  function PlanDc(dc: DcTokens, byRack: Dict<Dict<int>>, byDc: Dict<int>, total: int, ips: IpStream)
    : (r: Result<(seq<DynoSpec>, IpStream), PlanError>)
    ensures r.Failure? ==> r.error.KeyError?
    ensures r.Success? ==> && |r.value.0| == TokenTotal(dc.racks)
                           && r.value.1.state == ips.state + TokenTotal(dc.racks)
                           && Consecutive(r.value.0, ips.state)
    ensures DcDescribed(dc, byRack, byDc)
        ==> r.Success? && r.value.0 == RackNodesOf(dc.name, dc.racks, total - TokenTotal(dc.racks), ips.state, |dc.racks|)
  {
    var (dcCount, rackCount) :- DcLookups(dc.name, byRack, byDc);
    PlanRacks(dc.name, dc.racks, rackCount, total - dcCount, ips, |dc.racks|)
  }

  /** The first `n` iterations of the datacenter loop. */
  function PlanDcs(plan: seq<DcTokens>, byRack: Dict<Dict<int>>, byDc: Dict<int>, total: int,
                   ips: IpStream, n: nat): (r: Result<(seq<DynoSpec>, IpStream), PlanError>)
    requires n <= |plan|
    ensures r.Failure? ==> r.error.KeyError?
    ensures r.Success? ==> && |r.value.0| == PlanBefore(plan, n)
                           && r.value.1.state == ips.state + PlanBefore(plan, n)
                           && Consecutive(r.value.0, ips.state)
    ensures DictsDescribe(plan, byRack, byDc)
        ==> r.Success? && r.value.0 == DcNodesOf(plan, total, ips.state, n)
  {
    if n == 0 then Success(([], ips))
    else
      DictsDescribeAt(plan, byRack, byDc, n - 1);
      match PlanDcs(plan, byRack, byDc, total, ips, n - 1)
      case Failure(e) => Failure(e)
      case Success(before) =>
        match PlanDc(plan[n - 1], byRack, byDc, total, before.1)
        case Failure(e) => Failure(e)
        case Success(dc) =>
          ConsecutiveAppend(before.0, dc.0, ips.state, before.1.state);
          DcNodesOfStep(plan, total, ips.state, n, before.0, dc.0, before.1.state);
          Success((before.0 + dc.0, dc.1))
  }

  /** `list(generate_nodes(request, ips))`, with the random offsets of the
      racks passed in as `draws` (one per rack, datacenter -> rack order).
      The token plan is computed before the first address is drawn, so a rack
      of zero nodes fails without touching the address generator; on success
      exactly one address is drawn per spec, consecutively. */
  function GenerateNodes(request: Request, draws: seq<int>, ips: IpStream)
    : (r: Result<(seq<DynoSpec>, IpStream), PlanError>)
    requires RackCount(request) <= |draws|
    ensures r.Success? ==> r.value.1.state == ips.state + |r.value.0|
    ensures r.Success? ==> Consecutive(r.value.0, ips.state)
  {
    var plan :- TokensForCluster(request, draws, |request|);
    var byRack := DictRequest(request);
    var byDc := SumRacks(byRack);
    PlanDcs(plan, byRack, byDc, SumValues(byDc), ips, |plan|)
  }

  /** The generator raises `ZeroDivisionError` exactly when some rack asks
      for zero nodes; the only other error it can raise is a `KeyError`. */
  lemma {:induction false} GenerateNodesZeroDivision(request: Request, draws: seq<int>, ips: IpStream)
    requires RackCount(request) <= |draws|
    ensures GenerateNodes(request, draws, ips) == Failure(ZeroDivision) <==> !NoZeroCounts(request)
    ensures GenerateNodes(request, draws, ips).Failure? && NoZeroCounts(request)
        ==> GenerateNodes(request, draws, ips).error.KeyError?
  {
  }

  /** On a well-formed request (unique names, no empty rack) the generator
      yields exactly the reference node list of the token plan: it never
      fails, and it draws one address per node. */
  lemma GenerateNodesAsExpected(request: Request, draws: seq<int>, ips: IpStream)
    requires RackCount(request) <= |draws|
    requires WellFormed(request)
    ensures TokensForCluster(request, draws, |request|).Success?
    ensures PlanTotal(TokensForCluster(request, draws, |request|).value) == TotalNodes(request)
    ensures GenerateNodes(request, draws, ips).Success?
    ensures GenerateNodes(request, draws, ips).value.0 == NodesOf(TokensForCluster(request, draws, |request|).value, ips.state)
    ensures GenerateNodes(request, draws, ips).value.1 == IpStream(ips.state + TotalNodes(request))
  {
    RequestDescribesPlan(request, draws);
  }

  /** The planning half of `main`: a fresh address generator, the standalone
      redis address drawn first, then the cluster's nodes. */
  function PlanRun(request: Request, draws: seq<int>): (r: Result<(nat, seq<DynoSpec>), PlanError>)
    requires RackCount(request) <= |draws|
    ensures r.Success? ==> r.value.0 == BASE_IPADDRESS
    ensures r.Success? ==> forall k :: 0 <= k < |r.value.1| ==> r.value.1[k].ip == BASE_IPADDRESS + 1 + k
    ensures r.Success? ==> forall k :: 0 <= k < |r.value.1| ==> r.value.1[k].ip != r.value.0
    ensures r.Success? ==> forall k, k' :: 0 <= k < k' < |r.value.1| ==> r.value.1[k].ip != r.value.1[k'].ip
  {
    var (standalone, ips) := Next(Fresh());
    var nodes :- GenerateNodes(request, draws, ips);
    Success((standalone, nodes.0))
  }
}
