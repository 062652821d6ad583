/** The cluster request and the per-rack token plan built from it
    (`tokens_for_rack`, `tokens_for_dc`, `tokens_for_cluster`, `dict_request`,
    `sum_racks`; test/cluster_generator.py:63-80 and 156-171).

    The list comprehensions are modelled front to back: a function with a
    count parameter `m` gives the list after the first `m` iterations, so
    entry `m - 1` is the last one appended, as in the running loop. */
module Topology {
  import opened Wrappers
  import opened Ring
  import opened PyDict

  /** One `[name, count]` entry of a datacenter's `racks` list. */
  datatype Rack = Rack(name: string, count: int)

  /** One `{name: ..., racks: [...]}` entry of the request. */
  datatype Datacenter = Datacenter(name: string, racks: seq<Rack>)

  type Request = seq<Datacenter>

  /** The exceptions planning can raise: a rack of zero nodes divides by zero
      in `pick_tokens`, and a lookup in the collapsed request dicts can miss. */
  datatype PlanError = ZeroDivision | KeyError(key: string)

  datatype RackTokens = RackTokens(name: string, tokens: seq<nat>)

  datatype DcTokens = DcTokens(name: string, racks: seq<RackTokens>)

  // ---------------------------------------------------------------------
  // Shape of a request

  predicate NoZeroCounts(dcs: Request) {
    forall i, j :: 0 <= i < |dcs| && 0 <= j < |dcs[i].racks| ==> dcs[i].racks[j].count != 0
  }

  /** Every rack asks for at least one node. */
  predicate PositiveCounts(dcs: Request) {
    forall i, j :: 0 <= i < |dcs| && 0 <= j < |dcs[i].racks| ==> dcs[i].racks[j].count >= 1
  }

  predicate UniqueRackNames(racks: seq<Rack>) {
    forall j, j' :: 0 <= j < j' < |racks| ==> racks[j].name != racks[j'].name
  }

  predicate UniqueDcNames(dcs: Request) {
    forall i, i' :: 0 <= i < i' < |dcs| ==> dcs[i].name != dcs[i'].name
  }

  /** A request the planner handles as intended: every rack asks for at least
      one node, datacenter names are distinct, and rack names are distinct
      within their datacenter (the dicts built from the request would
      otherwise collapse duplicates). */
  predicate WellFormed(dcs: Request) {
    && PositiveCounts(dcs)
    && UniqueDcNames(dcs)
    && (forall i :: 0 <= i < |dcs| ==> UniqueRackNames(dcs[i].racks))
  }

  // ---------------------------------------------------------------------
  // Running totals, summed front to back

  /** Racks listed by the first `i` datacenters; each draws one random offset. */
  function RacksBefore(dcs: Request, i: nat): nat
    requires i <= |dcs|
  {
    if i == 0 then 0 else RacksBefore(dcs, i - 1) + |dcs[i - 1].racks|
  }

  /** How many racks the request lists. */
  function RackCount(dcs: Request): nat {
    RacksBefore(dcs, |dcs|)
  }

  /** Nodes requested by the first `j` racks of a datacenter. */
  function CountBefore(racks: seq<Rack>, j: nat): int
    requires j <= |racks|
  {
    if j == 0 then 0 else CountBefore(racks, j - 1) + racks[j - 1].count
  }

  /** Nodes requested for one datacenter, counting every listed rack. */
  function RackNodes(racks: seq<Rack>): int {
    CountBefore(racks, |racks|)
  }

  /** Nodes requested by the first `i` datacenters. */
  function NodesBefore(dcs: Request, i: nat): int
    requires i <= |dcs|
  {
    if i == 0 then 0 else NodesBefore(dcs, i - 1) + RackNodes(dcs[i - 1].racks)
  }

  /** Nodes requested in all, counting every listed rack. */
  function TotalNodes(dcs: Request): int {
    NodesBefore(dcs, |dcs|)
  }

  /** Tokens in the first `j` racks' token lists. */
  function TokensBefore(racks: seq<RackTokens>, j: nat): nat
    requires j <= |racks|
  {
    if j == 0 then 0 else TokensBefore(racks, j - 1) + |racks[j - 1].tokens|
  }

  /** Number of tokens in a list of racks' token lists. */
  function TokenTotal(racks: seq<RackTokens>): nat {
    TokensBefore(racks, |racks|)
  }

  /** Tokens of the first `i` datacenters of a token plan. */
  function PlanBefore(plan: seq<DcTokens>, i: nat): nat
    requires i <= |plan|
  {
    if i == 0 then 0 else PlanBefore(plan, i - 1) + TokenTotal(plan[i - 1].racks)
  }

  /** Number of tokens in a whole token plan. */
  function PlanTotal(plan: seq<DcTokens>): nat {
    PlanBefore(plan, |plan|)
  }

  /** Datacenter `i`'s racks draw their offsets right after those of the
      earlier datacenters, within the draws of the first `n` datacenters. */
  lemma {:induction false} RacksBeforeBelow(dcs: Request, i: nat, n: nat)
    requires i < n <= |dcs|
    ensures RacksBefore(dcs, i) + |dcs[i].racks| <= RacksBefore(dcs, n)
    decreases n
  {
    if i < n - 1 {
      RacksBeforeBelow(dcs, i, n - 1);
    }
  }

  // ---------------------------------------------------------------------
  // Token plan

  /** `tokens_for_rack(count)` with the random offset it draws passed in. */
  function TokensForRack(count: int, offset: int): (r: Result<seq<nat>, PlanError>)
    ensures r.Failure? <==> count == 0
    ensures r.Failure? ==> r.error == ZeroDivision
    ensures r.Success? ==> |r.value| == if count < 0 then 0 else count
  {
    if count == 0 then Failure(ZeroDivision) else Success(PickTokens(count, offset))
  }

  /** The first `m` entries of `tokens_for_dc(racks)`: rack `j` uses the
      random offset `draws[from + j]`. */
  function TokensForDc(racks: seq<Rack>, draws: seq<int>, from: nat, m: nat)
    : (r: Result<seq<RackTokens>, PlanError>)
    requires m <= |racks| && from + |racks| <= |draws|
    ensures r.Success? <==> forall j :: 0 <= j < m ==> racks[j].count != 0
    ensures r.Failure? ==> r.error == ZeroDivision
    ensures r.Success? ==> |r.value| == m
  {
    if m == 0 then Success([])
    else
      var before :- TokensForDc(racks, draws, from, m - 1);
      var tokens :- TokensForRack(racks[m - 1].count, draws[from + m - 1]);
      Success(before + [RackTokens(racks[m - 1].name, tokens)])
  }

  /** Rack `j` gets the evenly spaced tokens of its own count from its own offset. */
  lemma {:induction false} TokensForDcAt(racks: seq<Rack>, draws: seq<int>, from: nat, m: nat, j: nat)
    requires m <= |racks| && from + |racks| <= |draws|
    requires TokensForDc(racks, draws, from, m).Success?
    requires j < m
    ensures racks[j].count != 0
    ensures TokensForDc(racks, draws, from, m).value[j]
         == RackTokens(racks[j].name, PickTokens(racks[j].count, draws[from + j]))
    decreases m
  {
    if j < m - 1 {
      TokensForDcAt(racks, draws, from, m - 1, j);
    }
  }

  /** The first `n` entries of `tokens_for_cluster(dcs, None)`: the offsets
      are drawn in datacenter -> rack order, one per rack, so datacenter `i`
      starts at `draws[RacksBefore(dcs, i)]`. */
  function TokensForCluster(dcs: Request, draws: seq<int>, n: nat): (r: Result<seq<DcTokens>, PlanError>)
    requires n <= |dcs| && RacksBefore(dcs, n) <= |draws|
    ensures r.Success? <==> forall i, j :: 0 <= i < n && 0 <= j < |dcs[i].racks| ==> dcs[i].racks[j].count != 0
    ensures r.Failure? ==> r.error == ZeroDivision
    ensures r.Success? ==> |r.value| == n
  {
    if n == 0 then Success([])
    else
      var before :- TokensForCluster(dcs, draws, n - 1);
      var racks :- TokensForDc(dcs[n - 1].racks, draws, RacksBefore(dcs, n - 1), |dcs[n - 1].racks|);
      Success(before + [DcTokens(dcs[n - 1].name, racks)])
  }

  /** Datacenter `i` of the plan keeps its name and gets the token lists of
      its racks, drawn from its own stretch of offsets. */
  lemma {:induction false} TokensForClusterAt(dcs: Request, draws: seq<int>, n: nat, i: nat)
    requires n <= |dcs| && RacksBefore(dcs, n) <= |draws|
    requires TokensForCluster(dcs, draws, n).Success?
    requires i < n
    ensures RacksBefore(dcs, i) + |dcs[i].racks| <= |draws|
    ensures TokensForDc(dcs[i].racks, draws, RacksBefore(dcs, i), |dcs[i].racks|).Success?
    ensures TokensForCluster(dcs, draws, n).value[i]
         == DcTokens(dcs[i].name, TokensForDc(dcs[i].racks, draws, RacksBefore(dcs, i), |dcs[i].racks|).value)
    decreases n
  {
    if i < n - 1 {
      TokensForClusterAt(dcs, draws, n - 1, i);
    }
  }

  /** The token plan keeps the request's datacenter and rack order and gives
      each rack the evenly spaced tokens of its own count and offset. */
  lemma {:induction false} TokensForClusterShape(dcs: Request, draws: seq<int>, i: nat, j: nat)
    requires RackCount(dcs) <= |draws|
    requires NoZeroCounts(dcs)
    requires i < |dcs| && j < |dcs[i].racks|
    ensures RacksBefore(dcs, i) + j < |draws|
    ensures TokensForCluster(dcs, draws, |dcs|).Success?
    ensures var plan := TokensForCluster(dcs, draws, |dcs|).value;
      && plan[i].name == dcs[i].name
      && |plan[i].racks| == |dcs[i].racks|
      && plan[i].racks[j] == RackTokens(dcs[i].racks[j].name,
           PickTokens(dcs[i].racks[j].count, draws[RacksBefore(dcs, i) + j]))
  {
    TokensForClusterAt(dcs, draws, |dcs|, i);
    TokensForDcAt(dcs[i].racks, draws, RacksBefore(dcs, i), |dcs[i].racks|, j);
  }

  // ---------------------------------------------------------------------
  // The request as dicts

  /** The first `m` of the `(rack, count)` pairs `dict(dc['racks'])` is built from. */
  function RackPairs(racks: seq<Rack>, m: nat): (ps: seq<(string, int)>)
    requires m <= |racks|
    ensures |ps| == m
  {
    if m == 0 then [] else RackPairs(racks, m - 1) + [(racks[m - 1].name, racks[m - 1].count)]
  }

  /** Pair `j` is rack `j`'s name and count. */
  lemma {:induction false} RackPairAt(racks: seq<Rack>, m: nat, j: nat)
    requires j < m <= |racks|
    ensures RackPairs(racks, m)[j] == (racks[j].name, racks[j].count)
    decreases m
  {
    if j < m - 1 {
      RackPairAt(racks, m - 1, j);
    }
  }

  /** The pairs of all racks, with distinct keys when the rack names are distinct. */
  lemma RackPairsAt(racks: seq<Rack>)
    ensures forall j :: 0 <= j < |racks| ==> RackPairs(racks, |racks|)[j] == (racks[j].name, racks[j].count)
    ensures UniqueRackNames(racks) ==> UniqueKeys(RackPairs(racks, |racks|))
  {
    forall j | 0 <= j < |racks| {
      RackPairAt(racks, |racks|, j);
    }
  }

  /** `dict(dc['racks'])`. */
  function RackDict(racks: seq<Rack>): Dict<int> {
    FromPairs(RackPairs(racks, |racks|))
  }

  /** The first `n` of the `(dc name, rack dict)` pairs `dict_request` is built from. */
  function DcPairs(dcs: Request, n: nat): (ps: seq<(string, Dict<int>)>)
    requires n <= |dcs|
    ensures |ps| == n
  {
    if n == 0 then [] else DcPairs(dcs, n - 1) + [(dcs[n - 1].name, RackDict(dcs[n - 1].racks))]
  }

  /** Pair `i` is datacenter `i`'s name and the dict of its racks. */
  lemma {:induction false} DcPairAt(dcs: Request, n: nat, i: nat)
    requires i < n <= |dcs|
    ensures DcPairs(dcs, n)[i] == (dcs[i].name, RackDict(dcs[i].racks))
    decreases n
  {
    if i < n - 1 {
      DcPairAt(dcs, n - 1, i);
    }
  }

  /** The pairs of all datacenters, with distinct keys when the names are distinct. */
  lemma DcPairsAt(dcs: Request)
    ensures forall i :: 0 <= i < |dcs| ==> DcPairs(dcs, |dcs|)[i] == (dcs[i].name, RackDict(dcs[i].racks))
    ensures UniqueDcNames(dcs) ==> UniqueKeys(DcPairs(dcs, |dcs|))
  {
    forall i | 0 <= i < |dcs| {
      DcPairAt(dcs, |dcs|, i);
    }
  }

  /** `dict_request(request)`: datacenter name -> (rack name -> count).
      With distinct datacenter names nothing collapses: entry `i` is
      datacenter `i` with the dict of its racks. */
  function DictRequest(dcs: Request): (r: Dict<Dict<int>>)
    ensures UniqueKeys(r)
    ensures UniqueDcNames(dcs) ==> |r| == |dcs| && forall i :: 0 <= i < |dcs| ==> r[i] == (dcs[i].name, RackDict(dcs[i].racks))
  {
    DcPairsAt(dcs);
    if UniqueDcNames(dcs) then
      FromPairsOfUniqueKeys(DcPairs(dcs, |dcs|));
      FromPairs(DcPairs(dcs, |dcs|))
    else
      FromPairs(DcPairs(dcs, |dcs|))
  }

  /** The first `n` entries of `sum_racks(d)`: each key with the sum of its values. */
  function RackSums(d: Dict<Dict<int>>, n: nat): (r: Dict<int>)
    requires n <= |d|
    ensures |r| == n
    ensures forall i :: 0 <= i < n ==> r[i] == (d[i].0, SumValues(d[i].1))
  {
    if n == 0 then [] else RackSums(d, n - 1) + [(d[n - 1].0, SumValues(d[n - 1].1))]
  }

  /** `sum_racks(dcs)`: datacenter name -> sum of its rack counts. The items
      of a dict have distinct keys, so rebuilding a dict from them keeps them
      all: entry `i` keeps the key of entry `i` and sums its values. */
  function SumRacks(d: Dict<Dict<int>>): (r: Dict<int>)
    ensures |r| == |d|
    ensures forall i :: 0 <= i < |d| ==> r[i] == (d[i].0, SumValues(d[i].1))
    ensures UniqueKeys(d) ==> UniqueKeys(r)
  {
    RackSums(d, |d|)
  }

  /** Summing the first `m` rack pairs gives the nodes requested by the first `m` racks. */
  lemma {:induction false} SumOfRackPairs(racks: seq<Rack>, m: nat)
    requires m <= |racks|
    ensures ValuesBefore(RackPairs(racks, |racks|), m) == CountBefore(racks, m)
    decreases m
  {
    if m > 0 {
      SumOfRackPairs(racks, m - 1);
      RackPairAt(racks, |racks|, m - 1);
    }
  }

  /** With distinct names, `dict_request` keeps every datacenter and rack:
      looking up a listed datacenter gives its whole rack list, and looking
      up one of its racks gives that rack's count. */
  lemma {:induction false} DictRequestLookup(dcs: Request, i: nat)
    requires UniqueDcNames(dcs)
    requires i < |dcs| && UniqueRackNames(dcs[i].racks)
    ensures Get(DictRequest(dcs), dcs[i].name) == Some(RackPairs(dcs[i].racks, |dcs[i].racks|))
    ensures forall j :: 0 <= j < |dcs[i].racks| ==>
      Get(RackPairs(dcs[i].racks, |dcs[i].racks|), dcs[i].racks[j].name) == Some(dcs[i].racks[j].count)
  {
    var racks := dcs[i].racks;
    var pairs := RackPairs(racks, |racks|);
    RackPairsAt(racks);
    FromPairsOfUniqueKeys(pairs);
    DcPairsAt(dcs);
    FromPairsOfUniqueKeys(DcPairs(dcs, |dcs|));
    GetAt(DcPairs(dcs, |dcs|), dcs[i].name, i);
    forall j | 0 <= j < |racks|
      ensures Get(pairs, racks[j].name) == Some(racks[j].count)
    {
      GetAt(pairs, racks[j].name, j);
    }
  }

  /** With distinct rack names, `sum_racks` maps datacenter `i` to the nodes
      it requests. */
  lemma {:induction false} DcSumAt(dcs: Request, i: nat)
    requires i < |dcs| && UniqueRackNames(dcs[i].racks)
    ensures SumRacks(DcPairs(dcs, |dcs|))[i] == (dcs[i].name, RackNodes(dcs[i].racks))
  {
    var pairs := RackPairs(dcs[i].racks, |dcs[i].racks|);
    DcPairAt(dcs, |dcs|, i);
    RackPairsAt(dcs[i].racks);
    FromPairsOfUniqueKeys(pairs);
    SumOfRackPairs(dcs[i].racks, |dcs[i].racks|);
  }

  /** The values of the first `n` entries of `sum_racks` add up to the nodes
      the first `n` datacenters request. */
  lemma {:induction false} SumOfDcPairs(dcs: Request, n: nat)
    requires forall i :: 0 <= i < |dcs| ==> UniqueRackNames(dcs[i].racks)
    requires n <= |dcs|
    ensures ValuesBefore(SumRacks(DcPairs(dcs, |dcs|)), n) == NodesBefore(dcs, n)
    decreases n
  {
    if n > 0 {
      SumOfDcPairs(dcs, n - 1);
      DcSumAt(dcs, n - 1);
    }
  }

  /** With distinct names, `sum_racks(dict_request(request))` maps each
      datacenter to the number of nodes it requests, and the values add up to
      the total number of requested nodes. */
  lemma {:induction false} SumRacksOfRequest(dcs: Request)
    requires WellFormed(dcs)
    ensures var byDc := SumRacks(DictRequest(dcs));
      && SumValues(byDc) == TotalNodes(dcs)
      && forall i :: 0 <= i < |dcs| ==> Get(byDc, dcs[i].name) == Some(RackNodes(dcs[i].racks))
  {
    DcPairsAt(dcs);
    FromPairsOfUniqueKeys(DcPairs(dcs, |dcs|));
    var byDc := SumRacks(DcPairs(dcs, |dcs|));
    SumOfDcPairs(dcs, |dcs|);
    forall i | 0 <= i < |dcs|
      ensures byDc[i] == (dcs[i].name, RackNodes(dcs[i].racks))
    {
      DcSumAt(dcs, i);
    }
    assert UniqueKeys(byDc);
    forall i | 0 <= i < |dcs|
      ensures Get(byDc, dcs[i].name) == Some(RackNodes(dcs[i].racks))
    {
      GetAt(byDc, dcs[i].name, i);
    }
  }
}
