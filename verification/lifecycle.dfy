/** The order in which `launch_dynomite` (test/cluster_generator.py:144-154)
    brings a cluster up and down, as a trace of abstract events. Each node
    is entered through `DynoSpec.launch` (test/cluster_generator.py:126-141),
    which writes the node's config and then starts redis through
    `launch_redis` (test/cluster_generator.py:46-54) and dynomite inside it.
    Entered nodes are pushed on an `ExitStack`, whose callbacks run last in,
    first out. Process control is abstract: which step of which node raises
    is an input, and every teardown step is taken to succeed. */
module Lifecycle {
  import opened Wrappers
  import opened Specs
  import opened Config

  /** The step at which entering a node's `launch` context raises. */
  datatype Stage = WritingConfig | StartingRedis | StartingDynomite

  /** One observable step of a launch. `ConfigWritten` records the spec and
      seed list `write_config` renders; the file itself is not modelled. */
  datatype Event =
    | SeedsComputed(seeds: seq<string>)
    | ConfigWritten(node: nat, spec: DynoSpec, seeds: seq<string>)
    | RedisStarted(node: nat)
    | DynomiteStarted(node: nat)
    | ClusterUp
    | DynomiteInterrupted(node: nat)
    | DynomiteReaped(node: nat)
    | RedisKilled(node: nat)
    | RedisReaped(node: nat)

  /** The configuration a `ConfigWritten` event put on disk
      (test/cluster_generator.py:119-120): the node's spec rendered with the
      seed list it was launched with. */
  function Written(e: Event): (c: Conf)
    requires e.ConfigWritten?
  {
    GenerateConfig(e.spec, e.seeds)
  }

  /** The node an event is about, and -1 for the cluster-wide events. */
  function NodeOf(e: Event): int {
    if e.SeedsComputed? || e.ClusterUp? then -1 else e.node
  }

  predicate IsStart(e: Event) {
    e.ConfigWritten? || e.RedisStarted? || e.DynomiteStarted?
  }

  predicate IsStop(e: Event) {
    e.DynomiteInterrupted? || e.DynomiteReaped? || e.RedisKilled? || e.RedisReaped?
  }

  /** The `finally` of `launch_redis`: kill redis, then wait for it. */
  function RedisExit(k: nat): seq<Event> {
    [RedisKilled(k), RedisReaped(k)]
  }

  /** Leaving node `k`'s `launch` context: the `finally` of `launch` sends
      SIGINT to dynomite and waits for it, then `launch_redis` cleans up. */
  function NodeExit(k: nat): seq<Event> {
    [DynomiteInterrupted(k), DynomiteReaped(k)] + RedisExit(k)
  }

  /** Entering node `k`'s `launch(seeds_list)` context, and whether it was
      entered. A raise before redis runs leaves nothing behind; a raise
      starting dynomite unwinds `launch_redis`, which stops redis. */
  function EnterNode(spec: DynoSpec, k: nat, seeds: seq<string>, fault: Option<Stage>): (r: (seq<Event>, bool))
    ensures r.1 <==> fault.None?
    ensures forall e :: e in r.0 ==> NodeOf(e) == k
    ensures forall e :: e in r.0 && e.ConfigWritten? ==> e == ConfigWritten(k, spec, seeds)
    ensures DynomiteStarted(k) in r.0 <==> r.1
    ensures RedisStarted(k) in r.0 && !r.1 ==> RedisReaped(k) in r.0
  {
    var written := ConfigWritten(k, spec, seeds);
    match fault
    case None => ([written, RedisStarted(k), DynomiteStarted(k)], true)
    case Some(WritingConfig) => ([], false)
    case Some(StartingRedis) => ([written], false)
    case Some(StartingDynomite) => ([written, RedisStarted(k)] + RedisExit(k), false)
  }

  /** The list comprehension inside the `ExitStack`: nodes `k`, `k + 1`, ...
      are entered in list order and pushed on `stack`, and the first raise
      ends the comprehension. Yields the events, the final stack and
      whether every node was entered. */
  function EnterFrom(specs: seq<DynoSpec>, seeds: seq<string>, faults: seq<Option<Stage>>,
                     k: nat, stack: seq<nat>): (r: (seq<Event>, seq<nat>, bool))
    requires |faults| == |specs| && k <= |specs|
    decreases |specs| - k
  {
    if k == |specs| then ([], stack, true)
    else
      var (events, entered) := EnterNode(specs[k], k, seeds, faults[k]);
      if !entered then (events, stack, false)
      else
        var rest := EnterFrom(specs, seeds, faults, k + 1, stack + [k]);
        (events + rest.0, rest.1, rest.2)
  }

  /** Leaving the `ExitStack`: the exit callbacks run from the top of the stack down. */
  function Unwind(stack: seq<nat>): seq<Event>
    decreases |stack|
  {
    if stack == [] then [] else NodeExit(stack[|stack| - 1]) + Unwind(stack[..|stack| - 1])
  }

  /** `launch_dynomite(nodes)`: the seed list from all specs first, then the
      nodes entered in order, the body of the `with` when all of them came
      up, and the teardown of whatever was entered. Also says whether the
      cluster came up, which it does exactly when no node's launch raises. */
  function LaunchDynomite(specs: seq<DynoSpec>, faults: seq<Option<Stage>>): (r: (seq<Event>, bool))
    requires |faults| == |specs|
    ensures r.1 <==> forall k :: 0 <= k < |faults| ==> faults[k].None?
    ensures |r.0| > 0 && r.0[0] == SeedsComputed(SeedsList(specs))
  {
    var seeds := SeedsList(specs);
    assert Range(0, 0) == [];
    EnterStack(specs, seeds, faults, 0);
    FirstFaultIs(faults, 0);
    var (events, stack, up) := EnterFrom(specs, seeds, faults, 0, []);
    ([SeedsComputed(seeds)] + (events + (if up then [ClusterUp] else []) + Unwind(stack)), up)
  }

  // ---------------------------------------------------------------------
  // The first node whose launch raises

  /** The first node from `k` on whose launch raises, or `|faults|`. */
  function FirstFault(faults: seq<Option<Stage>>, k: nat): (f: nat)
    requires k <= |faults|
    ensures k <= f <= |faults|
    decreases |faults| - k
  {
    if k == |faults| || faults[k].Some? then k else FirstFault(faults, k + 1)
  }

  /** Nodes `k` up to the first fault launch cleanly, and that one raises. */
  lemma {:induction false} FirstFaultIs(faults: seq<Option<Stage>>, k: nat)
    requires k <= |faults|
    ensures forall j :: k <= j < FirstFault(faults, k) ==> faults[j].None?
    ensures FirstFault(faults, k) < |faults| ==> faults[FirstFault(faults, k)].Some?
    decreases |faults| - k
  {
    if k < |faults| && faults[k].None? {
      FirstFaultIs(faults, k + 1);
    }
  }

  /** Nodes `lo`, ..., `hi - 1`, pushed in this order. */
  function Range(lo: nat, hi: nat): (r: seq<nat>)
    ensures |r| == if lo <= hi then hi - lo else 0
    decreases hi
  {
    if hi <= lo then [] else Range(lo, hi - 1) + [hi - 1]
  }

  /** After the comprehension the exit stack holds exactly the nodes before
      the first raise, in list order, and the cluster is up exactly when no
      node raised. */
  lemma {:induction false} EnterStack(specs: seq<DynoSpec>, seeds: seq<string>, faults: seq<Option<Stage>>, k: nat)
    requires |faults| == |specs| && k <= |specs|
    ensures EnterFrom(specs, seeds, faults, k, Range(0, k)).1 == Range(0, FirstFault(faults, k))
    ensures EnterFrom(specs, seeds, faults, k, Range(0, k)).2 <==> FirstFault(faults, k) == |specs|
    decreases |specs| - k
  {
    if k < |specs| && faults[k].None? {
      assert Range(0, k) + [k] == Range(0, k + 1);
      EnterStack(specs, seeds, faults, k + 1);
    }
  }

  // ---------------------------------------------------------------------
  // Global order

  /** Where an event may sit in a launch of `n` nodes: the seed list first,
      then the start events by ascending node, the cluster body, and the
      stop events by descending node. */
  function Rank(e: Event, n: nat): int {
    match e
    case SeedsComputed(_) => 0
    case ConfigWritten(k, _, _) => 1 + k
    case RedisStarted(k) => 1 + k
    case DynomiteStarted(k) => 1 + k
    case ClusterUp => n + 1
    case DynomiteInterrupted(k) => 2 * n + 1 - k
    case DynomiteReaped(k) => 2 * n + 1 - k
    case RedisKilled(k) => 2 * n + 1 - k
    case RedisReaped(k) => 2 * n + 1 - k
  }

  predicate Ranked(s: seq<Event>, n: nat) {
    forall p, q :: 0 <= p < q < |s| ==> Rank(s[p], n) <= Rank(s[q], n)
  }

  predicate RanksWithin(s: seq<Event>, n: nat, lo: int, hi: int) {
    forall p :: 0 <= p < |s| ==> lo <= Rank(s[p], n) <= hi
  }

  lemma RankedAppend(a: seq<Event>, b: seq<Event>, n: nat, lo: int, mid: int, hi: int)
    requires lo <= mid <= hi && Ranked(a, n) && Ranked(b, n)
    requires RanksWithin(a, n, lo, mid) && RanksWithin(b, n, mid, hi)
    ensures Ranked(a + b, n) && RanksWithin(a + b, n, lo, hi)
  {
    forall p | 0 <= p < |a + b|
      ensures lo <= Rank((a + b)[p], n) <= hi
    {
      if p < |a| {
        assert (a + b)[p] == a[p];
      } else {
        assert (a + b)[p] == b[p - |a|];
      }
    }
    forall p, q | 0 <= p < q < |a + b|
      ensures Rank((a + b)[p], n) <= Rank((a + b)[q], n)
    {
      if q < |a| {
        assert (a + b)[p] == a[p] && (a + b)[q] == a[q];
      } else if p >= |a| {
        assert (a + b)[p] == b[p - |a|] && (a + b)[q] == b[q - |a|];
      } else {
        assert (a + b)[p] == a[p] && (a + b)[q] == b[q - |a|];
      }
    }
  }

  /** A run of events of one rank. */
  lemma RankedConst(s: seq<Event>, n: nat, x: int)
    requires forall p :: 0 <= p < |s| ==> Rank(s[p], n) == x
    ensures Ranked(s, n) && RanksWithin(s, n, x, x)
  {
  }

  lemma RanksOfEnterNode(spec: DynoSpec, k: nat, seeds: seq<string>, fault: Option<Stage>, n: nat)
    requires k < n
    ensures Ranked(EnterNode(spec, k, seeds, fault).0, n)
    ensures RanksWithin(EnterNode(spec, k, seeds, fault).0, n, 1 + k,
                        if fault.None? then 1 + k else 2 * n + 1 - k)
  {
    var written := ConfigWritten(k, spec, seeds);
    match fault
    case None =>
      RankedConst([written, RedisStarted(k), DynomiteStarted(k)], n, 1 + k);
    case Some(WritingConfig) =>
    case Some(StartingRedis) =>
      RankedConst([written], n, 1 + k);
    case Some(StartingDynomite) =>
      RankedConst([written, RedisStarted(k)], n, 1 + k);
      RanksOfRedisExit(k, n);
      RankedAppend([written, RedisStarted(k)], RedisExit(k), n, 1 + k, 1 + k, 2 * n + 1 - k);
  }

  /** The nodes from `k` on are entered by ascending node; when node `f`
      raises, its own cleanup comes last. */
  lemma {:induction false} RanksOfEnter(specs: seq<DynoSpec>, seeds: seq<string>, faults: seq<Option<Stage>>,
                                        k: nat, stack: seq<nat>)
    requires |faults| == |specs| && k <= |specs|
    ensures Ranked(EnterFrom(specs, seeds, faults, k, stack).0, |specs|)
    ensures RanksWithin(EnterFrom(specs, seeds, faults, k, stack).0, |specs|,
                        1 + k, 2 * |specs| + 1 - FirstFault(faults, k))
    decreases |specs| - k
  {
    var n := |specs|;
    if k < n {
      RanksOfEnterNode(specs[k], k, seeds, faults[k], n);
      if faults[k].None? {
        var rest := EnterFrom(specs, seeds, faults, k + 1, stack + [k]);
        RanksOfEnter(specs, seeds, faults, k + 1, stack + [k]);
        RankedAppend(EnterNode(specs[k], k, seeds, faults[k]).0, rest.0, n,
                     1 + k, 1 + k, 2 * n + 1 - FirstFault(faults, k));
      }
    }
  }

  /** Stopping a node's redis has that node's stop rank. */
  lemma RanksOfRedisExit(k: nat, n: nat)
    ensures Ranked(RedisExit(k), n) && RanksWithin(RedisExit(k), n, 2 * n + 1 - k, 2 * n + 1 - k)
  {
    RankedConst(RedisExit(k), n, 2 * n + 1 - k);
  }

  /** All of a node's teardown has that node's stop rank. */
  lemma RanksOfNodeExit(k: nat, n: nat)
    ensures Ranked(NodeExit(k), n) && RanksWithin(NodeExit(k), n, 2 * n + 1 - k, 2 * n + 1 - k)
  {
    var s := NodeExit(k);
    assert s == [DynomiteInterrupted(k), DynomiteReaped(k), RedisKilled(k), RedisReaped(k)];
    RankedConst(s, n, 2 * n + 1 - k);
  }

  /** Popping a stack of nodes `0` to `m - 1` tears down node `m - 1` first. */
  lemma UnwindTop(m: nat)
    requires m > 0
    ensures Unwind(Range(0, m)) == NodeExit(m - 1) + Unwind(Range(0, m - 1))
  {
    var stack := Range(0, m);
    assert stack[|stack| - 1] == m - 1;
    assert stack[..|stack| - 1] == Range(0, m - 1);
  }

  /** Popping nodes `m - 1` down to `0` tears them down by descending node. */
  lemma {:induction false} RanksOfUnwind(m: nat, n: nat)
    requires m <= n
    ensures Ranked(Unwind(Range(0, m)), n)
    ensures RanksWithin(Unwind(Range(0, m)), n, 2 * n + 2 - m, 2 * n + 1)
    decreases m
  {
    if m > 0 {
      UnwindTop(m);
      RanksOfUnwind(m - 1, n);
      RanksOfNodeExit(m - 1, n);
      RankedAppend(NodeExit(m - 1), Unwind(Range(0, m - 1)), n,
                   2 * n + 2 - m, 2 * n + 2 - m, 2 * n + 1);
    }
  }

  /** What follows the seed list: the entered nodes' events, the cluster
      body when all `n` nodes came up, and the teardown of the first `f`. */
  lemma RanksOfRun(events: seq<Event>, stack: seq<nat>, up: bool, n: nat, f: nat)
    requires f <= n && (up ==> f == n) && stack == Range(0, f)
    requires Ranked(events, n) && RanksWithin(events, n, 1, 2 * n + 1 - f)
    ensures Ranked(events + (if up then [ClusterUp] else []) + Unwind(stack), n)
    ensures RanksWithin(events + (if up then [ClusterUp] else []) + Unwind(stack), n, 1, 2 * n + 1)
  {
    var body: seq<Event> := if up then [ClusterUp] else [];
    RanksOfUnwind(f, n);
    RankedConst(body, n, 2 * n + 1 - f);
    RankedAppend(events, body, n, 1, 2 * n + 1 - f, 2 * n + 1 - f);
    RankedAppend(events + body, Unwind(stack), n, 1, 2 * n + 1 - f, 2 * n + 1);
  }

  /** The whole launch is ordered by rank: the seed list is computed
      before everything else and only once, nodes start in list order,
      every start comes before every stop, the cluster body runs between
      the two, and nodes are torn down in reverse order. */
  lemma LaunchRanked(specs: seq<DynoSpec>, faults: seq<Option<Stage>>)
    requires |faults| == |specs|
    ensures LaunchDynomite(specs, faults).0[0] == SeedsComputed(SeedsList(specs))
    ensures forall p :: 0 < p < |LaunchDynomite(specs, faults).0| ==> !LaunchDynomite(specs, faults).0[p].SeedsComputed?
    ensures Ranked(LaunchDynomite(specs, faults).0, |specs|)
  {
    var n := |specs|;
    var seeds := SeedsList(specs);
    var r := EnterFrom(specs, seeds, faults, 0, []);
    assert Range(0, 0) == [];
    EnterStack(specs, seeds, faults, 0);
    RanksOfEnter(specs, seeds, faults, 0, []);
    var rest := r.0 + (if r.2 then [ClusterUp] else []) + Unwind(r.1);
    RanksOfRun(r.0, r.1, r.2, n, FirstFault(faults, 0));
    SeedsThenRun(seeds, rest, n);
    assert LaunchDynomite(specs, faults).0 == [SeedsComputed(seeds)] + rest;
  }

  /** The seed list followed by events ranked after it: ranked, and the
      seed list is not computed again. */
  lemma SeedsThenRun(seeds: seq<string>, rest: seq<Event>, n: nat)
    requires Ranked(rest, n) && RanksWithin(rest, n, 1, 2 * n + 1)
    ensures Ranked([SeedsComputed(seeds)] + rest, n)
    ensures forall p :: 0 < p < |[SeedsComputed(seeds)] + rest| ==> !([SeedsComputed(seeds)] + rest)[p].SeedsComputed?
  {
    var t := [SeedsComputed(seeds)] + rest;
    RankedConst([SeedsComputed(seeds)], n, 0);
    RankedAppend([SeedsComputed(seeds)], rest, n, 0, 0, 2 * n + 1);
    forall p | 0 < p < |t|
      ensures !t[p].SeedsComputed?
    {
      assert t[p] == rest[p - 1];
    }
  }

  // ---------------------------------------------------------------------
  // Per-node history

  /** The events of `s` about node `k`, in order. */
  function Of(s: seq<Event>, k: nat): (r: seq<Event>)
    ensures forall p :: 0 <= p < |r| ==> NodeOf(r[p]) == k
    decreases |s|
  {
    if s == [] then []
    else if NodeOf(s[0]) == k then [s[0]] + Of(s[1..], k)
    else Of(s[1..], k)
  }

  lemma {:induction false} OfAppend(a: seq<Event>, b: seq<Event>, k: nat)
    ensures Of(a + b, k) == Of(a, k) + Of(b, k)
    decreases |a|
  {
    if a == [] {
      assert a + b == b;
    } else {
      assert (a + b)[0] == a[0] && (a + b)[1..] == a[1..] + b;
      OfAppend(a[1..], b, k);
      if NodeOf(a[0]) == k {
        assert [a[0]] + (Of(a[1..], k) + Of(b, k)) == [a[0]] + Of(a[1..], k) + Of(b, k);
      }
    }
  }

  /** Events all about node `j` are kept whole for `j` and dropped for every other node. */
  lemma {:induction false} OfAll(s: seq<Event>, j: int, k: nat)
    requires forall p :: 0 <= p < |s| ==> NodeOf(s[p]) == j
    ensures Of(s, k) == if j == k then s else []
    decreases |s|
  {
    if s != [] {
      OfAll(s[1..], j, k);
      assert s == [s[0]] + s[1..];
    }
  }

  /** An event about node `k` shows up in node `k`'s history. */
  lemma {:induction false} OfHas(s: seq<Event>, p: nat, k: nat)
    requires p < |s| && NodeOf(s[p]) == k
    ensures s[p] in Of(s, k)
    decreases p
  {
    if p > 0 {
      OfHas(s[1..], p - 1, k);
    }
  }

  /** Entering one node produces events about that node only. */
  lemma EnterNodeAbout(spec: DynoSpec, j: nat, seeds: seq<string>, fault: Option<Stage>, k: nat)
    ensures Of(EnterNode(spec, j, seeds, fault).0, k) == if j == k then EnterNode(spec, j, seeds, fault).0 else []
  {
    var events := EnterNode(spec, j, seeds, fault).0;
    assert forall p :: 0 <= p < |events| ==> NodeOf(events[p]) == j;
    OfAll(events, j, k);
  }

  /** Leaving one node's context produces events about that node only. */
  lemma NodeExitAbout(j: nat, k: nat)
    ensures Of(NodeExit(j), k) == if j == k then NodeExit(j) else []
  {
    var events := NodeExit(j);
    assert forall p :: 0 <= p < |events| ==> NodeOf(events[p]) == j;
    OfAll(events, j, k);
  }

  /** From node `j` on, the comprehension touches node `k` exactly when it
      lies between `j` and the first raise, and then only by entering it. */
  lemma {:induction false} EnterFromOf(specs: seq<DynoSpec>, seeds: seq<string>, faults: seq<Option<Stage>>,
                                       j: nat, stack: seq<nat>, k: nat)
    requires |faults| == |specs| && j <= |specs|
    ensures Of(EnterFrom(specs, seeds, faults, j, stack).0, k)
         == if j <= k <= FirstFault(faults, j) && k < |specs| then EnterNode(specs[k], k, seeds, faults[k]).0 else []
    decreases |specs| - j
  {
    if j < |specs| {
      var events := EnterNode(specs[j], j, seeds, faults[j]).0;
      EnterNodeAbout(specs[j], j, seeds, faults[j], k);
      if faults[j].None? {
        var rest := EnterFrom(specs, seeds, faults, j + 1, stack + [j]);
        EnterFromOf(specs, seeds, faults, j + 1, stack + [j], k);
        OfAppend(events, rest.0, k);
        if k == j {
          assert Of(rest.0, k) == [];
          assert events + [] == events;
        }
      }
    }
  }

  /** Popping nodes `m - 1` down to `0` stops each of them once. */
  lemma {:induction false} UnwindOf(m: nat, k: nat)
    ensures Of(Unwind(Range(0, m)), k) == if k < m then NodeExit(k) else []
    decreases m
  {
    if m > 0 {
      UnwindTop(m);
      UnwindOf(m - 1, k);
      OfAppend(NodeExit(m - 1), Unwind(Range(0, m - 1)), k);
      NodeExitAbout(m - 1, k);
      if k == m - 1 {
        assert NodeExit(k) + [] == NodeExit(k);
      }
    }
  }

  /** Every node before the first raise is started and later stopped; the
      node that raises sees only its partial entry (with redis stopped
      again when dynomite fails to start); the nodes after it are never
      touched. */
  lemma NodeHistory(specs: seq<DynoSpec>, faults: seq<Option<Stage>>, k: nat)
    requires |faults| == |specs|
    ensures Of(LaunchDynomite(specs, faults).0, k)
         == if k < FirstFault(faults, 0) then EnterNode(specs[k], k, SeedsList(specs), None).0 + NodeExit(k)
            else if k == FirstFault(faults, 0) < |specs| then EnterNode(specs[k], k, SeedsList(specs), faults[k]).0
            else []
  {
    var seeds := SeedsList(specs);
    var f := FirstFault(faults, 0);
    var entered := Of(EnterFrom(specs, seeds, faults, 0, []).0, k);
    LaunchOf(specs, faults, k);
    FirstFaultIs(faults, 0);
    EnterFromOf(specs, seeds, faults, 0, [], k);
    UnwindOf(f, k);
    if k >= f {
      assert entered + [] == entered;
    }
  }

  /** A node's history in a launch: what the comprehension did to it, then
      what the exit stack did to it. */
  lemma LaunchOf(specs: seq<DynoSpec>, faults: seq<Option<Stage>>, k: nat)
    requires |faults| == |specs|
    ensures Of(LaunchDynomite(specs, faults).0, k)
         == Of(EnterFrom(specs, SeedsList(specs), faults, 0, []).0, k) + Of(Unwind(Range(0, FirstFault(faults, 0))), k)
  {
    var seeds := SeedsList(specs);
    var r := EnterFrom(specs, seeds, faults, 0, []);
    assert Range(0, 0) == [];
    EnterStack(specs, seeds, faults, 0);
    var body: seq<Event> := if r.2 then [ClusterUp] else [];
    OfAll(body, -1, k);
    OfAll([SeedsComputed(seeds)], -1, k);
    OfRun(SeedsComputed(seeds), r.0, body, Unwind(r.1), k);
    assert LaunchDynomite(specs, faults).0 == [SeedsComputed(seeds)] + (r.0 + body + Unwind(r.1));
  }

  /** Only the entered events and the teardown of a launch are about nodes. */
  lemma OfRun(first: Event, events: seq<Event>, body: seq<Event>, teardown: seq<Event>, k: nat)
    requires Of([first], k) == [] && Of(body, k) == []
    ensures Of([first] + (events + body + teardown), k) == Of(events, k) + Of(teardown, k)
  {
    OfAppend(events, body, k);
    OfAppend(events + body, teardown, k);
    OfAppend([first], events + body + teardown, k);
    assert Of(events, k) + [] == Of(events, k);
  }

  /** The launch order: nodes start in list order and stop in reverse list
      order, no node starts after any node has begun to stop, and the
      cluster body runs after every start and before every stop. */
  lemma LaunchOrder(specs: seq<DynoSpec>, faults: seq<Option<Stage>>, p: nat, q: nat)
    requires |faults| == |specs| && p < q < |LaunchDynomite(specs, faults).0|
    ensures (IsStart(LaunchDynomite(specs, faults).0[p]) && IsStart(LaunchDynomite(specs, faults).0[q]))
            ==> NodeOf(LaunchDynomite(specs, faults).0[p]) <= NodeOf(LaunchDynomite(specs, faults).0[q])
    ensures (IsStop(LaunchDynomite(specs, faults).0[p]) && IsStop(LaunchDynomite(specs, faults).0[q]))
            ==> NodeOf(LaunchDynomite(specs, faults).0[p]) >= NodeOf(LaunchDynomite(specs, faults).0[q])
    ensures !(IsStop(LaunchDynomite(specs, faults).0[p]) && IsStart(LaunchDynomite(specs, faults).0[q]))
    ensures LaunchDynomite(specs, faults).0[p].ClusterUp? ==> !IsStart(LaunchDynomite(specs, faults).0[q])
    ensures LaunchDynomite(specs, faults).0[q].ClusterUp? ==> !IsStop(LaunchDynomite(specs, faults).0[p])
  {
    var t := LaunchDynomite(specs, faults).0;
    var n := |specs|;
    LaunchRanked(specs, faults);
    assert Rank(t[p], n) <= Rank(t[q], n);
    Bounded(specs, faults, p);
    Bounded(specs, faults, q);
  }

  /** Every event of a launch is about one of its nodes, if any. */
  lemma Bounded(specs: seq<DynoSpec>, faults: seq<Option<Stage>>, p: nat)
    requires |faults| == |specs| && p < |LaunchDynomite(specs, faults).0|
    ensures NodeOf(LaunchDynomite(specs, faults).0[p]) < |specs|
  {
    var t := LaunchDynomite(specs, faults).0;
    if NodeOf(t[p]) >= |specs| {
      var k: nat := NodeOf(t[p]);
      OfHas(t, p, k);
      NodeHistory(specs, faults, k);
      assert false;
    }
  }

  /** Every config a launch writes is the node's own spec rendered with
      the seed list of the whole cluster. */
  lemma WrittenConfigs(specs: seq<DynoSpec>, faults: seq<Option<Stage>>, p: nat)
    requires |faults| == |specs| && p < |LaunchDynomite(specs, faults).0|
    requires LaunchDynomite(specs, faults).0[p].ConfigWritten?
    ensures LaunchDynomite(specs, faults).0[p].node < |specs|
    ensures Written(LaunchDynomite(specs, faults).0[p])
         == GenerateConfig(specs[LaunchDynomite(specs, faults).0[p].node], SeedsList(specs))
  {
    var t := LaunchDynomite(specs, faults).0;
    var k := t[p].node;
    Bounded(specs, faults, p);
    OfHas(t, p, k);
    NodeHistory(specs, faults, k);
    var fault := if k < FirstFault(faults, 0) then None else faults[k];
    var entry := EnterNode(specs[k], k, SeedsList(specs), fault).0;
    assert t[p] in entry by {
      if k < FirstFault(faults, 0) {
        assert t[p] in entry + NodeExit(k);
      }
    }
  }
}
