/** Python dicts with string keys, as `dict(pairs)` builds them: insertion
    ordered, one entry per key, and a later pair for a key overwrites the
    earlier value in place (test/cluster_generator.py:162-171 build such
    dicts from the request). */
module PyDict {
  import opened Wrappers

  type Dict<V> = seq<(string, V)>

  predicate UniqueKeys<V>(d: seq<(string, V)>) {
    forall i, j :: 0 <= i < j < |d| ==> d[i].0 != d[j].0
  }

  predicate HasKey<V>(d: seq<(string, V)>, k: string) {
    exists i :: 0 <= i < |d| && d[i].0 == k
  }

  /** Where key `k` sits among the first `n` entries, scanning from the back.
      The keys of a dict are distinct, so the direction of the scan only
      matters for the pair lists `dict(pairs)` starts from. */
  function KeyIndex<V>(d: seq<(string, V)>, k: string, n: nat): (r: Option<nat>)
    requires n <= |d|
    ensures r.Some? ==> r.value < n && d[r.value].0 == k
  {
    if n == 0 then None
    else if d[n - 1].0 == k then Some(n - 1)
    else KeyIndex(d, k, n - 1)
  }

  /** The scan comes back empty exactly when no entry among the first `n` has key `k`. */
  lemma {:induction false} KeyIndexNone<V>(d: seq<(string, V)>, k: string, n: nat)
    requires n <= |d|
    ensures KeyIndex(d, k, n).None? <==> forall i :: 0 <= i < n ==> d[i].0 != k
    decreases n
  {
    if n > 0 && d[n - 1].0 != k {
      KeyIndexNone(d, k, n - 1);
    }
  }

  /** With distinct keys the scan finds the one entry that has key `k`. */
  lemma {:induction false} KeyIndexAt<V>(d: seq<(string, V)>, k: string, n: nat, i: nat)
    requires UniqueKeys(d)
    requires i < n <= |d| && d[i].0 == k
    ensures KeyIndex(d, k, n) == Some(i)
    decreases n
  {
    if n - 1 != i {
      assert d[i].0 != d[n - 1].0;
      KeyIndexAt(d, k, n - 1, i);
    }
  }

  /** The scan only looks at keys. */
  lemma {:induction false} KeyIndexSameKeys<V>(d: seq<(string, V)>, e: seq<(string, V)>, k: string, n: nat)
    requires n <= |d| && n <= |e|
    requires forall i :: 0 <= i < n ==> d[i].0 == e[i].0
    ensures KeyIndex(d, k, n) == KeyIndex(e, k, n)
    decreases n
  {
    if n > 0 && d[n - 1].0 != k {
      KeyIndexSameKeys(d, e, k, n - 1);
    }
  }

  /** `d.get(k)`: the value stored under `k`, if any. */
  function Get<V>(d: Dict<V>, k: string): Option<V> {
    match KeyIndex(d, k, |d|)
    case Some(i) => Some(d[i].1)
    case None => None
  }

  /** A key is found exactly when the dict has it. */
  lemma GetSome<V>(d: Dict<V>, k: string)
    ensures Get(d, k).Some? <==> HasKey(d, k)
  {
    KeyIndexNone(d, k, |d|);
  }

  /** In a dict, the entry with key `k` is the one `Get` finds. */
  lemma GetAt<V>(d: Dict<V>, k: string, i: nat)
    requires UniqueKeys(d)
    requires i < |d| && d[i].0 == k
    ensures Get(d, k) == Some(d[i].1)
  {
    KeyIndexAt(d, k, |d|, i);
  }

  /** `d[k] = v`: overwrite in place when `k` is present, append otherwise. */
  function Set<V>(d: Dict<V>, k: string, v: V): (r: Dict<V>)
    ensures UniqueKeys(d) ==> UniqueKeys(r)
    ensures !HasKey(d, k) ==> r == d + [(k, v)]
  {
    match KeyIndex(d, k, |d|)
    case Some(i) => d[i := (k, v)]
    case None => KeyIndexNone(d, k, |d|); d + [(k, v)]
  }

  /** After `d[k] = v`, `k` holds `v` and every other key holds what it held. */
  lemma GetAfterSet<V>(d: Dict<V>, k: string, v: V, k': string)
    ensures Get(Set(d, k, v), k') == if k' == k then Some(v) else Get(d, k')
  {
    var e := Set(d, k, v);
    match KeyIndex(d, k, |d|)
    case Some(i) =>
      KeyIndexSameKeys(d, e, k', |d|);
    case None =>
      assert e == d + [(k, v)];
      if k' != k {
        KeyIndexSameKeys(d, e, k', |d|);
      }
  }

  /** What `dict(pairs)` maps `k` to: the value of the LAST of the first `n`
      pairs with key `k`. */
  function LastValue<V>(ps: seq<(string, V)>, k: string, n: nat): Option<V>
    requires n <= |ps|
  {
    if n == 0 then None
    else if ps[n - 1].0 == k then Some(ps[n - 1].1)
    else LastValue(ps, k, n - 1)
  }

  /** `dict(pairs[:n])`: the first `n` pairs stored one after the other. */
  function DictOf<V>(ps: seq<(string, V)>, n: nat): (d: Dict<V>)
    requires n <= |ps|
    ensures UniqueKeys(d)
  {
    if n == 0 then [] else Set(DictOf(ps, n - 1), ps[n - 1].0, ps[n - 1].1)
  }

  /** `dict(pairs)`. */
  function FromPairs<V>(ps: seq<(string, V)>): (d: Dict<V>)
    ensures UniqueKeys(d)
  {
    DictOf(ps, |ps|)
  }

  /** Later pairs win: `dict(pairs)[k]` is the value of the last pair for `k`. */
  lemma {:induction false} GetFromPairs<V>(ps: seq<(string, V)>, k: string, n: nat)
    requires n <= |ps|
    ensures Get(DictOf(ps, n), k) == LastValue(ps, k, n)
    decreases n
  {
    if n > 0 {
      GetFromPairs(ps, k, n - 1);
      GetAfterSet(DictOf(ps, n - 1), ps[n - 1].0, ps[n - 1].1, k);
    }
  }

  /** Without repeated keys nothing collapses: the first `n` pairs are kept, in order. */
  lemma {:induction false} DictOfUniqueKeys<V>(ps: seq<(string, V)>, n: nat)
    requires UniqueKeys(ps) && n <= |ps|
    ensures |DictOf(ps, n)| == n
    ensures forall i :: 0 <= i < n ==> DictOf(ps, n)[i] == ps[i]
    decreases n
  {
    if n > 0 {
      var d := DictOf(ps, n - 1);
      DictOfUniqueKeys(ps, n - 1);
      assert DictOf(ps, n) == d + [ps[n - 1]];
    }
  }

  /** `dict(pairs) == pairs` when the keys are distinct. */
  lemma FromPairsOfUniqueKeys<V>(ps: seq<(string, V)>)
    requires UniqueKeys(ps)
    ensures FromPairs(ps) == ps
  {
    DictOfUniqueKeys(ps, |ps|);
  }

  /** The values of the first `n` entries, added front to back. */
  function ValuesBefore(d: Dict<int>, n: nat): int
    requires n <= |d|
  {
    if n == 0 then 0 else ValuesBefore(d, n - 1) + d[n - 1].1
  }

  /** `sum(d.values())`. */
  function SumValues(d: Dict<int>): int {
    ValuesBefore(d, |d|)
  }
}
