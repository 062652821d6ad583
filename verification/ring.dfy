/** Evenly spaced tokens on the 2^32 ring (`pick_tokens`, test/cluster_generator.py:56-61). */
module Ring {

  const RING_SIZE: nat := 0x1_0000_0000

  /** The gap between consecutive tokens of a rack of `count` nodes (Python's `RING_SIZE // count`). */
  function Stride(count: nat): (s: nat)
    requires count >= 1
  {
    RING_SIZE / count
  }

  /** The rest of the `pick_tokens` generator once its running token is `token`
      and `n` tokens are still to be yielded: each yield reduces the running
      token modulo the ring size, then advances it by `stride`. */
  function Emit(token: int, stride: int, n: nat): (r: seq<nat>)
    ensures |r| == n
    decreases n
  {
    if n == 0 then [] else [token % RING_SIZE] + Emit(token + stride, stride, n - 1)
  }

  /** The `i`-th yield of the generator is the starting token plus `i`
      strides, reduced modulo the ring size. */
  lemma {:induction false} EmitAt(token: int, stride: int, n: nat)
    ensures forall i :: 0 <= i < n ==> Emit(token, stride, n)[i] == (token + i * stride) % RING_SIZE
    decreases n
  {
    if n > 0 {
      var r := Emit(token, stride, n);
      var rest := Emit(token + stride, stride, n - 1);
      EmitAt(token + stride, stride, n - 1);
      forall i | 1 <= i < n
        ensures r[i] == (token + i * stride) % RING_SIZE
      {
        assert r[i] == rest[i - 1];
        assert token + stride + (i - 1) * stride == token + i * stride;
      }
    }
  }

  /** `list(pick_tokens(count, offset))`. The source divides by `count` first,
      so `count == 0` is excluded; a negative `count` gives an empty `range`. */
  function PickTokens(count: int, offset: int): (r: seq<nat>)
    requires count != 0
    ensures count < 0 ==> r == []
    ensures count > 0 ==> |r| == count
  {
    if count < 0 then [] else Emit(offset, Stride(count), count)
  }

  /** Token `i` of a rack of `count` nodes is `offset + i * stride` reduced
      modulo the ring size, so it lies on the ring. */
  lemma {:induction false} PickTokensAt(count: nat, offset: int)
    requires count >= 1
    ensures forall i :: 0 <= i < count ==>
      PickTokens(count, offset)[i] == (offset + i * Stride(count)) % RING_SIZE < RING_SIZE
  {
    EmitAt(offset, Stride(count), count);
  }

  lemma ModAddLeft(x: int, d: int)
    ensures (x % RING_SIZE + d) % RING_SIZE == (x + d) % RING_SIZE
  {
    var q := x / RING_SIZE;
    assert x == q * RING_SIZE + x % RING_SIZE;
  }

  /** Two points of the ring less than a full turn apart (and not equal) are different tokens. */
  lemma ModDistinct(a: int, d: int)
    requires 0 < d < RING_SIZE
    ensures a % RING_SIZE != (a + d) % RING_SIZE
  {
    var q := a / RING_SIZE;
    var m := a % RING_SIZE;
    assert a == q * RING_SIZE + m;
    if m + d < RING_SIZE {
      assert (a + d) % RING_SIZE == m + d;
    } else {
      assert a + d == (q + 1) * RING_SIZE + (m + d - RING_SIZE);
      assert (a + d) % RING_SIZE == m + d - RING_SIZE;
    }
  }

  lemma {:induction false} MulStrictlyBelow(k: nat, count: nat, s: nat)
    requires 0 < k < count
    requires s >= 1
    ensures 0 < k * s < count * s
    decreases count
  {
    assert count * s == (count - 1) * s + s;
    if k < count - 1 {
      MulStrictlyBelow(k, count - 1, s);
    }
  }

  /** The division identity for the stride: `count` strides and the remainder make up the ring. */
  lemma StrideIdentity(count: nat)
    requires count >= 1
    ensures count * Stride(count) + RING_SIZE % count == RING_SIZE
    ensures Stride(count) >= 1 || count > RING_SIZE
  {
  }

  /** Each token is its predecessor plus one stride, modulo the ring size. */
  lemma {:induction false} PickTokensSpacing(count: nat, offset: int)
    requires count >= 1
    ensures forall i :: 0 <= i < count - 1 ==>
      PickTokens(count, offset)[i + 1] == (PickTokens(count, offset)[i] + Stride(count)) % RING_SIZE
  {
    var r := PickTokens(count, offset);
    var s := Stride(count);
    PickTokensAt(count, offset);
    forall i | 0 <= i < count - 1
      ensures r[i + 1] == (r[i] + s) % RING_SIZE
    {
      assert offset + (i + 1) * s == offset + i * s + s;
      ModAddLeft(offset + i * s, s);
    }
  }

  /** Closing the circle: from the last token, one stride plus the remainder
      `RING_SIZE % count` lands back on the first token, so the wrap-around gap
      is the only one that may exceed the stride. */
  lemma {:induction false} PickTokensWrapAround(count: nat, offset: int)
    requires count >= 1
    ensures
      var r := PickTokens(count, offset);
      (r[count - 1] + Stride(count) + RING_SIZE % count) % RING_SIZE == r[0]
  {
    var r := PickTokens(count, offset);
    var s := Stride(count);
    PickTokensAt(count, offset);
    StrideIdentity(count);
    assert (count - 1) * s + s == count * s;
    assert r[count - 1] == (offset + (count - 1) * s) % RING_SIZE;
    FullTurn(offset, (count - 1) * s, s + RING_SIZE % count);
  }

  lemma FullTurn(o: int, a: int, b: int)
    requires a + b == RING_SIZE
    ensures ((o + a) % RING_SIZE + b) % RING_SIZE == o % RING_SIZE
  {
    ModAddLeft(o + a, b);
    assert (o + RING_SIZE) % RING_SIZE == o % RING_SIZE;
  }

  /** A rack never gets the same token twice, as long as it has no more
      nodes than the ring has positions. */
  lemma {:induction false} PickTokensDistinct(count: nat, offset: int)
    requires 1 <= count <= RING_SIZE
    ensures forall i, j :: 0 <= i < j < count ==> PickTokens(count, offset)[i] != PickTokens(count, offset)[j]
  {
    var r := PickTokens(count, offset);
    var s := Stride(count);
    PickTokensAt(count, offset);
    StrideIdentity(count);
    forall i, j | 0 <= i < j < count
      ensures r[i] != r[j]
    {
      MulStrictlyBelow(j - i, count, s);
      assert offset + j * s == offset + i * s + (j - i) * s;
      ModDistinct(offset + i * s, (j - i) * s);
    }
  }
}
