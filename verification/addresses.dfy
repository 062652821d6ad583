/** Address allocation (`generate_ips`, test/cluster_generator.py:86-90).
    Addresses are kept as integers; `int2quad` (ip_util) is not part of this
    model and is stood in for by `Int2Quad`, the usual dotted-quad rendering. */
module Addresses {
  import opened Text

  /** `quad2int('127.0.1.1')`: 127 * 2^24 + 0 * 2^16 + 1 * 2^8 + 1. */
  const BASE_IPADDRESS: nat := 0x7F00_0101

  /** Dotted-quad rendering of an address, most significant octet first.
      The leading octet is not masked, so the rendering stays injective
      beyond 2^32 - 1, where ip_util's behaviour is unknown. */
  function Int2Quad(ip: nat): (s: string)
  {
    var r1 := ip / 0x100;
    var r2 := r1 / 0x100;
    Joined('.', NatToString(r2 / 0x100),
      Joined('.', NatToString(r2 % 0x100),
        Joined('.', NatToString(r1 % 0x100), NatToString(ip % 0x100))))
  }

  lemma NoCharInQuad(c: char, ip: nat)
    requires c != '.' && !IsDigit(c)
    ensures c !in Int2Quad(ip)
  {
    var r1 := ip / 0x100;
    var r2 := r1 / 0x100;
    DigitsExclude(c, NatToString(r2 / 0x100));
    DigitsExclude(c, NatToString(r2 % 0x100));
    DigitsExclude(c, NatToString(r1 % 0x100));
    DigitsExclude(c, NatToString(ip % 0x100));
  }

  /** Distinct addresses render to distinct dotted quads. */
  lemma Int2QuadInjective(a: nat, b: nat)
    ensures Int2Quad(a) == Int2Quad(b) <==> a == b
  {
    if Int2Quad(a) == Int2Quad(b) {
      var a1, b1 := a / 0x100, b / 0x100;
      var a2, b2 := a1 / 0x100, b1 / 0x100;
      var sa3, sb3 := NatToString(a2 / 0x100), NatToString(b2 / 0x100);
      var sa2, sb2 := NatToString(a2 % 0x100), NatToString(b2 % 0x100);
      var sa1, sb1 := NatToString(a1 % 0x100), NatToString(b1 % 0x100);
      var sa0, sb0 := NatToString(a % 0x100), NatToString(b % 0x100);
      DigitsExclude('.', sa3); DigitsExclude('.', sb3);
      DigitsExclude('.', sa2); DigitsExclude('.', sb2);
      DigitsExclude('.', sa1); DigitsExclude('.', sb1);
      SplitAtSeparator('.', sa3, Joined('.', sa2, Joined('.', sa1, sa0)), sb3, Joined('.', sb2, Joined('.', sb1, sb0)));
      SplitAtSeparator('.', sa2, Joined('.', sa1, sa0), sb2, Joined('.', sb1, sb0));
      SplitAtSeparator('.', sa1, sa0, sb1, sb0);
      NatToStringInjective(a2 / 0x100, b2 / 0x100);
      NatToStringInjective(a2 % 0x100, b2 % 0x100);
      NatToStringInjective(a1 % 0x100, b1 % 0x100);
      NatToStringInjective(a % 0x100, b % 0x100);
      assert a2 == b2;
      assert a1 == b1;
    }
  }

  /** The state of the `generate_ips` generator: the next integer it will yield. */
  datatype IpStream = IpStream(state: nat)

  /** A fresh `generate_ips()`. */
  function Fresh(): IpStream {
    IpStream(BASE_IPADDRESS)
  }

  /** `next(ips)`: the address yielded and the advanced generator. */
  function Next(ips: IpStream): (nat, IpStream) {
    (ips.state, IpStream(ips.state + 1))
  }

  /** `n` successive `next(ips)` calls, in order: `generate_ips` yields the
      addresses from its state upwards, one apart, and ends `n` further on. */
  function Draws(ips: IpStream, n: nat): (r: (seq<nat>, IpStream))
    ensures |r.0| == n
    ensures forall k :: 0 <= k < n ==> r.0[k] == ips.state + k
    ensures r.1.state == ips.state + n
    decreases n
  {
    if n == 0 then ([], ips)
    else
      var (before, rest) := Draws(ips, n - 1);
      var (ip, after) := Next(rest);
      (before + [ip], after)
  }

  /** The generator never repeats an address: the draws are pairwise
      distinct, and whatever is drawn afterwards differs from all of them. */
  lemma DrawsDistinct(ips: IpStream, n: nat, m: nat)
    ensures var (first, ips') := Draws(ips, n);
      && (forall i, j :: 0 <= i < j < n ==> first[i] != first[j])
      && (forall i, j :: 0 <= i < n && 0 <= j < m ==> first[i] != Draws(ips', m).0[j])
  {
  }
}
