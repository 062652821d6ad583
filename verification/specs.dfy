/** The placement record `DynoSpec` (test/cluster_generator.py:92-100). */
module Specs {
  import opened Text
  import opened Addresses

  const INTERNODE_LISTEN: nat := 8101
  const CLIENT_LISTEN: nat := 8102
  const REDIS_PORT: nat := 1212
  const STATS_PORT: nat := 22222

  /** The fields a seed string is formatted from, in format order. Python
      formats the string eagerly in `__new__`; formatting is pure, so the model
      keeps the fields and renders them with `SeedText` where the string is
      compared or handed on. */
  datatype SeedString = SeedString(ip: nat, port: nat, first: string, second: string, token: nat)

  /** The namedtuple `'ip port dc rack token local_connections remote_connections seed_string'`. */
  datatype DynoSpec = DynoSpec(
    ip: nat,
    port: nat,
    dc: string,
    rack: string,
    token: nat,
    localConnections: int,
    remoteConnections: int,
    seedString: SeedString)

  /** `ip:port:a:b:token`, the shape of a seed string. */
  function SeedFields(ip: nat, port: nat, a: string, b: string, token: nat): string {
    Joined(':', Int2Quad(ip), Joined(':', NatToString(port), Joined(':', a, Joined(':', b, NatToString(token)))))
  }

  /** `'{}:{}:{}:{}:{}'.format(ip, port, rack, dc, token)` as `__new__` evaluates it. */
  function SeedText(s: SeedString): string {
    SeedFields(s.ip, s.port, s.first, s.second, s.token)
  }

  /** `DynoSpec.__new__`. Its parameters are declared in the order
      `rack, dc`; the seed string is formatted in that parameter order, and
      the fields are then filled positionally, so the `rack` parameter lands
      in the `dc` field and the `dc` parameter in the `rack` field. */
  function NewDynoSpec(ip: nat, port: nat, rack: string, dc: string, token: nat,
                       localConnections: int, remoteConnections: int): (s: DynoSpec)
    ensures s.dc == rack && s.rack == dc
    ensures SeedText(s.seedString) == SeedFields(ip, port, rack, dc, token)
    ensures SeedConsistent(s)
  {
    DynoSpec(ip, port, rack, dc, token, localConnections, remoteConnections,
             SeedString(ip, port, rack, dc, token))
  }

  /** The seed string of a spec is formatted from its own fields in the order
      ip, port, dc, rack, token. */
  predicate SeedConsistent(s: DynoSpec) {
    s.seedString == SeedString(s.ip, s.port, s.dc, s.rack, s.token)
  }

  /** The call in `generate_nodes` passes `dc, rack` where `__new__` declares
      `rack, dc`. The two swaps cancel for the fields, which hold the right
      datacenter and rack, while the seed string comes out with the
      datacenter before the rack. */
  lemma CallSiteSwap(ip: nat, port: nat, dc: string, rack: string, token: nat, local: int, remote: int)
    ensures var s := NewDynoSpec(ip, port, dc, rack, token, local, remote);
      && s.dc == dc && s.rack == rack && s.ip == ip && s.port == port && s.token == token
      && SeedText(s.seedString) == SeedFields(ip, port, dc, rack, token)
      && SeedConsistent(s)
  {
  }

  /** The seed string keeps its fields recoverable: the text before the first
      `':'` is the node's dotted-quad address, so specs at different addresses
      never share a seed string, whatever their names and tokens. */
  lemma SeedFieldsDistinct(ip1: nat, port1: nat, a1: string, b1: string, token1: nat,
                           ip2: nat, port2: nat, a2: string, b2: string, token2: nat)
    requires ip1 != ip2
    ensures SeedFields(ip1, port1, a1, b1, token1) != SeedFields(ip2, port2, a2, b2, token2)
  {
    var rest1 := Joined(':', NatToString(port1), Joined(':', a1, Joined(':', b1, NatToString(token1))));
    var rest2 := Joined(':', NatToString(port2), Joined(':', a2, Joined(':', b2, NatToString(token2))));
    if SeedFields(ip1, port1, a1, b1, token1) == SeedFields(ip2, port2, a2, b2, token2) {
      NoCharInQuad(':', ip1);
      NoCharInQuad(':', ip2);
      SplitAtSeparator(':', Int2Quad(ip1), rest1, Int2Quad(ip2), rest2);
      Int2QuadInjective(ip1, ip2);
    }
  }

  /** The seed string also pins down the port and the two name fields, as
      long as the names contain no `':'`. */
  lemma SeedFieldsInjective(ip1: nat, port1: nat, a1: string, b1: string, token1: nat,
                            ip2: nat, port2: nat, a2: string, b2: string, token2: nat)
    requires ':' !in a1 && ':' !in a2 && ':' !in b1 && ':' !in b2
    requires SeedFields(ip1, port1, a1, b1, token1) == SeedFields(ip2, port2, a2, b2, token2)
    ensures ip1 == ip2 && port1 == port2 && a1 == a2 && b1 == b2 && token1 == token2
  {
    var p1, p2 := NatToString(port1), NatToString(port2);
    var t1, t2 := NatToString(token1), NatToString(token2);
    NoCharInQuad(':', ip1);
    NoCharInQuad(':', ip2);
    DigitsExclude(':', p1);
    DigitsExclude(':', p2);
    SplitAtSeparator(':', Int2Quad(ip1), Joined(':', p1, Joined(':', a1, Joined(':', b1, t1))),
                          Int2Quad(ip2), Joined(':', p2, Joined(':', a2, Joined(':', b2, t2))));
    SplitAtSeparator(':', p1, Joined(':', a1, Joined(':', b1, t1)), p2, Joined(':', a2, Joined(':', b2, t2)));
    SplitAtSeparator(':', a1, Joined(':', b1, t1), a2, Joined(':', b2, t2));
    SplitAtSeparator(':', b1, t1, b2, t2);
    Int2QuadInjective(ip1, ip2);
    NatToStringInjective(port1, port2);
    NatToStringInjective(token1, token2);
  }
}
