/** The messages of the SOCKS5 handshake as bytes (sections 3, 4 and 6 of RFC 1928, section 2 of RFC 1929). */
module Socks5Messages {
  import opened Options
  import opened Ordering

  const VERSION: Byte := 5
  const AUTH_VERSION: Byte := 1
  const METHOD_NONE: Byte := 0
  const METHOD_USER: Byte := 2
  const METHOD_DENY: Byte := 255
  const CMD_CONNECT: Byte := 1
  const CMD_UDP_ASC: Byte := 3
  const CMD_FWD_UDP: Byte := 5
  const REP_SUCC: Byte := 0
  const REP_FAIL: Byte := 1
  const REP_HOST: Byte := 4
  const REP_IMPL: Byte := 7
  const REP_ADDR: Byte := 8
  const IPV4: Byte := 1
  const NAME: Byte := 3
  const IPV6: Byte := 4

  /** An address with its port; the port is the last two bytes. */
  datatype Addr = Ipv4(bytes: Key) | Ipv6(bytes: Key) | Name(name: Key, port: Key)

  predicate ValidAddr(a: Addr) {
    match a
    case Ipv4(b) => |b| == 6
    case Ipv6(b) => |b| == 18
    case Name(n, p) => |n| <= 255 && |p| == 2
  }

  function AddrBytes(a: Addr): (r: Key)
    requires ValidAddr(a)
  {
    match a
    case Ipv4(b) => [IPV4] + b
    case Ipv6(b) => [IPV6] + b
    case Name(n, p) => [NAME, |n|] + n + p
  }

  /** addr_len: the length of an address from its first two bytes. */
  function AddrLen(atype: Byte, second: Byte): Option<nat> {
    if atype == IPV4 then Some(7)
    else if atype == IPV6 then Some(19)
    else if atype == NAME then Some(4 + second)
    else None
  }

  function DecodeAddr(b: Key): Option<Addr>
    requires |b| >= 2 && AddrLen(b[0], b[1]) == Some(|b|)
  {
    if b[0] == IPV4 then Some(Ipv4(b[1..]))
    else if b[0] == IPV6 then Some(Ipv6(b[1..]))
    else Some(Name(b[2..2 + b[1]], b[2 + b[1]..]))
  }

  /** An address says its own length and reads back as itself. */
  lemma {:induction false} AddrRoundTrip(a: Addr)
    requires ValidAddr(a)
    ensures var b := AddrBytes(a); |b| >= 4 && AddrLen(b[0], b[1]) == Some(|b|) && DecodeAddr(b) == Some(a)
  {
    match a
    case Ipv4(b) => assert AddrBytes(a)[1..] == b;
    case Ipv6(b) => assert AddrBytes(a)[1..] == b;
    case Name(n, p) =>
      var b := AddrBytes(a);
      assert b == [NAME, |n|] + (n + p);
      assert b[2..2 + |n|] == n && b[2 + |n|..] == p;
  }
}
