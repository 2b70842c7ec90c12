/** IP addresses as net/netip keeps them, and their 16-byte form (section 2.5.5.2 of RFC 4291). */
module Net {
  import opened Bytes

  type Bytes4 = s: seq<byte> | |s| == 4 witness [0, 0, 0, 0]
  type Bytes16 = s: seq<byte> | |s| == 16 witness Zeros(16)

  datatype Addr = NoAddr | V4(v4: Bytes4) | V6(v6: Bytes16, zone: string)

  type Port = Uint16

  datatype AddrPort = AddrPort(addr: Addr, port: Port)

  const MAPPED_PREFIX: seq<byte> := [0, 0, 0, 0, 0, 0, 0, 0, 0, 0, 0xff, 0xff]

  function As16(a: Addr): Bytes16 {
    match a
    case NoAddr => Zeros(16)
    case V4(b) => MAPPED_PREFIX + b
    case V6(b, _) => b
  }

  function From16(b: Bytes16): Addr {
    V6(b, "")
  }

  predicate Mapped(b: Bytes16) {
    b[..12] == MAPPED_PREFIX
  }

  function Unmap(a: Addr): Addr {
    if a.V6? && Mapped(a.v6) then V4(a.v6[12..]) else a
  }

  /** A valid address without a zone that is not an IPv4 address in IPv6 clothing. */
  predicate Plain(a: Addr) {
    a.V4? || (a.V6? && a.zone == "" && !Mapped(a.v6))
  }

  /** Print then parse is the identity on exactly the plain addresses. */
  lemma AddrRoundTrip(a: Addr)
    ensures Unmap(From16(As16(a))) == a <==> Plain(a)
  {
    if a.V4? {
      var w := As16(a);
      assert w[..12] == MAPPED_PREFIX && w[12..] == a.v4;
    }
  }

  /** Parse then print is the identity on every 16-byte form. */
  lemma WireRoundTrip(b: Bytes16)
    ensures As16(Unmap(From16(b))) == b
  {
    if Mapped(b) {
      assert b == b[..12] + b[12..];
    }
  }
}
