/** Byte strings and big-endian integers. */
module Bytes {

  type byte = x: int | 0 <= x < 256
  type Uint16 = x: int | 0 <= x < 0x1_0000

  function Pow256(n: nat): (p: nat)
    ensures p >= 1
  {
    if n == 0 then 1 else 256 * Pow256(n - 1)
  }

  /** v modulo 256^n as n bytes, most significant first. */
  function PutBE(v: nat, n: nat): (s: seq<byte>)
    ensures |s| == n
  {
    if n == 0 then [] else PutBE(v / 256, n - 1) + [v % 256]
  }

  function GetBE(s: seq<byte>): nat {
    if s == [] then 0 else GetBE(s[..|s| - 1]) * 256 + s[|s| - 1]
  }

  lemma {:induction false} GetBEBound(s: seq<byte>)
    ensures GetBE(s) < Pow256(|s|)
  {
    if s != [] {
      GetBEBound(s[..|s| - 1]);
    }
  }

  lemma {:induction false} PutThenGet(v: nat, n: nat)
    requires v < Pow256(n)
    ensures GetBE(PutBE(v, n)) == v
  {
    if n > 0 {
      PutThenGet(v / 256, n - 1);
      assert PutBE(v, n)[..n - 1] == PutBE(v / 256, n - 1);
    }
  }

  lemma {:induction false} GetThenPut(s: seq<byte>)
    ensures PutBE(GetBE(s), |s|) == s
  {
    if s != [] {
      GetThenPut(s[..|s| - 1]);
      var h, l := GetBE(s[..|s| - 1]), s[|s| - 1];
      assert (h * 256 + l) / 256 == h && (h * 256 + l) % 256 == l;
    }
  }

  function Zeros(n: nat): (s: seq<byte>)
    ensures |s| == n
  {
    seq(n, _ => 0)
  }

  const UINT16: nat := 0x1_0000
  const UINT32: nat := 0x1_0000_0000
  const UINT64: nat := 0x1_0000_0000_0000_0000

  lemma Widths()
    ensures Pow256(2) == UINT16 && Pow256(4) == UINT32 && Pow256(8) == UINT64
  {
    assert Pow256(1) == 256;
    assert Pow256(2) == 256 * Pow256(1);
    assert Pow256(3) == 256 * Pow256(2);
    assert Pow256(4) == 256 * Pow256(3);
    assert Pow256(5) == 256 * Pow256(4);
    assert Pow256(6) == 256 * Pow256(5);
    assert Pow256(7) == 256 * Pow256(6);
  }

  function Put16(v: nat): (s: seq<byte>) ensures |s| == 2 { PutBE(v, 2) }
  function Put32(v: nat): (s: seq<byte>) ensures |s| == 4 { PutBE(v, 4) }
  function Put64(v: nat): (s: seq<byte>) ensures |s| == 8 { PutBE(v, 8) }
}
