/**
 * Bytes as the xl tool sees them: 8-bit values, 32-bit unsigned integers in
 * the host's native order (fixed here as little-endian), and the C string
 * literals it writes on the wire.
 */
module Bytes {

  newtype byte = x: int | 0 <= x < 0x100

  const U32_LIMIT: nat := 0x1_0000_0000

  /** A value of C type uint32_t. */
  type u32 = x: nat | x < U32_LIMIT

  /** Little-endian image of a uint32_t, as the union { uint32_t; char[4] } lays it out. */
  function U32ToBytes(x: u32): (r: seq<byte>)
    ensures |r| == 4
  {
    var q1 := x / 0x100;
    var q2 := q1 / 0x100;
    var q3 := q2 / 0x100;
    [(x % 0x100) as byte, (q1 % 0x100) as byte, (q2 % 0x100) as byte, (q3 % 0x100) as byte]
  }

  /** The uint32_t whose little-endian image is `b`. */
  function BytesToU32(b: seq<byte>): (r: u32)
    requires |b| == 4
  {
    b[0] as nat + 0x100 * (b[1] as nat + 0x100 * (b[2] as nat + 0x100 * b[3] as nat))
  }

  lemma DivModByte(x: nat, q: nat, r: nat)
    requires r < 0x100 && x == r + 0x100 * q
    ensures x / 0x100 == q && x % 0x100 == r
  {
  }

  lemma U32RoundTrip(x: u32)
    ensures BytesToU32(U32ToBytes(x)) == x
  {
    var q1 := x / 0x100;
    var q2 := q1 / 0x100;
    var q3 := q2 / 0x100;
    assert q3 < 0x100;
    assert q2 == q2 % 0x100 + 0x100 * q3;
    assert q1 == q1 % 0x100 + 0x100 * q2;
    assert x == x % 0x100 + 0x100 * q1;
  }

  lemma BytesRoundTrip(b: seq<byte>)
    requires |b| == 4
    ensures U32ToBytes(BytesToU32(b)) == b
  {
    var b0, b1, b2, b3 := b[0] as nat, b[1] as nat, b[2] as nat, b[3] as nat;
    var x := BytesToU32(b);
    var t2 := b2 + 0x100 * b3;
    var t1 := b1 + 0x100 * t2;
    DivModByte(x, t1, b0);
    DivModByte(t1, t2, b1);
    DivModByte(t2, b3, b2);
  }

  /** The bytes of an ASCII string literal (characters are taken modulo 256). */
  function Ascii(s: string): (r: seq<byte>)
    ensures |r| == |s|
    ensures forall i :: 0 <= i < |s| && (s[i] as int) < 0x100 ==> r[i] as int == s[i] as int
  {
    seq(|s|, i requires 0 <= i < |s| => ((s[i] as int) % 0x100) as byte)
  }

  /** The same literal as a C array initialiser: the string followed by its NUL. */
  function CString(s: string): (r: seq<byte>)
    ensures |r| == |s| + 1 && r[..|s|] == Ascii(s) && r[|s|] == 0
  {
    Ascii(s) + [0]
  }
}
