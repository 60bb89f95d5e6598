/** Bytes and fixed-width little-endian integers, as Python's
    `struct.pack('<H' | '<I' | '<Q', x)` writes them. */
module Bytes {
  import opened Results

  type byte = x: int | 0 <= x < 256

  /** `struct.pack` raises `struct.error` for a value outside the format's range. */
  datatype PackError = StructError

  function Pow256(n: nat): (r: nat)
    ensures r > 0
  {
    if n == 0 then 1 else 256 * Pow256(n - 1)
  }

  const U16Limit := 0x1_0000
  const U32Limit := 0x1_0000_0000
  const U64Limit := 0x1_0000_0000_0000_0000

  lemma Pow256Widths()
    ensures Pow256(2) == U16Limit && Pow256(4) == U32Limit && Pow256(8) == U64Limit
  {
    assert Pow256(2) == 0x1_0000 by { assert Pow256(1) == 256; }
    assert Pow256(4) == 0x1_0000_0000 by { assert Pow256(3) == 256 * 0x1_0000; }
    assert Pow256(6) == 0x1_0000_0000_0000 by { assert Pow256(5) == 256 * 0x1_0000_0000; }
    assert Pow256(8) == U64Limit by { assert Pow256(7) == 256 * 0x1_0000_0000_0000; }
  }

  /** The `width` low-order bytes of `x`, least significant first. */
  function LittleEndian(x: nat, width: nat): (s: seq<byte>)
    requires x < Pow256(width)
    ensures |s| == width
  {
    if width == 0 then [] else [x % 256] + LittleEndian(x / 256, width - 1)
  }

  /** The number a little-endian byte string denotes: the decoding partner of LittleEndian. */
  function FromLittleEndian(s: seq<byte>): (x: nat)
    ensures x < Pow256(|s|)
  {
    if s == [] then 0 else s[0] + 256 * FromLittleEndian(s[1..])
  }

  lemma {:induction false} LittleEndianRoundTrip(x: nat, width: nat)
    requires x < Pow256(width)
    ensures FromLittleEndian(LittleEndian(x, width)) == x
  {
    if width > 0 {
      LittleEndianRoundTrip(x / 256, width - 1);
      var s := LittleEndian(x, width);
      assert s[1..] == LittleEndian(x / 256, width - 1);
    }
  }

  /** `struct.pack('<' + fmt, x)` for an unsigned format of `width` bytes. */
  function PackUnsigned(x: int, width: nat): (r: Result<seq<byte>, PackError>)
    ensures r.Ok? <==> 0 <= x < Pow256(width)
    ensures r.Ok? ==> |r.value| == width && FromLittleEndian(r.value) == x
  {
    if 0 <= x < Pow256(width) then
      LittleEndianRoundTrip(x, width);
      Ok(LittleEndian(x, width))
    else Err(StructError)
  }

  function U16(x: nat): (s: seq<byte>)
    requires x < U16Limit
    ensures |s| == 2 && FromLittleEndian(s) == x
    ensures PackUnsigned(x, 2) == Ok(s)
  {
    Pow256Widths();
    LittleEndianRoundTrip(x, 2);
    LittleEndian(x, 2)
  }

  function U32(x: nat): (s: seq<byte>)
    requires x < U32Limit
    ensures |s| == 4 && FromLittleEndian(s) == x
    ensures PackUnsigned(x, 4) == Ok(s)
  {
    Pow256Widths();
    LittleEndianRoundTrip(x, 4);
    LittleEndian(x, 4)
  }

  function U64(x: nat): (s: seq<byte>)
    requires x < U64Limit
    ensures |s| == 8 && FromLittleEndian(s) == x
    ensures PackUnsigned(x, 8) == Ok(s)
  {
    Pow256Widths();
    LittleEndianRoundTrip(x, 8);
    LittleEndian(x, 8)
  }

  /** `b'\x00' * n`. */
  function Zeros(n: nat): (z: seq<byte>)
    ensures |z| == n && forall i :: 0 <= i < n ==> z[i] == 0
  {
    seq(n, _ => 0)
  }

  predicate IsAscii(s: string)
  {
    forall i :: 0 <= i < |s| ==> s[i] as int < 128
  }

  /** The UTF-8 (equally, ASCII) encoding of a pure-ASCII string: one byte per character. */
  function Ascii(s: string): (b: seq<byte>)
    requires IsAscii(s)
    ensures |b| == |s| && forall i :: 0 <= i < |s| ==> b[i] == s[i] as int
  {
    seq(|s|, i requires 0 <= i < |s| => s[i] as int)
  }

  lemma AsciiConcat(s: string, t: string)
    requires IsAscii(s) && IsAscii(t)
    ensures IsAscii(s + t) && Ascii(s + t) == Ascii(s) + Ascii(t)
  {
    assert forall i :: 0 <= i < |s + t| ==> (s + t)[i] == if i < |s| then s[i] else t[i - |s|];
  }
}
