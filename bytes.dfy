/**
 * Machine representations the settings buffers hold: bytes, UTF-16 code units
 * (`wchar_t` on Windows) and the 32-bit `int` that `memcpy` copies as four
 * little-endian bytes in two's complement.
 */
module Bytes {

  newtype byte = x: int | 0 <= x < 0x100

  /** One UTF-16 code unit, the element of a `std::wstring`. */
  newtype wchar = x: int | 0 <= x < 0x1_0000

  /** The C++ `int` of the generated flag settings. */
  newtype int32 = x: int | -0x8000_0000 <= x < 0x8000_0000

  /** The four bytes `memcpy(&value, 4)` writes for an `int` on a little-endian machine. */
  function Int32ToBytes(v: int32): (r: seq<byte>)
    ensures |r| == 4
  {
    var u := if v < 0 then v as int + 0x1_0000_0000 else v as int;
    [(u % 0x100) as byte, (u / 0x100 % 0x100) as byte, (u / 0x1_0000 % 0x100) as byte, (u / 0x100_0000) as byte]
  }

  /** `*(int*)buffer`: the `int` stored in the first four bytes. */
  function BytesToInt32(b: seq<byte>): int32
    requires |b| >= 4
  {
    var u := b[0] as int + 0x100 * b[1] as int + 0x1_0000 * b[2] as int + 0x100_0000 * b[3] as int;
    (if u >= 0x8000_0000 then u - 0x1_0000_0000 else u) as int32
  }

  lemma UnsignedSplit(u: int)
    requires 0 <= u < 0x1_0000_0000
    ensures u % 0x100 + 0x100 * (u / 0x100 % 0x100) + 0x1_0000 * (u / 0x1_0000 % 0x100) + 0x100_0000 * (u / 0x100_0000) == u
  {
    var b0, q0 := u % 0x100, u / 0x100;
    var b1, q1 := q0 % 0x100, q0 / 0x100;
    assert u / 0x1_0000 == q1;
    var b2, q2 := q1 % 0x100, q1 / 0x100;
    assert u / 0x100_0000 == q2;
  }

  /** Reading back the bytes written for an `int` gives the `int`. */
  lemma Int32RoundTrip(v: int32)
    ensures BytesToInt32(Int32ToBytes(v)) == v
  {
    var u := if v < 0 then v as int + 0x1_0000_0000 else v as int;
    UnsignedSplit(u);
  }

  lemma PeelByte(a: int, rest: int)
    requires 0 <= a < 0x100 && 0 <= rest
    ensures (a + 0x100 * rest) % 0x100 == a && (a + 0x100 * rest) / 0x100 == rest
  {
  }

  /** Writing back the `int` read from four bytes gives those bytes. */
  lemma BytesRoundTrip(b: seq<byte>)
    requires |b| == 4
    ensures Int32ToBytes(BytesToInt32(b)) == b
  {
    var r2 := b[2] as int + 0x100 * b[3] as int;
    var r1 := b[1] as int + 0x100 * r2;
    var u := b[0] as int + 0x100 * r1;
    assert u == b[0] as int + 0x100 * b[1] as int + 0x1_0000 * b[2] as int + 0x100_0000 * b[3] as int;
    PeelByte(b[0] as int, r1);
    PeelByte(b[1] as int, r2);
    PeelByte(b[2] as int, b[3] as int);
    assert u == b[0] as int + 0x100 * b[1] as int + 0x1_0000 * r2;
    assert u / 0x1_0000 == r2;
    assert u == (b[0] as int + 0x100 * b[1] as int + 0x1_0000 * b[2] as int) + 0x100_0000 * b[3] as int;
    assert u / 0x100_0000 == b[3] as int;
  }
}
