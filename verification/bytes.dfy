/** Fixed-width unsigned integers and the little-endian helpers shared by the
    gateway's frame serialiser and the listeners' `<IB8s` decoder. */
module Bytes {

  /** An `unsigned char` / `uint8_t`. */
  type byte = x: int | 0 <= x < 0x100

  /** A `uint16_t`. */
  type u16 = x: int | 0 <= x < 0x1_0000

  /** A `uint32_t`. */
  type u32 = x: int | 0 <= x < 0x1_0000_0000

  datatype Option<+T> = None | Some(value: T)

  /** Big-endian composition `(hi << 8) | lo` of two bytes. */
  function Be16(hi: byte, lo: byte): (v: u16)
    ensures v / 0x100 == hi && v % 0x100 == lo
  {
    hi as int * 0x100 + lo as int
  }

  /** The little-endian bytes of a 32-bit value (what `<I` expects). */
  function LeBytes32(x: u32): (r: seq<byte>)
    ensures |r| == 4
    ensures r[0] == x % 0x100
    ensures r[3] == x / 0x100_0000
  {
    var q1 := x / 0x100;
    var q2 := q1 / 0x100;
    var q3 := q2 / 0x100;
    [x % 0x100, q1 % 0x100, q2 % 0x100, q3]
  }

  /** The value of four little-endian bytes (Python's `<I`). */
  function LeValue32(b: seq<byte>): (x: u32)
    requires |b| == 4
    ensures x % 0x100 == b[0]
    ensures x / 0x100_0000 == b[3]
  {
    b[0] as int + 0x100 * (b[1] as int + 0x100 * (b[2] as int + 0x100 * b[3] as int))
  }

  lemma LeValueOfBytes(x: u32)
    ensures LeValue32(LeBytes32(x)) == x
  {
    var q1 := x / 0x100;
    var q2 := q1 / 0x100;
    var q3 := q2 / 0x100;
    assert q2 == q3 * 0x100 + q2 % 0x100;
    assert q1 == q2 * 0x100 + q1 % 0x100;
    assert x == q1 * 0x100 + x % 0x100;
  }

  lemma LeBytesOfValue(b: seq<byte>)
    requires |b| == 4
    ensures LeBytes32(LeValue32(b)) == b
  {
    var x := LeValue32(b);
    var m2: int := b[2] as int + 0x100 * b[3] as int;
    var m1: int := b[1] as int + 0x100 * m2;
    assert x == b[0] as int + 0x100 * m1;
    assert x / 0x100 == m1 && x % 0x100 == b[0];
    assert m1 / 0x100 == m2 && m1 % 0x100 == b[1];
    assert m2 / 0x100 == b[3] && m2 % 0x100 == b[2];
  }

  /** Unsigned 16-bit wrap-around of an `int` expression assigned to a
      `uint16_t` (C's conversion to an unsigned type is modulo 2^16). */
  function WrapU16(x: int): (v: u16)
    ensures 0 <= x < 0x1_0000 ==> v == x
    ensures (v - x) % 0x1_0000 == 0
  {
    x % 0x1_0000
  }
}
