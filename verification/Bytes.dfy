// Machine bytes, MAC addresses and the little-endian layout that every other module shares.

module Bytes {

  datatype Option<+T> = None | Some(value: T)

  type byte = x: int | 0 <= x < 256
  type u16 = x: int | 0 <= x < 0x1_0000
  type i16 = x: int | -0x8000 <= x < 0x8000
  type u32 = x: int | 0 <= x < 0x1_0000_0000

  /** Six octets, most significant first, as `memcmp` and `memcpy` see them. */
  type Mac = m: seq<byte> | |m| == 6 witness [0, 0, 0, 0, 0, 0]

  const ZERO_MAC: Mac := [0, 0, 0, 0, 0, 0]

  function Repeat<T>(n: nat, x: T): (s: seq<T>)
    ensures |s| == n && forall i :: 0 <= i < n ==> s[i] == x
  {
    if n == 0 then [] else Repeat(n - 1, x) + [x]
  }

  function Zeros(n: nat): (s: seq<byte>)
    ensures |s| == n && forall i :: 0 <= i < n ==> s[i] == 0
  {
    Repeat(n, 0)
  }

  // C's narrowing conversions.
  function ToU16(v: int): (r: u16)
    ensures 0 <= v < 0x1_0000 ==> r == v
  {
    v % 0x1_0000
  }

  function ToI16(v: int): (r: i16)
    ensures -0x8000 <= v < 0x8000 ==> r == v
  {
    (v + 0x8000) % 0x1_0000 - 0x8000
  }

  function ToI32(v: int): (r: int)
    ensures -0x8000_0000 <= v < 0x8000_0000 ==> r == v
  {
    (v + 0x8000_0000) % 0x1_0000_0000 - 0x8000_0000
  }

  function Le16(v: u16): (b: seq<byte>)
    ensures |b| == 2
  {
    [v % 256, v / 256]
  }

  function Le32(v: u32): (b: seq<byte>)
    ensures |b| == 4
  {
    [v % 256, v / 0x100 % 256, v / 0x1_0000 % 256, v / 0x100_0000]
  }

  function Read16(b: seq<byte>, at: nat): (v: u16)
    requires at + 2 <= |b|
  {
    b[at] as int + 256 * b[at + 1] as int
  }

  /** A two's complement 16-bit field. */
  function ReadI16(b: seq<byte>, at: nat): (v: i16)
    requires at + 2 <= |b|
  {
    ToI16(Read16(b, at))
  }

  function Read32(b: seq<byte>, at: nat): (v: u32)
    requires at + 4 <= |b|
  {
    b[at] as int + 0x100 * b[at + 1] as int + 0x1_0000 * b[at + 2] as int + 0x100_0000 * b[at + 3] as int
  }

  lemma Le32Inverse(v: u32)
    ensures Read32(Le32(v), 0) == v
  {
    Nested(v);
    var a := v / 256;
    var b := a / 256;
    assert v == v % 256 + 256 * a && a == a % 256 + 256 * b && b == b % 256 + 256 * (b / 256);
  }

  lemma Read32Inverse(b: seq<byte>)
    requires |b| == 4
    ensures Le32(Read32(b, 0)) == b
  {
    Divide(b[0], b[1] as int + 0x100 * b[2] as int + 0x1_0000 * b[3] as int);
    Divide(b[1], b[2] as int + 0x100 * b[3] as int);
    Divide(b[2], b[3]);
    Nested(Read32(b, 0));
  }

  lemma Divide(low: byte, high: nat)
    ensures (low as int + 256 * high) / 256 == high && (low as int + 256 * high) % 256 == low
  {
  }

  lemma Nested(v: nat)
    ensures v / 0x1_0000 == v / 256 / 256 && v / 0x100_0000 == v / 256 / 256 / 256
  {
  }

  lemma I16Inverse(v: i16)
    ensures ToI16(ToU16(v)) == v
  {
  }
}
