/** Bytes, options and the fixed-width integer conversions the program relies on. */
module Bytes {

  type byte = x: int | 0 <= x < 256 witness 0

  datatype Option<+T> = None | Some(value: T)

  const ESC: byte := 0x1B
  const ST8: byte := 0x9C
  const BACKSLASH: byte := 0x5C
  const QUOTE: byte := 0x22
  const COLON: byte := 0x3A
  const NEWLINE: byte := 0x0A

  const I32_MIN: int := -0x8000_0000
  const I32_MAX: int := 0x7FFF_FFFF
  const I64_MAX: int := 0x7FFF_FFFF_FFFF_FFFF

  /** The bytes of an ASCII literal. */
  function Ascii(s: string): (b: seq<byte>)
    requires forall c :: c in s ==> c as int < 128
    ensures |b| == |s|
    ensures forall i :: 0 <= i < |s| ==> b[i] == s[i] as int
  {
    assert forall i :: 0 <= i < |s| ==> s[i] in s;
    seq(|s|, i requires 0 <= i < |s| && s[i] as int < 128 => s[i] as int as byte)
  }

  /** `n as i32`: keep the low 32 bits, read as two's complement. */
  function WrapI32(n: int): (r: int)
    ensures I32_MIN <= r <= I32_MAX
    ensures (r - n) % 0x1_0000_0000 == 0
    ensures I32_MIN <= n <= I32_MAX ==> r == n
  {
    var low := n % 0x1_0000_0000;
    if low > I32_MAX then low - 0x1_0000_0000 else low
  }

  /** `i32::saturating_add`. */
  function SaturatingAddI32(a: int, b: int): (r: int)
    ensures I32_MIN <= r <= I32_MAX
    ensures I32_MIN <= a + b <= I32_MAX ==> r == a + b
    ensures r == I32_MAX <==> a + b >= I32_MAX
    ensures r == I32_MIN <==> a + b <= I32_MIN
  {
    if a + b > I32_MAX then I32_MAX else if a + b < I32_MIN then I32_MIN else a + b
  }

  function Max(a: int, b: int): int {
    if a >= b then a else b
  }

  function Min(a: int, b: int): int {
    if a <= b then a else b
  }
}
