/** Fixed-width integers of the AVR target and the C conversions between them.
    On the target `int` is 16 bits wide and `long` 32 bits; unsigned arithmetic
    wraps modulo 2^N and a conversion to a narrower signed type is taken to
    wrap as two's complement (what the target compiler does). */
module Machine {

  type u8 = x: int | 0 <= x < 0x100
  type u16 = x: int | 0 <= x < 0x1_0000
  type u32 = x: int | 0 <= x < 0x1_0000_0000
  type i8 = x: int | -0x80 <= x < 0x80
  type i16 = x: int | -0x8000 <= x < 0x8000
  type i32 = x: int | -0x8000_0000 <= x < 0x8000_0000

  /** A byte of a file or of a serial stream. */
  type byte = u8

  const U32_MAX: u32 := 0xFFFF_FFFF

  datatype Option<T> = None | Some(value: T)

  /** Conversion of any integer to uint32_t (and unsigned 32-bit arithmetic). */
  function U32(x: int): (r: u32)
    ensures (r - x) % 0x1_0000_0000 == 0
    ensures 0 <= x <= U32_MAX ==> r == x
  {
    x % 0x1_0000_0000
  }

  /** Conversion of any integer to a 16-bit `int` on the target. */
  function I16(x: int): (r: i16)
    ensures (r - x) % 0x1_0000 == 0
    ensures -0x8000 <= x < 0x8000 ==> r == x
  {
    var m := x % 0x1_0000;
    if m < 0x8000 then m else m - 0x1_0000
  }

  /** Conversion of any integer to int32_t. */
  function I32(x: int): (r: i32)
    ensures (r - x) % 0x1_0000_0000 == 0
    ensures -0x8000_0000 <= x < 0x8000_0000 ==> r == x
  {
    var m := x % 0x1_0000_0000;
    if m < 0x8000_0000 then m else m - 0x1_0000_0000
  }

  /** C division, which truncates toward zero (Dafny's `/` is Euclidean). */
  function CDiv(a: int, b: int): (q: int)
    requires b > 0
    ensures a >= 0 ==> q == a / b
    ensures a < 0 ==> q == -((-a) / b)
  {
    if a >= 0 then a / b else -((-a) / b)
  }

  /** C remainder, which takes the sign of the dividend. */
  function CMod(a: int, b: int): (r: int)
    requires b > 0
    ensures a == CDiv(a, b) * b + r
    ensures -b < r < b
    ensures a >= 0 ==> r == a % b
  {
    a - CDiv(a, b) * b
  }

  /** Conversion of an `int` to a `char` array element: keeps the low 8 bits. */
  function CharOf(x: int): (c: char)
    ensures c as int == x % 0x100
  {
    (x % 0x100) as char
  }
}
