/** The integer widths and the truncating operators of the C program. */
module FixedWidth {

  type u8 = x: int | 0 <= x < 0x100
  type u16 = x: int | 0 <= x < 0x1_0000
  type i16 = x: int | -0x8000 <= x < 0x8000

  /** Assignment to a `uint8_t`. */
  function U8(x: int): (r: u8)
    ensures 0 <= x < 0x100 ==> r == x
  {
    x % 0x100
  }

  /** Assignment to an `int16_t`, two's complement. */
  function I16(x: int): (r: i16)
    ensures -0x8000 <= x < 0x8000 ==> r == x
  {
    (x + 0x8000) % 0x1_0000 - 0x8000
  }

  /** Both keep the value but for a multiple of their range. */
  lemma WrapsByRange(x: int)
    ensures (x - U8(x)) % 0x100 == 0 && (x - I16(x)) % 0x1_0000 == 0
  {
    assert x - U8(x) == x / 0x100 * 0x100;
    assert x - I16(x) == (x + 0x8000) / 0x1_0000 * 0x1_0000;
  }

  /** C's `/`: the quotient is truncated toward zero. */
  function Quot(a: int, b: int): (q: int)
    requires b > 0
    ensures a <= 0 ==> q <= 0
    ensures a >= 0 ==> q >= 0
  {
    if a >= 0 then a / b else -((-a) / b)
  }

  /** C's `%`: the remainder takes the sign of the dividend. */
  function Rem(a: int, b: int): (r: int)
    requires b > 0
    ensures -b < r < b
    ensures a >= 0 ==> 0 <= r
    ensures a <= 0 ==> r <= 0
    ensures a == b * Quot(a, b) + r
  {
    if a >= 0 then a % b else -((-a) % b)
  }

  function Abs(x: int): (r: nat)
    ensures r == x || r == -x
  {
    if x < 0 then -x else x
  }

  function Min(a: int, b: int): (m: int)
    ensures m <= a && m <= b && (m == a || m == b)
  {
    if a < b then a else b
  }

  function Max(a: int, b: int): (m: int)
    ensures m >= a && m >= b && (m == a || m == b)
  {
    if a > b then a else b
  }

  lemma ProductGrows(n: int, k: int, unit: int)
    requires unit > 0
    ensures n <= k ==> n * unit <= k * unit
  {
    if n <= k {
      assert (k - n) * unit >= 0;
      assert k * unit == n * unit + (k - n) * unit;
    }
  }

  /** Quotient and remainder are determined by their defining equation. */
  lemma DivModUnique(a: int, b: int, q: int, r: int)
    requires b > 0 && a == q * b + r && 0 <= r < b
    ensures a / b == q && a % b == r
  {
    var k, m := a / b, a % b;
    assert a == b * k + m && b * k == k * b;
    ProductGrows(q + 1, k, b);
    ProductGrows(k + 1, q, b);
    assert (q + 1) * b == q * b + b && (k + 1) * b == k * b + b;
  }
}
