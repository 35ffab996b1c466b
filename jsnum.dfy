/**
 * The pieces of JavaScript number semantics that the hashing code relies on.
 * Every value here is integral, so the double arithmetic of the source is exact
 * (all intermediate magnitudes stay below 2^53) and can be modelled on `int`.
 */
module JsNumber {

  const TWO_32: int := 0x1_0000_0000
  const TWO_31: int := 0x8000_0000

  /** ToInt32 of ECMA-262 section 7.1.6, restricted to integral arguments. */
  function ToInt32(x: int): (r: int)
    ensures -TWO_31 <= r < TWO_31
    ensures (r - x) % TWO_32 == 0
  {
    var m := x % TWO_32;
    if m >= TWO_31 then m - TWO_32 else m
  }

  /** ToInt32 only depends on its argument modulo 2^32. */
  lemma ToInt32Congruent(a: int, b: int)
    requires (a - b) % TWO_32 == 0
    ensures ToInt32(a) == ToInt32(b)
  {
    assert a % TWO_32 == b % TWO_32 by {
      var k := (a - b) / TWO_32;
      assert a == b + k * TWO_32;
      ModShift(b, k);
    }
  }

  lemma ModShift(b: int, k: int)
    ensures (b + k * TWO_32) % TWO_32 == b % TWO_32
  {
  }

  /** Multiples of 2^32 are closed under sums and under scaling by an integer. */
  lemma MultipleSum(a: int, b: int)
    requires a % TWO_32 == 0 && b % TWO_32 == 0
    ensures (a + b) % TWO_32 == 0
  {
    var i, j := a / TWO_32, b / TWO_32;
    assert a + b == (i + j) * TWO_32;
  }

  lemma MultipleScale(a: int, c: int)
    requires a % TWO_32 == 0
    ensures (c * a) % TWO_32 == 0
  {
    var i := a / TWO_32;
    assert c * a == (c * i) * TWO_32;
  }

  /** ToInt32 is the identity on values that already are 32-bit signed integers. */
  lemma ToInt32Identity(x: int)
    requires -TWO_31 <= x < TWO_31
    ensures ToInt32(x) == x
  {
  }

  /** `x << 5` for an int32 `x`: ToInt32 of the left operand, shifted, wrapped to int32. */
  function ShiftLeft5(x: int): (r: int)
    ensures -TWO_31 <= r < TWO_31
    ensures (r - 32 * x) % TWO_32 == 0
  {
    var y := ToInt32(x);
    var r := ToInt32(y * 32);
    MultipleScale(y - x, 32);
    assert r - 32 * x == (r - y * 32) + 32 * (y - x);
    MultipleSum(r - y * 32, 32 * (y - x));
    r
  }

  /** `Math.abs` on integral values. */
  function Abs(x: int): (r: nat)
    ensures r == x || r == -x
  {
    if x < 0 then -x else x
  }

  /**
   * The `%` operator of JavaScript (ECMA-262 section 6.1.6.1.6): the remainder takes the sign
   * of the dividend, unlike Dafny's Euclidean `%`.
   */
  function JsRem(a: int, d: int): (r: int)
    requires d > 0
    ensures a >= 0 ==> 0 <= r < d
    ensures a < 0 ==> -d < r <= 0
    ensures Abs(r) == Abs(a) % d
  {
    if a >= 0 then a % d else -((-a) % d)
  }
}
