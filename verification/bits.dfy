/** Python's arbitrary-precision integer shift and bitwise-or, on Dafny's unbounded ints. */
module Bits {

  /** 2^k, the value of `1 << k`. */
  function Pow2(k: nat): (r: nat)
    ensures r >= 1
    ensures k >= 1 ==> r % 2 == 0
  {
    if k == 0 then 1 else 2 * Pow2(k - 1)
  }

  function Abs(x: int): nat { if x < 0 then -x else x }

  /**
   * Python's `a | b` on ints of any sign: two's complement with an infinite
   * sign extension. Dafny's `/` and `%` by 2 round towards minus infinity, as
   * Python's `>>` does, so peeling off the low bit is exact for negative
   * operands too.
   */
  function BitOr(a: int, b: int): (r: int)
    ensures 0 <= a && 0 <= b ==> a <= r && b <= r
    ensures a < 0 || b < 0 ==> r < 0
    decreases Abs(a) + Abs(b)
  {
    if a == 0 then b
    else if b == 0 then a
    else if a == -1 || b == -1 then -1
    else 2 * BitOr(a / 2, b / 2) + (if a % 2 == 1 || b % 2 == 1 then 1 else 0)
  }

  /** Or-ing a value that fits below bit k into `t << k` is plain addition. */
  lemma {:induction false} BitOrShifted(t: nat, k: nat, b: int)
    requires 0 <= b < Pow2(k)
    ensures BitOr(t * Pow2(k), b) == t * Pow2(k) + b
  {
    var a := t * Pow2(k);
    if a == 0 || b == 0 {
    } else {
      assert k >= 1;
      var h := t * Pow2(k - 1);
      assert a == 2 * h;
      assert a / 2 == h && a % 2 == 0;
      assert b / 2 < Pow2(k - 1);
      BitOrShifted(t, k - 1, b / 2);
      assert BitOr(a, b) == 2 * (h + b / 2) + b % 2;
    }
  }
}
