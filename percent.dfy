/**
 * `Math.round(a / b)` and `Math.round(a / b * 100)` in exact arithmetic:
 * the nearest integer, with halves rounded up.
 */
module Percent {

  /** `Math.round(a / b)` for a positive divisor. */
  function RoundDiv(a: int, b: int): int
    requires b > 0
  {
    (2 * a + b) / (2 * b)
  }

  /** The rounded quotient is within half a unit of the exact one, halves going up. */
  lemma RoundDivNearest(a: int, b: int)
    requires b > 0
    ensures var r := RoundDiv(a, b); 2 * b * r - b <= 2 * a < 2 * b * r + b
  {
    var q := (2 * a + b) / (2 * b);
    var m := (2 * a + b) % (2 * b);
    assert 2 * a + b == 2 * b * q + m && 0 <= m < 2 * b;
  }

  /** Only one integer is that close: the rounding is determined by its window. */
  lemma RoundDivUnique(a: int, b: int, r: int)
    requires b > 0
    requires 2 * b * r - b <= 2 * a < 2 * b * r + b
    ensures RoundDiv(a, b) == r
  {
    RoundDivNearest(a, b);
    var q := RoundDiv(a, b);
    BelowOneStep(2 * b, q - r);
    BelowOneStep(2 * b, r - q);
  }

  /** A multiple of a positive step that stays below the step is at most 0. */
  lemma BelowOneStep(c: int, d: int)
    requires c > 0 && c * d < c
    ensures d <= 0
  {
    if d >= 1 {
      MulAtLeast(c, d);
    }
  }

  lemma MulAtLeast(c: int, d: int)
    requires c > 0 && d >= 1
    ensures c * d >= c
  {
  }

  /** Exact quotients are left alone. */
  lemma RoundDivExact(k: int, b: int)
    requires b > 0
    ensures RoundDiv(k * b, b) == k
  {
    RoundDivUnique(k * b, b, k);
  }

  lemma RoundDivMonotone(a1: int, a2: int, b: int)
    requires b > 0 && a1 <= a2
    ensures RoundDiv(a1, b) <= RoundDiv(a2, b)
  {
    RoundDivNearest(a1, b);
    RoundDivNearest(a2, b);
    var r1, r2 := RoundDiv(a1, b), RoundDiv(a2, b);
    BelowOneStep(2 * b, r1 - r2);
  }

  /** `Math.round(a / b * 100)`: a share as a whole percentage. */
  function RoundPercent(a: int, b: int): int
    requires b > 0
  {
    RoundDiv(100 * a, b)
  }

  /**
   * A share of a whole is a percentage from 0 to 100, 0 for nothing and
   * 100 for everything.
   */
  lemma RoundPercentRange(a: int, b: int)
    requires 0 <= a <= b && b > 0
    ensures 0 <= RoundPercent(a, b) <= 100
    ensures a == 0 ==> RoundPercent(a, b) == 0
    ensures a == b ==> RoundPercent(a, b) == 100
  {
    RoundDivExact(0, b);
    RoundDivExact(100, b);
    RoundDivMonotone(0, 100 * a, b);
    RoundDivMonotone(100 * a, 100 * b, b);
  }

  /**
   * Below 200 parts the rounded percentage reaches 100 only for the whole:
   * a missing part costs at least half a percent.
   */
  lemma RoundPercentFullOnlyWhenWhole(a: int, b: int)
    requires 0 <= a <= b && 0 < b < 200
    ensures RoundPercent(a, b) == 100 <==> a == b
  {
    RoundPercentRange(a, b);
    if a < b {
      RoundDivNearest(100 * a, b);
      assert 200 * a <= 200 * b - 200 < 200 * b - b;
    }
  }

  /** From 200 parts on, one missing part can round up to 100. */
  lemma RoundPercentFullWithAMiss()
    ensures RoundPercent(199, 200) == 100
  {
    RoundDivUnique(100 * 199, 200, 100);
  }
}
