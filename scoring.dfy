/**
 * Model of src/lib/scoring.ts: points per answer, XP per game and the
 * XP-to-level curve. The source computes with floating point; every
 * formula is written here in the exact integer form it approximates:
 * difficulty multipliers 1.0/1.5/2.0 become tenths, `mode multiplier * 0.1`
 * becomes hundredths, and floor(100 * L^1.5) becomes isqrt(10000 * L^3).
 */
module Scoring {
  import opened Types

  const BasePoints := 100

  /** DIFFICULTY_MULTIPLIER, in tenths. */
  function DifficultyTenths(d: Difficulty): nat
  {
    match d
    case Facil => 10
    case Medio => 15
    case Dificil => 20
  }

  /** MODE_MULTIPLIER times 0.1, in hundredths. */
  function ModeHundredths(m: GameMode): nat
  {
    match m
    case Treino => 5
    case Desafio => 10
    case Duelo => 15
    case Diario => 12
  }

  /** Position of a difficulty in the order facil < medio < dificil. */
  function DifficultyRank(d: Difficulty): nat
  {
    match d
    case Facil => 0
    case Medio => 1
    case Dificil => 2
  }

  // ---------------------------------------------------------------------------
  // Points for one answer
  // ---------------------------------------------------------------------------

  /** calculateBaseScore: 100, 150 or 200, growing with the difficulty. */
  function BaseScore(d: Difficulty): (r: int)
    ensures r == 100 || r == 150 || r == 200
    ensures r == 100 + 50 * DifficultyRank(d)
  {
    BasePoints * DifficultyTenths(d) / 10
  }

  lemma BaseScoreIncreasing(d1: Difficulty, d2: Difficulty)
    ensures DifficultyRank(d1) < DifficultyRank(d2) <==> BaseScore(d1) < BaseScore(d2)
  {
  }

  /** a <= b implies a / t <= b / t for a positive divisor. */
  lemma DivMonotone(a: int, b: int, t: int)
    requires t > 0 && a <= b
    ensures a / t <= b / t
  {
    if a / t > b / t {
      MulMonotone(t, b / t + 1, a / t);
    }
  }

  /** Multiplying by a non-negative factor keeps the order. */
  lemma MulMonotone(t: int, x: int, y: int)
    requires t >= 0 && x <= y
    ensures t * x <= t * y
  {
    assert t * y - t * x == t * (y - x);
  }

  /** A non-negative numerator below k * t gives a quotient below k. */
  lemma DivBelow(a: int, t: int, k: int)
    requires t > 0 && 0 <= a < k * t
    ensures 0 <= a / t < k
  {
    if a / t >= k {
      MulMonotone(t, k, a / t);
    }
  }

  /** Dividing k * t by t gives back k. */
  lemma MulDivCancel(k: int, t: int)
    requires t > 0
    ensures (k * t) / t == k
  {
    var q, m := (k * t) / t, (k * t) % t;
    assert t * q + m == t * k;
    if q < k {
      MulMonotone(t, q + 1, k);
    } else if q > k {
      MulMonotone(t, k + 1, q);
    }
  }

  /** The speed bonus quotient lies in [0, 50] and is 50 when no time was used. */
  lemma SpeedBonusRange(timeRemaining: int, totalTime: int)
    requires 0 < timeRemaining && 0 < totalTime
    ensures timeRemaining <= totalTime ==> 0 <= 50 * timeRemaining / totalTime <= 50
    ensures timeRemaining == totalTime ==> 50 * timeRemaining / totalTime == 50
  {
    if timeRemaining <= totalTime {
      MulMonotone(50, timeRemaining, totalTime);
      DivBelow(50 * timeRemaining, totalTime, 51);
    }
    if timeRemaining == totalTime {
      MulDivCancel(50, totalTime);
    }
  }

  /**
   * calculateSpeedBonus with `totalTime > 0`: nothing once the time is up,
   * otherwise floor(50 * timeRemaining / totalTime). It is the full 50 when
   * no time was used and stays within [0, 50] while the time is in range.
   */
  function SpeedBonus(timeRemaining: int, totalTime: int): (r: int)
    requires totalTime > 0
    ensures timeRemaining <= 0 ==> r == 0
    ensures 0 < timeRemaining <= totalTime ==> 0 <= r <= 50
    ensures timeRemaining == totalTime ==> r == 50
  {
    if timeRemaining <= 0 then 0
    else
      SpeedBonusRange(timeRemaining, totalTime);
      50 * timeRemaining / totalTime
  }

  /** More time left never gives a smaller speed bonus. */
  lemma SpeedBonusMonotone(t1: int, t2: int, totalTime: int)
    requires totalTime > 0 && t1 <= t2
    ensures SpeedBonus(t1, totalTime) <= SpeedBonus(t2, totalTime)
  {
    if t1 > 0 {
      MulMonotone(50, t1, t2);
      DivMonotone(50 * t1, 50 * t2, totalTime);
    } else if t2 > 0 {
      DivMonotone(0, 50 * t2, totalTime);
    }
  }

  /** STREAK_BONUS as the source declares it: threshold to bonus. */
  const StreakBonusTable: map<int, int> := map[3 := 25, 5 := 50, 10 := 100, 15 := 200]

  /** The thresholds of STREAK_BONUS sorted in descending order. */
  const StreakThresholdsDescending: seq<int> := [15, 10, 5, 3]

  /**
   * getStreakBonus: the bonus of the single highest threshold the streak
   * reaches, or 0 below the lowest threshold. Bonuses do not add up.
   */
  function StreakBonus(currentStreak: int): (r: int)
    ensures currentStreak < 3 <==> r == 0
  {
    if currentStreak >= 15 then 200
    else if currentStreak >= 10 then 100
    else if currentStreak >= 5 then 50
    else if currentStreak >= 3 then 25
    else 0
  }

  /**
   * The table view of StreakBonus: a non-zero bonus is the table entry of
   * a threshold reached by the streak that no other reached threshold exceeds.
   */
  lemma StreakBonusIsHighestReachedThreshold(s: int)
    ensures StreakBonus(s) == 0 <==> forall t :: t in StreakBonusTable ==> s < t
    ensures StreakBonus(s) != 0 ==>
      exists t :: t in StreakBonusTable && t <= s && StreakBonusTable[t] == StreakBonus(s) &&
        forall u :: u in StreakBonusTable && u <= s ==> u <= t
  {
    if s >= 15 {
      assert 15 in StreakBonusTable && StreakBonusTable[15] == 200;
    } else if s >= 10 {
      assert 10 in StreakBonusTable && StreakBonusTable[10] == 100;
    } else if s >= 5 {
      assert 5 in StreakBonusTable && StreakBonusTable[5] == 50;
    } else if s >= 3 {
      assert 3 in StreakBonusTable && StreakBonusTable[3] == 25;
    } else {
      assert 3 in StreakBonusTable;
    }
  }

  lemma StreakThresholdsAreTheTableSorted()
    ensures forall i :: 0 <= i < |StreakThresholdsDescending| ==> StreakThresholdsDescending[i] in StreakBonusTable
    ensures forall t :: t in StreakBonusTable ==> t in StreakThresholdsDescending
    ensures forall i, j :: 0 <= i < j < |StreakThresholdsDescending| ==>
      StreakThresholdsDescending[i] > StreakThresholdsDescending[j]
  {
  }

  lemma StreakBonusMonotone(s1: int, s2: int)
    requires s1 <= s2
    ensures StreakBonus(s1) <= StreakBonus(s2)
  {
  }

  /**
   * getStreakBonus as the source runs it: walk the thresholds from the
   * highest down and return the bonus of the first one the streak reaches.
   */
  method GetStreakBonus(currentStreak: int) returns (bonus: int)
    ensures bonus == StreakBonus(currentStreak)
  {
    var thresholds := StreakThresholdsDescending;
    var i := 0;
    while i < |thresholds|
      invariant 0 <= i <= |thresholds|
      invariant forall k :: 0 <= k < i ==> currentStreak < thresholds[k]
    {
      var threshold := thresholds[i];
      if currentStreak >= threshold {
        assert i == 0 || currentStreak < thresholds[i - 1];
        return StreakBonusTable[threshold];
      }
      i := i + 1;
    }
    assert currentStreak < thresholds[3];
    return 0;
  }

  /**
   * calculateAnswerScore: nothing for a wrong answer; otherwise the base
   * points plus the streak bonus, plus the speed bonus when both time
   * values are supplied. A correct answer is worth at least 100.
   */
  function AnswerScore(difficulty: Difficulty, isCorrect: bool, currentStreak: int,
                       timeRemaining: Option<int>, totalTime: Option<int>): (r: int)
    requires timeRemaining.Some? && totalTime.Some? ==> totalTime.value > 0
    ensures !isCorrect ==> r == 0
    ensures isCorrect ==> r >= BaseScore(difficulty) + StreakBonus(currentStreak) >= 100
    ensures isCorrect && (timeRemaining.None? || totalTime.None?) ==>
      r == BaseScore(difficulty) + StreakBonus(currentStreak)
    ensures isCorrect && timeRemaining.Some? && totalTime.Some? && timeRemaining.value <= totalTime.value ==>
      r <= BaseScore(difficulty) + StreakBonus(currentStreak) + 50
  {
    if !isCorrect then 0
    else
      var speed := if timeRemaining.Some? && totalTime.Some?
                   then SpeedBonus(timeRemaining.value, totalTime.value) else 0;
      BaseScore(difficulty) + speed + StreakBonus(currentStreak)
  }

  // ---------------------------------------------------------------------------
  // Experience and levels
  // ---------------------------------------------------------------------------

  /** calculateXP: floor(score * modeMultiplier * 0.1). */
  function XP(score: int, mode: GameMode): (r: int)
    ensures score == 0 ==> r == 0
    ensures score >= 0 ==> 0 <= r <= score * 15 / 100
  {
    var r := score * ModeHundredths(mode) / 100;
    assert score >= 0 ==> 0 <= r <= score * 15 / 100 by {
      if score >= 0 {
        MulMonotone(score, ModeHundredths(mode), 15);
        DivMonotone(0, score * ModeHundredths(mode), 100);
        DivMonotone(score * ModeHundredths(mode), score * 15, 100);
      }
    }
    r
  }

  /** A higher score never earns less XP in the same mode. */
  lemma XPMonotone(s1: int, s2: int, mode: GameMode)
    requires s1 <= s2
    ensures XP(s1, mode) <= XP(s2, mode)
  {
    MulMonotone(ModeHundredths(mode), s1, s2);
    DivMonotone(s1 * ModeHundredths(mode), s2 * ModeHundredths(mode), 100);
  }

  /** n^2 and n^3, built up from those of n - 1 without multiplying unknowns. */
  function SquareAndCube(n: nat): (nat, nat)
  {
    if n == 0 then (0, 0)
    else
      var (sq, cu) := SquareAndCube(n - 1);
      (sq + 2 * n - 1, cu + 3 * sq + 3 * n - 2)
  }

  lemma SquareExpand(n: int)
    ensures n * n == (n - 1) * (n - 1) + 2 * n - 1
  {
  }

  lemma CubeExpand(n: int)
    ensures n * n * n == (n - 1) * (n - 1) * (n - 1) + 3 * ((n - 1) * (n - 1)) + 3 * n - 2
  {
  }

  lemma {:induction false} SquareAndCubeCorrect(n: nat)
    ensures SquareAndCube(n) == (n * n, n * n * n)
  {
    if n > 0 {
      SquareAndCubeCorrect(n - 1);
      SquareExpand(n);
      CubeExpand(n);
    }
  }

  /** (n + 1)^2 expanded around n. */
  lemma SquareSucc(n: int)
    ensures (n + 1) * (n + 1) == n * n + 2 * n + 1
  {
  }

  /**
   * The integer square root of n paired with its square, by halving: the
   * root of n is twice the root of n / 4, or one more. Carrying the square
   * along keeps every step free of products of unknowns.
   */
  function RootAndSquare(n: nat): (p: (nat, nat))
    decreases n
  {
    if n < 2 then (n, n)
    else
      var (s, ss) := RootAndSquare(n / 4);
      var odd := 4 * ss + 4 * s + 1;
      if odd <= n then (2 * s + 1, odd) else (2 * s, 4 * ss)
  }

  /** The integer square root: the largest r with r * r <= n. */
  function Isqrt(n: nat): nat
  {
    RootAndSquare(n).0
  }

  /** The squares one halving step of the root compares against. */
  lemma HalvingSquares(s: int)
    ensures (2 * s) * (2 * s) == 4 * (s * s)
    ensures (2 * s + 1) * (2 * s + 1) == 4 * (s * s) + 4 * s + 1
    ensures (2 * s + 1 + 1) * (2 * s + 1 + 1) == 4 * (s * s) + 8 * s + 4
    ensures (s + 1) * (s + 1) == s * s + 2 * s + 1
  {
  }

  lemma {:induction false} RootAndSquareCorrect(n: nat)
    ensures RootAndSquare(n).1 == RootAndSquare(n).0 * RootAndSquare(n).0
    ensures RootAndSquare(n).1 <= n < (RootAndSquare(n).0 + 1) * (RootAndSquare(n).0 + 1)
    decreases n
  {
    if n >= 2 {
      RootAndSquareCorrect(n / 4);
      var (s, ss) := RootAndSquare(n / 4);
      HalvingSquares(s);
      assert 4 * (n / 4) <= n < 4 * (n / 4) + 4;
    }
  }

  /** Isqrt meets its definition: r * r <= n < (r + 1) * (r + 1). */
  lemma IsqrtIsRoot(n: nat)
    ensures Isqrt(n) * Isqrt(n) <= n < (Isqrt(n) + 1) * (Isqrt(n) + 1)
  {
    RootAndSquareCorrect(n);
  }

  lemma SquareMonotone(a: int, b: int)
    requires 0 <= a <= b
    ensures a * a <= b * b
  {
    MulMonotone(a, a, b);
    MulMonotone(b, a, b);
  }

  /** Only one number has the integer-square-root property. */
  lemma IsqrtUnique(n: nat, r: nat)
    requires r * r <= n < (r + 1) * (r + 1)
    ensures Isqrt(n) == r
  {
    var s := Isqrt(n);
    IsqrtIsRoot(n);
    if s < r {
      SquareMonotone(s + 1, r);
    } else if s > r {
      SquareMonotone(r + 1, s);
    }
  }

  /** The root is at most c when n lies below (c + 1)^2. */
  lemma IsqrtAtMost(n: nat, c: nat)
    requires n < (c + 1) * (c + 1)
    ensures Isqrt(n) <= c
  {
    var r := Isqrt(n);
    IsqrtIsRoot(n);
    if r > c {
      SquareMonotone(c + 1, r);
    }
  }

  /** The root is at least c when c^2 does not exceed n. */
  lemma IsqrtAtLeast(n: nat, c: nat)
    requires c * c <= n
    ensures c <= Isqrt(n)
  {
    var r := Isqrt(n);
    IsqrtIsRoot(n);
    if r < c {
      SquareMonotone(r + 1, c);
    }
  }

  /**
   * getXPForLevel: 0 up to level 1, then floor(100 * level^1.5), computed
   * as the integer square root of 10000 * level^3.
   */
  function XPForLevel(level: int): (r: nat)
    ensures level <= 1 ==> r == 0
  {
    if level <= 1 then 0 else Isqrt(10000 * SquareAndCube(level).1)
  }

  /** From level 2 on the threshold is floor(sqrt(10000 * level^3)) = floor(100 * level^1.5). */
  lemma XPForLevelIsFloorOfPower(level: int)
    requires level >= 2
    ensures XPForLevel(level) * XPForLevel(level) <= 10000 * (level * level * level)
    ensures 10000 * (level * level * level) < (XPForLevel(level) + 1) * (XPForLevel(level) + 1)
  {
    SquareAndCubeCorrect(level);
    IsqrtIsRoot(10000 * (level * level * level));
  }

  /** Level 2 needs floor(100 * 2^1.5) = 282 XP. */
  lemma XPForLevelTwo()
    ensures XPForLevel(2) == 282
  {
    IsqrtUnique(80000, 282);
  }

  /** Level 4 needs exactly 100 * 4^1.5 = 800 XP. */
  lemma XPForLevelFour()
    ensures XPForLevel(4) == 800
  {
    IsqrtUnique(640000, 800);
  }

  /** 10000 * l^3 lies below (100 * l^2 + 1)^2 for l >= 1. */
  lemma CubeBelowSquareSquared(l: int)
    requires l >= 1
    ensures 10000 * (l * l * l) < (100 * (l * l) + 1) * (100 * (l * l) + 1)
  {
    MulMonotone(l, 1, l);
    MulMonotone(l * l, l, l * l);
    HundredSquare(l * l);
  }

  lemma HundredSquare(x: int)
    ensures (100 * x + 1) * (100 * x + 1) == 10000 * (x * x) + 200 * x + 1
  {
  }

  /** The root of 10000 * l^3 is at most 100 * l^2 for l >= 1. */
  lemma LevelRootBelow(l: nat)
    requires l >= 1
    ensures Isqrt(10000 * SquareAndCube(l).1) <= 100 * SquareAndCube(l).0
  {
    SquareAndCubeCorrect(l);
    CubeBelowSquareSquared(l);
    IsqrtAtMost(10000 * (l * l * l), 100 * (l * l));
  }

  /** Each level needs strictly more XP than the one before it. */
  lemma XPForLevelStep(level: int)
    requires level >= 1
    ensures XPForLevel(level) < XPForLevel(level + 1)
  {
    if level == 1 {
      XPForLevelTwo();
    } else {
      var l: nat := level;
      var (sq, cu) := SquareAndCube(l);
      assert SquareAndCube(l + 1).1 == cu + 3 * sq + 3 * l + 1;
      var a := 10000 * cu;
      var r := Isqrt(a);
      IsqrtIsRoot(a);
      LevelRootBelow(l);
      SquareSucc(r);
      IsqrtAtLeast(10000 * SquareAndCube(l + 1).1, r + 1);
    }
  }

  /** A table that grows at every step from level 1 on grows between any two levels. */
  lemma {:induction false} StepsIncrease(table: int -> int, a: int, b: int)
    requires forall l :: l >= 1 ==> table(l) < table(l + 1)
    requires 1 <= a < b
    ensures table(a) < table(b)
    decreases b - a
  {
    if a + 1 < b {
      StepsIncrease(table, a + 1, b);
    }
  }

  /** Thresholds strictly increase from level 1 on. */
  lemma XPForLevelIncreasing(a: int, b: int)
    requires 1 <= a < b
    ensures XPForLevel(a) < XPForLevel(b)
  {
    forall l | l >= 1
      ensures XPForLevel(l) < XPForLevel(l + 1)
    {
      XPForLevelStep(l);
    }
    StepsIncrease((l: int) => XPForLevel(l), a, b);
  }

  /**
   * `l` is the level for `totalXP`: at least 1, its threshold covered by
   * `totalXP` (level 1 needs nothing) and the next level's threshold not.
   */
  predicate IsLevelOf(totalXP: int, l: int)
  {
    l >= 1 && (l == 1 || XPForLevel(l) <= totalXP) && totalXP < XPForLevel(l + 1)
  }

  /** Every level whose threshold is covered is at most a bracketing level. */
  lemma BracketIsLargestCovered(totalXP: int, r: int, k: int)
    requires IsLevelOf(totalXP, r)
    requires k >= 1 && XPForLevel(k) <= totalXP
    ensures k <= r
  {
    if k > r {
      XPForLevelMonotone(r + 1, k);
    }
  }

  /** A level whose successor's threshold is not covered bounds a bracketing level. */
  lemma BracketIsBelowUncovered(totalXP: int, r: int, k: int)
    requires IsLevelOf(totalXP, r)
    requires k >= 1 && totalXP < XPForLevel(k + 1)
    ensures r <= k
  {
    if r > k {
      XPForLevelMonotone(k + 1, r);
    }
  }

  /**
   * The upward search of getLevelFromXP, started at `level`: the level
   * reached is at least `level` and brackets `totalXP`.
   */
  function LevelFrom(totalXP: int, level: int): (r: int)
    requires level >= 1
    requires level == 1 || XPForLevel(level) <= totalXP
    ensures r >= level && IsLevelOf(totalXP, r)
    decreases totalXP - XPForLevel(level)
  {
    var next := XPForLevel(level + 1);
    if next <= totalXP then
      assert XPForLevel(level) < next by {
        XPForLevelStep(level);
      }
      LevelFrom(totalXP, level + 1)
    else
      level
  }

  /** getLevelFromXP's answer for an XP total. */
  function Level(totalXP: int): int
  {
    LevelFrom(totalXP, 1)
  }

  /** The level brackets the XP total. */
  lemma LevelBracket(totalXP: int)
    ensures IsLevelOf(totalXP, Level(totalXP))
  {
  }

  /** Every level whose threshold is covered is at most the level. */
  lemma LevelIsLargestCovered(totalXP: int, k: int)
    requires k >= 1 && XPForLevel(k) <= totalXP
    ensures k <= Level(totalXP)
  {
    LevelBracket(totalXP);
    BracketIsLargestCovered(totalXP, Level(totalXP), k);
  }

  /** Thresholds never decrease from level 1 on. */
  lemma XPForLevelMonotone(a: int, b: int)
    requires 1 <= a <= b
    ensures XPForLevel(a) <= XPForLevel(b)
  {
    if a < b {
      XPForLevelIncreasing(a, b);
    }
  }

  /** A level whose successor's threshold is not covered bounds the level from above. */
  lemma LevelIsBelowUncovered(totalXP: int, k: int)
    requires k >= 1 && totalXP < XPForLevel(k + 1)
    ensures Level(totalXP) <= k
  {
    LevelBracket(totalXP);
    BracketIsBelowUncovered(totalXP, Level(totalXP), k);
  }

  /** The level passes `k` exactly when the XP covers the threshold of level k + 1. */
  lemma LevelPasses(totalXP: int, k: int)
    requires k >= 1
    ensures Level(totalXP) > k <==> XPForLevel(k + 1) <= totalXP
  {
    if XPForLevel(k + 1) <= totalXP {
      LevelIsLargestCovered(totalXP, k + 1);
    } else {
      LevelIsBelowUncovered(totalXP, k);
    }
  }

  /** Any level whose thresholds bracket the XP total is the level. */
  lemma LevelUnique(totalXP: int, l: int)
    requires IsLevelOf(totalXP, l)
    ensures Level(totalXP) == l
  {
    LevelBracket(totalXP);
    BracketIsBelowUncovered(totalXP, Level(totalXP), l);
    if l > 1 {
      BracketIsLargestCovered(totalXP, Level(totalXP), l);
    }
  }

  /** Reaching a threshold exactly gives that level. */
  lemma LevelAtThreshold(l: int)
    requires l >= 1
    ensures Level(XPForLevel(l)) == l
  {
    XPForLevelStep(l);
    LevelUnique(XPForLevel(l), l);
  }

  /** One XP short of level k + 1's threshold is still level k. */
  lemma LevelBelowThreshold(k: int)
    requires k >= 1
    ensures Level(XPForLevel(k + 1) - 1) == k
  {
    XPForLevelStep(k);
    LevelUnique(XPForLevel(k + 1) - 1, k);
  }

  lemma LevelMonotone(x1: int, x2: int)
    requires x1 <= x2
    ensures Level(x1) <= Level(x2)
  {
    LevelBracket(x1);
    if Level(x1) > 1 {
      LevelIsLargestCovered(x2, Level(x1));
    }
  }

  /** getLevelFromXP as the source runs it: count levels up from 1. */
  method GetLevelFromXP(totalXP: int) returns (level: int)
    ensures level == Level(totalXP)
  {
    level := 1;
    while XPForLevel(level + 1) <= totalXP
      invariant level >= 1
      invariant level == 1 || XPForLevel(level) <= totalXP
      decreases totalXP - XPForLevel(level)
    {
      XPForLevelStep(level);
      level := level + 1;
    }
    LevelUnique(totalXP, level);
  }

  /** floor(part / whole * 100): under 100 for a part below the whole, 0 for none. */
  function FloorPercent(part: int, whole: int): (r: int)
    requires whole > 0
    ensures 0 <= part < whole ==> 0 <= r <= 99
    ensures part == 0 ==> r == 0
  {
    if 0 <= part < whole then
      MulMonotone(100, part + 1, whole);
      DivBelow(100 * part, whole, 100);
      100 * part / whole
    else
      100 * part / whole
  }

  /**
   * getLevelProgress: the share, in whole percent rounded down, of the
   * current level's XP span already covered. It lies in [0, 99] for a
   * non-negative total.
   */
  function LevelProgress(totalXP: int): int
  {
    LevelBracket(totalXP);
    ProgressIn(totalXP, Level(totalXP))
  }

  /** The share of `level`'s XP span that `totalXP` covers, in whole percent rounded down. */
  function ProgressIn(totalXP: int, level: int): int
    requires level >= 1
  {
    XPForLevelStep(level);
    FloorPercent(totalXP - XPForLevel(level), XPForLevel(level + 1) - XPForLevel(level))
  }

  /** A level's span is positive and the progress is the share of it covered. */
  lemma ProgressInSpan(totalXP: int, level: int)
    requires level >= 1
    ensures XPForLevel(level) < XPForLevel(level + 1)
    ensures ProgressIn(totalXP, level) ==
      FloorPercent(totalXP - XPForLevel(level), XPForLevel(level + 1) - XPForLevel(level))
  {
    XPForLevelStep(level);
  }

  /** The progress is taken over the span of the level that brackets the total. */
  lemma LevelProgressOf(totalXP: int, l: int)
    requires IsLevelOf(totalXP, l)
    ensures LevelProgress(totalXP) == ProgressIn(totalXP, l)
  {
    LevelUnique(totalXP, l);
  }

  /** For a non-negative total the progress lies in [0, 99]. */
  lemma LevelProgressRange(totalXP: int)
    requires totalXP >= 0
    ensures 0 <= LevelProgress(totalXP) <= 99
  {
    LevelBracket(totalXP);
    var level := Level(totalXP);
    XPForLevelStep(level);
    var floor := XPForLevel(level);
    var span := XPForLevel(level + 1) - floor;
    assert 0 <= totalXP - floor < span;
  }

  /** At a level threshold no progress towards the next level is shown. */
  lemma LevelProgressAtThreshold(l: int)
    requires l >= 1
    ensures LevelProgress(XPForLevel(l)) == 0
  {
    LevelAtThreshold(l);
  }

  datatype Title = Novato | Reserva | Titular | Craque | Lenda

  function TitleRank(t: Title): nat
  {
    match t
    case Novato => 0
    case Reserva => 1
    case Titular => 2
    case Craque => 3
    case Lenda => 4
  }

  /** The lowest level that earns a title. */
  function TitleMinLevel(t: Title): int
  {
    match t
    case Novato => 0
    case Reserva => 10
    case Titular => 25
    case Craque => 50
    case Lenda => 100
  }

  function TitleName(t: Title): string
  {
    match t
    case Novato => "Novato"
    case Reserva => "Reserva"
    case Titular => "Titular"
    case Craque => "Craque"
    case Lenda => "Lenda"
  }

  /**
   * The tier chosen by getLevelTitle: the highest title whose minimum level
   * is reached (Novato when none is).
   */
  function LevelTier(level: int): (t: Title)
    ensures t != Novato ==> TitleMinLevel(t) <= level
    ensures forall u: Title :: TitleRank(u) > TitleRank(t) ==> level < TitleMinLevel(u)
  {
    if level >= 100 then Lenda
    else if level >= 50 then Craque
    else if level >= 25 then Titular
    else if level >= 10 then Reserva
    else Novato
  }

  /** getLevelTitle. */
  function LevelTitle(level: int): string
  {
    TitleName(LevelTier(level))
  }

  lemma LevelTierMonotone(l1: int, l2: int)
    requires l1 <= l2
    ensures TitleRank(LevelTier(l1)) <= TitleRank(LevelTier(l2))
  {
  }
}
