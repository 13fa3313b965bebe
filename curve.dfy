/**
 * The current XP curve (src/utils/config.py): the cost of each level grows
 * geometrically by 1.5, totals are clamped to MAX_XP and levels to MAX_LEVEL.
 *
 * `Cumulative`, `XpForLevel`, `Walk` and `LevelFromXp` are the reference
 * definitions; `CalculateXpForLevel` and `CalculateLevelFromXp` are the
 * source's loops, proved equal to them.
 */
module Curve {
  /** XP that level 1 -> 2 costs. */
  const BASE_XP_REQUIREMENT: nat := 100
  /** XP granted by one attendance. */
  const XP_PER_ATTENDANCE: int := 50
  const MAX_LEVEL: int := 100
  /** Largest XP the store keeps (inside a signed 64-bit SQLite INTEGER). */
  const MAX_XP: int := 9_000_000_000_000_000_000

  function Pow(b: nat, e: nat): nat
  {
    if e == 0 then 1 else b * Pow(b, e - 1)
  }

  lemma {:induction false} PowThreeDominatesTwo(e: nat)
    ensures 1 <= Pow(2, e) <= Pow(3, e)
  {
    if e > 0 {
      PowThreeDominatesTwo(e - 1);
      assert Pow(3, e) == 3 * Pow(3, e - 1);
      assert Pow(2, e) == 2 * Pow(2, e - 1);
    }
  }

  lemma QuotientAtLeast(k: nat, a: nat, b: nat)
    requires 1 <= b <= a
    ensures k * a / b >= k
  {
    var q, r := k * a / b, k * a % b;
    assert k * a == q * b + r && r < b;
    if q < k {
      MultiplyMonotone(q + 1, k, b);
      MultiplyMonotone(b, a, k);
    }
  }

  lemma MultiplyMonotone(x: int, y: int, c: nat)
    requires x <= y
    ensures x * c <= y * c
  {
  }

  /**
   * XP needed to go from level i to level i + 1: BASE * 1.5^(i-1) truncated,
   * computed exactly as BASE * 3^(i-1) / 2^(i-1).
   */
  function LevelCost(i: int): (c: nat)
    requires i >= 1
    ensures c >= BASE_XP_REQUIREMENT
  {
    PowThreeDominatesTwo(i - 1);
    QuotientAtLeast(BASE_XP_REQUIREMENT, Pow(3, i - 1), Pow(2, i - 1));
    BASE_XP_REQUIREMENT * Pow(3, i - 1) / Pow(2, i - 1)
  }

  /** Sum of the costs of levels 1 .. level - 1, without any cap. */
  function Cumulative(level: int): nat
  {
    if level <= 1 then 0 else Cumulative(level - 1) + LevelCost(level - 1)
  }

  /** The level clamped to MAX_LEVEL. */
  function CapLevel(level: int): (c: int)
    ensures c <= MAX_LEVEL
    ensures c == level || (level > MAX_LEVEL && c == MAX_LEVEL)
  {
    if level > MAX_LEVEL then MAX_LEVEL else level
  }

  /** Total XP needed to reach `level`: the uncapped sum with the level clamped to MAX_LEVEL and the total to MAX_XP. */
  function XpForLevel(level: int): (xp: int)
    ensures 0 <= xp <= MAX_XP
    ensures level <= 1 ==> xp == 0
  {
    if level <= 1 then 0
    else
      var total := Cumulative(CapLevel(level));
      if total < MAX_XP then total else MAX_XP
  }

  /** The upward walk of the level search: stop at MAX_LEVEL or before the first level whose total exceeds xp. */
  function Walk(level: int, xp: int): (r: int)
    requires 1 <= level <= MAX_LEVEL
    ensures level <= r <= MAX_LEVEL
    decreases MAX_LEVEL - level
  {
    if level == MAX_LEVEL || Cumulative(level + 1) > xp then level
    else Walk(level + 1, xp)
  }

  /** Level reached with `xp`: 1 below zero, MAX_LEVEL from MAX_XP on, otherwise the upward walk. */
  function LevelFromXp(xp: int): (level: int)
    ensures 1 <= level <= MAX_LEVEL
    ensures xp < 0 ==> level == 1
    ensures xp >= MAX_XP ==> level == MAX_LEVEL
  {
    if xp < 0 then 1
    else if xp >= MAX_XP then MAX_LEVEL
    else Walk(1, xp)
  }

  /** The cumulative cost grows by at least BASE per level. */
  lemma {:induction false} CumulativeGrows(a: int, b: int)
    requires 1 <= a <= b
    ensures Cumulative(b) >= Cumulative(a) + (b - a) * BASE_XP_REQUIREMENT
    decreases b - a
  {
    if a < b {
      CumulativeGrows(a, b - 1);
    }
  }

  /** calculate_xp_for_level is non-decreasing in the level. */
  lemma XpForLevelMonotone(a: int, b: int)
    requires a <= b
    ensures XpForLevel(a) <= XpForLevel(b)
  {
    if a > 1 {
      var ca, cb := CapLevel(a), CapLevel(b);
      CumulativeMonotone(ca, cb);
      var ta, tb := Cumulative(ca), Cumulative(cb);
      assert XpForLevel(a) == if ta < MAX_XP then ta else MAX_XP;
      assert XpForLevel(b) == if tb < MAX_XP then tb else MAX_XP;
    }
  }

  /** Levels above MAX_LEVEL cost exactly what MAX_LEVEL costs. */
  lemma XpForLevelSaturates(level: int)
    requires level >= MAX_LEVEL
    ensures XpForLevel(level) == XpForLevel(MAX_LEVEL)
  {
  }

  lemma {:induction false} WalkBrackets(level: int, xp: int)
    requires 1 <= level <= MAX_LEVEL
    requires Cumulative(level) <= xp
    ensures Cumulative(Walk(level, xp)) <= xp
    ensures Walk(level, xp) < MAX_LEVEL ==> xp < Cumulative(Walk(level, xp) + 1)
  {
    WalkReachable(level, xp);
    WalkStopsInTime(level, xp);
  }

  /** The walk only climbs to levels whose total xp covers. */
  lemma {:induction false} WalkReachable(level: int, xp: int)
    requires 1 <= level <= MAX_LEVEL
    requires Cumulative(level) <= xp
    ensures Cumulative(Walk(level, xp)) <= xp
    decreases MAX_LEVEL - level
  {
    if level < MAX_LEVEL && Cumulative(level + 1) <= xp {
      WalkReachable(level + 1, xp);
    }
  }

  /** Below MAX_LEVEL the walk stops at the last level whose successor xp does not cover. */
  lemma {:induction false} WalkStopsInTime(level: int, xp: int)
    requires 1 <= level <= MAX_LEVEL
    ensures Walk(level, xp) < MAX_LEVEL ==> xp < Cumulative(Walk(level, xp) + 1)
    decreases MAX_LEVEL - level
  {
    if level < MAX_LEVEL && Cumulative(level + 1) <= xp {
      WalkStopsInTime(level + 1, xp);
    }
  }

  /**
   * Inverse property: for xp >= 0 the level found is reachable with xp, and
   * below MAX_LEVEL the next level is not.
   */
  lemma LevelFromXpInverse(xp: int)
    requires xp >= 0
    ensures XpForLevel(LevelFromXp(xp)) <= xp
    ensures LevelFromXp(xp) < MAX_LEVEL ==> xp < XpForLevel(LevelFromXp(xp) + 1)
  {
    if xp < MAX_XP {
      WalkBrackets(1, xp);
    }
  }

  /** Galois connection: with xp >= 0, a level in range is reachable iff it is at most LevelFromXp(xp). */
  lemma LevelFromXpGalois(xp: int, level: int)
    requires xp >= 0 && 1 <= level <= MAX_LEVEL
    ensures XpForLevel(level) <= xp <==> level <= LevelFromXp(xp)
  {
    var l := LevelFromXp(xp);
    LevelFromXpInverse(xp);
    if level <= l {
      XpForLevelMonotone(level, l);
    } else {
      XpForLevelMonotone(l + 1, level);
    }
  }

  /** calculate_level_from_xp is non-decreasing in xp. */
  lemma LevelFromXpMonotone(x: int, y: int)
    requires x <= y
    ensures LevelFromXp(x) <= LevelFromXp(y)
  {
    if x >= 0 {
      LevelFromXpGalois(x, LevelFromXp(x));
      LevelFromXpInverse(x);
      LevelFromXpGalois(y, LevelFromXp(x));
    }
  }

  /** Setting xp to the total of a level gives back that level, unless the total was clamped at MAX_XP below MAX_LEVEL. */
  lemma LevelOfLevelTotal(level: int)
    requires 1 <= level <= MAX_LEVEL
    requires XpForLevel(level) < MAX_XP || level == MAX_LEVEL
    ensures LevelFromXp(XpForLevel(level)) == level
  {
    var xp := XpForLevel(level);
    LevelFromXpGalois(xp, level);
    if level < MAX_LEVEL {
      LevelFromXpGalois(xp, level + 1);
      XpForLevelStrict(level);
    }
  }

  /** Below the caps, the next level's total is strictly larger. */
  lemma XpForLevelStrict(level: int)
    requires 1 <= level < MAX_LEVEL && XpForLevel(level) < MAX_XP
    ensures XpForLevel(level) < XpForLevel(level + 1)
  {
    var c, n := Cumulative(level), Cumulative(level + 1);
    CumulativeNext(level);
    assert XpForLevel(level) == c;
    assert XpForLevel(level + 1) == if n < MAX_XP then n else MAX_XP;
  }

  /** Clamping xp into [0, MAX_XP] does not change its level. */
  lemma LevelFromXpOfClamped(xp: int)
    ensures LevelFromXp(Clamp(xp)) == LevelFromXp(xp)
  {
    if xp < 0 {
      assert Cumulative(2) == BASE_XP_REQUIREMENT;
    }
  }

  /** min(max(xp, 0), MAX_XP), the store's clamp. */
  function Clamp(xp: int): (r: int)
    ensures 0 <= r <= MAX_XP
    ensures 0 <= xp <= MAX_XP ==> r == xp
    ensures xp < 0 ==> r == 0
    ensures xp > MAX_XP ==> r == MAX_XP
  {
    if xp < 0 then 0 else if xp > MAX_XP then MAX_XP else xp
  }

  /** What get_level_progress returns: the level, the XP gained inside it, and the XP the level spans. */
  datatype Progress = Progress(level: int, progressXp: int, neededXp: int)

  /**
   * get_level_progress: at MAX_LEVEL there is nothing left to gain; below
   * it, progress plus the level's total gives back xp, and for xp >= 0 the
   * progress lies in [0, neededXp) where neededXp is the gap to the next level.
   */
  function GetLevelProgress(xp: int): (p: Progress)
    ensures p.level == LevelFromXp(xp)
    ensures p.level == MAX_LEVEL ==> p.progressXp == 0 && p.neededXp == 0
    ensures p.level < MAX_LEVEL ==> XpForLevel(p.level) + p.progressXp == xp
    ensures p.level < MAX_LEVEL ==> XpForLevel(p.level) + p.neededXp == XpForLevel(p.level + 1)
    ensures xp >= 0 && p.level < MAX_LEVEL ==> 0 <= p.progressXp < p.neededXp
  {
    var level := LevelFromXp(xp);
    var levelTotal := XpForLevel(level);
    if level >= MAX_LEVEL then Progress(level, 0, 0)
    else
      var nextTotal := XpForLevel(level + 1);
      if xp >= 0 then LevelFromXpInverse(xp); Progress(level, xp - levelTotal, nextTotal - levelTotal)
      else Progress(level, xp - levelTotal, nextTotal - levelTotal)
  }

  /** calculate_xp_for_level: sum the level costs, returning MAX_XP as soon as the running total reaches it. */
  method CalculateXpForLevel(level: int) returns (total: int)
    ensures total == XpForLevel(level)
  {
    if level <= 1 {
      return 0;
    }
    var capped := if level > MAX_LEVEL then MAX_LEVEL else level;
    total := SumLevelCosts(capped);
  }

  /** The summing loop of calculate_xp_for_level, for levels 1 .. capped - 1, with its early exit at MAX_XP. */
  method SumLevelCosts(capped: int) returns (total: int)
    requires 1 <= capped
    ensures total == if Cumulative(capped) < MAX_XP then Cumulative(capped) else MAX_XP
  {
    total := 0;
    var i := 1;
    while i < capped
      invariant 1 <= i <= capped
      invariant total == Cumulative(i) < MAX_XP
    {
      total := total + LevelCost(i);
      if total >= MAX_XP {
        CumulativeGrows(i + 1, capped);
        return MAX_XP;
      }
      i := i + 1;
    }
  }

  /**
   * calculate_level_from_xp: walk up from level 1 accumulating level costs
   * until the next cost would exceed xp or MAX_LEVEL is reached.
   */
  method CalculateLevelFromXp(xp: int) returns (level: int)
    ensures level == LevelFromXp(xp)
  {
    if xp < 0 {
      return 1;
    }
    var x := if xp < MAX_XP then xp else MAX_XP;
    if x >= MAX_XP {
      return MAX_LEVEL;
    }
    level := 1;
    var accumulated := 0;
    // The source also returns MAX_LEVEL when the running total reaches MAX_XP;
    // with accumulated <= x < MAX_XP that branch cannot be taken here.
    while level < MAX_LEVEL
      invariant 1 <= level <= MAX_LEVEL
      invariant accumulated == Cumulative(level) <= x
    {
      var cost := LevelCost(level);
      var needed := if cost < MAX_XP then cost else MAX_XP;
      CumulativeNext(level);
      if accumulated + needed > x {
        break;
      }
      accumulated := accumulated + needed;
      level := level + 1;
    }
    LevelBracketed(level, x);
  }

  lemma CumulativeNext(level: int)
    requires level >= 1
    ensures Cumulative(level + 1) == Cumulative(level) + LevelCost(level)
  {
  }

  /** A level whose total is reached by xp, and whose successor's total is not, is the level of xp. */
  lemma LevelBracketed(level: int, xp: int)
    requires 1 <= level <= MAX_LEVEL && 0 <= xp < MAX_XP
    requires Cumulative(level) <= xp
    requires level < MAX_LEVEL ==> xp < Cumulative(level + 1)
    ensures LevelFromXp(xp) == level
  {
    LevelBracketsXp(xp);
    var w := LevelFromXp(xp);
    if w <= level {
      BracketUnique(w, level, xp);
    } else {
      BracketUnique(level, w, xp);
    }
  }

  /** The level of xp in [0, MAX_XP) is bracketed by the uncapped totals. */
  lemma LevelBracketsXp(xp: int)
    requires 0 <= xp < MAX_XP
    ensures Cumulative(LevelFromXp(xp)) <= xp
    ensures LevelFromXp(xp) < MAX_LEVEL ==> xp < Cumulative(LevelFromXp(xp) + 1)
  {
    WalkReachable(1, xp);
    WalkStopsInTime(1, xp);
  }

  /** Of two levels a <= b, if xp reaches b's total but not the total after a, they are the same level. */
  lemma BracketUnique(a: int, b: int, xp: int)
    requires 1 <= a <= b <= MAX_LEVEL
    requires a < MAX_LEVEL ==> xp < Cumulative(a + 1)
    requires Cumulative(b) <= xp
    ensures a == b
  {
    if a < b {
      CumulativeReached(a + 1, b, xp);
    }
  }

  /** xp that reaches the total of level b reaches the total of every level a <= b. */
  lemma CumulativeReached(a: int, b: int, xp: int)
    requires 1 <= a <= b
    requires Cumulative(b) <= xp
    ensures Cumulative(a) <= xp
  {
    CumulativeMonotone(a, b);
  }

  lemma {:induction false} CumulativeMonotone(a: int, b: int)
    requires 1 <= a <= b
    ensures Cumulative(a) <= Cumulative(b)
    decreases b - a
  {
    if a < b {
      CumulativeMonotone(a, b - 1);
    }
  }

  lemma {:induction false} PowAdd(b: nat, m: nat, n: nat)
    ensures Pow(b, m + n) == Pow(b, m) * Pow(b, n)
    decreases m
  {
    if m > 0 {
      PowAdd(b, m - 1, n);
      assert Pow(b, m + n) == b * Pow(b, m - 1 + n);
    }
  }

  lemma PowersAt98()
    ensures Pow(3, 98) == 57264168970223481226273458862846808078011946889
    ensures Pow(2, 98) == 316912650057057350374175801344
  {
    assert Pow(3, 3) == 27 && Pow(2, 3) == 8;
    PowAdd(3, 3, 3); PowAdd(2, 3, 3);
    assert Pow(3, 6) == 729 && Pow(2, 6) == 64;
    PowAdd(3, 6, 6); PowAdd(2, 6, 6);
    assert Pow(3, 12) == 531441 && Pow(2, 12) == 4096;
    PowAdd(3, 12, 12); PowAdd(2, 12, 12);
    assert Pow(3, 24) == 282429536481 && Pow(2, 24) == 16777216;
    PowAdd(3, 24, 24); PowAdd(2, 24, 24);
    assert Pow(3, 48) == 79766443076872509863361 && Pow(2, 48) == 281474976710656;
    assert Pow(3, 49) == 239299329230617529590083 && Pow(2, 49) == 562949953421312;
    PowAdd(3, 49, 49); PowAdd(2, 49, 49);
  }

  /** The cost of level 99 alone exceeds MAX_XP, so the total for MAX_LEVEL is clamped to MAX_XP. */
  lemma MaxLevelTotalIsCapped()
    ensures XpForLevel(MAX_LEVEL) == MAX_XP
  {
    PowersAt98();
    assert LevelCost(99) == 18069385668231788328;
    CumulativeGrows(99, 100);
  }

  /** The worked example: BASE 100 and multiplier 1.5. */
  lemma CurveExample()
    ensures XpForLevel(1) == 0 && XpForLevel(2) == 100
    ensures XpForLevel(3) == 250 && XpForLevel(4) == 475
    ensures LevelFromXp(300) == 3
    ensures GetLevelProgress(300) == Progress(3, 50, 225)
  {
    assert LevelCost(1) == 100;
    assert LevelCost(2) == 150;
    assert LevelCost(3) == 225;
    assert Cumulative(4) == 475;
    assert Walk(3, 300) == 3;
    assert Walk(1, 300) == 3;
  }
}
