/**
 * The earlier XP curve (DiscordSiri/src/utils/config.py): level i costs
 * int(100 * i^1.5) and nothing is capped. int(100 * i^1.5) is
 * floor(sqrt(10000 * i^3)), which the model computes exactly with an integer
 * square root.
 */
module LegacyCurve {
  /** Scale of the per-level cost. */
  const BASE_XP_REQUIREMENT: nat := 100

  /** Integer square root: the largest r with r * r <= n. */
  function ISqrt(n: nat): (r: nat)
    ensures r * r <= n < (r + 1) * (r + 1)
    decreases n
  {
    if n < 4 then (if n == 0 then 0 else 1)
    else
      var s := ISqrt(n / 4);
      ISqrtStep(n, s);
      var h := 2 * s;
      if (h + 1) * (h + 1) <= n then h + 1 else h
  }

  /** The root of n / 4, doubled, is within one of the root of n. */
  lemma ISqrtStep(n: nat, s: nat)
    requires s * s <= n / 4 < (s + 1) * (s + 1)
    ensures (2 * s) * (2 * s) <= n < (2 * s + 2) * (2 * s + 2)
  {
    var m := n / 4;
    assert (2 * s) * (2 * s) == 4 * (s * s);
    assert (2 * s + 2) * (2 * s + 2) == 4 * ((s + 1) * (s + 1));
    assert 4 * m <= n < 4 * m + 4;
  }

  lemma ISqrtUnique(n: nat, r: nat)
    requires r * r <= n < (r + 1) * (r + 1)
    ensures ISqrt(n) == r
  {
    var q := ISqrt(n);
    if q < r {
      SquareMonotone(q + 1, r);
    } else if r < q {
      SquareMonotone(r + 1, q);
    }
  }

  lemma SquareMonotone(a: nat, b: nat)
    requires a <= b
    ensures a * a <= b * b
  {
    assert a * a <= a * b <= b * b;
  }

  /** XP needed to go from level i to level i + 1: floor(100 * i^1.5), at least 100. */
  function LevelCost(i: int): (c: nat)
    requires i >= 1
    ensures c >= BASE_XP_REQUIREMENT
  {
    LevelCostIsRoot(i);
    ISqrt(10000 * i * i * i)
  }

  /** The cost is floor(sqrt(10000 * i^3)) and so at least sqrt(10000) = 100. */
  lemma LevelCostIsRoot(i: int)
    requires i >= 1
    ensures ISqrt(10000 * i * i * i) >= BASE_XP_REQUIREMENT
  {
    var square := i * i;
    MultiplyMonotone(1, i, i);
    var cube := square * i;
    MultiplyMonotone(1, square, i);
    assert 10000 * i * i * i == 10000 * cube;
    var c := ISqrt(10000 * cube);
    if c < BASE_XP_REQUIREMENT {
      SquareMonotone(c + 1, BASE_XP_REQUIREMENT);
    }
  }

  lemma MultiplyMonotone(x: int, y: int, c: nat)
    requires x <= y
    ensures x * c <= y * c
  {
  }

  /** calculate_xp_for_level: the sum of the costs of levels 1 .. level - 1. */
  function XpForLevel(level: int): nat
  {
    if level <= 1 then 0 else XpForLevel(level - 1) + LevelCost(level - 1)
  }

  /** The `while True` walk: stay at `level` once the next level's total exceeds xp. */
  function Walk(level: int, xp: int): (r: int)
    requires level >= 1
    ensures r >= level
    decreases xp - XpForLevel(level)
  {
    if XpForLevel(level + 1) > xp then level else Walk(level + 1, xp)
  }

  /** calculate_level_from_xp: at least 1 for every xp, with no upper cap. */
  function LevelFromXp(xp: int): (level: int)
    ensures level >= 1
  {
    Walk(1, xp)
  }

  /** Each level costs at least BASE more than the one before. */
  lemma {:induction false} XpForLevelGrows(a: int, b: int)
    requires 1 <= a <= b
    ensures XpForLevel(b) >= XpForLevel(a) + (b - a) * BASE_XP_REQUIREMENT
    decreases b - a
  {
    if a < b {
      XpForLevelGrows(a, b - 1);
    }
  }

  lemma XpForLevelMonotone(a: int, b: int)
    requires a <= b
    ensures XpForLevel(a) <= XpForLevel(b)
  {
    if a >= 1 {
      XpForLevelGrows(a, b);
    } else if b >= 1 {
      XpForLevelGrows(1, b);
    }
  }

  lemma {:induction false} WalkBrackets(level: int, xp: int)
    requires level >= 1
    requires XpForLevel(level) <= xp
    ensures XpForLevel(Walk(level, xp)) <= xp < XpForLevel(Walk(level, xp) + 1)
    decreases xp - XpForLevel(level)
  {
    var next := XpForLevel(level + 1);
    assert next == XpForLevel(level) + LevelCost(level);
    if next > xp {
      assert Walk(level, xp) == level;
    } else {
      assert Walk(level, xp) == Walk(level + 1, xp);
      WalkBrackets(level + 1, xp);
    }
  }

  /** Inverse property, with no upper level bound: xp lies between the totals of its level and the next. */
  lemma LevelFromXpInverse(xp: int)
    requires xp >= 0
    ensures XpForLevel(LevelFromXp(xp)) <= xp < XpForLevel(LevelFromXp(xp) + 1)
  {
    WalkBrackets(1, xp);
  }

  /** A negative xp is below every level's total and gives level 1. */
  lemma LevelFromNegativeXp(xp: int)
    requires xp < 0
    ensures LevelFromXp(xp) == 1
  {
  }

  /** With xp >= 0, a level >= 1 is reachable iff it is at most LevelFromXp(xp). */
  lemma LevelFromXpGalois(xp: int, level: int)
    requires xp >= 0 && level >= 1
    ensures XpForLevel(level) <= xp <==> level <= LevelFromXp(xp)
  {
    if level <= LevelFromXp(xp) {
      ReachedBelowLevel(xp, level);
    } else {
      NotReachedAboveLevel(xp, level);
    }
  }

  lemma ReachedBelowLevel(xp: int, level: int)
    requires xp >= 0 && level <= LevelFromXp(xp)
    ensures XpForLevel(level) <= xp
  {
    LevelFromXpInverse(xp);
    XpForLevelMonotone(level, LevelFromXp(xp));
  }

  lemma NotReachedAboveLevel(xp: int, level: int)
    requires xp >= 0 && level > LevelFromXp(xp)
    ensures xp < XpForLevel(level)
  {
    LevelFromXpInverse(xp);
    XpForLevelMonotone(LevelFromXp(xp) + 1, level);
  }

  lemma LevelFromXpMonotone(x: int, y: int)
    requires x <= y
    ensures LevelFromXp(x) <= LevelFromXp(y)
  {
    if x >= 0 {
      LevelFromXpInverse(x);
      LevelFromXpGalois(y, LevelFromXp(x));
    } else {
      LevelFromNegativeXp(x);
    }
  }

  /** Without a cap, the total of every level maps back to that level. */
  lemma LevelOfLevelTotal(level: int)
    requires level >= 1
    ensures LevelFromXp(XpForLevel(level)) == level
  {
    XpForLevelNext(level);
    LevelOfBracketed(XpForLevel(level), level);
  }

  /** xp between a level's total and the next one's is at that level. */
  lemma LevelOfBracketed(xp: int, level: int)
    requires xp >= 0 && level >= 1
    requires XpForLevel(level) <= xp < XpForLevel(level + 1)
    ensures LevelFromXp(xp) == level
  {
    LevelFromXpGalois(xp, level);
    LevelFromXpGalois(xp, level + 1);
  }

  /** Each level's total exceeds the one before by the level's cost. */
  lemma XpForLevelNext(level: int)
    requires level >= 1
    ensures XpForLevel(level + 1) == XpForLevel(level) + LevelCost(level) > XpForLevel(level)
  {
  }

  /** What get_level_progress returns: the level, the XP gained inside it, and the XP the level spans. */
  datatype Progress = Progress(level: int, progressXp: int, neededXp: int)

  /**
   * get_level_progress: progress plus the level's total gives back xp, the
   * level spans exactly its cost, and for xp >= 0 the progress lies in
   * [0, neededXp).
   */
  function GetLevelProgress(xp: int): (p: Progress)
    ensures p.level == LevelFromXp(xp)
    ensures XpForLevel(p.level) + p.progressXp == xp
    ensures XpForLevel(p.level) + p.neededXp == XpForLevel(p.level + 1)
    ensures p.neededXp == LevelCost(p.level) >= BASE_XP_REQUIREMENT
    ensures p.progressXp < p.neededXp
    ensures xp >= 0 ==> 0 <= p.progressXp
  {
    var level := LevelFromXp(xp);
    var levelTotal := XpForLevel(level);
    var nextTotal := XpForLevel(level + 1);
    if xp >= 0 then LevelFromXpInverse(xp); Progress(level, xp - levelTotal, nextTotal - levelTotal)
    else Progress(level, xp - levelTotal, nextTotal - levelTotal)
  }

  /** calculate_xp_for_level: `for i in range(1, level)` summing the level costs. */
  method CalculateXpForLevel(level: int) returns (total: int)
    ensures total == XpForLevel(level)
  {
    total := 0;
    var i := 1;
    while i < level
      invariant level >= 1 ==> 1 <= i <= level
      invariant level < 1 ==> i == 1
      invariant total == XpForLevel(i)
    {
      total := total + LevelCost(i);
      i := i + 1;
    }
  }

  /** calculate_level_from_xp: `while True`, adding level costs until the next would exceed xp. */
  method CalculateLevelFromXp(xp: int) returns (level: int)
    ensures level == LevelFromXp(xp)
  {
    level := 1;
    var total := 0;
    while true
      invariant level >= 1
      invariant total == XpForLevel(level)
      invariant Walk(level, xp) == Walk(1, xp)
      decreases xp - total
    {
      var nextLevelXp := LevelCost(level);
      if total + nextLevelXp > xp {
        break;
      }
      total := total + nextLevelXp;
      level := level + 1;
    }
  }

  /** Worked values: level 3 needs 382 XP here, so 300 XP is still level 2 (the current curve says 3). */
  lemma LegacyCurveExample()
    ensures XpForLevel(2) == 100 && XpForLevel(3) == 382
    ensures LevelFromXp(300) == 2
    ensures GetLevelProgress(300) == Progress(2, 200, 282)
  {
    ExampleCosts();
    assert XpForLevel(2) == 100;
    assert XpForLevel(3) == 382;
    assert Walk(2, 300) == 2;
    assert LevelFromXp(300) == 2;
  }

  /** The first two level costs: sqrt(10000) = 100 and floor(sqrt(80000)) = 282. */
  lemma ExampleCosts()
    ensures LevelCost(1) == 100 && LevelCost(2) == 282
  {
    RootOf10000();
    RootOf80000();
    assert 10000 * 1 * 1 * 1 == 10000;
    assert 10000 * 2 * 2 * 2 == 80000;
  }

  lemma RootOf10000()
    ensures ISqrt(10000) == 100
  {
    ISqrtUnique(10000, 100);
  }

  lemma RootOf80000()
    ensures ISqrt(80000) == 282
  {
    ISqrtUnique(80000, 282);
  }
}
