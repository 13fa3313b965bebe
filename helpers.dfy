/**
 * Small helpers of DiscordSiri/src/utils/helpers.py: number formatting, the
 * percentage and progress-bar arithmetic, the sliding-window rate limiter
 * and the id bookkeeping of the message cleanup manager. Clock readings and
 * random draws are parameters; Python floats are modelled as exact values.
 */
module Helpers {
  import opened Wrappers

  // ---------------------------------------------------------------- numbers

  function DigitChar(d: int): char
    requires 0 <= d < 10
  {
    "0123456789"[d]
  }

  function DigitValue(c: char): int
  {
    if '0' <= c <= '9' then (c - '0') as int else 0
  }

  predicate IsDigit(c: char)
  {
    '0' <= c <= '9'
  }

  /** The decimal digits of n, most significant first. */
  function Digits(n: nat): (s: string)
    ensures |s| >= 1 && forall i :: 0 <= i < |s| ==> IsDigit(s[i])
  {
    if n < 10 then [DigitChar(n)] else Digits(n / 10) + [DigitChar(n % 10)]
  }

  /** The number a string of digits denotes. */
  function DigitsValue(s: string): nat
  {
    if s == [] then 0 else DigitsValue(s[..|s| - 1]) * 10 + (if IsDigit(s[|s| - 1]) then DigitValue(s[|s| - 1]) else 0)
  }

  /** Insert a comma before every group of three digits counted from the right. */
  function Group(ds: string): string
  {
    if |ds| <= 3 then ds else Group(ds[..|ds| - 3]) + "," + ds[|ds| - 3..]
  }

  /** format_number: f"{number:,}". */
  function FormatNumber(n: int): string
  {
    if n < 0 then "-" + Group(Digits(-n)) else Group(Digits(n))
  }

  /** The string with its commas removed. */
  function RemoveCommas(s: string): string
  {
    if s == [] then [] else RemoveCommas(s[..|s| - 1]) + (if s[|s| - 1] == ',' then [] else [s[|s| - 1]])
  }

  /** Reading a formatted number back: an optional minus sign, then the digits with the commas dropped. */
  function ParseNumber(s: string): int
  {
    if s != [] && s[0] == '-' then -(DigitsValue(RemoveCommas(s[1..])) as int) else DigitsValue(RemoveCommas(s))
  }

  lemma {:induction false} RemoveCommasAppend(a: string, b: string)
    ensures RemoveCommas(a + b) == RemoveCommas(a) + RemoveCommas(b)
  {
    if b == [] {
      assert a + b == a;
    } else {
      assert (a + b)[..|a + b| - 1] == a + b[..|b| - 1];
      RemoveCommasAppend(a, b[..|b| - 1]);
    }
  }

  lemma {:induction false} RemoveCommasOfDigits(ds: string)
    requires forall i :: 0 <= i < |ds| ==> IsDigit(ds[i])
    ensures RemoveCommas(ds) == ds
  {
    if ds != [] {
      RemoveCommasOfDigits(ds[..|ds| - 1]);
    }
  }

  /** Dropping the commas of a group, a comma and a run of digits. */
  lemma RemoveCommasJoin(g: string, back: string)
    requires forall i :: 0 <= i < |back| ==> IsDigit(back[i])
    ensures RemoveCommas(g + "," + back) == RemoveCommas(g) + back
  {
    RemoveCommasAppend(g + ",", back);
    RemoveCommasComma(g);
    RemoveCommasOfDigits(back);
  }

  lemma RemoveCommasComma(g: string)
    ensures RemoveCommas(g + ",") == RemoveCommas(g)
  {
    var gc := g + ",";
    assert gc[..|gc| - 1] == g && gc[|gc| - 1] == ',';
  }

  /** Grouping only inserts commas. */
  lemma {:induction false} GroupRemoveCommas(ds: string)
    requires forall i :: 0 <= i < |ds| ==> IsDigit(ds[i])
    ensures RemoveCommas(Group(ds)) == ds
  {
    if |ds| <= 3 {
      RemoveCommasOfDigits(ds);
    } else {
      var front, back := ds[..|ds| - 3], ds[|ds| - 3..];
      GroupRemoveCommas(front);
      RemoveCommasJoin(Group(front), back);
      assert front + back == ds;
    }
  }

  lemma {:induction false} DigitsValueOfDigits(n: nat)
    ensures DigitsValue(Digits(n)) == n
  {
    DigitRoundTrip(n % 10);
    if n >= 10 {
      DigitsValueOfDigits(n / 10);
      DigitsValueAppend(Digits(n / 10), DigitChar(n % 10));
      assert Digits(n) == Digits(n / 10) + [DigitChar(n % 10)];
      assert n == n / 10 * 10 + n % 10;
    }
  }

  /** Each digit character reads back as its digit. */
  lemma DigitRoundTrip(d: int)
    requires 0 <= d < 10
    ensures IsDigit(DigitChar(d)) && DigitValue(DigitChar(d)) == d
  {
  }

  /** Appending a digit multiplies the value by ten and adds the digit. */
  lemma DigitsValueAppend(s: string, c: char)
    requires IsDigit(c)
    ensures DigitsValue(s + [c]) == DigitsValue(s) * 10 + DigitValue(c)
  {
    assert (s + [c])[..|s|] == s;
  }

  lemma ParseGroupedDigits(n: nat)
    ensures DigitsValue(RemoveCommas(Group(Digits(n)))) == n
  {
    GroupRemoveCommas(Digits(n));
    DigitsValueOfDigits(n);
  }

  /** Reading back a digit string with and without a leading minus sign. */
  lemma ParseSigned(g: string)
    requires g != [] && g[0] != '-'
    ensures ParseNumber(g) == DigitsValue(RemoveCommas(g))
    ensures ParseNumber("-" + g) == -(DigitsValue(RemoveCommas(g)) as int)
  {
    var f := "-" + g;
    assert f[0] == '-' && f[1..] == g;
  }

  /** format_number loses nothing: the formatted text reads back as the number. */
  lemma FormatNumberRoundTrip(n: int)
    ensures ParseNumber(FormatNumber(n)) == n
  {
    var m: nat := if n < 0 then -n else n;
    var g := Group(Digits(m));
    ParseGroupedDigits(m);
    GroupStartsWithDigit(Digits(m));
    ParseSigned(g);
  }

  lemma {:induction false} GroupStartsWithDigit(ds: string)
    requires |ds| >= 1 && forall i :: 0 <= i < |ds| ==> IsDigit(ds[i])
    ensures |Group(ds)| >= 1 && Group(ds)[0] == ds[0]
  {
    if |ds| > 3 {
      GroupStartsWithDigit(ds[..|ds| - 3]);
    }
  }

  lemma DigitsExample()
    ensures Digits(1234567) == "1234567"
  {
    assert 1234567 / 10 == 123456 && 1234567 % 10 == 7;
    assert 123456 / 10 == 12345 && 123456 % 10 == 6;
    assert Digits(1234567) == Digits(123456) + "7";
    assert Digits(123456) == Digits(12345) + "6";
    assert Digits(12345) == Digits(1234) + "5";
    assert Digits(1234) == Digits(123) + "4";
    assert Digits(123) == Digits(12) + "3";
    assert Digits(12) == "12";
  }

  /** Thousands are separated by commas. */
  lemma FormatNumberExample()
    ensures FormatNumber(1234567) == "1,234,567"
  {
    DigitsExample();
    GroupExample();
  }

  lemma GroupExample()
    ensures Group("1234567") == "1,234,567"
  {
    var d := "1234567";
    assert d[..4] == "1234" && d[4..] == "567";
    assert Group("1234") == "1,234";
  }

  /** A negative number keeps its sign in front of the grouped digits; three digits need no comma. */
  lemma FormatNumberSmallExamples()
    ensures FormatNumber(-1000) == "-1,000"
    ensures FormatNumber(999) == "999"
  {
    DigitsOf1000();
    DigitsOf999();
    assert Group("1000") == "1,000";
  }

  lemma DigitsOf1000()
    ensures Digits(1000) == "1000"
  {
    assert Digits(10) == "10";
    assert Digits(100) == "100";
  }

  lemma DigitsOf999()
    ensures Digits(999) == "999"
  {
    assert Digits(99) == "99";
  }

  /**
   * The thousands layout: at least one character, a comma exactly at the
   * positions a multiple of four from the end, digits everywhere else. So the
   * leading group has one to three digits and each comma is followed by
   * exactly three digits before the next comma or the end.
   */
  predicate CommaGrouped(g: string)
  {
    && |g| % 4 != 0
    && forall i :: 0 <= i < |g| ==> (g[i] == ',' <==> (|g| - i) % 4 == 0) && (g[i] != ',' ==> IsDigit(g[i]))
  }

  /** Grouping a non-empty digit string yields the thousands layout. */
  lemma {:induction false} GroupIsCommaGrouped(ds: string)
    requires |ds| >= 1 && forall i :: 0 <= i < |ds| ==> IsDigit(ds[i])
    ensures CommaGrouped(Group(ds))
  {
    if |ds| > 3 {
      var front, back := ds[..|ds| - 3], ds[|ds| - 3..];
      GroupIsCommaGrouped(front);
      CommaGroupedJoin(Group(front), back);
    }
  }

  /** A comma and three more digits after a grouped string keep the layout. */
  lemma CommaGroupedJoin(gf: string, back: string)
    requires CommaGrouped(gf)
    requires |back| == 3 && forall i :: 0 <= i < 3 ==> IsDigit(back[i])
    ensures CommaGrouped(gf + "," + back)
  {
    var g := gf + "," + back;
    forall i | 0 <= i < |g|
      ensures (g[i] == ',' <==> (|g| - i) % 4 == 0) && (g[i] != ',' ==> IsDigit(g[i]))
    {
      if i < |gf| {
        ShiftByFour(|gf| - i);
        assert g[i] == gf[i];
      } else if i > |gf| {
        assert g[i] == back[i - |gf| - 1];
      }
    }
    ShiftByFour(|gf|);
  }

  lemma ShiftByFour(x: int)
    ensures (x + 4) % 4 == x % 4
  {
  }

  /** format_number writes a minus sign exactly for negative numbers, then the digits in the thousands layout. */
  lemma FormatNumberGrouped(n: int)
    ensures var s := FormatNumber(n);
      && |s| >= 1 && (s[0] == '-' <==> n < 0)
      && CommaGrouped(if n < 0 then s[1..] else s)
  {
    var m: nat := if n < 0 then -n else n;
    GroupIsCommaGrouped(Digits(m));
    GroupStartsWithDigit(Digits(m));
    if n < 0 {
      assert FormatNumber(n)[1..] == Group(Digits(m));
    }
  }

  // ------------------------------------------------------------ percentages

  function Abs(x: int): nat
  {
    if x < 0 then -x else x
  }

  /** Integer division rounding toward zero, as Python's int() of a quotient does. */
  function TruncDiv(a: int, b: int): (q: int)
    requires b != 0
    ensures Abs(q) == Abs(a) / Abs(b)
    ensures (a < 0) == (b < 0) ==> q >= 0
    ensures (a < 0) != (b < 0) ==> q <= 0
    ensures a >= 0 && b > 0 ==> q == a / b
  {
    DivBelow(Abs(a), Abs(b), 0);
    var m := Abs(a) / Abs(b);
    if (a < 0) != (b < 0) then -m else m
  }

  /**
   * calculate_percentage: 0 for a zero total, otherwise the truncated
   * percentage, never above 100.
   */
  function CalculatePercentage(current: int, total: int): (r: int)
    ensures total == 0 ==> r == 0
    ensures r <= 100
    ensures total > 0 && current >= 0 ==> 0 <= r
  {
    if total == 0 then 0
    else
      var p := TruncDiv(current * 100, total);
      if p < 100 then p else 100
  }

  /** a / b < k exactly when a < k * b, for a non-negative a and positive b. */
  lemma DivBelow(a: int, b: int, k: int)
    requires a >= 0 && b > 0
    ensures a / b < k <==> a < k * b
  {
    var q, m := a / b, a % b;
    assert a == q * b + m && 0 <= m < b;
    if q < k {
      MultiplyMonotone(q + 1, k, b);
    } else {
      MultiplyMonotone(k, q, b);
    }
  }

  lemma MultiplyMonotone(x: int, y: int, c: nat)
    requires x <= y
    ensures x * c <= y * c
  {
  }

  /**
   * For a non-negative share of a positive total the percentage is the
   * largest r with r% of the total at most the current value, and it is 100
   * exactly when the share is the whole.
   */
  lemma PercentageBrackets(current: int, total: int)
    requires total > 0 && 0 <= current
    ensures var r := CalculatePercentage(current, total);
      r == 100 || r * total <= 100 * current < (r + 1) * total
    ensures current <= total ==> (CalculatePercentage(current, total) == 100 <==> current == total)
  {
    var a := current * 100;
    var p := a / total;
    assert TruncDiv(a, total) == p;
    assert CalculatePercentage(current, total) == if p < 100 then p else 100;
    QuotientBracket(a, total);
    assert a == 100 * current;
    if current <= total {
      DivBelow(a, total, 100);
    }
  }

  /** The floor quotient of a by b brackets a between consecutive multiples of b. */
  lemma QuotientBracket(a: int, b: int)
    requires a >= 0 && b > 0
    ensures (a / b) * b <= a < (a / b + 1) * b
  {
    var q, m := a / b, a % b;
    assert a == q * b + m && 0 <= m < b;
  }

  /** Truncating a quotient stays below k when the dividend, taken with the divisor's sign, is short of k times it. */
  lemma TruncDivBelow(a: int, b: int, k: int)
    requires b != 0 && k > 0
    requires (a < 0) == (b < 0) && a != 0 ==> Abs(a) < k * Abs(b)
    ensures TruncDiv(a, b) < k
  {
    if (a < 0) == (b < 0) && a != 0 {
      DivBelow(Abs(a), Abs(b), k);
    }
  }

  /** Scaling by a positive k keeps the sign and scales the magnitude. */
  lemma ScaleKeepsSign(k: int, x: int)
    requires k > 0
    ensures (k * x < 0) == (x < 0) && (k * x == 0) == (x == 0)
    ensures Abs(k * x) == k * Abs(x)
  {
    if x < 0 {
      assert k * x == -(k * -x);
    }
  }

  /**
   * Scaling a ratio below 1 by k and truncating stays below k (the ratio is
   * below 1 unless current and total share a sign and |current| >= |total|).
   */
  lemma ScaledRatioBelow(current: int, total: int, k: int)
    requires total != 0 && k > 0
    requires !((total > 0 && current >= total) || (total < 0 && current <= total))
    ensures TruncDiv(k * current, total) < k
  {
    ScaleKeepsSign(k, current);
    if (current < 0) == (total < 0) && current != 0 {
      assert Abs(current) + 1 <= Abs(total);
      MultiplyMonotone(Abs(current) + 1, Abs(total), k);
      assert k * Abs(current) < k * Abs(total);
    }
    TruncDivBelow(k * current, total, k);
  }

  /** The bar's fixed number of squares. */
  const BAR_LENGTH: int := 10

  /** The filled squares and the percent shown by format_progress_bar. */
  datatype BarCounts = BarCounts(filled: int, percent: int)

  /**
   * format_progress_bar's arithmetic: the ratio current/total capped at 1
   * (0 for a zero total), scaled to 10 squares and to a percent, truncated.
   */
  function ProgressBarCounts(current: int, total: int): (b: BarCounts)
    ensures b.filled <= BAR_LENGTH && b.percent <= 100
    ensures total > 0 && current >= 0 ==> 0 <= b.filled && 0 <= b.percent
    ensures total > 0 && current >= total ==> b == BarCounts(BAR_LENGTH, 100)
  {
    if total == 0 then BarCounts(0, 0)
    else if (total > 0 && current >= total) || (total < 0 && current <= total) then BarCounts(BAR_LENGTH, 100)
    else
      ScaledRatioBelow(current, total, BAR_LENGTH);
      ScaledRatioBelow(current, total, 100);
      BarCounts(TruncDiv(BAR_LENGTH * current, total), TruncDiv(100 * current, total))
  }

  /** Python's `s * n`: n copies, none when n is not positive. */
  function Repeat(s: string, n: int): (r: string)
    ensures n >= 0 ==> |r| == |s| * n
    ensures n <= 0 ==> r == []
  {
    if n <= 0 then [] else s + Repeat(s, n - 1)
  }

  /** Python's str() of an integer: a minus sign for negatives, no separators. */
  function ShowInt(n: int): (r: string)
    ensures |r| >= 1 && forall i :: 0 <= i < |r| ==> r[i] != ','
    ensures ParseNumber(r) == n
  {
    var m: nat := if n < 0 then -n else n;
    RemoveCommasOfDigits(Digits(m));
    DigitsValueOfDigits(m);
    ParseSigned(Digits(m));
    if n < 0 then "-" + Digits(m) else Digits(m)
  }

  /** format_progress_bar: filled squares, empty squares, then the percent. */
  function FormatProgressBar(current: int, total: int): string
  {
    BarText(ProgressBarCounts(current, total))
  }

  /** The text of a bar with the given counts. */
  function BarText(b: BarCounts): string
  {
    Repeat("🟦", b.filled) + Repeat("⬜", BAR_LENGTH - b.filled) + " " + ShowInt(b.percent) + "%"
  }

  /** n copies of one character: exactly n characters, each that one. */
  lemma {:induction false} RepeatChar(c: char, n: nat)
    ensures |Repeat([c], n)| == n
    ensures forall i :: 0 <= i < n ==> Repeat([c], n)[i] == c
  {
    if n > 0 {
      RepeatChar(c, n - 1);
      assert Repeat([c], n) == [c] + Repeat([c], n - 1);
    }
  }

  /** A share short of the total never fills the bar nor shows 100%. */
  lemma ProgressBarNotFull(current: int, total: int)
    requires total > 0 && 0 <= current < total
    ensures ProgressBarCounts(current, total).filled < BAR_LENGTH
    ensures ProgressBarCounts(current, total).percent < 100
  {
    DivBelow(BAR_LENGTH * current, total, BAR_LENGTH);
    DivBelow(100 * current, total, 100);
  }

  /**
   * For a non-negative share of a positive total the text is ten squares,
   * the filled ones first, then a space, the percent as a plain integer and
   * a percent sign.
   */
  lemma ProgressBarLayout(current: int, total: int)
    requires total > 0 && current >= 0
    ensures var b := ProgressBarCounts(current, total);
      var s := FormatProgressBar(current, total);
      && |s| >= BAR_LENGTH + 3
      && (forall i :: 0 <= i < BAR_LENGTH ==> s[i] == if i < b.filled then '🟦' else '⬜')
      && s[BAR_LENGTH] == ' ' && s[|s| - 1] == '%'
      && ParseNumber(s[BAR_LENGTH + 1..|s| - 1]) == b.percent
  {
    BarTextLayout(ProgressBarCounts(current, total));
  }

  /** The layout of a bar whose filled count is within the ten squares. */
  lemma BarTextLayout(b: BarCounts)
    requires 0 <= b.filled <= BAR_LENGTH
    ensures var s := BarText(b);
      && |s| >= BAR_LENGTH + 3
      && (forall i :: 0 <= i < BAR_LENGTH ==> s[i] == if i < b.filled then '🟦' else '⬜')
      && s[BAR_LENGTH] == ' ' && s[|s| - 1] == '%'
      && ParseNumber(s[BAR_LENGTH + 1..|s| - 1]) == b.percent
  {
    CellsLayout(b.filled);
    TextAround(Repeat("🟦", b.filled) + Repeat("⬜", BAR_LENGTH - b.filled), ShowInt(b.percent));
  }

  /** The squares, a space, the shown percent and a percent sign, each at its place. */
  lemma TextAround(cells: string, shown: string)
    requires |cells| == BAR_LENGTH
    ensures var s := cells + " " + shown + "%";
      && |s| == BAR_LENGTH + |shown| + 2
      && (forall i :: 0 <= i < BAR_LENGTH ==> s[i] == cells[i])
      && s[BAR_LENGTH] == ' ' && s[|s| - 1] == '%'
      && s[BAR_LENGTH + 1..|s| - 1] == shown
  {
    var s := cells + " " + shown + "%";
    assert s[BAR_LENGTH + 1..|s| - 1] == shown;
  }

  /** The ten squares: `filled` blue ones, then white ones. */
  lemma CellsLayout(filled: int)
    requires 0 <= filled <= BAR_LENGTH
    ensures var cells := Repeat("🟦", filled) + Repeat("⬜", BAR_LENGTH - filled);
      && |cells| == BAR_LENGTH
      && forall i :: 0 <= i < BAR_LENGTH ==> cells[i] == if i < filled then '🟦' else '⬜'
  {
    var full, empty := Repeat("🟦", filled), Repeat("⬜", BAR_LENGTH - filled);
    RepeatChar('🟦', filled);
    RepeatChar('⬜', BAR_LENGTH - filled);
    forall i | 0 <= i < BAR_LENGTH
      ensures (full + empty)[i] == if i < filled then '🟦' else '⬜'
    {
      if i < filled {
        assert (full + empty)[i] == full[i];
      } else {
        assert (full + empty)[i] == empty[i - filled];
      }
    }
  }

  // ----------------------------------------------------------- rate limiter

  /** The timestamps strictly after `cutoff`, order kept. */
  function Recent(ts: seq<int>, cutoff: int): (r: seq<int>)
    ensures |r| <= |ts|
    ensures forall t :: t in r <==> t in ts && t > cutoff
    ensures forall t :: multiset(r)[t] == if t > cutoff then multiset(ts)[t] else 0
  {
    if ts == [] then []
    else
      var last := ts[|ts| - 1];
      assert ts == ts[..|ts| - 1] + [last];
      assert forall t :: t in ts <==> t in ts[..|ts| - 1] || t == last;
      Recent(ts[..|ts| - 1], cutoff) + (if last > cutoff then [last] else [])
  }

  /** Filtering a concatenation filters each part and keeps them in order. */
  lemma {:induction false} RecentAppend(a: seq<int>, b: seq<int>, cutoff: int)
    ensures Recent(a + b, cutoff) == Recent(a, cutoff) + Recent(b, cutoff)
    decreases |b|
  {
    if b == [] {
      assert a + b == a;
    } else {
      var front := b[..|b| - 1];
      var last := b[|b| - 1];
      assert (a + b)[..|a + b| - 1] == a + front;
      assert (a + b)[|a + b| - 1] == last;
      RecentAppend(a, front, cutoff);
    }
  }

  /** A single timestamp survives exactly when it is after the cutoff. */
  lemma RecentSingle(t: int, cutoff: int)
    ensures Recent([t], cutoff) == if t > cutoff then [t] else []
  {
    assert [t][..0] == [];
  }

  /** Filtering one more timestamp appends it exactly when it is after the cutoff. */
  lemma RecentExtend(ts: seq<int>, i: int, cutoff: int)
    requires 0 <= i < |ts|
    ensures Recent(ts[..i + 1], cutoff) == Recent(ts[..i], cutoff) + (if ts[i] > cutoff then [ts[i]] else [])
  {
    var front := ts[..i + 1];
    assert front != [] && |front| - 1 == i;
    assert front[..i] == ts[..i] && front[i] == ts[i];
  }

  /** The list comprehension of is_allowed: keep the timestamps after `cutoff`, in order. */
  method Prune(history: seq<int>, cutoff: int) returns (kept: seq<int>)
    ensures kept == Recent(history, cutoff)
  {
    kept := [];
    var i := 0;
    while i < |history|
      invariant 0 <= i <= |history|
      invariant kept == Recent(history[..i], cutoff)
    {
      RecentExtend(history, i, cutoff);
      if history[i] > cutoff {
        kept := kept + [history[i]];
      }
      i := i + 1;
    }
    assert history[..i] == history;
  }

  /** A limiter allowing each user `maxCalls` calls per `period` seconds. */
  class RateLimiter {
    const maxCalls: int
    const period: int
    /** Per user, the times of the calls still inside the window; a missing user has none. */
    var calls: map<int, seq<int>>

    /** No user's list is longer than the limit allows. */
    predicate Valid()
      reads this
    {
      forall u :: u in calls ==> |calls[u]| <= (if maxCalls < 0 then 0 else maxCalls)
    }

    constructor (maxCalls: int, period: int)
      ensures this.maxCalls == maxCalls && this.period == period && calls == map[]
      ensures Valid()
    {
      this.maxCalls := maxCalls;
      this.period := period;
      calls := map[];
    }

    function History(user: int): seq<int>
      reads this
    {
      if user in calls then calls[user] else []
    }

    /**
     * is_allowed at time `now`: drop the user's calls at or before now - period,
     * then refuse when the limit is reached, or record `now` and allow. `now`
     * and `period` share one unit; microseconds match datetime.now().
     */
    method IsAllowed(user: int, now: int) returns (allowed: bool)
      modifies this
      requires Valid()
      ensures Valid()
      ensures var kept := Recent(old(History(user)), now - period);
        && (allowed <==> |kept| < maxCalls)
        && calls == old(calls)[user := kept + (if allowed then [now] else [])]
    {
      var history := if user in calls then calls[user] else [];
      var kept := Prune(history, now - period);
      calls := calls[user := kept];
      if |kept| >= maxCalls {
        assert kept + [] == kept;
        return false;
      }
      calls := calls[user := kept + [now]];
      return true;
    }
  }

  // -------------------------------------------------- message cleanup ids

  /** A sent message: its id and the attribute that exempts it from cleanup. */
  class Message {
    const id: int
    var skipCleanup: bool

    constructor (id: int)
      ensures this.id == id && !skipCleanup
    {
      this.id := id;
      skipCleanup := false;
    }
  }

  /** A queued deletion: when to delete, and which message. */
  datatype Entry = Entry(runAt: real, messageId: int)

  /** The message that is never cleaned up. */
  const PINNED_MESSAGE_ID: int := 1372750739478282341

  function Max0(x: real): (r: real)
    ensures r >= 0.0 && r >= x && (r == 0.0 || r == x)
  {
    if x < 0.0 then 0.0 else x
  }

  /**
   * MessageCleanupManager's state: the deletion queue (its priority order is
   * not modelled), the stopped flag, whether a worker runs, and the two id sets.
   */
  class MessageCleanupManager {
    const delaySeconds: real
    const jitterSeconds: real
    const minInterval: real
    var queue: seq<Entry>
    var stopped: bool
    var workerRunning: bool
    var persistentIds: set<int>
    var skipIds: set<int>

    /**
     * The skip set always equals the persistent set, so it contains it; the
     * pinned id is persistent; jitter and interval are floored at 0.
     */
    predicate Valid()
      reads this
    {
      && skipIds == persistentIds && PINNED_MESSAGE_ID in persistentIds
      && jitterSeconds >= 0.0 && minInterval >= 0.0
    }

    constructor (delaySeconds: real, jitterSeconds: real, minInterval: real)
      ensures this.delaySeconds == delaySeconds
      ensures this.jitterSeconds == Max0(jitterSeconds) && this.minInterval == Max0(minInterval)
      ensures queue == [] && !stopped && !workerRunning
      ensures persistentIds == {PINNED_MESSAGE_ID} && skipIds == persistentIds
      ensures Valid()
    {
      this.delaySeconds := delaySeconds;
      this.jitterSeconds := Max0(jitterSeconds);
      this.minInterval := Max0(minInterval);
      queue := [];
      stopped := false;
      workerRunning := false;
      persistentIds := {PINNED_MESSAGE_ID};
      skipIds := {PINNED_MESSAGE_ID};
    }

    /** should_skip. */
    predicate ShouldSkip(m: Message)
      reads this, m
    {
      m.skipCleanup || m.id in skipIds || m.id in persistentIds
    }

    /** start: launch the worker unless one is running, clearing the stopped flag. */
    method Start()
      modifies this
      ensures old(workerRunning) ==> stopped == old(stopped)
      ensures !old(workerRunning) ==> !stopped
      ensures workerRunning
      ensures queue == old(queue) && persistentIds == old(persistentIds) && skipIds == old(skipIds)
    {
      if workerRunning {
        return;
      }
      stopped := false;
      workerRunning := true;
    }

    /**
     * schedule at monotonic time `now`: nothing happens once stopped or for a
     * message to skip; otherwise the message is queued at now + delay (an
     * explicit delay floored at 0) plus `jitterDraw`, the random draw from
     * [0, jitter] taken when jitter is positive, and a worker is started.
     */
    method Schedule(m: Message, delay: Option<real>, now: real, jitterDraw: real)
      modifies this
      requires 0.0 <= jitterDraw <= jitterSeconds
      ensures old(stopped) || old(ShouldSkip(m)) ==>
                queue == old(queue) && stopped == old(stopped) && workerRunning == old(workerRunning)
      ensures !old(stopped) && !old(ShouldSkip(m)) ==>
                var base := if delay.None? then delaySeconds else Max0(delay.value);
                && queue == old(queue) + [Entry(now + base + (if jitterSeconds > 0.0 then jitterDraw else 0.0), m.id)]
                && workerRunning && !stopped
      ensures delay.Some? && |queue| > |old(queue)| ==> queue[|queue| - 1].runAt >= now
      ensures persistentIds == old(persistentIds) && skipIds == old(skipIds)
    {
      if stopped {
        return;
      }
      if m.skipCleanup || m.id in skipIds || m.id in persistentIds {
        return;
      }
      var delayValue := if delay.None? then delaySeconds else Max0(delay.value);
      var runAt := now + delayValue;
      if jitterSeconds > 0.0 {
        runAt := runAt + jitterDraw;
      }
      queue := queue + [Entry(runAt, m.id)];
      if !workerRunning {
        Start();
      }
    }

    /** mark_persistent: flag the message and add its id to both sets. */
    method MarkPersistent(m: Message)
      modifies this, m
      requires Valid()
      ensures Valid()
      ensures m.skipCleanup && ShouldSkip(m)
      ensures persistentIds == old(persistentIds) + {m.id}
      ensures queue == old(queue) && stopped == old(stopped) && workerRunning == old(workerRunning)
    {
      m.skipCleanup := true;
      persistentIds := persistentIds + {m.id};
      skipIds := skipIds + {m.id};
    }

    /** shutdown: stop, cancel the worker, drain the queue, and reset the skip set to the persistent set. */
    method Shutdown()
      modifies this
      requires Valid()
      ensures Valid()
      ensures stopped && !workerRunning && queue == []
      ensures persistentIds == old(persistentIds) && skipIds == persistentIds
    {
      stopped := true;
      workerRunning := false;
      while queue != []
        invariant stopped && !workerRunning
        invariant persistentIds == old(persistentIds) && skipIds == old(skipIds)
        decreases |queue|
      {
        queue := queue[1..];
      }
      skipIds := persistentIds;
    }

    /**
     * The worker's `finally` step after handling a message: its id leaves the
     * skip set unless it is persistent.
     */
    method ReleaseMessage(id: int)
      modifies this
      requires Valid()
      ensures Valid()
      ensures persistentIds == old(persistentIds) && skipIds == old(skipIds) - (if id in old(persistentIds) then {} else {id})
      ensures queue == old(queue) && stopped == old(stopped) && workerRunning == old(workerRunning)
    {
      if id !in persistentIds {
        skipIds := skipIds - {id};
      }
    }
  }

  /** Once marked persistent, a message is never queued again, even after a shutdown and restart. */
  method PersistentStaysExempt(mgr: MessageCleanupManager, m: Message, now: real)
    modifies mgr, m
    requires mgr.Valid()
    ensures mgr.Valid() && mgr.ShouldSkip(m)
    ensures |mgr.queue| == 0
  {
    mgr.MarkPersistent(m);
    mgr.Shutdown();
    mgr.Start();
    mgr.Schedule(m, None, now, 0.0);
  }
}
