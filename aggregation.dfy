/**
 * The two pieces of logic of the converter's "Convert & Plot" action that
 * do not talk to the network or the screen, lifted out as functions: the
 * parsing of the history-day field and the period-average rule.
 */
module Aggregation {
  import opened Wrappers
  import opened Errors
  import opened CurrencyCode
  import opened RateClient

  // ---------- The history-day field ----------

  predicate IsDigit(c: char)
  {
    '0' <= c <= '9'
  }

  function DigitValue(c: char): (d: nat)
    requires IsDigit(c)
    ensures d < 10
  {
    c as int - '0' as int
  }

  function DigitChar(d: nat): (c: char)
    requires d < 10
    ensures IsDigit(c) && DigitValue(c) == d
  {
    ('0' as int + d) as char
  }

  /** The digits of a decimal literal as `int` accepts it: ASCII digits, with
      single underscores allowed between two digits. */
  predicate IsDigitGroups(s: string)
  {
    && |s| > 0
    && IsDigit(s[0])
    && IsDigit(s[|s| - 1])
    && (forall i :: 0 <= i < |s| ==> IsDigit(s[i]) || s[i] == '_')
    && (forall i :: 0 <= i < |s| - 1 ==> IsDigit(s[i]) || IsDigit(s[i + 1]))
  }

  /** The literal with its underscores dropped and every other character kept,
      in order. */
  function RemoveUnderscores(s: string): (r: string)
    ensures |r| <= |s|
    ensures forall i :: 0 <= i < |r| ==> r[i] != '_'
    ensures (forall i :: 0 <= i < |s| ==> s[i] != '_') ==> r == s
    ensures |s| == 1 ==> r == (if s[0] == '_' then [] else s)
  {
    if s == [] then []
    else (if s[0] == '_' then [] else [s[0]]) + RemoveUnderscores(s[1..])
  }

  /** Underscores are removed piece by piece: with the one-character case in
      the contract above, this fixes the result on every string. */
  lemma {:induction false} RemoveUnderscoresAppend(a: string, b: string)
    ensures RemoveUnderscores(a + b) == RemoveUnderscores(a) + RemoveUnderscores(b)
  {
    if a == [] {
      assert a + b == b;
    } else {
      assert (a + b)[1..] == a[1..] + b;
      RemoveUnderscoresAppend(a[1..], b);
    }
  }

  lemma {:induction false} RemoveUnderscoresDigits(s: string)
    requires forall i :: 0 <= i < |s| ==> IsDigit(s[i]) || s[i] == '_'
    ensures forall i :: 0 <= i < |RemoveUnderscores(s)| ==> IsDigit(RemoveUnderscores(s)[i])
  {
    if s != [] {
      RemoveUnderscoresDigits(s[1..]);
    }
  }

  /** `10 ** n`. */
  function Pow10(n: nat): (p: nat)
    ensures p >= 1
  {
    if n == 0 then 1 else 10 * Pow10(n - 1)
  }

  /** The natural number a string of decimal digits denotes. */
  function DigitsValue(s: string): nat
    requires forall i :: 0 <= i < |s| ==> IsDigit(s[i])
  {
    if s == [] then 0 else DigitsValue(s[..|s| - 1]) * 10 + DigitValue(s[|s| - 1])
  }

  /** Positional notation: the digits of `a` followed by those of `b` denote
      `a`'s value shifted by the length of `b`, plus `b`'s value. */
  lemma {:induction false} DigitsValueAppend(a: string, b: string)
    requires forall i :: 0 <= i < |a| ==> IsDigit(a[i])
    requires forall i :: 0 <= i < |b| ==> IsDigit(b[i])
    ensures forall i :: 0 <= i < |a + b| ==> IsDigit((a + b)[i])
    ensures DigitsValue(a + b) == DigitsValue(a) * Pow10(|b|) + DigitsValue(b)
  {
    DigitsConcat(a, b);
    if b == [] {
      assert a + b == a;
    } else {
      var b' := b[..|b| - 1];
      assert (a + b)[..|a + b| - 1] == a + b';
      DigitsValueAppend(a, b');
      ShiftDigit(DigitsValue(a), Pow10(|b'|), DigitsValue(b'), DigitValue(b[|b| - 1]));
    }
  }

  /** Two runs of digits make one. */
  lemma DigitsConcat(a: string, b: string)
    requires forall i :: 0 <= i < |a| ==> IsDigit(a[i])
    requires forall i :: 0 <= i < |b| ==> IsDigit(b[i])
    ensures forall i :: 0 <= i < |a + b| ==> IsDigit((a + b)[i])
  {
  }

  lemma ShiftDigit(x: int, p: int, y: int, d: int)
    ensures (x * p + y) * 10 + d == x * (10 * p) + (y * 10 + d)
  {
  }

  /** The digit groups of an `int` literal without its sign; `None` where
      `int` raises. */
  function ParseUnsigned(body: string): (r: Option<nat>)
    ensures r.Some? <==> IsDigitGroups(body)
  {
    if !IsDigitGroups(body) then None
    else
      RemoveUnderscoresDigits(body);
      Some(DigitsValue(RemoveUnderscores(body)))
  }

  /** An underscore between two digit groups is accepted and ignored: the
      groups read as the first group's value shifted by the second group's
      digits, plus the second group's value. */
  lemma ParseUnsignedUnderscore(a: string, b: string)
    requires IsDigitGroups(a) && IsDigitGroups(b)
    ensures ParseUnsigned(a + "_" + b).Some?
    ensures ParseUnsigned(a + "_" + b).value
            == ParseUnsigned(a).value * Pow10(|RemoveUnderscores(b)|) + ParseUnsigned(b).value
  {
    DigitGroupsJoin(a, b);
    UnderscoreJoin(a, b);
    ParseUnsignedValue(a);
    ParseUnsignedValue(b);
    ParseUnsignedValue(a + "_" + b);
    DigitsValueAppend(RemoveUnderscores(a), RemoveUnderscores(b));
  }

  /** The joining underscore is dropped and the groups' digits kept. */
  lemma UnderscoreJoin(a: string, b: string)
    ensures RemoveUnderscores(a + "_" + b) == RemoveUnderscores(a) + RemoveUnderscores(b)
  {
    RemoveUnderscoresAppend(a + "_", b);
    RemoveUnderscoresAppend(a, "_");
  }

  /** Digit groups read as the digits left when the underscores are gone. */
  lemma ParseUnsignedValue(body: string)
    requires IsDigitGroups(body)
    ensures forall i :: 0 <= i < |RemoveUnderscores(body)| ==> IsDigit(RemoveUnderscores(body)[i])
    ensures ParseUnsigned(body) == Some(DigitsValue(RemoveUnderscores(body)))
  {
    RemoveUnderscoresDigits(body);
  }

  /** Two digit groups joined by one underscore are digit groups. */
  lemma DigitGroupsJoin(a: string, b: string)
    requires IsDigitGroups(a) && IsDigitGroups(b)
    ensures IsDigitGroups(a + "_" + b)
  {
    var s := a + "_" + b;
    forall i | 0 <= i < |s|
      ensures s[i] == (if i < |a| then a[i] else if i == |a| then '_' else b[i - |a| - 1])
    {
    }
  }

  /** A plain run of digits reads as the number it denotes. */
  lemma ParseUnsignedDigits(s: string)
    requires |s| > 0 && forall i :: 0 <= i < |s| ==> IsDigit(s[i])
    ensures ParseUnsigned(s) == Some(DigitsValue(s))
  {
    assert RemoveUnderscores(s) == s;
  }

  /** `int(t)` on a string with no surrounding whitespace: an optional sign,
      then the digit groups; `None` where `int` raises. */
  function ParseInt(t: string): (r: Option<int>)
    ensures r.Some? <==>
              IsDigitGroups(t) || (t != [] && (t[0] == '+' || t[0] == '-') && IsDigitGroups(t[1..]))
    ensures r.Some? ==> t != [] && (IsDigit(t[0]) || t[0] == '+' || t[0] == '-')
    ensures r.Some? && r.value < 0 ==> t[0] == '-'
    ensures r.Some? && t[0] == '-' ==> r.value == -(ParseUnsigned(t[1..]).value as int)
    ensures r.Some? && t[0] != '-' ==> r.value == ParseUnsigned(if t[0] == '+' then t[1..] else t).value
  {
    if t != [] && t[0] == '-' then
      match ParseUnsigned(t[1..])
      case None => None
      case Some(n) => Some(-(n as int))
    else if t != [] && t[0] == '+' then
      match ParseUnsigned(t[1..])
      case None => None
      case Some(n) => Some(n)
    else
      match ParseUnsigned(t)
      case None => None
      case Some(n) => Some(n)
  }

  /** Single underscores between digits are allowed and ignored. */
  lemma ParseIntUnderscoreExample()
    ensures ParseInt("1_0") == Some(10)
  {
    assert RemoveUnderscores("1_0") == "10";
    assert DigitsValue("10") == 10 by { assert "10"[..1] == "1"; }
  }

  /** A leading sign is allowed. */
  lemma ParseIntSignExamples()
    ensures ParseInt("+7") == Some(7)
    ensures ParseInt("-0") == Some(0)
  {
    assert "+7"[1..] == "7";
    ParseUnsignedDigits("7");
    assert "-0"[1..] == "0";
    ParseUnsignedDigits("0");
  }

  /** No empty digits, no stray or doubled underscore, no other character. */
  lemma ParseIntRejectExamples()
    ensures ParseInt("").None? && ParseInt("-").None?
    ensures ParseInt("_1").None? && ParseInt("1_").None?
    ensures ParseInt("1__0").None? && ParseInt("12a").None?
  {
    assert "-"[1..] == "";
    assert !IsDigitGroups("1__0") by { assert !(IsDigit("1__0"[1]) || IsDigit("1__0"[2])); }
    assert !IsDigitGroups("12a") by { assert !IsDigit("12a"[2]); }
  }

  /** `str(n)` for a natural number. */
  function ShowNat(n: nat): (s: string)
    ensures |s| > 0
    ensures forall i :: 0 <= i < |s| ==> IsDigit(s[i])
  {
    if n < 10 then [DigitChar(n)] else ShowNat(n / 10) + [DigitChar(n % 10)]
  }

  /** `str(n)` for an integer. */
  function ShowInt(n: int): (s: string)
    ensures |s| > 0
    ensures s[0] == '-' <==> n < 0
    ensures forall i :: (if n < 0 then 1 else 0) <= i < |s| ==> IsDigit(s[i])
  {
    if n < 0 then "-" + ShowNat(-n) else ShowNat(n)
  }

  lemma {:induction false} ShowNatValue(n: nat)
    ensures DigitsValue(ShowNat(n)) == n
  {
    if n >= 10 {
      var s := ShowNat(n);
      assert s[..|s| - 1] == ShowNat(n / 10);
      ShowNatValue(n / 10);
    }
  }

  /** `int(str(n)) == n`: parsing reads back every integer it is shown. */
  lemma ParseShowInt(n: int)
    ensures ParseInt(ShowInt(n)) == Some(n)
  {
    var m := if n < 0 then -n else n;
    var digits := ShowNat(m);
    ShowNatValue(m);
    ParseUnsignedDigits(digits);
    if n < 0 {
      assert ShowInt(n)[1..] == digits;
    }
  }

  /** The days field after `strip()`: 30 when blank, otherwise `int` of it,
      rejected below 1. */
  function ParseDays(s: string): (r: Result<int, Error>)
    ensures (forall k :: 0 <= k < |s| ==> IsSpace(s[k])) ==> r == Success(30)
    ensures r.Success? ==> r.value >= 1
    ensures Strip(s) != [] ==>
              (r.Success? <==> ParseInt(Strip(s)).Some? && ParseInt(Strip(s)).value >= 1)
    ensures Strip(s) != [] && r.Success? ==> r == Success(ParseInt(Strip(s)).value)
    ensures Strip(s) != [] && ParseInt(Strip(s)).None? ==> r == Failure(DaysNotInteger(Strip(s)))
    ensures Strip(s) != [] && ParseInt(Strip(s)).Some? && ParseInt(Strip(s)).value < 1 ==>
              r == Failure(DaysBelowOne(ParseInt(Strip(s)).value))
    ensures r.Failure? ==> r.error == DaysNotInteger(Strip(s)) || (r.error.DaysBelowOne? && r.error.days < 1)
  {
    var t := Strip(s);
    if t == [] then Success(30)
    else
      match ParseInt(t)
      case None => Failure(DaysNotInteger(t))
      case Some(n) => if n < 1 then Failure(DaysBelowOne(n)) else Success(n)
  }

  /** A number typed with any blank padding: accepted, as itself, exactly when
      it is at least 1. */
  lemma ParseDaysNumber(pre: string, n: int, post: string)
    requires forall k :: 0 <= k < |pre| ==> IsSpace(pre[k])
    requires forall k :: 0 <= k < |post| ==> IsSpace(post[k])
    ensures ParseDays(pre + ShowInt(n) + post) ==
              if n >= 1 then Success(n) else Failure(DaysBelowOne(n))
  {
    var t := ShowInt(n);
    assert !IsSpace(t[0]) && !IsSpace(t[|t| - 1]);
    StripPadded(pre, t, post);
    ParseShowInt(n);
  }

  /** A blank field means the default window of 30 days. */
  lemma ParseDaysBlankExamples()
    ensures ParseDays("") == Success(30)
    ensures ParseDays(" \t ") == Success(30)
  {
  }

  /** Zero days is refused. */
  lemma ParseDaysZeroExample()
    ensures ParseDays("0") == Failure(DaysBelowOne(0))
  {
    StripUntrimmed("0");
    ParseUnsignedDigits("0");
  }

  /** A negative day count is refused. */
  lemma ParseDaysNegativeExample()
    ensures ParseDays("-5") == Failure(DaysBelowOne(-5))
  {
    StripUntrimmed("-5");
    assert "-5"[1..] == "5";
    ParseUnsignedDigits("5");
  }

  /** A padded positive day count is read as itself. */
  lemma ParseDaysPaddedExample()
    ensures ParseDays(" 45 ") == Success(45)
  {
    StripPadded(" ", "45", " ");
    assert " " + "45" + " " == " 45 ";
    ParseUnsignedDigits("45");
    assert DigitsValue("45") == 45 by { assert "45"[..1] == "4"; }
  }

  // ---------- The period average ----------

  /** `list(rates.values())`. */
  function Values(s: Series): (v: seq<real>)
    ensures |v| == |s| && forall i :: 0 <= i < |s| ==> v[i] == s[i].1
  {
    seq(|s|, i requires 0 <= i < |s| => s[i].1)
  }

  /** `sum(xs)`, exact on reals. */
  function Sum(xs: seq<real>): real
  {
    if xs == [] then 0.0 else xs[0] + Sum(xs[1..])
  }

  /** `sum` adds the values one after the other: appending a value adds it. */
  lemma {:induction false} SumAppend(xs: seq<real>, x: real)
    ensures Sum(xs + [x]) == Sum(xs) + x
  {
    if xs != [] {
      assert (xs + [x])[1..] == xs[1..] + [x];
      SumAppend(xs[1..], x);
    }
  }

  function Min(xs: seq<real>): (m: real)
    requires |xs| > 0
    ensures m in xs && forall i :: 0 <= i < |xs| ==> m <= xs[i]
  {
    if |xs| == 1 then xs[0]
    else
      var rest := Min(xs[1..]);
      if xs[0] <= rest then xs[0] else rest
  }

  function Max(xs: seq<real>): (m: real)
    requires |xs| > 0
    ensures m in xs && forall i :: 0 <= i < |xs| ==> xs[i] <= m
  {
    if |xs| == 1 then xs[0]
    else
      var rest := Max(xs[1..]);
      if xs[0] >= rest then xs[0] else rest
  }

  /** A sum of n values lies between n times the smallest and n times the largest. */
  lemma {:induction false} SumBounds(xs: seq<real>, lo: real, hi: real)
    requires forall i :: 0 <= i < |xs| ==> lo <= xs[i] <= hi
    ensures lo * |xs| as real <= Sum(xs) <= hi * |xs| as real
  {
    if xs != [] {
      SumBounds(xs[1..], lo, hi);
    }
  }

  /** `is_today_included`: the last day of the series is today. */
  predicate TodayIncluded(s: Series, today: string)
  {
    |s| > 0 && s[|s| - 1].0 == today
  }

  /** The values the average is taken over: all but the last when the last day
      is today and there is more than one value, otherwise all of them. */
  function Window(s: Series, today: string): (w: seq<real>)
    ensures |w| == (if TodayIncluded(s, today) && |s| > 1 then |s| - 1 else |s|)
    ensures w == Values(s)[..|w|]
  {
    var values := Values(s);
    if TodayIncluded(s, today) && |values| > 1 then values[..|values| - 1] else values
  }

  /** `avg_rate`. An empty series would divide by zero. */
  function PeriodAverage(s: Series, today: string): (r: Result<real, Error>)
    ensures r.Failure? <==> s == []
    ensures r.Failure? ==> r.error == ZeroDivision
    ensures r.Success? ==> r.value == Sum(Window(s, today)) / |Window(s, today)| as real
    ensures r.Success? ==> Min(Window(s, today)) <= r.value <= Max(Window(s, today))
  {
    var w := Window(s, today);
    if w == [] then
      Failure(ZeroDivision)
    else
      MeanBetween(w);
      Success(Sum(w) / |w| as real)
  }

  /** The mean of values that all lie in [lo, hi] lies in [lo, hi]. */
  lemma MeanWithin(xs: seq<real>, lo: real, hi: real)
    requires |xs| > 0
    requires forall i :: 0 <= i < |xs| ==> lo <= xs[i] <= hi
    ensures lo <= Sum(xs) / |xs| as real <= hi
  {
    SumBounds(xs, lo, hi);
    DivideBounds(lo, hi, Sum(xs), |xs| as real);
  }

  /** The mean of a non-empty sequence lies between its minimum and maximum. */
  lemma MeanBetween(xs: seq<real>)
    requires |xs| > 0
    ensures Min(xs) <= Sum(xs) / |xs| as real <= Max(xs)
  {
    MeanWithin(xs, Min(xs), Max(xs));
  }

  lemma DivideBounds(lo: real, hi: real, total: real, n: real)
    requires n > 0.0 && lo * n <= total <= hi * n
    ensures lo <= total / n <= hi
  {
    var q := total / n;
    assert q * n == total;
    assert (q - lo) * n == total - lo * n;
    assert (hi - q) * n == hi * n - total;
  }

  /** Today's value, when it is the last of several, has no say in the average. */
  lemma AverageIgnoresToday(s: Series, today: string, v: real)
    requires TodayIncluded(s, today) && |s| > 1
    ensures PeriodAverage(s[..|s| - 1] + [(today, v)], today) == PeriodAverage(s, today)
  {
    var t := s[..|s| - 1] + [(today, v)];
    assert Values(t)[..|t| - 1] == Values(s)[..|s| - 1];
  }

  /** {d1: 10, d2: 20, today: 99} averages to 15; so does {d1: 10, d2: 20}. */
  lemma AverageExamples()
    ensures PeriodAverage([("2025-11-08", 10.0), ("2025-11-09", 20.0), ("2025-11-10", 99.0)], "2025-11-10")
            == Success(15.0)
    ensures PeriodAverage([("2025-11-08", 10.0), ("2025-11-09", 20.0)], "2025-11-10") == Success(15.0)
    ensures PeriodAverage([("2025-11-10", 99.0)], "2025-11-10") == Success(99.0)
  {
  }
}
