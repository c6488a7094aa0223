/** The regular expressions `(\d+)\s*unit` that both the query analyser and
    the crawler use to find durations, and the first-match-wins walk over a
    list of such patterns. `re.search` is modelled by a scanner; the lemmas
    below show the scanner finds exactly the leftmost regex match. */
module Patterns {
  import opened Base
  import opened Text

  /** A unit word whose first character is neither a digit nor a space,
      as every unit the program uses ("min", "hour", "hr", ...) is. */
  predicate GoodUnit(unit: string) {
    |unit| > 0 && !IsDigit(unit[0]) && !IsSpace(unit[0])
  }

  /** The end of the run of digits starting at `i`. */
  function DigitEnd(text: string, i: nat): (r: nat)
    requires i <= |text|
    ensures i <= r <= |text|
    ensures forall m :: i <= m < r ==> IsDigit(text[m])
    ensures r == |text| || !IsDigit(text[r])
    decreases |text| - i
  {
    if i < |text| && IsDigit(text[i]) then DigitEnd(text, i + 1) else i
  }

  /** The end of the run of whitespace starting at `i`. */
  function SpaceEnd(text: string, i: nat): (r: nat)
    requires i <= |text|
    ensures i <= r <= |text|
    ensures forall m :: i <= m < r ==> IsSpace(text[m])
    ensures r == |text| || !IsSpace(text[r])
    decreases |text| - i
  {
    if i < |text| && IsSpace(text[i]) then SpaceEnd(text, i + 1) else i
  }

  /** The regex `(\d+)\s*unit` matches at `p` with group 1 = `text[p..j]`
      and the whitespace ending at `k`: any split the regex engine could
      try by backtracking. */
  ghost predicate RegexMatch(text: string, unit: string, p: int, j: int, k: int) {
    && 0 <= p < j <= k <= |text|
    && (forall m :: p <= m < j ==> IsDigit(text[m]))
    && (forall m :: j <= m < k ==> IsSpace(text[m]))
    && StartsWith(text[k..], unit)
  }

  /** A match leaves no room for backtracking: the digit group is the whole
      digit run and the whitespace is the whole whitespace run. */
  lemma MatchIsMaximal(text: string, unit: string, p: int, j: int, k: int)
    requires GoodUnit(unit)
    requires RegexMatch(text, unit, p, j, k)
    ensures j == DigitEnd(text, p) && k == SpaceEnd(text, j)
  {
    assert text[k..][0] == unit[0];
    if j < k {
      assert IsSpace(text[j]);
    }
    assert !IsDigit(text[j]);
    var d := DigitEnd(text, p);
    assert d <= j;
    var e := SpaceEnd(text, j);
    assert !IsSpace(text[k]);
    assert e <= k;
  }

  /** Every position inside a digit run shares the run's end. */
  lemma DigitEndInsideRun(text: string, i: nat, q: nat)
    requires i <= |text| && i <= q < DigitEnd(text, i)
    ensures DigitEnd(text, q) == DigitEnd(text, i)
  {
    var d := DigitEnd(text, i);
    var e := DigitEnd(text, q);
  }

  /** A match starting inside the run at `i` is a match of the whole run. */
  lemma MatchInsideRun(text: string, unit: string, i: nat)
    requires GoodUnit(unit)
    requires i < |text|
    ensures forall q, j, k :: i <= q < DigitEnd(text, i) && RegexMatch(text, unit, q, j, k)
              ==> StartsWith(text[SpaceEnd(text, DigitEnd(text, i))..], unit)
  {
    var d := DigitEnd(text, i);
    forall q, j, k | i <= q < d && RegexMatch(text, unit, q, j, k)
      ensures StartsWith(text[SpaceEnd(text, d)..], unit)
    {
      MatchIsMaximal(text, unit, q, j, k);
      DigitEndInsideRun(text, i, q);
    }
  }

  /** Scan from `i` for the first digit run followed by whitespace and
      `unit`; the result is the start and end of that run. */
  function ScanFrom(text: string, unit: string, i: nat): (r: Option<(nat, nat)>)
    requires GoodUnit(unit)
    requires i <= |text|
    ensures r.Some? ==> i <= r.value.0 <= r.value.1 <= |text|
    ensures r.Some? ==> RegexMatch(text, unit, r.value.0, r.value.1, SpaceEnd(text, r.value.1))
    ensures r.Some? ==> forall q, j, k :: i <= q < r.value.0 ==> !RegexMatch(text, unit, q, j, k)
    ensures r.None? ==> forall q, j, k :: i <= q ==> !RegexMatch(text, unit, q, j, k)
    decreases |text| - i
  {
    if i == |text| then None
    else if !IsDigit(text[i]) then
      NoMatchOnNonDigit(text, unit, i);
      ScanFrom(text, unit, i + 1)
    else
      var j := DigitEnd(text, i);
      var k := SpaceEnd(text, j);
      if StartsWith(text[k..], unit) then Some((i, j))
      else
        MatchInsideRun(text, unit, i);
        ScanFrom(text, unit, j)
  }

  lemma NoMatchOnNonDigit(text: string, unit: string, i: nat)
    requires i < |text| && !IsDigit(text[i])
    ensures forall j, k :: !RegexMatch(text, unit, i, j, k)
  {
  }

  /** `re.search(r'(\d+)\s*' + unit, text)`, answering the span of group 1. */
  function Search(text: string, unit: string): (r: Option<(nat, nat)>)
    requires GoodUnit(unit)
    ensures r.Some? ==> r.value.0 <= r.value.1 <= |text|
    ensures r.Some? ==> RegexMatch(text, unit, r.value.0, r.value.1, SpaceEnd(text, r.value.1))
    ensures r.Some? ==> forall q, j, k :: q < r.value.0 ==> !RegexMatch(text, unit, q, j, k)
    ensures r.None? ==> forall q, j, k :: !RegexMatch(text, unit, q, j, k)
  {
    ScanFrom(text, unit, 0)
  }

  function DigitValue(c: char): (v: nat)
    requires IsDigit(c)
    ensures v <= 9
  {
    c as int - '0' as int
  }

  /** `int(digits)` for a run of ASCII digits (leading zeros allowed). */
  function DecimalValue(d: string): (v: nat)
    requires forall m :: 0 <= m < |d| ==> IsDigit(d[m])
    decreases |d|
  {
    if |d| == 0 then 0
    else DecimalValue(d[..|d| - 1]) * 10 + DigitValue(d[|d| - 1])
  }

  /** The number that `int(match.group(1))` yields for `unit`, if the
      pattern matches. */
  function NumberBefore(text: string, unit: string): (r: Option<nat>)
    requires GoodUnit(unit)
    ensures r.Some? <==> exists q, j, k :: RegexMatch(text, unit, q, j, k)
  {
    match Search(text, unit)
    case None => None
    case Some((p, j)) => Some(DecimalValue(text[p..j]))
  }

  /** A unit that starts with another unit can never be found when the
      shorter one is not: `(\d+)\s*minutes` only matches where
      `(\d+)\s*min` already does. */
  lemma LongerUnitShadowed(text: string, short: string, long: string)
    requires GoodUnit(short) && StartsWith(long, short)
    ensures GoodUnit(long)
    ensures NumberBefore(text, long).Some? ==> NumberBefore(text, short).Some?
  {
    if NumberBefore(text, long).Some? {
      var q, j, k :| RegexMatch(text, long, q, j, k);
      assert text[k..][..|short|] == long[..|short|];
      assert RegexMatch(text, short, q, j, k);
    }
  }

  /** A text without the unit's first character has no match. */
  lemma NoUnitNoNumber(text: string, unit: string)
    requires GoodUnit(unit) && unit[0] !in text
    ensures NumberBefore(text, unit) == None
  {
    forall q, j, k | 0 <= q < j <= k <= |text| ensures !RegexMatch(text, unit, q, j, k) {
      if k < |text| {
        assert text[k..][0] == text[k] != unit[0];
      }
    }
  }

  /** An entry of a duration-pattern list, in the source's
      `(pattern, multiplier)` shape. */
  datatype DurationPattern =
    | NumberUnit(unit: string, multiplier: nat)
      /** A pattern with no capture group, such as `30-40`: when it matches,
          `match.group(1)` raises and the handler moves on. */
    | Ungrouped(literal: string, multiplier: nat)

  predicate WellFormed(patterns: seq<DurationPattern>) {
    forall i :: 0 <= i < |patterns| && patterns[i].NumberUnit? ==> GoodUnit(patterns[i].unit)
  }

  /** A number read before a unit, times the unit's multiplier. */
  function Scale(n: nat, multiplier: nat): nat {
    n * multiplier
  }

  /** The first pattern in list order that matches and has a group decides
      the duration: its number times its multiplier. */
  function FirstDuration(text: string, patterns: seq<DurationPattern>): (r: Option<nat>)
    requires WellFormed(patterns)
    decreases |patterns|
  {
    if |patterns| == 0 then None
    else
      WellFormedTail(patterns);
      var rest := FirstDuration(text, patterns[1..]);
      var p := patterns[0];
      if p.Ungrouped? then rest
      else
        var found := NumberBefore(text, p.unit);
        if found.Some? then Some(Scale(found.value, p.multiplier)) else rest
  }

  lemma WellFormedTail(patterns: seq<DurationPattern>)
    requires WellFormed(patterns) && |patterns| > 0
    ensures WellFormed(patterns[1..])
    ensures patterns[0].NumberUnit? ==> GoodUnit(patterns[0].unit)
  {
    TailIndex(patterns);
  }

  /** No entry matches exactly when the first does not and no later one
      does. */
  lemma NoneUnfold(text: string, patterns: seq<DurationPattern>)
    requires WellFormed(patterns) && |patterns| > 0
    ensures WellFormed(patterns[1..])
    ensures (forall i :: 0 <= i < |patterns| && patterns[i].NumberUnit?
               ==> NumberBefore(text, patterns[i].unit).None?) <==>
            ((patterns[0].NumberUnit? ==> NumberBefore(text, patterns[0].unit).None?) &&
             forall i :: 0 <= i < |patterns[1..]| && patterns[1..][i].NumberUnit?
               ==> NumberBefore(text, patterns[1..][i].unit).None?)
  {
    TailIndex(patterns);
  }

  /** No duration is found exactly when no entry with a capture group
      matches. */
  lemma {:induction false} FirstDurationNone(text: string, patterns: seq<DurationPattern>)
    requires WellFormed(patterns)
    ensures FirstDuration(text, patterns).None? <==>
      forall i :: 0 <= i < |patterns| && patterns[i].NumberUnit?
        ==> NumberBefore(text, patterns[i].unit).None?
    decreases |patterns|
  {
    if |patterns| > 0 {
      WellFormedTail(patterns);
      FirstDurationNone(text, patterns[1..]);
      NoneUnfold(text, patterns);
    }
  }

  /** Unfolding the first entry of the pattern list. */
  lemma FirstDurationCons(text: string, p: DurationPattern, ps: seq<DurationPattern>)
    requires WellFormed([p] + ps)
    ensures WellFormed(ps)
    ensures p.NumberUnit? ==> GoodUnit(p.unit)
    ensures FirstDuration(text, [p] + ps) ==
      if p.Ungrouped? || NumberBefore(text, p.unit).None? then FirstDuration(text, ps)
      else Some(Scale(NumberBefore(text, p.unit).value, p.multiplier))
  {
    AppendTail([p], ps);
    TailIndex([p] + ps);
  }

  /** Patterns without a capture group never decide. */
  lemma {:induction false} FirstDurationUngrouped(text: string, ps: seq<DurationPattern>)
    requires forall i :: 0 <= i < |ps| ==> ps[i].Ungrouped?
    ensures WellFormed(ps)
    ensures FirstDuration(text, ps) == None
    decreases |ps|
  {
    if |ps| > 0 {
      TailIndex(ps);
      FirstDurationUngrouped(text, ps[1..]);
      HeadTail(ps);
      FirstDurationCons(text, ps[0], ps[1..]);
    }
  }

  lemma WellFormedCons(p: DurationPattern, ps: seq<DurationPattern>)
    requires WellFormed(ps) && (p.NumberUnit? ==> GoodUnit(p.unit))
    ensures WellFormed([p] + ps)
  {
    ConsIndex(p, ps);
  }

  /** The list short, long, short', long' followed by group-less entries,
      where each long unit starts with the short unit before it, decides
      exactly as the two short units do. */
  lemma ShadowedPair(text: string, a: string, b: string, c: string, d: string, m1: nat, m2: nat,
                     rest: seq<DurationPattern>)
    requires GoodUnit(a) && GoodUnit(c) && StartsWith(b, a) && StartsWith(d, c)
    requires forall i :: 0 <= i < |rest| ==> rest[i].Ungrouped?
    ensures var ps := [NumberUnit(a, m1)] + ([NumberUnit(b, m1)] + ([NumberUnit(c, m2)] + ([NumberUnit(d, m2)] + rest)));
      WellFormed(ps) &&
      FirstDuration(text, ps) ==
        if NumberBefore(text, a).Some? then Some(NumberBefore(text, a).value * m1)
        else if NumberBefore(text, c).Some? then Some(NumberBefore(text, c).value * m2)
        else None
  {
    LongerUnitShadowed(text, a, b);
    LongerUnitShadowed(text, c, d);
    FirstDurationUngrouped(text, rest);
    var p3 := [NumberUnit(d, m2)] + rest;
    WellFormedCons(NumberUnit(d, m2), rest);
    var p2 := [NumberUnit(c, m2)] + p3;
    WellFormedCons(NumberUnit(c, m2), p3);
    var p1 := [NumberUnit(b, m1)] + p2;
    WellFormedCons(NumberUnit(b, m1), p2);
    WellFormedCons(NumberUnit(a, m1), p1);
    FirstDurationCons(text, NumberUnit(d, m2), rest);
    FirstDurationCons(text, NumberUnit(c, m2), p3);
    FirstDurationCons(text, NumberUnit(b, m1), p2);
    FirstDurationCons(text, NumberUnit(a, m1), p1);
  }
}
