/** `extract_query_keywords`: free text to the signal bundle the scorer and
    the selector use. */
module Analyzer {
  import opened Base
  import opened Text
  import opened Catalog
  import opened Patterns

  /** One entry of the category-weight dictionary `test_type_pref`. */
  datatype CodeWeight = CodeWeight(code: string, weight: int)

  /** What `extract_query_keywords` returns. */
  datatype QuerySignals = QuerySignals(
    skills: seq<string>,
    level: Level,
    duration: Option<nat>,
    prefs: seq<CodeWeight>,
    query: string)

  const TechnicalSkills: seq<string> := ["sql", "python", "java", "javascript", "testing", "cloud", "data_analysis"]
  const ManagerialSkills: seq<string> := ["leadership", "manager", "communication", "sales", "marketing"]

  const DefaultPrefs: seq<CodeWeight> := [CodeWeight("K", 50), CodeWeight("P", 50)]
  const TechnicalPrefs: seq<CodeWeight> := [CodeWeight("K", 70), CodeWeight("P", 30)]
  const ManagerialPrefs: seq<CodeWeight> := [CodeWeight("K", 40), CodeWeight("P", 60)]

  /** The `duration_patterns` list, in source order. The last three have no
      capture group. */
  const QueryDurationPatterns: seq<DurationPattern> := [
    NumberUnit("min", 1),
    NumberUnit("minutes", 1),
    NumberUnit("hour", 60),
    NumberUnit("hours", 60),
    Ungrouped("30-40", 35),
    Ungrouped("40-50", 45),
    Ungrouped("50-60", 55)
  ]

  /** The skill tags whose keywords occur in the lower-cased query. */
  function DetectSkills(lowered: string): (r: seq<string>)
    ensures SubsequenceOf(r, Tags(SkillKeywords))
    ensures forall t :: t in r <==>
      exists i :: 0 <= i < |SkillKeywords| && SkillKeywords[i].tag == t
        && AnyOccurs(SkillKeywords[i].keywords, lowered)
  {
    Matching(SkillKeywords, lowered)
  }

  /** The loop over `EXPERIENCE_LEVELS` with its `break`: the first level
      one of whose indicators occurs. */
  function FirstLevel(levels: seq<Level>, lowered: string): (r: Option<Level>)
    ensures r.Some? ==> r.value in levels && AnyOccurs(Indicators(r.value), lowered)
    ensures r.None? <==> forall i :: 0 <= i < |levels| ==> !AnyOccurs(Indicators(levels[i]), lowered)
    decreases |levels|
  {
    if |levels| == 0 then None
    else if AnyOccurs(Indicators(levels[0]), lowered) then Some(levels[0])
    else
      assert forall i :: 1 <= i < |levels| ==> levels[i] == levels[1..][i - 1];
      FirstLevel(levels[1..], lowered)
  }

  /** No level among the first `k` has an indicator in the text. */
  predicate NoneBefore(levels: seq<Level>, k: nat, lowered: string)
    requires k <= |levels|
  {
    forall j :: 0 <= j < k ==> !AnyOccurs(Indicators(levels[j]), lowered)
  }

  /** The `break` stops at the first match: no level before the returned
      one has an occurring indicator. */
  lemma {:induction false} FirstLevelIsFirst(levels: seq<Level>, lowered: string)
    ensures var r := FirstLevel(levels, lowered);
      r.Some? ==> (exists k :: 0 <= k < |levels| && levels[k] == r.value && NoneBefore(levels, k, lowered))
    decreases |levels|
  {
    if |levels| > 0 {
      if AnyOccurs(Indicators(levels[0]), lowered) {
        assert NoneBefore(levels, 0, lowered);
      } else {
        var tail := levels[1..];
        FirstLevelIsFirst(tail, lowered);
        var r := FirstLevel(tail, lowered);
        if r.Some? {
          var k :| 0 <= k < |tail| && tail[k] == r.value && NoneBefore(tail, k, lowered);
          ShiftNoneBefore(levels, k, lowered);
          assert levels[k + 1] == r.value;
        }
      }
    }
  }

  lemma ShiftNoneBefore(levels: seq<Level>, k: nat, lowered: string)
    requires 0 < |levels| && k < |levels| - 1
    requires !AnyOccurs(Indicators(levels[0]), lowered) && NoneBefore(levels[1..], k, lowered)
    ensures NoneBefore(levels, k + 1, lowered)
  {
    forall j | 1 <= j < k + 1 ensures !AnyOccurs(Indicators(levels[j]), lowered) {
      assert levels[j] == levels[1..][j - 1];
    }
  }

  /** The experience level: the first of entry, mid, senior that has an
      indicator in the text, and mid when none has. */
  function DetectLevel(lowered: string): (r: Level)
    ensures r == Entry <==> AnyOccurs(Indicators(Entry), lowered)
    ensures r == Senior <==> (!AnyOccurs(Indicators(Entry), lowered)
      && !AnyOccurs(Indicators(Mid), lowered) && AnyOccurs(Indicators(Senior), lowered))
    ensures r == Mid <==> (!AnyOccurs(Indicators(Entry), lowered)
      && (AnyOccurs(Indicators(Mid), lowered) || !AnyOccurs(Indicators(Senior), lowered)))
  {
    FirstLevel(LevelOrder, lowered).GetOr(Mid)
  }

  lemma QueryPatternsWellFormed()
    ensures WellFormed(QueryDurationPatterns)
  {
  }

  /** The target duration: the first pattern in list order that matches and
      has a capture group. "minutes" and "hours" are shadowed by "min" and
      "hour", and the group-less ranges never decide, so the duration is the
      first number before "min", else sixty times the first number before
      "hour", else absent. */
  function QueryDuration(lowered: string): (r: Option<nat>)
    ensures r ==
      match NumberBefore(lowered, "min")
      case Some(n) => Some(n)
      case None =>
        match NumberBefore(lowered, "hour")
        case Some(n) => Some(n * 60)
        case None => None
  {
    QueryPatternsWellFormed();
    QueryPatternsShape();
    ShadowedPair(lowered, "min", "minutes", "hour", "hours", 1, 60, QueryRanges);
    FirstDuration(lowered, QueryDurationPatterns)
  }

  const QueryRanges: seq<DurationPattern> := [Ungrouped("30-40", 35), Ungrouped("40-50", 45), Ungrouped("50-60", 55)]

  lemma QueryPatternsShape()
    ensures QueryDurationPatterns ==
      [NumberUnit("min", 1)] + ([NumberUnit("minutes", 1)] + ([NumberUnit("hour", 60)] + ([NumberUnit("hours", 60)] + QueryRanges)))
    ensures forall i :: 0 <= i < |QueryRanges| ==> QueryRanges[i].Ungrouped?
    ensures GoodUnit("min") && GoodUnit("hour") && StartsWith("minutes", "min") && StartsWith("hours", "hour")
  {
    assert "minutes"[..3] == "min";
    assert "hours"[..4] == "hour";
  }

  predicate AnyIn(xs: seq<string>, ys: seq<string>) {
    exists i :: 0 <= i < |xs| && xs[i] in ys
  }

  /** The two-stage weight override: technical skills shift to K:70/P:30,
      then managerial skills overwrite that with K:40/P:60. */
  function PrefsFor(skills: seq<string>): (r: seq<CodeWeight>)
    ensures AnyIn(ManagerialSkills, skills) ==> r == ManagerialPrefs
    ensures !AnyIn(ManagerialSkills, skills) && AnyIn(TechnicalSkills, skills) ==> r == TechnicalPrefs
    ensures !AnyIn(ManagerialSkills, skills) && !AnyIn(TechnicalSkills, skills) ==> r == DefaultPrefs
    ensures |r| == 2 && r[0].code == "K" && r[1].code == "P"
    ensures r[0].weight + r[1].weight == 100 && 0 <= r[0].weight && 0 <= r[1].weight
  {
    var afterTechnical := if AnyIn(TechnicalSkills, skills) then TechnicalPrefs else DefaultPrefs;
    if AnyIn(ManagerialSkills, skills) then ManagerialPrefs else afterTechnical
  }

  /** `extract_query_keywords(query)`. */
  function Analyze(query: string): (r: QuerySignals)
    ensures r.query == query
    ensures SubsequenceOf(r.skills, Tags(SkillKeywords))
    ensures forall t :: t in r.skills <==>
      exists i :: 0 <= i < |SkillKeywords| && SkillKeywords[i].tag == t
        && AnyOccurs(SkillKeywords[i].keywords, Lower(query))
    ensures r.level == Entry <==> AnyOccurs(Indicators(Entry), Lower(query))
    ensures r.level == Senior <==> (!AnyOccurs(Indicators(Entry), Lower(query))
      && !AnyOccurs(Indicators(Mid), Lower(query)) && AnyOccurs(Indicators(Senior), Lower(query)))
    ensures AnyIn(ManagerialSkills, r.skills) ==> r.prefs == ManagerialPrefs
    ensures !AnyIn(ManagerialSkills, r.skills) && AnyIn(TechnicalSkills, r.skills) ==> r.prefs == TechnicalPrefs
    ensures !AnyIn(ManagerialSkills, r.skills) && !AnyIn(TechnicalSkills, r.skills) ==> r.prefs == DefaultPrefs
    ensures r.duration == QueryDuration(Lower(query))
  {
    var lowered := Lower(query);
    var skills := DetectSkills(lowered);
    QuerySignals(skills, DetectLevel(lowered), QueryDuration(lowered), PrefsFor(skills), query)
  }

  /** Whatever the query, the weights are one of the three fixed maps over
      K and P, and they add up to 100. */
  lemma PrefsShape(query: string)
    ensures var p := Analyze(query).prefs;
      |p| == 2 && p[0].code == "K" && p[1].code == "P"
      && p[0].weight + p[1].weight == 100
      && 0 <= p[0].weight && 0 <= p[1].weight
  {
  }

  /** "40 minute test" asks for forty minutes: "minute" holds "min". */
  lemma MinuteQuery()
    ensures QueryDuration("40 minute test") == Some(40)
  {
    var s := "40 minute test";
    assert DigitEnd(s, 0) == 2;
    assert SpaceEnd(s, 2) == 3;
    assert s[3..][..3] == "min";
    assert Search(s, "min") == Some((0, 2));
    assert s[0..2] == "40";
    assert DecimalValue("40") == 40;
  }

  /** Text that holds neither an 'm' nor an 'h' names no unit, so no
      duration is read. */
  lemma NoUnitQuery(lowered: string)
    requires 'm' !in lowered && 'h' !in lowered
    ensures QueryDuration(lowered) == None
  {
    QueryPatternsShape();
    assert "min"[0] == 'm' && "hour"[0] == 'h';
    NoUnitNoNumber(lowered, "min");
    NoUnitNoNumber(lowered, "hour");
  }

  /** A bare range such as "30-40" names no unit, so no duration is read. */
  lemma BareRangeQuery()
    ensures QueryDuration("30-40") == None
  {
    NoUnitQuery("30-40");
  }
}
