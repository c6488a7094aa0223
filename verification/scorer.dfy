/** The six sub-scores of Experiments/rag.py and their sum for one retrieved
    candidate. Integer sub-scores stay `int`; the ones Python computes in
    floating point are `real`. */
module Scorer {
  import opened Base
  import opened Text
  import opened Catalog
  import opened Analyzer

  // ------------------------------------------------------------ semantic proximity

  /** `(1.0 / (1.0 + distance) if distance > 0 else 1.0) * 30`. */
  function SemanticScore(distance: real): (r: real)
    ensures 0.0 < r <= 30.0
    ensures r == 30.0 <==> distance <= 0.0
  {
    if distance > 0.0 then
      var q := 1.0 / (1.0 + distance);
      assert q * (1.0 + distance) == 1.0;
      assert q < 1.0;
      q * 30.0
    else 30.0
  }

  /** A closer candidate never gets less semantic credit. */
  lemma SemanticScoreMonotone(d1: real, d2: real)
    requires d1 <= d2
    ensures SemanticScore(d2) <= SemanticScore(d1)
  {
    if d1 > 0.0 {
      var q1, q2 := 1.0 / (1.0 + d1), 1.0 / (1.0 + d2);
      assert q1 * (1.0 + d1) == 1.0 && q2 * (1.0 + d2) == 1.0;
      assert q2 * (1.0 + d1) <= q2 * (1.0 + d2);
      assert (q1 - q2) * (1.0 + d1) >= 0.0;
      assert q2 <= q1;
    }
  }

  // ------------------------------------------------------------ skill overlap

  /** The candidate's lower-cased "name description" text. */
  function CandidateText(c: Assessment): string {
    Lower(c.name + " " + c.description)
  }

  lemma CandidateTextSplit(c: Assessment)
    ensures CandidateText(c) == Lower(c.name) + " " + Lower(c.description)
  {
    LowerAppend(c.name + " ", c.description);
    LowerAppend(c.name, " ");
    assert Lower(" ") == " ";
  }

  /** Points one keyword of a query skill earns: 30 in the name, else 20 in
      the description, else 15 in the tagged skills, all guarded by the
      keyword occurring in the joined "name description" text. */
  function KeywordPoints(keyword: string, c: Assessment): (p: nat)
    ensures p == 0 || p == 15 || p == 20 || p == 30
    ensures p > 0 <==> (Contains(CandidateText(c), keyword)
      && (Contains(Lower(c.name), keyword) || Contains(Lower(c.description), keyword)
          || Contains(Lower(c.skills), keyword)))
  {
    if !Contains(CandidateText(c), keyword) then 0
    else if Contains(Lower(c.name), keyword) then 30
    else if Contains(Lower(c.description), keyword) then 20
    else if Contains(Lower(c.skills), keyword) then 15
    else 0
  }

  /** The 15-point branch needs a keyword that is in the joined text but in
      neither the name nor the description, so it must straddle the joining
      space: keywords without a space never earn 15. */
  lemma TagOnlyNeedsSpace(keyword: string, c: Assessment)
    requires KeywordPoints(keyword, c) == 15
    ensures ' ' in keyword
  {
    CandidateTextSplit(c);
    StraddleNeedsSpace(Lower(c.name), Lower(c.description), keyword);
  }

  /** A keyword in the name always earns the full 30. */
  lemma NameKeywordPoints(keyword: string, c: Assessment)
    requires Contains(Lower(c.name), keyword)
    ensures KeywordPoints(keyword, c) == 30
  {
    CandidateTextSplit(c);
    ContainsPrefixOf(Lower(c.name), " " + Lower(c.description), keyword);
    assert Lower(c.name) + (" " + Lower(c.description)) == Lower(c.name + " " + c.description);
  }

  function KeywordsPoints(keywords: seq<string>, c: Assessment): (p: nat)
    ensures (forall i :: 0 <= i < |keywords| ==> !Contains(CandidateText(c), keywords[i])) ==> p == 0
    decreases |keywords|
  {
    if |keywords| == 0 then 0
    else KeywordPoints(keywords[0], c) + KeywordsPoints(keywords[1..], c)
  }

  lemma {:induction false} KeywordsPointsAtLeast(keywords: seq<string>, c: Assessment, i: nat)
    requires i < |keywords|
    ensures KeywordsPoints(keywords, c) >= KeywordPoints(keywords[i], c)
    decreases |keywords|
  {
    if i > 0 {
      KeywordsPointsAtLeast(keywords[1..], c, i - 1);
    }
  }

  /** Some keyword, listed in `table`, of some query skill occurs in `text`. */
  predicate SomeSkillKeywordIn(table: seq<Tagged>, querySkills: seq<string>, text: string) {
    exists i, j :: 0 <= i < |querySkills| && 0 <= j < |KeywordsOf(table, querySkills[i])|
      && Contains(text, KeywordsOf(table, querySkills[i])[j])
  }

  /** The uncapped sum over all query skills and their keywords in `table`. */
  function SkillPoints(table: seq<Tagged>, querySkills: seq<string>, c: Assessment): (p: nat)
    ensures !SomeSkillKeywordIn(table, querySkills, CandidateText(c)) ==> p == 0
    decreases |querySkills|
  {
    if |querySkills| == 0 then 0
    else
      TailIndex(querySkills);
      KeywordsPoints(KeywordsOf(table, querySkills[0]), c) + SkillPoints(table, querySkills[1..], c)
  }

  lemma {:induction false} SkillPointsAtLeast(table: seq<Tagged>, querySkills: seq<string>, c: Assessment, i: nat, j: nat)
    requires i < |querySkills| && j < |KeywordsOf(table, querySkills[i])|
    ensures SkillPoints(table, querySkills, c) >= KeywordPoints(KeywordsOf(table, querySkills[i])[j], c)
    decreases |querySkills|
  {
    if i == 0 {
      KeywordsPointsAtLeast(KeywordsOf(table, querySkills[0]), c, j);
    } else {
      SkillPointsAtLeast(table, querySkills[1..], c, i - 1, j);
    }
  }

  /** `score_skill_match`: 0 without query skills, else the keyword points
      capped at 100. */
  function SkillMatchScore(querySkills: seq<string>, c: Assessment): (r: int)
    ensures 0 <= r <= 100
    ensures |querySkills| == 0 ==> r == 0
    ensures !SomeSkillKeywordIn(SkillKeywords, querySkills, CandidateText(c)) ==> r == 0
  {
    if |querySkills| == 0 then 0 else Min(SkillPoints(SkillKeywords, querySkills, c), 100)
  }

  /** A keyword of a query skill in the candidate's name is worth at least 30. */
  lemma SkillMatchInName(querySkills: seq<string>, c: Assessment)
    requires SomeSkillKeywordIn(SkillKeywords, querySkills, Lower(c.name))
    ensures SkillMatchScore(querySkills, c) >= 30
  {
    var i, j :| 0 <= i < |querySkills| && 0 <= j < |KeywordsOf(SkillKeywords, querySkills[i])|
      && Contains(Lower(c.name), KeywordsOf(SkillKeywords, querySkills[i])[j]);
    NameKeywordPoints(KeywordsOf(SkillKeywords, querySkills[i])[j], c);
    SkillPointsAtLeast(SkillKeywords, querySkills, c, i, j);
  }

  // ------------------------------------------------------------ experience alignment

  /** The name carries an indicator of the opposite extreme level. */
  predicate OppositeExtreme(level: Level, loweredName: string) {
    || (level == Entry && AnyOccurs(Indicators(Senior), loweredName))
    || (level == Senior && AnyOccurs(Indicators(Entry), loweredName))
  }

  /** `score_experience_match`: 25 per indicator of the query's level in the
      name, minus 30 for an opposite-extreme indicator. */
  function ExperienceScore(level: Level, c: Assessment): (r: int)
    ensures r == 25 * |OccurringSet(Indicators(level), Lower(c.name))|
                 - (if OppositeExtreme(level, Lower(c.name)) then 30 else 0)
    ensures level == Mid ==> r >= 0
    ensures r >= -30
  {
    var name := Lower(c.name);
    IndicatorsDistinct(level);
    CountIsSetSize(Indicators(level), name);
    var score := 25 * CountOccurring(Indicators(level), name);
    if level == Entry then
      (if AnyOccurs(Indicators(Senior), name) then score - 30 else score)
    else if level == Senior then
      (if AnyOccurs(Indicators(Entry), name) then score - 30 else score)
    else score
  }

  // ------------------------------------------------------------ duration proximity

  /** `score_duration_match`: nothing without a (non-zero) target, else a
      step function of the distance to the target. */
  function DurationScore(target: Option<int>, candidateDuration: int): (r: int)
    ensures target.None? || target.value == 0 ==> r == 0
    ensures r == 30 || r == 20 || r == 10 || r == 5 || r == 0 || r == -10
  {
    if target.None? || target.value == 0 then 0
    else
      var diff := Abs(target.value - candidateDuration);
      if diff == 0 then 30
      else if diff <= 10 then 20
      else if diff <= 20 then 10
      else if diff <= 30 then 5
      else -10
  }

  /** The breakpoints: 30 exactly on target, 20 / 10 / 5 within 10 / 20 / 30
      minutes, and -10 further away. */
  lemma DurationScoreSteps(target: int, d: int)
    requires target != 0
    ensures var diff := Abs(target - d); var r := DurationScore(Some(target), d);
      && (r == 30 <==> diff == 0)
      && (r == 20 <==> 0 < diff <= 10)
      && (r == 10 <==> 10 < diff <= 20)
      && (r == 5 <==> 20 < diff <= 30)
      && (r == -10 <==> diff > 30)
  {
  }

  /** A candidate closer to the target never scores lower. */
  lemma DurationScoreMonotone(target: Option<int>, d1: int, d2: int)
    requires target.Some? ==> Abs(target.value - d1) <= Abs(target.value - d2)
    ensures DurationScore(target, d1) >= DurationScore(target, d2)
  {
  }

  /** Target 40 against 40, 45, 55, 65 and 100 minutes. */
  lemma DurationScoreExample()
    ensures DurationScore(Some(40), 40) == 30
    ensures DurationScore(Some(40), 45) == 20
    ensures DurationScore(Some(40), 55) == 10
    ensures DurationScore(Some(40), 65) == 5
    ensures DurationScore(Some(40), 100) == -10
    ensures DurationScore(None, 100) == 0 && DurationScore(Some(0), 100) == 0
  {
  }

  // ------------------------------------------------------------ category preference

  predicate NonNegativeWeights(prefs: seq<CodeWeight>) {
    forall i :: 0 <= i < |prefs| ==> prefs[i].weight >= 0
  }

  function TotalWeight(prefs: seq<CodeWeight>): (t: int)
    ensures NonNegativeWeights(prefs) ==> t >= 0
    decreases |prefs|
  {
    if |prefs| == 0 then 0
    else
      assert forall i :: 1 <= i < |prefs| ==> prefs[1..][i - 1] == prefs[i];
      prefs[0].weight + TotalWeight(prefs[1..])
  }

  /** Half the weight of every preferred code present among `codes`. */
  function PrefPoints(prefs: seq<CodeWeight>, codes: seq<string>): (r: real)
    ensures (forall i :: 0 <= i < |prefs| ==> prefs[i].code !in codes) ==> r == 0.0
    ensures NonNegativeWeights(prefs) ==> 0.0 <= r <= TotalWeight(prefs) as real / 2.0
    ensures NonNegativeWeights(prefs) && (forall i :: 0 <= i < |prefs| ==> prefs[i].code in codes)
            ==> r == TotalWeight(prefs) as real / 2.0
    decreases |prefs|
  {
    if |prefs| == 0 then 0.0
    else
      assert forall i :: 1 <= i < |prefs| ==> prefs[1..][i - 1] == prefs[i];
      (if prefs[0].code in codes then prefs[0].weight as real * 0.5 else 0.0)
        + PrefPoints(prefs[1..], codes)
  }

  /** Every preferred code present earns its half weight: the points are
      at least that half. */
  lemma {:induction false} PrefPointsAtLeast(prefs: seq<CodeWeight>, codes: seq<string>, i: nat)
    requires NonNegativeWeights(prefs) && i < |prefs| && prefs[i].code in codes
    ensures PrefPoints(prefs, codes) >= prefs[i].weight as real / 2.0
    decreases |prefs|
  {
    assert NonNegativeWeights(prefs[1..]) by {
      assert forall j :: 0 <= j < |prefs| - 1 ==> prefs[1..][j] == prefs[j + 1];
    }
    if i > 0 {
      PrefPointsAtLeast(prefs[1..], codes, i - 1);
    }
  }

  /** `score_test_type_match` on the stored comma-separated string. */
  function TestTypeScore(prefs: seq<CodeWeight>, testType: string): (r: real)
    ensures testType == "" ==> r == 0.0
    ensures (forall i :: 0 <= i < |prefs| ==> prefs[i].code !in CodeList(testType)) ==> r == 0.0
    ensures NonNegativeWeights(prefs) ==> 0.0 <= r <= TotalWeight(prefs) as real / 2.0
  {
    if testType == "" then 0.0 else PrefPoints(prefs, CodeList(testType))
  }

  /** With the analyser's weights the category sub-score lies in [0, 50] and
      reaches 50 exactly when the candidate carries both K and P. */
  lemma TestTypeScoreForQuery(query: string, testType: string)
    ensures var r := TestTypeScore(Analyze(query).prefs, testType);
      && 0.0 <= r <= 50.0
      && (r == 50.0 <==> testType != "" && "K" in CodeList(testType) && "P" in CodeList(testType))
  {
    PrefsShape(query);
    var p := Analyze(query).prefs;
    assert p[1..][1..] == [];
    assert TotalWeight(p) == 100;
  }

  /** Each preferred code a non-empty type string lists earns half its
      weight. */
  lemma TestTypeScoreAtLeast(prefs: seq<CodeWeight>, testType: string, i: nat)
    requires NonNegativeWeights(prefs) && i < |prefs| && prefs[i].code in CodeList(testType)
    ensures testType != "" ==> TestTypeScore(prefs, testType) >= prefs[i].weight as real / 2.0
  {
    if testType != "" {
      PrefPointsAtLeast(prefs, CodeList(testType), i);
    }
  }

  /** With the analyser's two-entry map, K and P each contribute half their
      weight when listed and nothing otherwise; so with K70/P30 a candidate
      typed only "K" scores 35. */
  lemma TestTypeScoreSplit(query: string, testType: string)
    ensures var p := Analyze(query).prefs;
      var codes := CodeList(testType);
      testType != "" ==>
        TestTypeScore(p, testType)
          == (if "K" in codes then p[0].weight as real / 2.0 else 0.0)
           + (if "P" in codes then p[1].weight as real / 2.0 else 0.0)
  {
    PrefsShape(query);
    var p := Analyze(query).prefs;
    assert p[1..][1..] == [];
  }

  // ------------------------------------------------------------ lexical overlap

  /** The lower-cased words of the query longer than three characters. */
  function QueryWords(query: string): set<string> {
    set w | w in SplitWords(query) && |w| > 3 :: Lower(w)
  }

  function CandidateWords(c: Assessment): set<string> {
    set w | w in SplitWords(CandidateText(c))
  }

  /** `overlap / total * 40` for `0 <= overlap <= total`, `total > 0`. */
  function Share40(overlap: nat, total: nat): (r: real)
    requires overlap <= total && total > 0
    ensures 0.0 <= r <= 40.0
    ensures r == 0.0 <==> overlap == 0
    ensures r == 40.0 <==> overlap == total
  {
    Share(overlap, total) * 40.0
  }

  /** `score_keyword_density`: the share of query words found among the
      candidate's words, scaled to 40. */
  function KeywordDensityScore(query: string, c: Assessment): (r: real)
    ensures 0.0 <= r <= 40.0
    ensures |QueryWords(query)| == 0 ==> r == 0.0
    ensures r == 0.0 <==> QueryWords(query) * CandidateWords(c) == {}
    ensures r == 40.0 <==> |QueryWords(query)| > 0 && QueryWords(query) <= CandidateWords(c)
  {
    Density(QueryWords(query), CandidateWords(c))
  }

  /** The share of the words `qw` found among `cw`, scaled to 40. */
  function Density(qw: set<string>, cw: set<string>): (r: real)
    ensures 0.0 <= r <= 40.0
    ensures |qw| == 0 ==> r == 0.0
    ensures r == 0.0 <==> qw * cw == {}
    ensures r == 40.0 <==> |qw| > 0 && qw <= cw
  {
    SubsetSize(qw * cw, qw);
    if |qw| > 0 then
      assert |qw * cw| == |qw| ==> qw * cw == qw;
      assert qw <= cw <==> qw * cw == qw;
      Share40(|qw * cw|, |qw|)
    else 0.0
  }

  /** A candidate sharing more of the query's words never gets less
      density credit. */
  lemma KeywordDensityMonotone(query: string, c1: Assessment, c2: Assessment)
    requires QueryWords(query) * CandidateWords(c1) <= QueryWords(query) * CandidateWords(c2)
    ensures KeywordDensityScore(query, c1) <= KeywordDensityScore(query, c2)
  {
    DensityMonotone(QueryWords(query), CandidateWords(c1), CandidateWords(c2));
  }

  /** With query words present the score is 40 times the fraction of them
      found among the candidate's words. */
  lemma KeywordDensityRatio(query: string, c: Assessment)
    requires |QueryWords(query)| > 0
    ensures var qw := QueryWords(query);
      var overlap := qw * CandidateWords(c);
      |overlap| <= |qw| && KeywordDensityScore(query, c) == 40.0 * Share(|overlap|, |qw|)
  {
    DensityRatio(QueryWords(query), CandidateWords(c));
  }

  lemma DensityRatio(qw: set<string>, cw: set<string>)
    requires |qw| > 0
    ensures |qw * cw| <= |qw| && Density(qw, cw) == 40.0 * Share(|qw * cw|, |qw|)
  {
    SubsetSize(qw * cw, qw);
  }

  lemma DensityMonotone(qw: set<string>, a: set<string>, b: set<string>)
    requires qw * a <= qw * b
    ensures Density(qw, a) <= Density(qw, b)
  {
    if |qw| > 0 {
      SubsetSize(qw * a, qw * b);
      SubsetSize(qw * b, qw);
      ShareMonotone(|qw * a|, |qw * b|, |qw|);
    }
  }

  // ------------------------------------------------------------ total

  /** The composite score of one candidate at `distance` from the query. */
  function CandidateScore(signals: QuerySignals, query: string, c: Assessment, distance: real): (r: real)
    ensures NonNegativeWeights(signals.prefs) ==> r > -40.0
  {
    SemanticScore(distance)
      + SkillMatchScore(signals.skills, c) as real
      + ExperienceScore(signals.level, c) as real
      + DurationScore(IntDuration(signals.duration), c.duration) as real
      + TestTypeScore(signals.prefs, c.testType)
      + KeywordDensityScore(query, c)
  }

  function IntDuration(d: Option<nat>): Option<int> {
    match d
    case None => None
    case Some(n) => Some(n)
  }

  /** The sum is not clamped: with the analyser's weights it lies strictly
      between -40 and 500, the sub-scores' own extremes added up. */
  lemma CandidateScoreBounds(query: string, c: Assessment, distance: real)
    ensures var r := CandidateScore(Analyze(query), query, c, distance);
      -40.0 < r <= 500.0
  {
    TestTypeScoreForQuery(query, c.testType);
    SumBounds(Analyze(query), query, c, distance);
  }

  /** Any signals whose category sub-score lies in [0, 50] keep the sum in
      (-40, 500]. */
  lemma SumBounds(s: QuerySignals, query: string, c: Assessment, distance: real)
    requires 0.0 <= TestTypeScore(s.prefs, c.testType) <= 50.0
    ensures -40.0 < CandidateScore(s, query, c, distance) <= 500.0
  {
    ExperienceAtMost(s.level, c);
    var a := SemanticScore(distance);
    var b := SkillMatchScore(s.skills, c);
    var e := ExperienceScore(s.level, c);
    var d := DurationScore(IntDuration(s.duration), c.duration);
    var k := KeywordDensityScore(query, c);
    assert 0.0 < a <= 30.0 && 0 <= b <= 100 && -30 <= e <= 250 && -10 <= d <= 30;
    assert 0.0 <= k <= 40.0;
  }

  /** Every level has at most ten indicators, each worth 25. */
  lemma ExperienceAtMost(level: Level, c: Assessment)
    ensures ExperienceScore(level, c) <= 250
  {
    var hits := OccurringSet(Indicators(level), Lower(c.name));
    var all := Elems(Indicators(level));
    assert hits <= all;
    ElemsSize(Indicators(level));
    SubsetSize(hits, all);
  }
}
