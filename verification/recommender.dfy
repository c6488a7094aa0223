/** `get_balanced_recommendations`: the end-to-end pipeline once the vector
    store has answered. The embedding and the nearest-neighbour query are
    not modelled; their answer is an input. */
module Recommender {
  import opened Base
  import opened Text
  import opened Catalog
  import opened Sorting
  import opened Analyzer
  import opened Scorer
  import opened Selector

  /** One retrieved record with its distance to the query embedding. */
  datatype Hit = Hit(candidate: Assessment, distance: real)

  /** What the vector store answered: an error, or the hits in its order. */
  datatype Retrieval = SearchFailed | Hits(hits: seq<Hit>)

  /** One element of the returned list. */
  datatype Recommendation = Recommendation(
    name: string,
    url: string,
    description: string,
    duration: int,
    testTypes: seq<string>,
    adaptiveSupport: string,
    remoteSupport: string)

  /** The stored codes, or `['K']` when none survive parsing. */
  function Format(c: Assessment): (r: Recommendation)
    ensures r.url == c.url && r.name == c.name && r.description == c.description
    ensures r.duration == c.duration
    ensures r.adaptiveSupport == c.adaptiveSupport && r.remoteSupport == c.remoteSupport
    ensures |r.testTypes| > 0
    ensures forall i :: 0 <= i < |r.testTypes| ==> CleanCode(r.testTypes[i])
  {
    var codes := ParseCodes(c.testType);
    DefaultCodeClean();
    Recommendation(c.name, c.url, c.description, c.duration,
      if |codes| > 0 then codes else ["K"],
      c.adaptiveSupport, c.remoteSupport)
  }

  lemma DefaultCodeClean()
    ensures forall i :: 0 <= i < |["K"]| ==> CleanCode(["K"][i])
  {
    assert ["K"][0] == "K" && |"K"| == 1 && "K"[0] == 'K';
  }

  /** Codes that ingestion joined with ", " come back unchanged, and a record
      with no code at all is shown as knowledge-and-skills. */
  lemma FormatCodes(c: Assessment, xs: seq<string>)
    requires forall i :: 0 <= i < |xs| ==> CleanCode(xs[i])
    requires c.testType == Join(", ", xs)
    ensures Format(c).testTypes == if |xs| > 0 then xs else ["K"]
  {
    CodesRoundTrip(xs);
  }

  /** The query is too short once surrounding whitespace is dropped. */
  function TooShort(query: string): (r: bool)
    ensures |query| < 3 ==> r
    ensures IsStripped(query) ==> (r <==> |query| < 3)
  {
    StripIdle(query);
    |Strip(query)| < 3
  }

  /** The retrieved records in the vector store's order. */
  function HitCandidates(hits: seq<Hit>): (r: seq<Assessment>)
    ensures |r| == |hits|
    ensures forall i :: 0 <= i < |hits| ==> r[i] == hits[i].candidate
  {
    seq(|hits|, i requires 0 <= i < |hits| => hits[i].candidate)
  }

  /** The distinct urls among the hits. */
  function HitUrls(hits: seq<Hit>): set<string> {
    UrlSet(HitCandidates(hits))
  }

  /** The scored candidates in the vector store's order. */
  function ScoreAll(signals: QuerySignals, query: string, hits: seq<Hit>): (r: seq<Scored>)
    ensures |r| == |hits|
    ensures Candidates(r) == HitCandidates(hits)
    ensures forall i :: 0 <= i < |hits| ==>
      r[i].score == CandidateScore(signals, query, hits[i].candidate, hits[i].distance)
  {
    seq(|hits|, i requires 0 <= i < |hits| =>
      Scored(CandidateScore(signals, query, hits[i].candidate, hits[i].distance), hits[i].candidate))
  }

  /** The scored hits, best first (`scored_candidates.sort(...)`). */
  function Ranked(query: string, hits: seq<Hit>): (r: seq<Scored>)
    ensures |r| == |hits|
    ensures Descending(r, ScoreOf)
    ensures multiset(Candidates(r)) == multiset(HitCandidates(hits))
    ensures multiset(r) == multiset(ScoreAll(Analyze(query), query, hits))
  {
    var scored := ScoreAll(Analyze(query), query, hits);
    var ranked := SortDesc(scored, ScoreOf);
    CandidatesPermuted(scored, ranked);
    ranked
  }

  /** The sort is stable: hits with equal scores stay in the store's order,
      which decides their order in the buckets and in the fill pass. */
  lemma RankedStable(query: string, hits: seq<Hit>, v: real)
    ensures WithKey(Ranked(query, hits), ScoreOf, v) == WithKey(ScoreAll(Analyze(query), query, hits), ScoreOf, v)
  {
    SortDescStable(ScoreAll(Analyze(query), query, hits), ScoreOf, v);
  }

  /** A permutation of scored entries permutes their candidates. */
  lemma CandidatesPermuted(a: seq<Scored>, b: seq<Scored>)
    requires multiset(a) == multiset(b)
    ensures multiset(Candidates(a)) == multiset(Candidates(b))
  {
    MapPermuted(a, b, (s: Scored) => s.candidate, Candidates(a), Candidates(b));
  }

  /** Sequences with the same elements have the same urls. */
  lemma PermutedUrls(a: seq<Assessment>, b: seq<Assessment>)
    requires multiset(a) == multiset(b)
    ensures UrlSet(a) == UrlSet(b)
    ensures forall c :: c in a <==> c in b
  {
    assert forall c :: c in a <==> c in multiset(a);
    assert forall c :: c in b <==> c in multiset(b);
  }

  /** The balanced selection over the ranked hits: the quota picks, then
      the best-ranked unseen hits while room remains. */
  function Picks(query: string, hits: seq<Hit>, topK: int): (r: seq<Assessment>)
    ensures |hits| == 0 || topK <= 0 ==> r == []
    ensures DistinctUrls(r)
    ensures forall c :: c in r ==> c in HitCandidates(hits)
    ensures topK >= 0 ==> |r| == Min(topK, |HitUrls(hits)|)
    ensures topK >= 0 && |hits| > 0 ==>
      var ranked := Ranked(query, hits);
      r == TopUp(QuotaPicks(ranked, Analyze(query).prefs, topK), Candidates(ranked), topK)
  {
    var ranked := Ranked(query, hits);
    PermutedUrls(Candidates(ranked), HitCandidates(hits));
    BalanceOfRanked(ranked, Analyze(query).prefs, topK);
    Balance(ranked, Analyze(query).prefs, topK)
  }

  function FormatAll(picked: seq<Assessment>): (r: seq<Recommendation>)
    ensures |r| == |picked|
    ensures forall i :: 0 <= i < |picked| ==> r[i] == Format(picked[i])
  {
    seq(|picked|, i requires 0 <= i < |picked| => Format(picked[i]))
  }

  /** `get_balanced_recommendations(query, top_k)` with the retrieval result
      given. */
  function Recommend(query: string, retrieval: Retrieval, topK: int): (r: seq<Recommendation>)
    ensures TooShort(query) || retrieval.SearchFailed? || (retrieval.Hits? && |retrieval.hits| == 0) ==> r == []
    ensures topK <= 0 ==> r == []
  {
    if TooShort(query) then []
    else
      match retrieval
      case SearchFailed => []
      case Hits(hits) => if |hits| == 0 then [] else FormatAll(Picks(query, hits, topK))
  }

  /** The returned urls are pairwise distinct. */
  lemma RecommendDistinct(query: string, retrieval: Retrieval, topK: int)
    ensures var r := Recommend(query, retrieval, topK);
      forall i, j :: 0 <= i < j < |r| ==> r[i].url != r[j].url
  {
    if !TooShort(query) && retrieval.Hits? && |retrieval.hits| > 0 {
      RecommendIs(query, retrieval.hits, topK);
      FormatKeepsUrls(Picks(query, retrieval.hits, topK));
    }
  }

  lemma FormatKeepsUrls(picked: seq<Assessment>)
    requires DistinctUrls(picked)
    ensures forall i, j :: 0 <= i < j < |FormatAll(picked)| ==> FormatAll(picked)[i].url != FormatAll(picked)[j].url
  {
  }

  /** Every returned element lists at least one category code. */
  lemma RecommendTypes(query: string, retrieval: Retrieval, topK: int)
    ensures var r := Recommend(query, retrieval, topK);
      forall i :: 0 <= i < |r| ==> |r[i].testTypes| > 0
  {
    if !TooShort(query) && retrieval.Hits? && |retrieval.hits| > 0 {
      RecommendIs(query, retrieval.hits, topK);
      FormatAllTypes(Picks(query, retrieval.hits, topK));
    }
  }

  lemma FormatAllTypes(picked: seq<Assessment>)
    ensures forall i :: 0 <= i < |FormatAll(picked)| ==> |FormatAll(picked)[i].testTypes| > 0
  {
  }

  /** Past the early exits the answer is the formatted selection. */
  lemma RecommendIs(query: string, hits: seq<Hit>, topK: int)
    requires !TooShort(query) && |hits| > 0
    ensures Recommend(query, Hits(hits), topK) == FormatAll(Picks(query, hits, topK))
  {
  }

  /** Every returned element is the formatting of a retrieved hit. */
  lemma RecommendFromHits(query: string, hits: seq<Hit>, topK: int)
    ensures forall x :: x in Recommend(query, Hits(hits), topK) ==> x in FormatAll(HitCandidates(hits))
  {
    if !TooShort(query) && |hits| > 0 {
      RecommendIs(query, hits, topK);
      FormatFromPool(Picks(query, hits, topK), HitCandidates(hits));
    }
  }

  lemma FormatFromPool(picked: seq<Assessment>, pool: seq<Assessment>)
    requires forall c :: c in picked ==> c in pool
    ensures forall x :: x in FormatAll(picked) ==> x in FormatAll(pool)
  {
    forall x | x in FormatAll(picked) ensures x in FormatAll(pool) {
      var i :| 0 <= i < |picked| && FormatAll(picked)[i] == x;
      assert picked[i] in pool;
      var j :| 0 <= j < |pool| && pool[j] == picked[i];
      assert FormatAll(pool)[j] == x;
    }
  }

  /** `top_k` elements are returned unless the hits hold fewer distinct
      urls, in which case all of them are. */
  lemma RecommendLength(query: string, hits: seq<Hit>, topK: int)
    requires !TooShort(query) && topK >= 0
    ensures |Recommend(query, Hits(hits), topK)| == Min(topK, |HitUrls(hits)|)
  {
  }
}
