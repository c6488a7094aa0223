/** `balance_recommendations`: pick up to `topK` candidates, first by
    per-category quotas in descending-weight order, then by score, never
    taking two candidates with the same url. */
module Selector {
  import opened Base
  import opened Catalog
  import opened Sorting
  import opened Analyzer

  /** A candidate with its composite score, as in `scored_candidates`. */
  datatype Scored = Scored(score: real, candidate: Assessment)

  function ScoreOf(s: Scored): real { s.score }

  function WeightOf(cw: CodeWeight): real { cw.weight as real }

  function Candidates(scored: seq<Scored>): (r: seq<Assessment>)
    ensures |r| == |scored|
    ensures forall i :: 0 <= i < |scored| ==> r[i] == scored[i].candidate
  {
    seq(|scored|, i requires 0 <= i < |scored| => scored[i].candidate)
  }

  function UrlSet(cs: seq<Assessment>): set<string> {
    set c | c in cs :: c.url
  }

  /** The distinct urls among the input candidates. */
  function Urls(scored: seq<Scored>): set<string> {
    UrlSet(Candidates(scored))
  }

  predicate DistinctUrls(cs: seq<Assessment>) {
    forall i, j :: 0 <= i < j < |cs| ==> cs[i].url != cs[j].url
  }

  lemma {:induction false} DistinctUrlsCount(cs: seq<Assessment>)
    requires DistinctUrls(cs)
    ensures |UrlSet(cs)| == |cs|
    decreases |cs|
  {
    if |cs| > 0 {
      var rest := cs[1..];
      assert DistinctUrls(rest) by {
        TailIndex(cs);
      }
      DistinctUrlsCount(rest);
      UrlSetCons(cs);
      assert cs[0].url !in UrlSet(rest) by {
        forall c | c in rest ensures c.url != cs[0].url {
          var i :| 0 <= i < |rest| && rest[i] == c;
          assert cs[i + 1] == c;
        }
      }
      assert |{cs[0].url} + UrlSet(rest)| == 1 + |UrlSet(rest)|;
    }
  }

  lemma UrlSetCons(cs: seq<Assessment>)
    requires |cs| > 0
    ensures UrlSet(cs) == {cs[0].url} + UrlSet(cs[1..])
  {
    HeadTail(cs);
    assert forall c :: c in cs <==> c == cs[0] || c in cs[1..];
  }

  /** The first candidate of every url not in `seen`, in order: what a loop
      that skips seen urls and records each url it takes would take with
      unlimited room. */
  function Fresh(seen: set<string>, cs: seq<Assessment>): (r: seq<Assessment>)
    ensures SubsequenceOf(r, cs)
    ensures DistinctUrls(r)
    ensures UrlSet(r) == UrlSet(cs) - seen
    decreases |cs|
  {
    if |cs| == 0 then []
    else
      var c := cs[0];
      UrlSetCons(cs);
      HeadTail(cs);
      if c.url in seen then
        var rest := Fresh(seen, cs[1..]);
        AddedSkipsHead(rest, c, cs[1..]);
        rest
      else
        var rest := Fresh(seen + {c.url}, cs[1..]);
        AddedTakesHead(rest, c, cs[1..]);
        DistinctCons(c, rest);
        [c] + rest
  }

  /** Putting a candidate with a new url in front keeps urls distinct. */
  lemma DistinctCons(c: Assessment, rest: seq<Assessment>)
    requires DistinctUrls(rest) && c.url !in UrlSet(rest)
    ensures DistinctUrls([c] + rest)
    ensures UrlSet([c] + rest) == {c.url} + UrlSet(rest)
  {
    ConsIndex(c, rest);
    UrlSetCons([c] + rest);
    assert ([c] + rest)[1..] == rest;
    forall j | 1 <= j < |rest| + 1 ensures c.url != ([c] + rest)[j].url {
      assert rest[j - 1] in rest;
    }
  }

  lemma FreshCons(seen: set<string>, c: Assessment, rest: seq<Assessment>)
    ensures Fresh(seen, [c] + rest) ==
      if c.url in seen then Fresh(seen, rest) else [c] + Fresh(seen + {c.url}, rest)
  {
    assert ([c] + rest)[1..] == rest;
  }

  // ------------------------------------------------------------ buckets

  /** A scored candidate with its parsed codes (`cand_types`). */
  datatype Typed = Typed(item: Scored, codes: seq<string>)

  function Entries(scored: seq<Scored>): (r: seq<Typed>)
    ensures |r| == |scored|
    ensures forall i :: 0 <= i < |scored| ==> r[i] == Typed(scored[i], ParseCodes(scored[i].candidate.testType))
  {
    seq(|scored|, i requires 0 <= i < |scored| => Typed(scored[i], ParseCodes(scored[i].candidate.testType)))
  }

  /** How often `code` appears in `codes`. */
  function Occurrences(code: string, codes: seq<string>): (n: nat)
    ensures n > 0 <==> code in codes
  {
    if |codes| == 0 then 0
    else (if codes[0] == code then 1 else 0) + Occurrences(code, codes[1..])
  }

  function Repeat(x: Scored, n: nat): (r: seq<Scored>)
    ensures |r| == n
    ensures forall i :: 0 <= i < n ==> r[i] == x
  {
    if n == 0 then [] else [x] + Repeat(x, n - 1)
  }

  /** The list `candidates_by_type[code]` ends up as: every entry, in input
      order, once per occurrence of `code` among its codes. */
  function BucketOf(entries: seq<Typed>, code: string): (b: seq<Scored>)
    decreases |entries|
  {
    if |entries| == 0 then []
    else Repeat(entries[0].item, Occurrences(code, entries[0].codes)) + BucketOf(entries[1..], code)
  }

  function Bucket(scored: seq<Scored>, code: string): seq<Scored> {
    BucketOf(Entries(scored), code)
  }

  /** The candidate's codes hold `code`. */
  predicate HasCode(x: Scored, code: string) {
    code in ParseCodes(x.candidate.testType)
  }

  lemma {:induction false} BucketOfMembers(entries: seq<Typed>, code: string)
    ensures forall x :: x in BucketOf(entries, code) <==>
      exists i :: 0 <= i < |entries| && entries[i].item == x && code in entries[i].codes
    decreases |entries|
  {
    if |entries| > 0 {
      BucketOfMembers(entries[1..], code);
      var head := Repeat(entries[0].item, Occurrences(code, entries[0].codes));
      assert forall x :: x in head <==> |head| > 0 && x == entries[0].item;
      forall x | (exists i :: 0 <= i < |entries| && entries[i].item == x && code in entries[i].codes)
        ensures x in BucketOf(entries, code)
      {
        var i :| 0 <= i < |entries| && entries[i].item == x && code in entries[i].codes;
        if i > 0 {
          assert entries[1..][i - 1] == entries[i];
        }
      }
    }
  }

  /** A bucket holds exactly the candidates that carry its code. */
  lemma BucketMembers(scored: seq<Scored>, code: string)
    ensures forall x :: x in Bucket(scored, code) <==> x in scored && HasCode(x, code)
  {
    var entries := Entries(scored);
    BucketOfMembers(entries, code);
    forall x | x in scored && HasCode(x, code) ensures x in Bucket(scored, code) {
      var i :| 0 <= i < |scored| && scored[i] == x;
      assert entries[i].item == x && code in entries[i].codes;
    }
  }

  lemma {:induction false} BucketOfAppend(a: seq<Typed>, b: seq<Typed>, code: string)
    ensures BucketOf(a + b, code) == BucketOf(a, code) + BucketOf(b, code)
    decreases |a|
  {
    if |a| == 0 {
      assert a + b == b;
    } else {
      AppendTail(a, b);
      BucketOfUnfold(a, code);
      BucketOfUnfold(a + b, code);
      BucketOfAppend(a[1..], b, code);
      Regroup(Repeat(a[0].item, Occurrences(code, a[0].codes)), BucketOf(a[1..], code), BucketOf(b, code), []);
    }
  }

  lemma BucketOfUnfold(entries: seq<Typed>, code: string)
    requires |entries| > 0
    ensures BucketOf(entries, code)
      == Repeat(entries[0].item, Occurrences(code, entries[0].codes)) + BucketOf(entries[1..], code)
  {
  }

  /** Buckets are built in one left-to-right pass, so the bucket of a
      concatenation is the concatenation of the buckets. */
  lemma BucketAppend(a: seq<Scored>, b: seq<Scored>, code: string)
    ensures Bucket(a + b, code) == Bucket(a, code) + Bucket(b, code)
  {
    assert Entries(a + b) == Entries(a) + Entries(b);
    BucketOfAppend(Entries(a), Entries(b), code);
  }

  /** A candidate with several codes sits in every matching bucket. */
  lemma InEveryBucket(scored: seq<Scored>, i: nat)
    requires i < |scored|
    ensures forall code :: HasCode(scored[i], code) ==> scored[i] in Bucket(scored, code)
  {
    forall code | HasCode(scored[i], code) ensures scored[i] in Bucket(scored, code) {
      BucketMembers(scored, code);
    }
  }

  // ------------------------------------------------------------ quotas

  /** `int(x)` for `x = p / 100`: division truncating toward zero. */
  function TruncDiv100(p: int): (q: int)
    ensures p >= 0 ==> 0 <= q * 100 <= p < q * 100 + 100
    ensures p < 0 ==> q <= 0 && -p - 100 < -q * 100 <= -p
  {
    if p >= 0 then p / 100 else -((-p) / 100)
  }

  /** `max(1, int(top_k * (weight / 100)))`. */
  function Quota(topK: int, weight: int): (q: int)
    ensures q >= 1
    ensures var p := topK * weight; p < 200 ==> q == 1
    ensures var p := topK * weight; p >= 100 ==> q * 100 <= p < q * 100 + 100
  {
    Max(1, TruncDiv100(topK * weight))
  }

  /** A heavier category never gets a smaller quota. */
  lemma QuotaMonotone(topK: nat, w1: int, w2: int)
    requires w1 <= w2
    ensures Quota(topK, w1) <= Quota(topK, w2)
  {
    assert topK * w2 - topK * w1 == topK * (w2 - w1);
    assert topK * (w2 - w1) >= 0;
  }

  /** The types in visiting order: descending weight, ties in map order. */
  function VisitOrder(prefs: seq<CodeWeight>): (r: seq<CodeWeight>)
    ensures multiset(r) == multiset(prefs)
    ensures Descending(r, WeightOf)
  {
    SortDesc(prefs, WeightOf)
  }

  /** Ties keep map order: the types with any given weight are visited in
      the order the preference map lists them. */
  lemma VisitOrderStable(prefs: seq<CodeWeight>, w: real)
    ensures WithKey(VisitOrder(prefs), WeightOf, w) == WithKey(prefs, WeightOf, w)
  {
    SortDescStable(prefs, WeightOf, w);
  }

  // ------------------------------------------------------------ selection state

  /** `selected` together with `seen_urls`. */
  datatype Selection = Selection(picked: seq<Assessment>, seen: set<string>)

  const Empty := Selection([], {})

  predicate Valid(sel: Selection) {
    sel.seen == UrlSet(sel.picked) && DistinctUrls(sel.picked)
  }

  /** One loop step: take the candidate if its url is new and there is room. */
  function Offer(sel: Selection, c: Assessment, topK: int): (r: Selection)
    requires Valid(sel)
    ensures Valid(r)
    ensures r.picked == (if c.url !in sel.seen && |sel.picked| < topK then sel.picked + [c] else sel.picked)
    ensures r.seen == (if c.url !in sel.seen && |sel.picked| < topK then sel.seen + {c.url} else sel.seen)
  {
    if c.url !in sel.seen && |sel.picked| < topK then
      var p := sel.picked + [c];
      assert UrlSet(p) == UrlSet(sel.picked) + {c.url};
      assert forall i :: 0 <= i < |sel.picked| ==> sel.picked[i] in sel.picked;
      Selection(p, sel.seen + {c.url})
    else sel
  }

  /** Offer every item in order. What is added is the first unseen
      candidates of the items, as many as there is room for; it is a
      subsequence of the items' candidates, the size bound `topK` is kept,
      and when room is left every item's url has been seen. */
  function OfferAll(sel: Selection, items: seq<Scored>, topK: int): (r: Selection)
    requires Valid(sel)
    ensures Valid(r)
    ensures sel.picked <= r.picked
    ensures SubsequenceOf(r.picked[|sel.picked|..], Candidates(items))
    ensures |sel.picked| <= topK ==> |r.picked| <= topK
    ensures |sel.picked| >= topK ==> r == sel
    ensures |r.picked| < topK ==> forall i :: 0 <= i < |items| ==> items[i].candidate.url in r.seen
    ensures |sel.picked| <= topK ==>
      r.picked == sel.picked + PrefixSlice(Fresh(sel.seen, Candidates(items)), topK - |sel.picked|)
    decreases |items|
  {
    if |items| == 0 then
      assert Candidates(items) == [];
      sel
    else
      var r := OfferAll(Offer(sel, items[0].candidate, topK), items[1..], topK);
      OfferAllStep(sel, items, topK, r);
      r
  }

  /** The contract of `OfferAll`, for a result `r`. */
  predicate OfferAllPost(sel: Selection, items: seq<Scored>, topK: int, r: Selection) {
    && Valid(r)
    && sel.picked <= r.picked
    && SubsequenceOf(r.picked[|sel.picked|..], Candidates(items))
    && (|sel.picked| <= topK ==> |r.picked| <= topK)
    && (|sel.picked| >= topK ==> r == sel)
    && (|r.picked| < topK ==> forall i :: 0 <= i < |items| ==> items[i].candidate.url in r.seen)
    && (|sel.picked| <= topK ==>
          r.picked == sel.picked + PrefixSlice(Fresh(sel.seen, Candidates(items)), topK - |sel.picked|))
  }

  /** Offering the first item and then the rest keeps the contract. */
  lemma OfferAllStep(sel: Selection, items: seq<Scored>, topK: int, r: Selection)
    requires Valid(sel) && |items| > 0
    requires OfferAllPost(Offer(sel, items[0].candidate, topK), items[1..], topK, r)
    ensures OfferAllPost(sel, items, topK, r)
  {
    var c := items[0].candidate;
    var next := Offer(sel, c, topK);
    CandidatesCons(items);
    OfferFresh(sel, c, Candidates(items[1..]), topK);
    StepAdded(sel.picked, next.picked, c, Candidates(items[1..]), r.picked);
    StepSeen(sel, items, topK, r);
  }

  /** When room is left after the rest, the head's url was seen too. */
  lemma StepSeen(sel: Selection, items: seq<Scored>, topK: int, r: Selection)
    requires Valid(sel) && |items| > 0 && Valid(r)
    requires Offer(sel, items[0].candidate, topK).picked <= r.picked
    requires |r.picked| < topK ==>
      forall i :: 0 <= i < |items[1..]| ==> items[1..][i].candidate.url in r.seen
    ensures |r.picked| < topK ==> forall i :: 0 <= i < |items| ==> items[i].candidate.url in r.seen
  {
    if |r.picked| < topK {
      var next := Offer(sel, items[0].candidate, topK);
      assert items[0].candidate.url in next.seen;
      assert next.seen <= r.seen by {
        forall u | u in next.seen ensures u in r.seen {
          var x :| x in next.picked && x.url == u;
          assert x in r.picked;
        }
      }
      forall i | 0 <= i < |items| ensures items[i].candidate.url in r.seen {
        if i > 0 {
          assert items[i] == items[1..][i - 1];
        }
      }
    }
  }

  /** What follows a skipped or taken head is still a subsequence once the
      head is put back in front. */
  lemma StepAdded(picked: seq<Assessment>, next: seq<Assessment>, c: Assessment,
                  rest: seq<Assessment>, result: seq<Assessment>)
    requires next == picked || next == picked + [c]
    requires next <= result && SubsequenceOf(result[|next|..], rest)
    ensures picked <= result && SubsequenceOf(result[|picked|..], [c] + rest)
  {
    if next == picked {
      AddedSkipsHead(result[|picked|..], c, rest);
    } else {
      SuffixStep(result, picked, c);
      AddedTakesHead(result[|next|..], c, rest);
    }
  }

  /** One offer followed by the fresh prefix of the rest is the fresh prefix
      of the whole. */
  lemma OfferFresh(sel: Selection, c: Assessment, rest: seq<Assessment>, topK: int)
    requires Valid(sel)
    ensures var next := Offer(sel, c, topK);
      |sel.picked| <= topK ==>
        (|next.picked| <= topK &&
         next.picked + PrefixSlice(Fresh(next.seen, rest), topK - |next.picked|)
           == sel.picked + PrefixSlice(Fresh(sel.seen, [c] + rest), topK - |sel.picked|))
  {
    if |sel.picked| <= topK {
      if c.url in sel.seen {
        FreshCons(sel.seen, c, rest);
      } else if |sel.picked| < topK {
        OfferTakes(sel, c, rest, topK);
      } else {
        TakeNone(Fresh(sel.seen, [c] + rest));
        TakeNone(Fresh(sel.seen, rest));
      }
    }
  }

  /** An unseen candidate with room left heads the fresh prefix. */
  lemma OfferTakes(sel: Selection, c: Assessment, rest: seq<Assessment>, topK: int)
    requires Valid(sel) && c.url !in sel.seen && |sel.picked| < topK
    ensures var n := topK - |sel.picked|;
      sel.picked + PrefixSlice(Fresh(sel.seen, [c] + rest), n)
        == (sel.picked + [c]) + PrefixSlice(Fresh(sel.seen + {c.url}, rest), n - 1)
  {
    TakeFresh(sel.picked, sel.seen, c, rest, topK - |sel.picked|);
  }

  lemma TakeFresh(picked: seq<Assessment>, seen: set<string>, c: Assessment, rest: seq<Assessment>, n: int)
    requires c.url !in seen && n >= 1
    ensures picked + PrefixSlice(Fresh(seen, [c] + rest), n)
      == (picked + [c]) + PrefixSlice(Fresh(seen + {c.url}, rest), n - 1)
  {
    var tail := Fresh(seen + {c.url}, rest);
    FreshCons(seen, c, rest);
    PrefixCons(c, tail, n);
    Regroup(picked, [c], PrefixSlice(tail, n - 1), []);
  }

  lemma TakeNone<T>(xs: seq<T>)
    ensures PrefixSlice(xs, 0) == []
  {
  }

  lemma CandidatesCons(items: seq<Scored>)
    requires |items| >= 1
    ensures Candidates(items) == [items[0].candidate] + Candidates(items[1..])
  {
  }

  lemma AddedTakesHead(a: seq<Assessment>, x: Assessment, b: seq<Assessment>)
    requires SubsequenceOf(a, b)
    ensures SubsequenceOf([x] + a, [x] + b)
  {
    assert ([x] + a)[1..] == a;
    assert ([x] + b)[1..] == b;
  }

  lemma AddedSkipsHead(a: seq<Assessment>, x: Assessment, b: seq<Assessment>)
    requires SubsequenceOf(a, b)
    ensures SubsequenceOf(a, [x] + b)
  {
    assert ([x] + b)[1..] == b;
  }

  lemma {:induction false} SubsequenceLength<T>(a: seq<T>, b: seq<T>)
    requires SubsequenceOf(a, b)
    ensures |a| <= |b|
    decreases |b|
  {
    if |a| > 0 {
      if a[0] == b[0] && SubsequenceOf(a[1..], b[1..]) {
        SubsequenceLength(a[1..], b[1..]);
      } else {
        SubsequenceLength(a, b[1..]);
      }
    }
  }

  // ------------------------------------------------------------ the two passes

  /** One iteration of the quota loop: a type with a non-empty bucket offers
      the first `Quota` entries of its bucket, so the unseen ones among them
      are taken while room remains. */
  function QuotaStep(scored: seq<Scored>, cw: CodeWeight, topK: int, sel: Selection): (r: Selection)
    requires Valid(sel)
    ensures Valid(r)
    ensures sel.picked <= r.picked
    ensures SubsequenceOf(r.picked[|sel.picked|..],
                          Candidates(PrefixSlice(Bucket(scored, cw.code), Quota(topK, cw.weight))))
    ensures |r.picked| - |sel.picked| <= Quota(topK, cw.weight)
    ensures |sel.picked| <= topK ==> |r.picked| <= topK
    ensures |Bucket(scored, cw.code)| == 0 ==> r == sel
    ensures |sel.picked| >= topK ==> r == sel
    ensures |sel.picked| <= topK ==>
      r.picked == sel.picked + PrefixSlice(Fresh(sel.seen, QuotaOffer(scored, cw, topK)), topK - |sel.picked|)
  {
    var bucket := Bucket(scored, cw.code);
    var quota := Quota(topK, cw.weight);
    if |bucket| > 0 then
      var r := OfferAll(sel, PrefixSlice(bucket, quota), topK);
      SubsequenceLength(r.picked[|sel.picked|..], Candidates(PrefixSlice(bucket, quota)));
      r
    else
      assert Fresh(sel.seen, QuotaOffer(scored, cw, topK)) == [];
      sel
  }

  /** The candidates a type offers: the first `Quota` entries of its
      bucket. */
  function QuotaOffer(scored: seq<Scored>, cw: CodeWeight, topK: int): seq<Assessment> {
    Candidates(PrefixSlice(Bucket(scored, cw.code), Quota(topK, cw.weight)))
  }

  /** `picked` followed by the first candidates of `order` whose url is not
      yet taken, until `topK` are taken. */
  function TopUp(picked: seq<Assessment>, order: seq<Assessment>, topK: int): seq<Assessment>
  {
    picked + PrefixSlice(Fresh(UrlSet(picked), order), topK - |picked|)
  }

  /** The quota loop stated without the loop: each type in visiting order
      appends the unseen candidates among its offer, as many as there is
      room for. */
  function QuotaSpec(scored: seq<Scored>, order: seq<CodeWeight>, topK: int, picked: seq<Assessment>): seq<Assessment>
    decreases |order|
  {
    if |order| == 0 then picked
    else
      QuotaSpec(scored, order[1..], topK, TopUp(picked, QuotaOffer(scored, order[0], topK), topK))
  }

  /** The quota loop over the types in visiting order. */
  function QuotaPass(scored: seq<Scored>, order: seq<CodeWeight>, topK: int, sel: Selection): (r: Selection)
    requires Valid(sel)
    ensures Valid(r)
    ensures sel.picked <= r.picked
    ensures |sel.picked| <= topK ==> |r.picked| <= topK
    ensures (forall c :: c in sel.picked ==> c in Candidates(scored))
            ==> forall c :: c in r.picked ==> c in Candidates(scored)
    ensures |sel.picked| >= topK ==> r == sel
    ensures |sel.picked| <= topK ==> r.picked == QuotaSpec(scored, order, topK, sel.picked)
    decreases |order|
  {
    if |order| == 0 then sel
    else
      var next := QuotaStep(scored, order[0], topK, sel);
      StepFromInput(scored, order[0], topK, sel);
      QuotaPass(scored, order[1..], topK, next)
  }

  lemma StepFromInput(scored: seq<Scored>, cw: CodeWeight, topK: int, sel: Selection)
    requires Valid(sel)
    ensures var r := QuotaStep(scored, cw, topK, sel);
      (forall c :: c in sel.picked ==> c in Candidates(scored))
        ==> forall c :: c in r.picked ==> c in Candidates(scored)
  {
    var r := QuotaStep(scored, cw, topK, sel);
    var bucket := Bucket(scored, cw.code);
    var items := PrefixSlice(bucket, Quota(topK, cw.weight));
    BucketInInput(scored, cw.code);
    assert forall x :: x in items ==> x in bucket;
    AddedFromPool(sel.picked, r.picked, items, scored);
  }

  lemma BucketInInput(scored: seq<Scored>, code: string)
    ensures forall x :: x in Bucket(scored, code) ==> x in scored
  {
    BucketMembers(scored, code);
  }

  /** What a pass adds comes from its items, so when the items come from the
      input the picks stay input candidates. */
  lemma AddedFromPool(before: seq<Assessment>, after: seq<Assessment>, items: seq<Scored>, scored: seq<Scored>)
    requires before <= after
    requires SubsequenceOf(after[|before|..], Candidates(items))
    requires forall x :: x in items ==> x in scored
    ensures (forall c :: c in before ==> c in Candidates(scored)) ==> forall c :: c in after ==> c in Candidates(scored)
  {
    var added := after[|before|..];
    SubsequenceMembers(added, Candidates(items));
    assert after == before + added;
    forall c | c in added ensures c in Candidates(scored) {
      var i :| 0 <= i < |items| && Candidates(items)[i] == c;
      assert items[i] in items;
      var j :| 0 <= j < |scored| && scored[j] == items[i];
      assert Candidates(scored)[j] == c;
    }
  }

  /** The candidates picked by the quota pass alone. */
  function QuotaPicks(scored: seq<Scored>, prefs: seq<CodeWeight>, topK: int): (r: seq<Assessment>)
    ensures DistinctUrls(r)
    ensures topK >= 0 ==> |r| <= topK
    ensures topK >= 0 ==> r == QuotaSpec(scored, VisitOrder(prefs), topK, [])
  {
    QuotaPass(scored, VisitOrder(prefs), topK, Empty).picked
  }

  /** The score pass: offer every candidate in descending score order, when
      room is left, so the best-scored unseen candidates fill the room. */
  function FillPass(scored: seq<Scored>, topK: int, sel: Selection): (r: Selection)
    requires Valid(sel)
    ensures Valid(r)
    ensures sel.picked <= r.picked
    ensures SubsequenceOf(r.picked[|sel.picked|..], Candidates(SortDesc(scored, ScoreOf)))
    ensures |sel.picked| <= topK ==> |r.picked| <= topK
    ensures |r.picked| < topK ==> Urls(scored) <= r.seen
    ensures |sel.picked| >= topK ==> r == sel
    ensures |sel.picked| <= topK ==>
      r.picked == sel.picked + PrefixSlice(Fresh(sel.seen, Candidates(SortDesc(scored, ScoreOf))), topK - |sel.picked|)
  {
    if |sel.picked| < topK then
      RoomMeansAllSeen(scored, sel, topK);
      OfferAll(sel, SortDesc(scored, ScoreOf), topK)
    else
      FullKept(sel, Candidates(SortDesc(scored, ScoreOf)), topK);
      sel
  }

  /** A full selection adds nothing, which is the first none of the fresh
      candidates. */
  lemma FullKept(sel: Selection, order: seq<Assessment>, topK: int)
    requires |sel.picked| >= topK
    ensures SubsequenceOf(sel.picked[|sel.picked|..], order)
    ensures |sel.picked| <= topK ==>
      sel.picked == sel.picked + PrefixSlice(Fresh(sel.seen, order), topK - |sel.picked|)
  {
    assert sel.picked[|sel.picked|..] == [];
    TakeNone(Fresh(sel.seen, order));
    assert sel.picked + [] == sel.picked;
  }

  /** When the fill pass leaves room, it has seen every input url. */
  lemma RoomMeansAllSeen(scored: seq<Scored>, sel: Selection, topK: int)
    requires Valid(sel)
    ensures var r := OfferAll(sel, SortDesc(scored, ScoreOf), topK);
      |r.picked| < topK ==> Urls(scored) <= r.seen
  {
    var r := OfferAll(sel, SortDesc(scored, ScoreOf), topK);
    SortedCoversUrls(scored, r.seen);
  }

  /** Every url of the input is the url of some entry of the sorted list. */
  lemma SortedCoversUrls(scored: seq<Scored>, seen: set<string>)
    ensures (forall i :: 0 <= i < |SortDesc(scored, ScoreOf)| ==> SortDesc(scored, ScoreOf)[i].candidate.url in seen)
            ==> Urls(scored) <= seen
  {
    var sorted := SortDesc(scored, ScoreOf);
    forall u | u in Urls(scored) && (forall i :: 0 <= i < |sorted| ==> sorted[i].candidate.url in seen)
      ensures u in seen
    {
      var c :| c in Candidates(scored) && c.url == u;
      var i :| 0 <= i < |scored| && Candidates(scored)[i] == c;
      assert scored[i] in multiset(sorted);
      var j :| 0 <= j < |sorted| && sorted[j] == scored[i];
    }
  }

  /** `balance_recommendations(scored_candidates, query_analysis, top_k)`. */
  function Balance(scored: seq<Scored>, prefs: seq<CodeWeight>, topK: int): (r: seq<Assessment>)
    ensures |scored| == 0 || topK <= 0 ==> r == []
    ensures DistinctUrls(r)
    ensures forall c :: c in r ==> c in Candidates(scored)
    ensures topK >= 0 ==> |r| == Min(topK, |Urls(scored)|)
    ensures topK >= 0 && |scored| > 0 ==> QuotaPicks(scored, prefs, topK) <= r
    ensures topK >= 0 && |scored| > 0 ==>
      SubsequenceOf(r[|QuotaPicks(scored, prefs, topK)|..], Candidates(SortDesc(scored, ScoreOf)))
    ensures topK >= 0 && |scored| > 0 ==>
      r == TopUp(QuotaPicks(scored, prefs, topK), Candidates(SortDesc(scored, ScoreOf)), topK)
  {
    if |scored| == 0 then []
    else
      var quota := QuotaPass(scored, VisitOrder(prefs), topK, Empty);
      var filled := FillPass(scored, topK, quota);
      FillFromInput(scored, topK, quota);
      FillAfterQuota(scored, prefs, topK);
      var r := PrefixSlice(filled.picked, topK);
      assert forall i, j :: 0 <= i < j < |r| ==> r[i] == filled.picked[i] && r[j] == filled.picked[j];
      SelectionSize(scored, topK, filled);
      r
  }

  /** The fill pass appends the best-scored unseen candidates to the quota
      picks. */
  lemma FillAfterQuota(scored: seq<Scored>, prefs: seq<CodeWeight>, topK: int)
    ensures var quota := QuotaPass(scored, VisitOrder(prefs), topK, Empty);
      topK >= 0 ==>
        var filled := FillPass(scored, topK, quota);
        PrefixSlice(filled.picked, topK) ==
          TopUp(QuotaPicks(scored, prefs, topK), Candidates(SortDesc(scored, ScoreOf)), topK)
  {
    var quota := QuotaPass(scored, VisitOrder(prefs), topK, Empty);
    if topK >= 0 {
      var filled := FillPass(scored, topK, quota);
      assert |filled.picked| <= topK;
    }
  }

  /** On input already in descending score order the fill pass follows the
      input order. */
  lemma BalanceOfRanked(ranked: seq<Scored>, prefs: seq<CodeWeight>, topK: int)
    requires Descending(ranked, ScoreOf)
    ensures topK >= 0 && |ranked| > 0 ==>
      Balance(ranked, prefs, topK) == TopUp(QuotaPicks(ranked, prefs, topK), Candidates(ranked), topK)
  {
    SortDescOfDescending(ranked, ScoreOf);
  }

  lemma FillFromInput(scored: seq<Scored>, topK: int, sel: Selection)
    requires Valid(sel)
    requires forall c :: c in sel.picked ==> c in Candidates(scored)
    ensures forall c :: c in FillPass(scored, topK, sel).picked ==> c in Candidates(scored)
  {
    var sorted := SortDesc(scored, ScoreOf);
    assert forall x :: x in sorted ==> x in multiset(scored);
    AddedFromPool(sel.picked, FillPass(scored, topK, sel).picked, sorted, scored);
  }

  /** The final size: `topK` when there are enough distinct urls, else all
      of them. */
  lemma SelectionSize(scored: seq<Scored>, topK: int, sel: Selection)
    requires Valid(sel) && (topK >= 0 ==> |sel.picked| <= topK)
    requires forall c :: c in sel.picked ==> c in Candidates(scored)
    requires |sel.picked| < topK ==> Urls(scored) <= sel.seen
    ensures topK >= 0 ==> |sel.picked| == Min(topK, |Urls(scored)|)
  {
    DistinctUrlsCount(sel.picked);
    assert sel.seen <= Urls(scored);
    if |sel.picked| < topK {
      assert sel.seen == Urls(scored);
    } else {
      SubsetSize(sel.seen, Urls(scored));
    }
  }

  /** With no category weights and room for one, the better-scored of two
      candidates is returned, not just any one of them. */
  lemma BalanceGreedyExample(a: Assessment, b: Assessment)
    requires a.url != b.url
    ensures Balance([Scored(2.0, a), Scored(1.0, b)], [], 1) == [a]
  {
    var scored := [Scored(2.0, a), Scored(1.0, b)];
    assert QuotaPicks(scored, [], 1) == [];
    assert Descending(scored, ScoreOf);
    SortDescOfDescending(scored, ScoreOf);
    assert Candidates(scored) == [a] + [b];
    FreshCons({}, a, [b]);
    assert Fresh({}, [a] + [b]) == [a] + Fresh({a.url}, [b]);
    PrefixCons(a, Fresh({a.url}, [b]), 1);
  }

  /** The quota pass comes first: a lower-scored candidate carrying the only
      weighted code takes the single slot. */
  lemma BalanceQuotaExample(a: Assessment, b: Assessment)
    requires a.url != b.url
    requires ParseCodes(a.testType) == [] && ParseCodes(b.testType) == ["K"]
    ensures Balance([Scored(2.0, a), Scored(1.0, b)], [CodeWeight("K", 50)], 1) == [b]
  {
    var scored := [Scored(2.0, a), Scored(1.0, b)];
    var q := QuotaPicks(scored, [CodeWeight("K", 50)], 1);
    ExampleQuota(a, b);
    TakeNone(Fresh(UrlSet(q), Candidates(SortDesc(scored, ScoreOf))));
    assert Balance(scored, [CodeWeight("K", 50)], 1) == q + [];
  }

  lemma ExampleQuota(a: Assessment, b: Assessment)
    requires ParseCodes(a.testType) == [] && ParseCodes(b.testType) == ["K"]
    ensures QuotaPicks([Scored(2.0, a), Scored(1.0, b)], [CodeWeight("K", 50)], 1) == [b]
  {
    var scored := [Scored(2.0, a), Scored(1.0, b)];
    var cw := CodeWeight("K", 50);
    ExampleOffer(a, b);
    assert VisitOrder([cw]) == [cw] by {
      assert Descending([cw], WeightOf);
      SortDescOfDescending([cw], WeightOf);
    }
    assert Fresh({}, [b]) == [b];
    assert QuotaSpec(scored, [cw], 1, []) == QuotaSpec(scored, [], 1, [b]);
  }

  lemma ExampleOffer(a: Assessment, b: Assessment)
    requires ParseCodes(a.testType) == [] && ParseCodes(b.testType) == ["K"]
    ensures QuotaOffer([Scored(2.0, a), Scored(1.0, b)], CodeWeight("K", 50), 1) == [b]
  {
    ExampleBucket(a, b);
    assert Quota(1, 50) == 1;
    assert PrefixSlice([Scored(1.0, b)], 1) == [Scored(1.0, b)];
  }

  lemma ExampleBucket(a: Assessment, b: Assessment)
    requires ParseCodes(a.testType) == [] && ParseCodes(b.testType) == ["K"]
    ensures Bucket([Scored(2.0, a), Scored(1.0, b)], "K") == [Scored(1.0, b)]
  {
    var x, y := Scored(2.0, a), Scored(1.0, b);
    EntriesPair(x, y);
    BucketOfPair(Typed(x, []), Typed(y, ["K"]), "K");
    OccurrencesSingle("K");
    RepeatOne(y);
  }

  lemma EntriesPair(x: Scored, y: Scored)
    ensures Entries([x, y])
      == [Typed(x, ParseCodes(x.candidate.testType)), Typed(y, ParseCodes(y.candidate.testType))]
  {
    EntriesOfTwo([x, y]);
  }

  lemma EntriesOfTwo(s: seq<Scored>)
    requires |s| == 2
    ensures Entries(s) == [Entries(s)[0], Entries(s)[1]]
  {
  }

  lemma OccurrencesSingle(code: string)
    ensures Occurrences(code, [code]) == 1
  {
    assert [code][1..] == [];
  }

  lemma RepeatOne(x: Scored)
    ensures Repeat(x, 1) == [x]
  {
  }

  lemma BucketOfPair(x: Typed, y: Typed, code: string)
    ensures BucketOf([x, y], code)
      == Repeat(x.item, Occurrences(code, x.codes)) + Repeat(y.item, Occurrences(code, y.codes))
  {
    assert [x, y][1..] == [y];
    assert [y][1..] == [];
    var ry := Repeat(y.item, Occurrences(code, y.codes));
    assert BucketOf([y], code) == ry + [] == ry;
  }
}
