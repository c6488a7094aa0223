# SHL assessment recommender: a Dafny model of its decision logic

The recommender takes a free-text hiring query and returns up to `top_k`
SHL catalog assessments. Its decision logic lives in a few pure functions,
and this project models them:

- the query analyser (`extract_query_keywords`). It reads skill tags, an
  experience level, a target duration and K/P category weights from the
  query.
- the six sub-scores summed for every retrieved candidate.
- the two-pass selector (`balance_recommendations`). It fills
  per-category quotas and then fills by score, never taking a url twice.
- the catalog-record normaliser (`enrich_assessment_data`).
- the glue of `get_balanced_recommendations`. Here the vector-store answer
  is an explicit input.
- the crawler's four text helpers: `normalize_url`, `is_browser_warning`,
  `extract_test_type` and `extract_duration`.
- the Recall@k metric of the evaluation script.

Modules:

- `Base`: an option type, min/max/abs, `set(xs)`, a distinctness predicate
  and Python's prefix slice `xs[:k]`, including negative `k`.
- `Text`: the Python `str` operations the program uses, over ASCII. These
  are `lower`, substring `in`, `startswith`/`endswith`, `strip`,
  `split(',')`, `split()`, `join` and `replace`.
- `Sorting`: a stable descending insertion sort by key. It stands for
  Python's `sorted(..., reverse=True)` and `list.sort(..., reverse=True)`.
- `Patterns`: `re.search(r'(\d+)\s*unit', text)` as a scanner, with proofs
  that it finds the leftmost regex match. It also holds the first-match-wins
  walk over a `(pattern, multiplier)` list.
- `Catalog`: the keyword tables, the stored catalog record and the parsing
  of its comma-separated `test_type` field.
- `Analyzer`: `extract_query_keywords`.
- `Scorer`: the six sub-scores and their sum.
- `Selector`: `balance_recommendations`.
- `Recommender`: `get_balanced_recommendations` after retrieval.
- `Enrichment`: `enrich_assessment_data`.
- `Scraper`: the crawler's text helpers.
- `Evaluation`: `calculate_recall_at_k`.

## Model

| member | source | states |
|---|---|---|
| Catalog.Matching | Experiments/rag.py:89-93 | The found tags are a subsequence of the table's tags in table order. A tag is found iff one of its keywords occurs in the text. |
| Catalog.IndicatorsDistinct | Experiments/rag.py:71-75 | No level lists an indicator twice, so each indicator in the name adds 25 exactly once. |
| Catalog.CodesRoundTrip | Experiments/rag.py:229-232 | Clean codes joined with ", " and parsed back by comma-splitting and stripping come back unchanged. |
| Catalog.ParseCodes | Experiments/rag.py:326-327 | Every parsed code is non-empty, has no surrounding whitespace and holds no comma. |
| Catalog.LeadingSpaceIgnored | Experiments/rag.py:327 | The space after a comma disappears when the pieces are stripped. |
| Catalog.CodeList | Experiments/rag.py:198 | At least one entry. No entry holds a comma or surrounding whitespace. |
| Catalog.CodeListParsed | Experiments/rag.py:198 | The codes the scorer splits out, minus the empty ones, are exactly the codes the selector parses. |
| Catalog.NonEmpty | Experiments/rag.py:232 | The kept items are exactly the non-empty ones. |
| Analyzer.DetectSkills | Experiments/rag.py:88-93 | A skill tag is reported iff a keyword of its row occurs in the lower-cased query, in table order. |
| Analyzer.FirstLevel | Experiments/rag.py:96-99 | A returned level is one of the listed levels and has an occurring indicator. Nothing is returned iff no listed level has one. |
| Analyzer.FirstLevelIsFirst | Experiments/rag.py:96-99 | The `break` stops at the first match: every level listed before the returned one has no occurring indicator. |
| Analyzer.DetectLevel | Experiments/rag.py:95-99 | Entry iff an entry indicator occurs. Senior iff no entry and no mid indicator occurs but a senior one does. Mid otherwise, including when nothing matches. |
| Analyzer.QueryDuration | Experiments/rag.py:101-119 | The duration is the first number before "min", else 60 times the first number before "hour", else absent. "minutes" and "hours" are shadowed, and the group-less ranges never decide. |
| Analyzer.MinuteQuery | Experiments/rag.py:103 | "40 minute test" gives a duration of 40, because "minute" holds "min". |
| Analyzer.NoUnitQuery | Experiments/rag.py:101-119 | A query with neither 'm' nor 'h' has no duration. |
| Analyzer.BareRangeQuery | Experiments/rag.py:107-119 | "30-40" gives no duration: the range pattern has no group, and no unit follows the numbers. |
| Analyzer.PrefsFor | Experiments/rag.py:121-128 | K40/P60 when a managerial skill is found, else K70/P30 when a technical one is, else K50/P50. The map lists K then P, both non-negative, adding up to 100. |
| Analyzer.Analyze | Experiments/rag.py:88-136 | The four signals as above. Weights are K40/P60 when a managerial skill is found, else K70/P30 when a technical one is, else K50/P50. The managerial override wins over the technical one. |
| Analyzer.PrefsShape | Experiments/rag.py:121-128 | For every query the weight map lists K then P, both non-negative, and they add up to 100. |
| Patterns.Search | Experiments/rag.py:113 | The answer is a regex match of `(\d+)\s*unit`, and no match starts earlier. None means no match exists anywhere. |
| Patterns.MatchIsMaximal | Experiments/rag.py:103 | Any match's digit group is the whole digit run, and its whitespace is the whole whitespace run, so backtracking finds nothing else. |
| Patterns.NumberBefore | Experiments/rag.py:113-116 | A number is read iff the pattern matches somewhere. |
| Patterns.LongerUnitShadowed | Experiments/rag.py:103-106 | A pattern whose unit extends an earlier pattern's unit only matches where the earlier one already does. |
| Patterns.NoUnitNoNumber | Experiments/rag.py:112-119 | A text without the unit's first character yields no number. |
| Patterns.FirstDurationNone | Experiments/rag.py:112-119 | No duration iff no grouped pattern in the list matches. |
| Patterns.FirstDurationUngrouped | Experiments/rag.py:107-119 | Entries without a capture group never decide, because `match.group(1)` raises and the handler moves on. |
| Patterns.ShadowedPair | Experiments/rag.py:103-119 | In a list "a, b, c, d" where b extends a and d extends c, followed by group-less entries, only a and c can decide. |
| Scorer.SemanticScore | Experiments/rag.py:384 | The proximity credit lies in (0, 30], and is exactly 30 iff the distance is not positive. |
| Scorer.SemanticScoreMonotone | Experiments/rag.py:384 | A closer candidate never gets less proximity credit. |
| Scorer.KeywordPoints | Experiments/rag.py:149-155 | One keyword earns 0, 15, 20 or 30. It earns something iff it occurs in the joined text and in the name, the description or the skills string. |
| Scorer.TagOnlyNeedsSpace | Experiments/rag.py:149-155 | The 15-point branch is reachable only for a keyword containing a space, which must straddle the joining space. |
| Scorer.NameKeywordPoints | Experiments/rag.py:150-151 | A keyword in the lower-cased name always earns 30. |
| Scorer.SkillMatchScore | Experiments/rag.py:138-157 | The skill score lies in [0, 100]. It is 0 with no query skills, and 0 when no keyword of any query skill occurs in the candidate text. |
| Scorer.SkillMatchInName | Experiments/rag.py:146-157 | A keyword of a query skill in the candidate's name makes the skill score at least 30. |
| Scorer.ExperienceScore | Experiments/rag.py:159-175 | 25 times the number of the level's indicators in the name, minus 30 exactly for an opposite-extreme indicator. A mid query is never negative, and no score is below -30. |
| Scorer.ExperienceAtMost | Experiments/rag.py:164-166 | The experience score is at most 250, since a level has at most ten distinct indicators. |
| Scorer.DurationScore | Experiments/rag.py:177-191 | An absent or zero target gives 0. Otherwise the result is one of 30, 20, 10, 5 or -10. |
| Scorer.DurationScoreSteps | Experiments/rag.py:181-191 | For a non-zero target, each step holds iff the absolute difference is in its band: 0, up to 10, up to 20, up to 30, beyond 30. |
| Scorer.DurationScoreMonotone | Experiments/rag.py:181-191 | A candidate closer to the target never scores lower. |
| Scorer.DurationScoreExample | Experiments/rag.py:177-191 | Target 40 against 40, 45, 55, 65 and 100 gives 30, 20, 10, 5 and -10. No target or target 0 gives 0. |
| Scorer.PrefPoints | Experiments/rag.py:204-207 | With non-negative weights the points lie between 0 and half the total weight. They are 0 when no preferred code is present and the full half when all are. |
| Scorer.TestTypeScore | Experiments/rag.py:193-209 | An empty type string scores 0. So does one that carries no preferred code. With non-negative weights the score is at most half the total weight. |
| Scorer.PrefPointsAtLeast | Experiments/rag.py:204-207 | With non-negative weights, every preferred code present among the codes earns at least its half weight. |
| Scorer.TestTypeScoreAtLeast | Experiments/rag.py:193-209 | For a non-empty type string, each preferred code it lists makes the score at least half that code's weight. |
| Scorer.TestTypeScoreSplit | Experiments/rag.py:193-209 | With the analyser's K-then-P map and a non-empty type string, the score is half K's weight if K is listed plus half P's weight if P is listed. A K-only candidate under K70/P30 scores 35. |
| Scorer.TestTypeScoreForQuery | Experiments/rag.py:193-209 | With the analyser's weights the category score lies in [0, 50], and is 50 iff the candidate carries both K and P. |
| Scorer.KeywordDensityScore | Experiments/rag.py:211-218 | The density score lies in [0, 40]. It is 0 iff no long query word is a candidate word, and 40 iff there are long query words and all of them are candidate words. |
| Scorer.KeywordDensityRatio | Experiments/rag.py:211-218 | With long query words present, the score is 40 times the fraction of them that are candidate words. |
| Scorer.KeywordDensityMonotone | Experiments/rag.py:211-218 | A candidate sharing more of the query's long words never gets less density credit. |
| Scorer.CandidateScore | Experiments/rag.py:380-390 | With non-negative weights the composite score is above -40. |
| Scorer.CandidateScoreBounds | Experiments/rag.py:380-390 | With the analyser's signals the unclamped sum lies strictly above -40 and at most 500. |
| Sorting.SortDesc | Experiments/rag.py:392 | The sort is a permutation of its input, in non-increasing key order. |
| Sorting.SortDescStable | Experiments/rag.py:340 | Elements with equal keys keep their input order. |
| Selector.BucketMembers | Experiments/rag.py:323-334 | A category's bucket holds exactly the candidates whose parsed codes include the category. |
| Selector.BucketAppend | Experiments/rag.py:324-334 | Buckets are built in one pass in input order: the bucket of a concatenation is the concatenation of the buckets. |
| Selector.InEveryBucket | Experiments/rag.py:333-334 | A candidate with several codes sits in every matching bucket. |
| Selector.Quota | Experiments/rag.py:342 | The quota is at least 1. It is exactly 1 when `top_k*w < 200`, and otherwise it is the truncated `top_k*w/100`. |
| Selector.QuotaMonotone | Experiments/rag.py:342 | A heavier category never gets a smaller quota. |
| Selector.VisitOrder | Experiments/rag.py:340 | Categories are visited as a permutation of the weight map in descending weight. |
| Selector.VisitOrderStable | Experiments/rag.py:340 | Categories with equal weight are visited in map order. |
| Selector.Offer | Experiments/rag.py:344-346 | A candidate is taken iff its url is unseen and there is room. The seen set stays the set of picked urls. |
| Selector.Fresh | Experiments/rag.py:344-346 | The candidates whose url is neither seen nor taken earlier in the list: a subsequence with distinct urls covering exactly the unseen urls. |
| Selector.OfferAll | Experiments/rag.py:343-346 | Within the bound, the loop appends exactly the first `top_k - len(selected)` of the fresh candidates among its items. When room remains afterwards, every item's url has been seen. |
| Selector.QuotaStep | Experiments/rag.py:341-346 | A category appends exactly the fresh candidates among the first quota entries of its bucket, as many as there is room for. An empty bucket adds nothing, and duplicates in that prefix use up quota. |
| Selector.QuotaPass | Experiments/rag.py:340-346 | The quota pass equals the loop-free statement of it: each category in visiting order tops up the picks from its quota prefix. It stays within `top_k` and picks only input candidates. |
| Selector.QuotaPicks | Experiments/rag.py:337-346 | The quota picks from an empty selection have distinct urls, at most `top_k` of them, and equal the loop-free statement. |
| Selector.FillPass | Experiments/rag.py:348-352 | Within the bound, the fill pass appends exactly the first fresh candidates of the score-sorted input, as many as there is room for. If room is left, every input url has been seen. |
| Selector.Balance | Experiments/rag.py:319-354 | Empty input or `top_k <= 0` gives []. Urls are pairwise distinct and every element is an input candidate. For `top_k >= 0` the length is min(`top_k`, number of distinct urls), and the result is exactly the quota picks followed by the first unseen candidates in descending score order until `top_k` are taken. |
| Selector.BalanceGreedyExample | Experiments/rag.py:319-354 | With no weights, scores 2.0 and 1.0 and `top_k` 1, the better candidate alone is returned. |
| Selector.BalanceQuotaExample | Experiments/rag.py:319-354 | With weight K:50, `top_k` 1, and only the lower-scored candidate carrying K, the quota pass takes it and the fill pass adds nothing. |
| Recommender.Format | Experiments/rag.py:397-406 | The listed codes are never empty, each is a clean code, and the record fields are carried over. |
| Recommender.FormatCodes | Experiments/rag.py:397-403 | Codes stored by ingestion come back unchanged. A record without codes is shown as ['K']. |
| Recommender.TooShort | Experiments/rag.py:356-357 | A query under three characters is always too short. A query without surrounding whitespace is too short iff it has under three characters. |
| Recommender.ScoreAll | Experiments/rag.py:380-390 | One entry per hit, in hit order, carrying the hit's record and the composite score at the hit's distance. |
| Recommender.Ranked | Experiments/rag.py:380-392 | One scored entry per hit, in non-increasing score order, and a permutation of the per-hit scores. The ranked candidates are a permutation of the hits' candidates. |
| Recommender.RankedStable | Experiments/rag.py:392 | Among hits with any one score, the ranking keeps the store's order, as Python's stable sort does. |
| Recommender.Picks | Experiments/rag.py:392-393 | No hits or `top_k <= 0` gives []. Urls are distinct, every pick is a hit's record, and for `top_k >= 0` the length is min(`top_k`, number of distinct hit urls). The picks are exactly the quota picks over the ranking, then its first unseen candidates until `top_k` are taken. |
| Recommender.Recommend | Experiments/rag.py:356-378 | A query under three characters once stripped, a failed search, no hits, or `top_k <= 0` give []. |
| Recommender.RecommendDistinct | Experiments/rag.py:392-409 | The returned urls are pairwise distinct. |
| Recommender.RecommendTypes | Experiments/rag.py:397-403 | Every returned element lists at least one category code. |
| Recommender.RecommendFromHits | Experiments/rag.py:380-409 | Every returned element is the formatting of a retrieved hit's record. |
| Recommender.RecommendLength | Experiments/rag.py:356-409 | For a long enough query and `top_k >= 0`, the length is min(`top_k`, number of distinct hit urls). |
| Enrichment.ParseInt | Experiments/rag.py:237 | `int(s)` fails exactly when the stripped text, after an optional sign, is empty or has a non-digit. |
| Enrichment.ParseShow | Experiments/rag.py:237 | `int(str(n)) == n` for every integer. |
| Enrichment.TruncReal | Experiments/rag.py:237 | `int(x)` truncates a float toward zero. |
| Enrichment.EnrichDuration | Experiments/rag.py:236-239 | A missing or null duration becomes 30. An integer is kept. A float is truncated toward zero. Text that `int()` accepts becomes its value, and text it rejects becomes 30. |
| Enrichment.EnrichTestType | Experiments/rag.py:230-232 | A missing type is stored as "", `None` as "None", a string as itself. A list of codes, empty items allowed, is stored so that it parses back to the list minus its empty items. |
| Enrichment.Enrich | Experiments/rag.py:220-241 | Name, url, description and support flags are unchanged. Duration and test type are normalised as above. |
| Enrichment.EnrichSkills | Experiments/rag.py:222-229 | The stored skills parse back to at most five tags in table order, each with a keyword occurring in the record's text. |
| Enrichment.EnrichTextDuration | Experiments/rag.py:236-237 | A textual duration such as "45" is read as its number. |
| Scraper.NormalizeUrl | Scrapper/scraper.py:28-43 | None for a missing or empty href. Otherwise a non-empty url ending in '/'. |
| Scraper.Resolve | Scrapper/scraper.py:35 | A '/'-rooted href, not '//', is appended to the site. |
| Scraper.Canonical | Scrapper/scraper.py:37-38 | A url that is not a product page link or lacks the old path is left unchanged. The rewrite never shortens a url. |
| Scraper.CanonicalRewrite | Scrapper/scraper.py:37-38 | A url holding the old path once, behind a prefix where it cannot start, has it replaced by the new path when it is a product page link, and is unchanged otherwise. |
| Text.ReplaceOnce | Scrapper/scraper.py:38 | `str.replace` of a target occurring once, behind a prefix where it cannot start, substitutes the replacement at that one place. |
| Scraper.AbsoluteKept | Scrapper/scraper.py:32-41 | An http href outside the product pages is kept, gaining a '/' only when it lacks one. |
| Scraper.RootedOnSite | Scrapper/scraper.py:32-41 | A rooted href outside the product pages becomes the site prefix plus the href, with a trailing '/'. |
| Scraper.RewriteMoves | Scrapper/scraper.py:37-38 | An http product link still holding the old path is always lengthened by normalisation. |
| Scraper.NormalizeNotIdempotent | Scrapper/scraper.py:37-41 | Normalising a normalised product link inserts a second "/solutions", so the function is not idempotent. |
| Scraper.IsBrowserWarning | Scrapper/scraper.py:45-57 | False for empty text. Otherwise true iff at least two distinct banner keywords occur case-insensitively. |
| Scraper.BrowserWarningMonotone | Scrapper/scraper.py:56-57 | Appending text never turns a banner into a non-banner. |
| Scraper.ModernBrowserWarns | Scrapper/scraper.py:50-57 | Text containing "modern browser" is always a banner, since "browser" counts too. |
| Scraper.ExtractTestType | Scrapper/scraper.py:127-144 | The codes are never empty, form a duplicate-free subsequence of K, P, A, S, B, C, and never hold D or E. |
| Scraper.NothingFound | Scrapper/scraper.py:140-144 | No code is found iff no keyword of any row occurs. |
| Scraper.ExtractTestTypeMembers | Scrapper/scraper.py:140-144 | A code is reported iff one of its keywords occurs, except K, which is also reported when nothing matches. |
| Scraper.ExtractDuration | Scrapper/scraper.py:146-170 | With no numeric match the result is 60 iff simulation, exercise or scenario occurs, and 30 otherwise. The result is never negative. |
| Scraper.ExtractDurationEffective | Scrapper/scraper.py:149-170 | The first number before "min", else 60 times the first before "hour", else 60 times the first before "hr", else the keyword default. |
| Evaluation.Recall | Evaluation/evaluate.py:43-49 | Recall lies in [0, 1] and is 0 for an empty ground truth. It is 0 iff the ground truth is empty or no expected link is among the first k predictions. |
| Evaluation.RecallOne | Evaluation/evaluate.py:45-49 | Recall is 1 iff the ground truth is non-empty and duplicate-free, and all of it is among the first k predictions. |
| Evaluation.RecallPrefixOnly | Evaluation/evaluate.py:44 | Predictions past position k never change recall. |
| Evaluation.RecallRepeat | Evaluation/evaluate.py:44-45 | Repeating an earlier prediction inside the window leaves recall unchanged. |
| Evaluation.RecallTruthOrder | Evaluation/evaluate.py:45-46 | Reordering the ground truth leaves recall unchanged. |
| Evaluation.RecallMonotone | Evaluation/evaluate.py:44-49 | A larger k never lowers recall. |

## Left out

- The module initialisation of Experiments/rag.py (sentence-transformer model, chromadb client, Gemini configuration). These are foreign libraries with side effects.
- `ingest_data`: file reading, encoding fallback, batched embedding and `gc`. The stored record is the `Assessment` datatype, with every field present. The `.get` defaults for fields ingestion always writes are therefore unreachable and not modelled. Neither is the 300-character truncation of the stored description.
- The query embedding and `collection.query` with its exception handler. Their answer is the `Retrieval` input: a failure, or the hits with their distances in the store's order. `VECTOR_SEARCH_RESULTS` only bounds how many hits arrive.
- `safe_get`, `extract_real_description`, `scrape_product_page` and the catalog crawl in Scrapper/scraper.py: network retries, sleeps, DOM traversal and JSON output.
- Scraper.Resolve: general `urljoin` is not modelled. Dot segments and upper-case or unusual schemes are left out. Only the cases the crawler meets are modelled: '/'-rooted, '//', '?', '#', an own scheme and a bare relative path.
- `load_train_set` and `evaluate_model` in Evaluation/evaluate.py: Excel loading, HTTP calls and CSV output.
- api/main.py, which wraps the pipeline in FastAPI with a loader thread, and Frontend/app.py, a Streamlit UI.
- Floating point: scores and recall are exact reals. Selector.Quota computes `int(top_k * (weight / 100))` as truncated integer division of `top_k * weight` by 100. Python's float rounding could differ for some inputs.
- Unicode: `lower`, `isspace`, `\d` and `\s` are ASCII. `int()` accepting underscores or non-ASCII digits is not modelled.
- Patterns.NumberBefore: does not model the ValueError `int()` raises for a digit run longer than Python's 4300-digit conversion limit. Both duration walks swallow it and go on with the next pattern (Experiments/rag.py:116-118, Scrapper/scraper.py:161-162); the model reads the number instead.
- The `print` logging in `get_balanced_recommendations` (Experiments/rag.py:360-408) has no effect on the result.
- Enrichment.ParseInt: does not model the ValueError Python raises for strings longer than its 4300-digit conversion limit. Such a duration would become 30 rather than its value.
- Enrichment.EnrichTestType: `str()` of non-string list items and of other objects is not modelled. Items are strings, and `None` becomes "None".
- Python's dynamic `test_type` shapes on retrieval are not modelled. The stored value is always the string ingestion wrote, so only the string branch of the selection and scoring code is modelled.
- Analyzer.Analyze: the worked query "Java developer, must collaborate with business teams, 40 minute test" is proved only for its duration (Analyzer.MinuteQuery). Its skill, level and weight parts follow from the contract of Analyzer.Analyze, but the non-occurrence of several dozen keywords in that query is not proved.
