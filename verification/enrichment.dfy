/** `enrich_assessment_data`: the normalisation every scraped record goes
    through before it is embedded. Python's dynamically typed fields are
    given explicit shapes here. */
module Enrichment {
  import opened Base
  import opened Text
  import opened Catalog
  import opened Patterns

  /** The forms the scraped `duration` field takes. */
  datatype RawDuration =
    | DurationMissing
    | DurationNull
    | DurationInt(n: int)
    | DurationFloat(x: real)
    | DurationText(s: string)

  /** The forms the scraped `test_type` field takes. */
  datatype RawTestType =
    | TypesMissing
    | TypesNull
    | TypesList(items: seq<string>)
    | TypesText(s: string)

  /** A scraped catalog record before enrichment. */
  datatype RawItem = RawItem(
    name: string,
    url: string,
    description: string,
    duration: RawDuration,
    testType: RawTestType,
    adaptiveSupport: string,
    remoteSupport: string)

  // ------------------------------------------------------------ int()

  function DigitChar(d: nat): (c: char)
    requires d <= 9
    ensures IsDigit(c) && DigitValue(c) == d
  {
    ('0' as int + d) as char
  }

  /** The decimal digits of `n`, most significant first. */
  function Digits(n: nat): (s: string)
    ensures |s| > 0
    ensures forall m :: 0 <= m < |s| ==> IsDigit(s[m])
  {
    if n < 10 then [DigitChar(n)] else Digits(n / 10) + [DigitChar(n % 10)]
  }

  /** `str(n)`. */
  function Show(n: int): string {
    if n < 0 then "-" + Digits(-n) else Digits(n)
  }

  predicate AllDigits(s: string) {
    forall m :: 0 <= m < |s| ==> IsDigit(s[m])
  }

  /** `int(s)` for a string: surrounding whitespace, an optional sign and at
      least one ASCII digit; anything else raises, answered here by `None`. */
  function ParseInt(s: string): (r: Option<int>)
    ensures r.Some? ==> |Strip(s)| > 0
    ensures r.None? <==> (
      var t := Strip(s);
      var body := if |t| > 0 && (t[0] == '+' || t[0] == '-') then t[1..] else t;
      |body| == 0 || !AllDigits(body))
  {
    var t := Strip(s);
    if |t| > 0 && (t[0] == '+' || t[0] == '-') then
      var body := t[1..];
      if |body| > 0 && AllDigits(body) then
        var v: int := DecimalValue(body);
        Some(if t[0] == '-' then -v else v)
      else None
    else if |t| > 0 && AllDigits(t) then Some(DecimalValue(t))
    else None
  }

  lemma {:induction false} DigitsValue(n: nat)
    ensures DecimalValue(Digits(n)) == n
    decreases n
  {
    if n >= 10 {
      DigitsValue(n / 10);
      var s := Digits(n);
      assert s[..|s| - 1] == Digits(n / 10);
    }
  }

  /** `int(str(n)) == n`. */
  lemma ParseShow(n: int)
    ensures ParseInt(Show(n)) == Some(n)
  {
    var s := Show(n);
    var d := Digits(if n < 0 then -n else n);
    DigitsValue(if n < 0 then -n else n);
    assert IsStripped(s);
    StripStripped(s);
    if n < 0 {
      assert s[1..] == d;
    }
  }

  /** `int(x)` for a float: truncation toward zero. */
  function TruncReal(x: real): (n: int)
    ensures x >= 0.0 ==> n as real <= x < n as real + 1.0
    ensures x < 0.0 ==> n as real - 1.0 < x <= n as real
  {
    if x >= 0.0 then x.Floor else -((-x).Floor)
  }

  /** `try: int(item.get('duration', 30)) except: 30`. */
  function EnrichDuration(d: RawDuration): (r: int)
    ensures d.DurationMissing? || d.DurationNull? ==> r == 30
    ensures d.DurationInt? ==> r == d.n
    ensures d.DurationText? && ParseInt(d.s).None? ==> r == 30
    ensures d.DurationText? && ParseInt(d.s).Some? ==> r == ParseInt(d.s).value
    ensures d.DurationFloat? ==> r == TruncReal(d.x)
    ensures d.DurationFloat? && d.x >= 0.0 ==> r as real <= d.x < r as real + 1.0
    ensures d.DurationFloat? && d.x < 0.0 ==> r as real - 1.0 < d.x <= r as real
  {
    match d
    case DurationMissing => 30
    case DurationNull => 30
    case DurationInt(n) => n
    case DurationFloat(x) => TruncReal(x)
    case DurationText(s) => ParseInt(s).GetOr(30)
  }

  // ------------------------------------------------------------ test types

  /** The stored `test_type` string. A list of codes, empty strings
      allowed, survives the round trip through it with only the empty
      strings dropped. */
  function EnrichTestType(t: RawTestType): (r: string)
    ensures t.TypesMissing? ==> r == ""
    ensures t.TypesNull? ==> r == "None"
    ensures t.TypesText? ==> r == t.s
    ensures t.TypesList? && CodesOrEmpty(t.items) ==> ParseCodes(r) == NonEmpty(t.items)
  {
    match t
    case TypesMissing => ""
    case TypesNull => "None"
    case TypesList(items) => TestTypeRoundTrip(items); Join(", ", NonEmpty(items))
    case TypesText(s) => s
  }

  /** Every item is a code or empty. */
  predicate CodesOrEmpty(items: seq<string>) {
    forall i :: 0 <= i < |items| ==> |items[i]| == 0 || CleanCode(items[i])
  }

  lemma TestTypeRoundTrip(items: seq<string>)
    ensures CodesOrEmpty(items) ==> ParseCodes(Join(", ", NonEmpty(items))) == NonEmpty(items)
  {
    if CodesOrEmpty(items) {
      RoundTripClean(items);
    }
  }

  lemma RoundTripClean(items: seq<string>)
    requires CodesOrEmpty(items)
    ensures ParseCodes(Join(", ", NonEmpty(items))) == NonEmpty(items)
  {
    var xs := NonEmpty(items);
    assert forall i :: 0 <= i < |xs| ==> CleanCode(xs[i]) by {
      forall i | 0 <= i < |xs| ensures CleanCode(xs[i]) {
        assert xs[i] in items;
      }
    }
    CodesRoundTrip(xs);
  }

  // ------------------------------------------------------------ skills

  /** The lower-cased "name description" text the tags are read from. */
  function ItemText(item: RawItem): string {
    Lower(item.name + " " + item.description)
  }

  /** At most five tags, in table order. */
  function ItemTags(item: RawItem): (r: seq<string>)
    ensures |r| <= 5
    ensures forall t :: t in r ==> t in Matching(SkillKeywords, ItemText(item))
  {
    PrefixSlice(Matching(SkillKeywords, ItemText(item)), 5)
  }

  /** The tag column of the skill table, in table order. */
  const SkillTags: seq<string> := ["sql", "excel", "python", "java", "javascript", "testing",
    "cloud", "data_analysis", "web", "sales", "marketing", "communication", "leadership",
    "admin", "banking", "customer_service", "analyst", "developer", "manager", "consultant",
    "content"]

  lemma SkillTagsClean()
    ensures forall i :: 0 <= i < |SkillTags| ==> CleanCode(SkillTags[i])
  {
    assert CleanCode("sql");
    assert CleanCode("excel");
    assert CleanCode("python");
    assert CleanCode("java");
    assert CleanCode("javascript");
    assert CleanCode("testing");
    assert CleanCode("cloud");
    assert CleanCode("data_analysis");
    assert CleanCode("web");
    assert CleanCode("sales");
    assert CleanCode("marketing");
    assert CleanCode("communication");
    assert CleanCode("leadership");
    assert CleanCode("admin");
    assert CleanCode("banking");
    assert CleanCode("customer_service");
    assert CleanCode("analyst");
    assert CleanCode("developer");
    assert CleanCode("manager");
    assert CleanCode("consultant");
    assert CleanCode("content");
  }

  lemma SkillTagsAre()
    ensures Tags(SkillKeywords) == SkillTags
  {
  }

  lemma TagsClean()
    ensures forall i :: 0 <= i < |SkillKeywords| ==> CleanCode(SkillKeywords[i].tag)
  {
    SkillTagsClean();
    SkillTagsAre();
  }

  /** `enrich_assessment_data(item)`. */
  function Enrich(item: RawItem): (r: Assessment)
    ensures r.name == item.name && r.url == item.url && r.description == item.description
    ensures r.adaptiveSupport == item.adaptiveSupport && r.remoteSupport == item.remoteSupport
    ensures r.duration == EnrichDuration(item.duration)
    ensures r.testType == EnrichTestType(item.testType)
  {
    Assessment(item.name, item.url, item.description, EnrichDuration(item.duration),
      EnrichTestType(item.testType), item.adaptiveSupport, item.remoteSupport,
      Join(", ", ItemTags(item)))
  }

  /** Reading the stored skills back gives the first five matching tags, so
      at most five, each of them a tag whose keyword occurs in the text. */
  lemma EnrichSkills(item: RawItem)
    ensures ParseCodes(Enrich(item).skills) == ItemTags(item)
    ensures |ParseCodes(Enrich(item).skills)| <= 5
    ensures forall t :: t in ParseCodes(Enrich(item).skills) ==>
      exists i :: 0 <= i < |SkillKeywords| && SkillKeywords[i].tag == t
        && AnyOccurs(SkillKeywords[i].keywords, ItemText(item))
  {
    var all := Matching(SkillKeywords, ItemText(item));
    var tags := ItemTags(item);
    TagsClean();
    SubsequenceMembers(all, Tags(SkillKeywords));
    forall i | 0 <= i < |tags| ensures CleanCode(tags[i]) {
      assert tags[i] in all;
      assert tags[i] in Tags(SkillKeywords);
    }
    CodesRoundTrip(tags);
  }

  /** A text duration such as "45" is read as its number. */
  lemma EnrichTextDuration(item: RawItem, n: int)
    requires item.duration == DurationText(Show(n))
    ensures Enrich(item).duration == n
  {
    ParseShow(n);
  }
}
