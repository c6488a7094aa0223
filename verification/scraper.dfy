/** The pure text helpers of the catalog crawler: link normalisation, the
    browser-banner filter and the two classifiers that guess a product's
    categories and length from its description and name. */
module Scraper {
  import opened Base
  import opened Text
  import opened Catalog
  import opened Patterns

  const Site := "https://www.shl.com"
  const ViewMarker := "/product-catalog/view/"
  const OldPath := "/products/product-catalog/"
  /** "/solutions/products/product-catalog/". */
  const NewPath := "/solutions" + OldPath

  // ------------------------------------------------------------ normalize_url

  predicate SchemeChar(c: char) {
    ('a' <= c <= 'z') || ('A' <= c <= 'Z') || ('0' <= c <= '9') || c == '+' || c == '-' || c == '.'
  }

  /** The href begins with `letter schemechar* :`, so it names its own scheme. */
  predicate HasScheme(href: string) {
    exists i :: 0 < i < |href| && href[i] == ':'
      && ('a' <= href[0] <= 'z' || 'A' <= href[0] <= 'Z')
      && forall m :: 0 <= m < i ==> SchemeChar(href[m])
  }

  /** `urljoin('https://www.shl.com', href)` for an href that does not start
      with "http": a network-path reference takes the site's scheme, a
      rooted path, a query or a fragment is appended to the site, an href
      with its own scheme stands alone, and a bare relative path is resolved
      against the site's empty path. */
  function Resolve(href: string): (r: string)
    ensures StartsWith(href, "/") && !StartsWith(href, "//") ==> r == Site + href
  {
    if StartsWith(href, "//") then "https:" + href
    else if StartsWith(href, "/") || StartsWith(href, "?") || StartsWith(href, "#") then Site + href
    else if HasScheme(href) then href
    else Site + "/" + href
  }

  /** An "http..." href is taken as it is; anything else is resolved. */
  function Absolute(href: string): string {
    if StartsWith(href, "http") then href else Resolve(href)
  }

  /** The catalog rewrite: links to product pages are moved under
      "/solutions". */
  function Canonical(url: string): (r: string)
    ensures !Contains(url, ViewMarker) || !Contains(url, OldPath) ==> r == url
    ensures |r| >= |url|
  {
    if Contains(url, ViewMarker) then
      ReplaceGrows(url, OldPath, NewPath);
      if Contains(url, OldPath) then Replace(url, OldPath, NewPath)
      else ReplaceAbsent(url, OldPath, NewPath); Replace(url, OldPath, NewPath)
    else url
  }

  function WithSlash(url: string): (r: string)
    ensures EndsWith(r, "/")
    ensures r == url || r == url + "/"
  {
    if EndsWith(url, "/") then url else url + "/"
  }

  /** `normalize_url(href)`. */
  function NormalizeUrl(href: Option<string>): (r: Option<string>)
    ensures r.None? <==> href.None? || href.value == ""
    ensures r.Some? ==> EndsWith(r.value, "/") && |r.value| > 0
  {
    match href
    case None => None
    case Some(h) =>
      if h == "" then None
      else
        Some(WithSlash(Canonical(Absolute(h))))
  }

  /** An absolute link outside the product pages only gains a trailing '/'
      when it lacks one. */
  lemma AbsoluteKept(h: string)
    requires StartsWith(h, "http") && !Contains(h, ViewMarker)
    ensures NormalizeUrl(Some(h)) == Some(if EndsWith(h, "/") then h else h + "/")
  {
  }

  /** Neither rewritten path can start inside the site prefix. */
  lemma SiteNoStart(sub: string)
    requires |sub| >= 2 && sub[0] == '/' && sub[1] == 'p'
    ensures NoStartWithin(Site, sub)
  {
  }

  /** A rooted relative link is put on the site. */
  lemma AbsoluteRooted(h: string)
    requires StartsWith(h, "/") && !StartsWith(h, "//")
    ensures Absolute(h) == Site + h
  {
    assert h[0] == '/';
  }

  /** Putting a link on the site cannot make it a product page link. */
  lemma CanonicalOnSite(h: string)
    requires !Contains(h, ViewMarker)
    ensures Canonical(Site + h) == Site + h
  {
    assert ViewMarker[0] == '/' && ViewMarker[1] == 'p';
    SiteNoStart(ViewMarker);
    ContainsAfter(Site, h, ViewMarker);
  }

  /** A rooted relative link outside the product pages is put on the site. */
  lemma RootedOnSite(h: string)
    requires StartsWith(h, "/") && !StartsWith(h, "//") && !Contains(h, ViewMarker)
    ensures NormalizeUrl(Some(h)) == Some(WithSlash(Site + h))
  {
    AbsoluteRooted(h);
    CanonicalOnSite(h);
  }

  /** On a product page link that still holds the old path, normalising
      lengthens the link, so such a link is never left as it is. */
  lemma RewriteMoves(u: string)
    requires StartsWith(u, "http") && Contains(u, ViewMarker) && Contains(u, OldPath)
    ensures |NormalizeUrl(Some(u)).value| > |u|
  {
    ReplaceGrows(u, OldPath, NewPath);
  }

  /** The rewrite also fires on a link already in canonical form, since the
      new path contains the old one: normalising a normalised product link
      inserts a second "/solutions". */
  lemma NormalizeNotIdempotent(name: string)
    requires 'p' !in name
    ensures var tail := "view/" + name + "/";
      var once := NormalizeUrl(Some(OldPath + tail));
      && once == Some(Site + NewPath + tail)
      && NormalizeUrl(once) == Some(Site + "/solutions" + NewPath + tail)
      && NormalizeUrl(once) != once
  {
    var tail := "view/" + name + "/";
    FirstPass(name);
    SecondPass(name);
    assert |Site + "/solutions" + NewPath + tail| == |Site + NewPath + tail| + 10;
  }

  /** A rooted product link on the old path is put on the site and moved. */
  lemma FirstPass(name: string)
    requires 'p' !in name
    ensures var tail := "view/" + name + "/";
      NormalizeUrl(Some(OldPath + tail)) == Some(Site + NewPath + tail)
  {
    var tail := "view/" + name + "/";
    var h := OldPath + tail;
    assert StartsWith(h, "/") && !StartsWith(h, "//") by {
      assert h[0] == '/' && h[1] == 'p';
    }
    AbsoluteRooted(h);
    assert OldPath[0] == '/' && OldPath[1] == 'p';
    SiteNoStart(OldPath);
    RewriteAfter(Site, name);
    var one := Site + (NewPath + tail);
    assert EndsWith(one, "/");
    assert one == Site + NewPath + tail;
  }

  /** The canonical link holds the old path again, one segment further in. */
  lemma SecondPass(name: string)
    requires 'p' !in name
    ensures var tail := "view/" + name + "/";
      NormalizeUrl(Some(Site + NewPath + tail)) == Some(Site + "/solutions" + NewPath + tail)
  {
    var tail := "view/" + name + "/";
    var pre := Site + "/solutions";
    var one := Site + NewPath + tail;
    var two := pre + (NewPath + tail);
    SolutionsSplit(tail);
    OnSiteAbsolute(NewPath + tail);
    SolutionsNoStart();
    RewriteAfter(pre, name);
    SlashKept(pre + NewPath, name);
    assert one == Site + (NewPath + tail);
    assert two == pre + NewPath + tail;
  }

  /** The new path is the old one under "/solutions". */
  lemma SolutionsSplit(rest: string)
    ensures Site + NewPath + rest == (Site + "/solutions") + (OldPath + rest)
  {
  }

  /** A link on the site is already absolute. */
  lemma OnSiteAbsolute(rest: string)
    ensures Absolute(Site + rest) == Site + rest
  {
    assert (Site + rest)[..4] == "http";
  }

  /** A link ending in "/" gains no second one. */
  lemma SlashKept(pre: string, name: string)
    ensures WithSlash(pre + ("view/" + name + "/")) == pre + ("view/" + name + "/")
  {
    var u := pre + ("view/" + name + "/");
    assert u[|u| - 1] == '/';
  }

  lemma SolutionsNoStart()
    ensures NoStartWithin(Site + "/solutions", OldPath)
  {
  }

  /** Behind a prefix where the old path cannot start, a product link that
      holds the old path once is rewritten at that one place. */
  lemma RewriteAfter(pre: string, name: string)
    requires NoStartWithin(pre, OldPath) && 'p' !in name
    ensures var tail := "view/" + name + "/";
      Canonical(pre + (OldPath + tail)) == pre + (NewPath + tail)
  {
    var tail := "view/" + name + "/";
    ProductLink(pre, tail);
    ReplaceSkip(pre, OldPath + tail, OldPath, NewPath);
    RewriteHead(name);
  }

  /** A link holding the old path once, behind a prefix where it cannot
      start, has that one occurrence moved under "/solutions" when it is a
      product page link, and is kept otherwise. */
  lemma CanonicalRewrite(pre: string, rest: string)
    requires NoStartWithin(pre, OldPath) && !Contains(rest, OldPath)
    ensures Canonical(pre + OldPath + rest)
      == if Contains(pre + OldPath + rest, ViewMarker) then pre + NewPath + rest else pre + OldPath + rest
  {
    if Contains(pre + OldPath + rest, ViewMarker) {
      ReplaceOnce(pre, rest, OldPath, NewPath);
    }
  }

  /** The old path followed by "view/" is a product page link. */
  lemma ProductLink(pre: string, tail: string)
    requires StartsWith(tail, "view/")
    ensures Contains(pre + (OldPath + tail), ViewMarker)
  {
    var full := pre + (OldPath + tail);
    assert OccursAt(full, ViewMarker, |pre| + 9) by {
      assert full[|pre| + 9..|pre| + 9 + |ViewMarker|] == ViewMarker;
    }
    ContainsWitness(full, ViewMarker, |pre| + 9);
  }

  /** A link that starts with the old path and has no further 'p' is
      rewritten at its head only. */
  lemma RewriteHead(name: string)
    requires 'p' !in name
    ensures var tail := "view/" + name + "/";
      Replace(OldPath + tail, OldPath, NewPath) == NewPath + tail
  {
    var tail := "view/" + name + "/";
    var h := OldPath + tail;
    assert StartsWith(h, OldPath) by {
      assert h[..|OldPath|] == OldPath;
    }
    assert h[|OldPath|..] == tail;
    assert 'p' !in tail;
    AbsentChar(tail, OldPath, 'p');
    ReplaceAbsent(tail, OldPath, NewPath);
  }

  // ------------------------------------------------------------ is_browser_warning

  const WarningKeywords: seq<string> := [
    "browser", "upgrade", "modern browser", "outdated",
    "cookie", "privacy", "experience", "guarantee",
    "javascript", "enable", "disable", "version"
  ]

  /** `is_browser_warning(text)`: at least two of the banner keywords occur. */
  function IsBrowserWarning(text: string): (r: bool)
    ensures text == "" ==> !r
    ensures r <==> text != "" && |OccurringSet(WarningKeywords, Lower(text))| >= 2
  {
    WarningKeywordsDistinct();
    CountIsSetSize(WarningKeywords, Lower(text));
    if text == "" then false else CountOccurring(WarningKeywords, Lower(text)) >= 2
  }

  /** No banner keyword is listed twice. */
  lemma WarningKeywordsDistinct()
    ensures forall i, j :: 0 <= i < j < |WarningKeywords| ==> WarningKeywords[i] != WarningKeywords[j]
  {
  }

  /** Appending text never turns a banner into a non-banner. */
  lemma BrowserWarningMonotone(a: string, b: string)
    requires IsBrowserWarning(a)
    ensures IsBrowserWarning(a + b)
  {
    LowerAppend(a, b);
    CountGrowsWithText(WarningKeywords, Lower(a), Lower(b));
  }

  /** "modern browser" counts twice, since "browser" is also a keyword. */
  lemma ModernBrowserWarns(text: string)
    requires Contains(Lower(text), "modern browser")
    ensures IsBrowserWarning(text)
  {
    assert OccursAt("modern browser", "browser", 7) by {
      assert "modern browser"[7..14] == "browser";
    }
    ContainsWitness("modern browser", "browser", 7);
    ContainsTrans(Lower(text), "modern browser", "browser");
    var hits := OccurringSet(WarningKeywords, Lower(text));
    assert "browser" in hits && "modern browser" in hits;
    assert {"browser", "modern browser"} <= hits;
    assert |{"browser", "modern browser"}| == 2;
    SubsetSize({"browser", "modern browser"}, hits);
  }

  // ------------------------------------------------------------ extract_test_type

  /** `type_patterns`, in the dictionary's order. */
  const TypePatterns: seq<Tagged> := [
    Tagged("K", ["programming", "java", "python", "sql", "technical", "code", "software", "framework", "language", "knowledge", "skill"]),
    Tagged("P", ["personality", "behavior", "communication", "interpersonal", "collaborat", "teamwork", "trait", "psychometric"]),
    Tagged("A", ["aptitude", "cognitive", "numerical", "verbal", "logical", "reasoning", "ability"]),
    Tagged("S", ["simulation", "exercise", "scenario", "role-play", "in-basket"]),
    Tagged("B", ["situational", "judgment", "biodata"]),
    Tagged("C", ["competency", "competence"])
  ]

  const TypeCodes: seq<string> := ["K", "P", "A", "S", "B", "C"]

  /** The lower-cased "description name" text both classifiers read. */
  function PageText(description: string, name: string): string {
    Lower(description + " " + name)
  }

  /** `extract_test_type(description, name)`: the codes whose keywords
      occur, in table order, or `['K']` when none does. */
  function ExtractTestType(description: string, name: string): (r: seq<string>)
    ensures |r| > 0
    ensures SubsequenceOf(r, TypeCodes)
    ensures Distinct(r)
    ensures "D" !in r && "E" !in r
  {
    var found := Matching(TypePatterns, PageText(description, name));
    FoundCodes(PageText(description, name));
    TypeCodesShape();
    if |found| > 0 then found else ["K"]
  }

  /** Some keyword of `code`'s row occurs in `text`. */
  predicate Signals(code: string, text: string) {
    exists i :: 0 <= i < |TypePatterns| && TypePatterns[i].tag == code
      && AnyOccurs(TypePatterns[i].keywords, text)
  }

  /** A code is reported exactly when one of its keywords occurs, and K
      also when no code's keyword occurs. */
  lemma ExtractTestTypeMembers(description: string, name: string, code: string)
    ensures var text := PageText(description, name);
      code in ExtractTestType(description, name) <==>
        Signals(code, text) || (code == "K" && |Matching(TypePatterns, text)| == 0)
  {
  }

  /** No keyword at all means no match at all. */
  lemma NothingFound(text: string)
    ensures |Matching(TypePatterns, text)| == 0 <==>
      forall i :: 0 <= i < |TypePatterns| ==> !AnyOccurs(TypePatterns[i].keywords, text)
  {
    MatchingEmpty(TypePatterns, text);
  }

  /** The matched codes before the fallback. */
  lemma FoundCodes(text: string)
    ensures var found := Matching(TypePatterns, text);
      && SubsequenceOf(found, TypeCodes)
      && Distinct(found)
      && "D" !in found && "E" !in found
  {
    TypeCodesShape();
    MatchingWithin(TypePatterns, text);
  }

  lemma TypeCodesShape()
    ensures Tags(TypePatterns) == TypeCodes
    ensures Distinct(TypeCodes)
    ensures SubsequenceOf(["K"], TypeCodes)
    ensures Distinct(["K"])
    ensures "D" !in TypeCodes && "E" !in TypeCodes
  {
    assert TypeCodes[1..][1..][1..][1..][1..][1..] == [];
  }

  // ------------------------------------------------------------ extract_duration

  /** The pattern list of `extract_duration`, in source order. */
  const PageDurationPatterns: seq<DurationPattern> := [
    NumberUnit("min", 1),
    NumberUnit("minutes", 1),
    NumberUnit("hour", 60),
    NumberUnit("hours", 60),
    NumberUnit("hr", 60)
  ]

  lemma PagePatternsWellFormed()
    ensures WellFormed(PageDurationPatterns)
  {
  }

  /** `extract_duration(description, name)`: the first numeric pattern that
      matches, else 60 minutes for exercise-like products, else 30. */
  function ExtractDuration(description: string, name: string): (r: nat)
    ensures FirstDuration(PageText(description, name), PageDurationPatterns).None? ==>
      (r == 60 <==> AnyOccurs(["simulation", "exercise", "scenario"], PageText(description, name)))
    ensures FirstDuration(PageText(description, name), PageDurationPatterns).None? ==> (r == 60 || r == 30)
  {
    var text := PageText(description, name);
    PagePatternsWellFormed();
    match FirstDuration(text, PageDurationPatterns)
    case Some(n) => n
    case None =>
      if AnyOccurs(["simulation", "exercise", "scenario"], text) then 60
      else if AnyOccurs(["personality", "behavior", "cognitive"], text) then 30
      else 30
  }

  /** What the pattern list amounts to: "minutes" and "hours" are shadowed
      by "min" and "hour", while "hr" is a unit of its own. */
  lemma ExtractDurationEffective(description: string, name: string)
    ensures var text := PageText(description, name);
      ExtractDuration(description, name) ==
        match NumberBefore(text, "min")
        case Some(n) => n
        case None =>
          match NumberBefore(text, "hour")
          case Some(n) => n * 60
          case None =>
            match NumberBefore(text, "hr")
            case Some(n) => n * 60
            case None =>
              if AnyOccurs(["simulation", "exercise", "scenario"], text) then 60 else 30
  {
    var text := PageText(description, name);
    PagePatternsWellFormed();
    LongerUnitShadowed(text, "min", "minutes");
    LongerUnitShadowed(text, "hour", "hours");
    var ps := PageDurationPatterns;
    assert ps[1..][1..][1..][1..][1..] == [];
    assert ps[1..] == ps[1..2] + ps[2..];
    assert ps[3..] == ps[3..4] + ps[4..];
  }
}
