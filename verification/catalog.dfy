/** The fixed lookup tables of Experiments/rag.py, the catalog record the
    vector store hands back, and the parsing of its comma-separated
    `test_type` field. */
module Catalog {
  import opened Base
  import opened Text

  /** One row of a keyword table: a tag and the phrases that signal it. */
  datatype Tagged = Tagged(tag: string, keywords: seq<string>)

  /** `SKILL_KEYWORDS`, in the dictionary's insertion order. */
  const SkillKeywords: seq<Tagged> := [
    Tagged("sql", ["sql", "database", "mysql", "postgresql", "oracle", "query", "rdbms"]),
    Tagged("excel", ["excel", "spreadsheet", "pivot", "vlookup"]),
    Tagged("python", ["python", "pandas", "numpy", "django", "flask"]),
    Tagged("java", ["java", "j2ee", "jdk", "spring", "hibernate", "javafx"]),
    Tagged("javascript", ["javascript", "js", "node.js", "react", "angular", "vue"]),
    Tagged("testing", ["testing", "qa", "quality assurance", "selenium", "test case"]),
    Tagged("cloud", ["cloud", "aws", "azure", "gcp", "amazon web services"]),
    Tagged("data_analysis", ["data analysis", "analytics", "statistics", "bi", "business intelligence"]),
    Tagged("web", ["html", "css", "frontend", "backend", "web development"]),
    Tagged("sales", ["sales", "selling", "salesforce", "customer acquisition", "revenue"]),
    Tagged("marketing", ["marketing", "brand", "campaign", "digital marketing", "seo", "social media"]),
    Tagged("communication", ["communication", "english", "verbal", "written", "presentation"]),
    Tagged("leadership", ["leadership", "management", "lead", "manager", "supervisor"]),
    Tagged("admin", ["admin", "administrative", "clerical", "secretarial", "office"]),
    Tagged("banking", ["bank", "financial", "finance", "banking", "accounting", "teller"]),
    Tagged("customer_service", ["customer service", "support", "helpdesk", "client service"]),
    Tagged("analyst", ["analyst", "analysis", "reporting", "metrics", "kpi"]),
    Tagged("developer", ["developer", "programmer", "coder", "software engineer"]),
    Tagged("manager", ["manager", "management", "supervisor", "director"]),
    Tagged("consultant", ["consultant", "consulting", "advisor", "advisory"]),
    Tagged("content", ["content", "writer", "writing", "copy", "editor", "seo"])
  ]

  /** The keywords of `tag` in `table`, or none for an unknown tag
      (`if skill in SKILL_KEYWORDS`). */
  function KeywordsOf(table: seq<Tagged>, tag: string): (ks: seq<string>)
    ensures (forall i :: 0 <= i < |table| ==> table[i].tag != tag) ==> ks == []
  {
    if |table| == 0 then []
    else if table[0].tag == tag then table[0].keywords
    else KeywordsOf(table[1..], tag)
  }

  /** The three experience levels, in the order `EXPERIENCE_LEVELS` lists them. */
  datatype Level = Entry | Mid | Senior

  const LevelOrder: seq<Level> := [Entry, Mid, Senior]

  /** `EXPERIENCE_LEVELS[level]`. */
  function Indicators(level: Level): seq<string> {
    match level
    case Entry => ["entry", "new", "graduate", "fresher", "junior", "0-2", "0-1", "beginner", "basic", "fundamental"]
    case Mid => ["mid", "intermediate", "3-5", "2-4", "experienced"]
    case Senior => ["senior", "lead", "principal", "expert", "advanced", "5+", "6+", "7+", "8+", "10+"]
  }

  lemma IndicatorsDistinct(level: Level)
    ensures Distinct(Indicators(level))
  {
  }

  function Tags(table: seq<Tagged>): (r: seq<string>)
    ensures |r| == |table|
    ensures forall i :: 0 <= i < |table| ==> r[i] == table[i].tag
  {
    seq(|table|, i requires 0 <= i < |table| => table[i].tag)
  }

  /** `a` can be obtained from `b` by deleting elements. */
  predicate SubsequenceOf<T(==)>(a: seq<T>, b: seq<T>)
    decreases |b|
  {
    |a| == 0 || (|b| > 0 && ((a[0] == b[0] && SubsequenceOf(a[1..], b[1..])) || SubsequenceOf(a, b[1..])))
  }

  lemma {:induction false} SubsequenceMembers<T>(a: seq<T>, b: seq<T>)
    requires SubsequenceOf(a, b)
    ensures forall x :: x in a ==> x in b
    decreases |b|
  {
    if |a| > 0 {
      if a[0] == b[0] && SubsequenceOf(a[1..], b[1..]) {
        SubsequenceMembers(a[1..], b[1..]);
        assert forall x :: x in a ==> x == a[0] || x in a[1..];
      } else {
        SubsequenceMembers(a, b[1..]);
      }
    }
  }

  /** A subsequence of a duplicate-free sequence is duplicate-free. */
  lemma {:induction false} SubsequenceDistinct<T>(a: seq<T>, b: seq<T>)
    requires SubsequenceOf(a, b) && Distinct(b)
    ensures Distinct(a)
    decreases |b|
  {
    if |a| > 0 {
      assert Distinct(b[1..]);
      if a[0] == b[0] && SubsequenceOf(a[1..], b[1..]) {
        SubsequenceDistinct(a[1..], b[1..]);
        SubsequenceMembers(a[1..], b[1..]);
        assert b[0] !in b[1..];
        forall i, j | 0 <= i < j < |a| ensures a[i] != a[j] {
          if i == 0 {
            assert a[j] == a[1..][j - 1];
            assert a[j] in a[1..];
          } else {
            assert a[i] == a[1..][i - 1] && a[j] == a[1..][j - 1];
          }
        }
      } else {
        SubsequenceDistinct(a, b[1..]);
      }
    }
  }

  /** The tags of `table`, in table order, that have a keyword occurring in
      `text`: `[tag for tag, kws in table.items() if any(k in text for k in kws)]`. */
  function Matching(table: seq<Tagged>, text: string): (r: seq<string>)
    ensures SubsequenceOf(r, Tags(table))
    ensures forall t :: t in r <==>
      exists i :: 0 <= i < |table| && table[i].tag == t && AnyOccurs(table[i].keywords, text)
    decreases |table|
  {
    if |table| == 0 then []
    else
      var rest := Matching(table[1..], text);
      assert Tags(table) == [table[0].tag] + Tags(table[1..]);
      assert forall i :: 1 <= i < |table| ==> table[i] == table[1..][i - 1];
      if AnyOccurs(table[0].keywords, text) then [table[0].tag] + rest else rest
  }

  /** With distinct tags, the matching tags are distinct tags of the
      table. */
  lemma MatchingWithin(table: seq<Tagged>, text: string)
    requires Distinct(Tags(table))
    ensures Distinct(Matching(table, text))
    ensures forall t :: t in Matching(table, text) ==> t in Tags(table)
  {
    SubsequenceMembers(Matching(table, text), Tags(table));
    SubsequenceDistinct(Matching(table, text), Tags(table));
  }

  /** No tag matches exactly when no keyword of any row occurs. */
  lemma MatchingEmpty(table: seq<Tagged>, text: string)
    ensures |Matching(table, text)| == 0 <==>
      forall i :: 0 <= i < |table| ==> !AnyOccurs(table[i].keywords, text)
  {
    var found := Matching(table, text);
    if |found| > 0 {
      assert found[0] in found;
    }
  }

  /** The catalog record stored with every embedding, as the vector store
      returns it (all fields are written by ingestion). */
  datatype Assessment = Assessment(
    name: string,
    url: string,
    description: string,
    duration: int,
    testType: string,
    adaptiveSupport: string,
    remoteSupport: string,
    skills: string)

  /** A single code as it appears between commas in `test_type`. */
  predicate CleanCode(c: string) {
    |c| > 0 && IsStripped(c) && ',' !in c
  }

  /** The non-empty items, in order (`[t for t in items if t]`). */
  function NonEmpty(items: seq<string>): (r: seq<string>)
    ensures forall i :: 0 <= i < |r| ==> |r[i]| > 0
    ensures forall x :: x in r <==> x in items && |x| > 0
  {
    if |items| == 0 then []
    else (if |items[0]| > 0 then [items[0]] else []) + NonEmpty(items[1..])
  }

  /** `[t.strip() for t in pieces if t.strip()]`. */
  function StripNonEmpty(pieces: seq<string>): (r: seq<string>)
    ensures forall i :: 0 <= i < |r| ==> |r[i]| > 0 && IsStripped(r[i])
    ensures |r| <= |pieces|
  {
    if |pieces| == 0 then []
    else
      var t := Strip(pieces[0]);
      var rest := StripNonEmpty(pieces[1..]);
      if |t| > 0 then StrippedCons(t, rest); [t] + rest else rest
  }

  /** Prepending a stripped non-empty piece keeps every piece so. */
  lemma StrippedCons(t: string, rest: seq<string>)
    requires |t| > 0 && IsStripped(t)
    requires forall i :: 0 <= i < |rest| ==> |rest[i]| > 0 && IsStripped(rest[i])
    ensures forall i :: 0 <= i < |[t] + rest| ==> |([t] + rest)[i]| > 0 && IsStripped(([t] + rest)[i])
  {
    ConsIndex(t, rest);
  }

  /** `[t.strip() for t in s.split(',') if t.strip()]`: the codes of a
      `test_type` string such as "K, P". */
  function ParseCodes(s: string): (r: seq<string>)
    ensures forall i :: 0 <= i < |r| ==> CleanCode(r[i])
  {
    var pieces := Split(s, ',');
    var r := StripNonEmpty(pieces);
    assert forall i :: 0 <= i < |r| ==> ',' !in r[i] by {
      StripKeepsCommaFree(pieces);
    }
    r
  }

  lemma {:induction false} StripKeepsCommaFree(pieces: seq<string>)
    requires forall i :: 0 <= i < |pieces| ==> ',' !in pieces[i]
    ensures forall i :: 0 <= i < |StripNonEmpty(pieces)| ==> ',' !in StripNonEmpty(pieces)[i]
    decreases |pieces|
  {
    if |pieces| > 0 {
      var t := Strip(pieces[0]);
      var rest := StripNonEmpty(pieces[1..]);
      TailIndex(pieces);
      StripKeepsCommaFree(pieces[1..]);
      assert ',' !in t;
      if |t| > 0 {
        ConsIndex(t, rest);
      }
    }
  }

  /** `[t.strip() for t in s.split(',')]`, empty pieces kept. */
  function CodeList(s: string): (r: seq<string>)
    ensures |r| >= 1
    ensures forall i :: 0 <= i < |r| ==> ',' !in r[i] && IsStripped(r[i])
  {
    StripAll(Split(s, ','))
  }

  /** The parsed codes are exactly the non-empty entries of the code list. */
  lemma CodeListParsed(s: string)
    ensures NonEmpty(CodeList(s)) == ParseCodes(s)
  {
    StripAllDrop(Split(s, ','));
  }

  /** Every piece stripped. */
  function StripAll(pieces: seq<string>): (r: seq<string>)
    ensures |r| == |pieces|
    ensures forall i :: 0 <= i < |r| ==> r[i] == Strip(pieces[i])
    decreases |pieces|
  {
    if |pieces| == 0 then []
    else
      var rest := StripAll(pieces[1..]);
      ConsIndex(Strip(pieces[0]), rest);
      [Strip(pieces[0])] + rest
  }

  /** Stripping every piece and then dropping the empty ones is the same as
      keeping the non-empty stripped pieces. */
  lemma {:induction false} StripAllDrop(pieces: seq<string>)
    ensures NonEmpty(StripAll(pieces)) == StripNonEmpty(pieces)
    decreases |pieces|
  {
    if |pieces| > 0 {
      var t := Strip(pieces[0]);
      var rest := StripAll(pieces[1..]);
      StripAllDrop(pieces[1..]);
      assert ([t] + rest)[1..] == rest;
    }
  }

  /** A space after a comma disappears when the pieces are stripped. */
  lemma LeadingSpaceIgnored(y: string)
    ensures StripNonEmpty(Split(" " + y, ',')) == StripNonEmpty(Split(y, ','))
  {
    var tail := Split(y, ',');
    assert (" " + y)[1..] == y;
    var pieces := Split(" " + y, ',');
    assert pieces == [" " + tail[0]] + tail[1..];
    assert (" " + tail[0])[1..] == tail[0];
    assert Strip(" " + tail[0]) == Strip(tail[0]);
    assert pieces[1..] == tail[1..];
  }

  lemma StripNonEmptyClean(x: string, rest: seq<string>)
    requires CleanCode(x)
    ensures StripNonEmpty([x] + rest) == [x] + StripNonEmpty(rest)
  {
    StripStripped(x);
    assert ([x] + rest)[1..] == rest;
  }

  lemma JoinStep(xs: seq<string>)
    requires |xs| >= 2
    ensures Join(", ", xs) == xs[0] + [','] + (" " + Join(", ", xs[1..]))
  {
    var a, j := xs[0], Join(", ", xs[1..]);
    assert Join(", ", xs) == a + ", " + j;
    assert ", " == [','] + " ";
    Regroup(a, [','], " ", j);
  }

  /** One clean code followed by ", " and the rest parses as that code
      followed by the parse of the rest. */
  lemma ParseCodesCons(x: string, rest: string)
    requires CleanCode(x)
    ensures StripNonEmpty(Split(x + [','] + (" " + rest), ',')) == [x] + StripNonEmpty(Split(rest, ','))
  {
    SplitAfterPiece(x, " " + rest, ',');
    LeadingSpaceIgnored(rest);
    StripNonEmptyClean(x, Split(" " + rest, ','));
  }

  lemma ParseJoinStep(xs: seq<string>)
    requires |xs| >= 2 && CleanCode(xs[0])
    ensures StripNonEmpty(Split(Join(", ", xs), ',')) ==
      [xs[0]] + StripNonEmpty(Split(Join(", ", xs[1..]), ','))
  {
    JoinStep(xs);
    ParseCodesCons(xs[0], Join(", ", xs[1..]));
  }

  lemma ParseCodesSingle(x: string)
    requires CleanCode(x)
    ensures StripNonEmpty(Split(Join(", ", [x]), ',')) == [x]
  {
    assert Join(", ", [x]) == x;
    SplitPiece(x, ',');
    StripNonEmptyClean(x, []);
    assert [x] + [] == [x];
  }

  lemma {:induction false} ParseCodesOfJoined(xs: seq<string>)
    requires |xs| >= 1
    requires forall i :: 0 <= i < |xs| ==> CleanCode(xs[i])
    ensures StripNonEmpty(Split(Join(", ", xs), ',')) == xs
    decreases |xs|
  {
    if |xs| == 1 {
      assert xs == [xs[0]];
      ParseCodesSingle(xs[0]);
    } else {
      ParseCodesOfJoined(xs[1..]);
      ParseJoinStep(xs);
      HeadTail(xs);
    }
  }

  /** Joining clean codes with ", " (as ingestion does) and parsing them
      back (as selection and formatting do) gives the codes back. */
  lemma CodesRoundTrip(xs: seq<string>)
    requires forall i :: 0 <= i < |xs| ==> CleanCode(xs[i])
    ensures ParseCodes(Join(", ", xs)) == xs
  {
    if |xs| > 0 {
      ParseCodesOfJoined(xs);
    } else {
      ParseCodesNothing();
    }
  }

  /** An empty `test_type` has no codes. */
  lemma ParseCodesNothing()
    ensures ParseCodes("") == []
  {
    assert Split("", ',') == [""];
    assert Strip("") == "";
  }
}
