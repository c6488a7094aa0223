/** The Python `str` operations the program relies on, over ASCII:
    `lower`, `in` (substring), `startswith`/`endswith`, `strip`,
    `split(sep)`, `split()`, `join` and `replace`. */
module Text {
  import opened Base

  /** `str.isspace` restricted to ASCII: space, \t \n \v \f \r and the
      four information separators \x1c-\x1f. */
  predicate IsSpace(c: char) {
    c == ' ' || (9 <= c as int <= 13) || (28 <= c as int <= 31)
  }

  predicate IsDigit(c: char) {
    '0' <= c <= '9'
  }

  function LowerChar(c: char): (d: char)
    ensures 'A' <= c <= 'Z' ==> d as int == c as int + 32
    ensures !('A' <= c <= 'Z') ==> d == c
  {
    if 'A' <= c <= 'Z' then (c as int + 32) as char else c
  }

  /** `str.lower()` on ASCII letters; every other character is kept. */
  function Lower(s: string): (r: string)
    ensures |r| == |s|
    ensures forall i :: 0 <= i < |s| ==> r[i] == LowerChar(s[i])
  {
    seq(|s|, i requires 0 <= i < |s| => LowerChar(s[i]))
  }

  lemma LowerAppend(a: string, b: string)
    ensures Lower(a + b) == Lower(a) + Lower(b)
  {
  }

  predicate StartsWith(s: string, p: string) {
    |p| <= |s| && s[..|p|] == p
  }

  predicate EndsWith(s: string, p: string) {
    |p| <= |s| && s[|s| - |p|..] == p
  }

  /** Python's `sub in s`, scanning start positions left to right. */
  predicate Contains(s: string, sub: string)
    decreases |s|
  {
    StartsWith(s, sub) || (|s| > 0 && Contains(s[1..], sub))
  }

  ghost predicate OccursAt(s: string, sub: string, i: int) {
    0 <= i && i + |sub| <= |s| && s[i..i + |sub|] == sub
  }

  /** The scanning definition agrees with "some window of `s` equals `sub`". */
  lemma ContainsIff(s: string, sub: string)
    ensures Contains(s, sub) <==> exists i :: OccursAt(s, sub, i)
  {
    if Contains(s, sub) {
      ContainsOccurs(s, sub);
    } else if exists i :: OccursAt(s, sub, i) {
      var i :| OccursAt(s, sub, i);
      ContainsWitness(s, sub, i);
    }
  }

  /** A scan that succeeds has found a window equal to `sub`. */
  lemma {:induction false} ContainsOccurs(s: string, sub: string)
    requires Contains(s, sub)
    ensures exists i :: OccursAt(s, sub, i)
    decreases |s|
  {
    if StartsWith(s, sub) {
      assert OccursAt(s, sub, 0);
    } else {
      ContainsOccurs(s[1..], sub);
      var i :| OccursAt(s[1..], sub, i);
      assert s[i + 1..i + 1 + |sub|] == s[1..][i..i + |sub|];
      assert OccursAt(s, sub, i + 1);
    }
  }

  /** A window equal to `sub` at position `i` is found by the scan. */
  lemma {:induction false} ContainsWitness(s: string, sub: string, i: int)
    requires OccursAt(s, sub, i)
    ensures Contains(s, sub)
    decreases i
  {
    if i > 0 {
      assert s[1..][i - 1..i - 1 + |sub|] == s[i..i + |sub|];
      ContainsWitness(s[1..], sub, i - 1);
    } else {
      assert StartsWith(s, sub);
    }
  }

  /** Appending text on either side never removes an occurrence. */
  lemma ContainsExtend(a: string, b: string, c: string, sub: string)
    requires Contains(b, sub)
    ensures Contains(a + b + c, sub)
  {
    ContainsIff(b, sub);
    var i :| OccursAt(b, sub, i);
    assert (a + b + c)[|a| + i..|a| + i + |sub|] == b[i..i + |sub|];
    ContainsWitness(a + b + c, sub, |a| + i);
  }

  lemma ContainsPrefixOf(a: string, b: string, sub: string)
    requires Contains(a, sub)
    ensures Contains(a + b, sub)
  {
    ContainsExtend([], a, b, sub);
    assert [] + a + b == a + b;
  }

  lemma ContainsSuffixOf(a: string, b: string, sub: string)
    requires Contains(b, sub)
    ensures Contains(a + b, sub)
  {
    ContainsExtend(a, b, [], sub);
    assert a + b + [] == a + b;
  }

  /** A character that `s` lacks rules out every `sub` that has it. */
  lemma AbsentChar(s: string, sub: string, c: char)
    requires c in sub && c !in s
    ensures !Contains(s, sub)
  {
    ContainsIff(s, sub);
    var j :| 0 <= j < |sub| && sub[j] == c;
    forall i | 0 <= i ensures !OccursAt(s, sub, i) {
      if i + |sub| <= |s| {
        assert s[i..i + |sub|][j] == s[i + j] != c;
      }
    }
  }

  /** An occurrence in `a + " " + b` found in neither `a` nor `b` must
      straddle the joining space, so `sub` itself holds a space. */
  lemma StraddleNeedsSpace(a: string, b: string, sub: string)
    requires Contains(a + " " + b, sub)
    requires !Contains(a, sub) && !Contains(b, sub)
    ensures ' ' in sub
  {
    var t := a + " " + b;
    ContainsOccurs(t, sub);
    var i :| OccursAt(t, sub, i);
    if i + |sub| <= |a| {
      OccursLeftOfSpace(a, b, sub, i);
    } else if i >= |a| + 1 {
      OccursRightOfSpace(a, b, sub, i);
    } else {
      assert sub[|a| - i] == t[|a|] == ' ';
    }
  }

  lemma OccursLeftOfSpace(a: string, b: string, sub: string, i: nat)
    requires OccursAt(a + " " + b, sub, i) && i + |sub| <= |a|
    ensures Contains(a, sub)
  {
    SliceLeft(a + " ", b, i, i + |sub|);
    SliceLeft(a, " ", i, i + |sub|);
    ContainsWitness(a, sub, i);
  }

  lemma OccursRightOfSpace(a: string, b: string, sub: string, i: nat)
    requires OccursAt(a + " " + b, sub, i) && i >= |a| + 1
    ensures Contains(b, sub)
  {
    SliceRight(a + " ", b, i, i + |sub|);
    ContainsWitness(b, sub, i - |a| - 1);
  }

  // ---------------------------------------------------------------- strip

  function TrimLeft(s: string): (r: string)
    ensures |r| <= |s| && r == s[|s| - |r|..]
    ensures |r| > 0 ==> !IsSpace(r[0])
    ensures forall i :: 0 <= i < |s| - |r| ==> IsSpace(s[i])
  {
    if |s| > 0 && IsSpace(s[0]) then TrimLeft(s[1..]) else s
  }

  function TrimRight(s: string): (r: string)
    ensures |r| <= |s| && r == s[..|r|]
    ensures |r| > 0 ==> !IsSpace(r[|r| - 1])
    ensures forall i :: |r| <= i < |s| ==> IsSpace(s[i])
  {
    if |s| > 0 && IsSpace(s[|s| - 1]) then TrimRight(s[..|s| - 1]) else s
  }

  /** `str.strip()`: drop leading and trailing whitespace. */
  function Strip(s: string): (r: string)
    ensures |r| <= |s|
    ensures |r| > 0 ==> !IsSpace(r[0]) && !IsSpace(r[|r| - 1])
    ensures forall c :: c in r ==> c in s
  {
    TrimRight(TrimLeft(s))
  }

  predicate IsStripped(s: string) {
    |s| > 0 ==> !IsSpace(s[0]) && !IsSpace(s[|s| - 1])
  }

  lemma StripStripped(s: string)
    requires IsStripped(s)
    ensures Strip(s) == s
  {
  }

  lemma StripIdle(s: string)
    ensures IsStripped(s) ==> Strip(s) == s
  {
    if IsStripped(s) {
      StripStripped(s);
    }
  }

  lemma StripLeadingSpace(s: string)
    requires IsStripped(s)
    ensures Strip(" " + s) == s
  {
    assert (" " + s)[1..] == s;
  }

  // ---------------------------------------------------------------- split / join

  /** `s.split(sep)` for a one-character separator: the pieces between
      separators, empty ones included, so there is always at least one. */
  function Split(s: string, sep: char): (r: seq<string>)
    ensures |r| >= 1
    ensures forall i :: 0 <= i < |r| ==> sep !in r[i]
    decreases |s|
  {
    if |s| == 0 then [""]
    else
      var rest := Split(s[1..], sep);
      if s[0] == sep then [""] + rest
      else [[s[0]] + rest[0]] + rest[1..]
  }

  /** `sep.join(xs)`. */
  function Join(sep: string, xs: seq<string>): (r: string)
    decreases |xs|
  {
    if |xs| == 0 then ""
    else if |xs| == 1 then xs[0]
    else xs[0] + sep + Join(sep, xs[1..])
  }

  /** Splitting undoes joining with the same separator. */
  lemma {:induction false} SplitJoin(s: string, sep: char)
    ensures Join([sep], Split(s, sep)) == s
    decreases |s|
  {
    if |s| > 0 {
      SplitJoin(s[1..], sep);
      var rest := Split(s[1..], sep);
      if s[0] == sep {
        assert [s[0]] + s[1..] == s;
      } else {
        var tail := rest[1..];
        if |tail| == 0 {
          assert [s[0]] + s[1..] == s;
        } else {
          assert rest == [rest[0]] + tail;
          assert Join([sep], rest) == rest[0] + [sep] + Join([sep], tail);
          assert [s[0]] + s[1..] == s;
          assert Join([sep], Split(s, sep)) == [s[0]] + rest[0] + [sep] + Join([sep], tail);
        }
      }
    }
  }

  /** Splitting a separator-free piece followed by the separator peels off
      exactly that piece. */
  lemma {:induction false} SplitAfterPiece(x: string, rest: string, sep: char)
    requires sep !in x
    ensures Split(x + [sep] + rest, sep) == [x] + Split(rest, sep)
    decreases |x|
  {
    if |x| == 0 {
      assert x + [sep] + rest == [sep] + rest;
      assert ([sep] + rest)[1..] == rest;
    } else {
      SplitAfterPiece(x[1..], rest, sep);
      assert (x + [sep] + rest)[1..] == x[1..] + [sep] + rest;
      assert [x[0]] + x[1..] == x;
    }
  }

  lemma {:induction false} SplitPiece(x: string, sep: char)
    requires sep !in x
    ensures Split(x, sep) == [x]
    decreases |x|
  {
    if |x| > 0 {
      SplitPiece(x[1..], sep);
      assert [x[0]] + x[1..] == x;
    }
  }

  /** Joining separator-free pieces and splitting again gives them back. */
  lemma {:induction false} JoinSplit(xs: seq<string>, sep: char)
    requires |xs| >= 1
    requires forall i :: 0 <= i < |xs| ==> sep !in xs[i]
    ensures Split(Join([sep], xs), sep) == xs
    decreases |xs|
  {
    if |xs| == 1 {
      SplitPiece(xs[0], sep);
    } else {
      JoinSplit(xs[1..], sep);
      SplitAfterPiece(xs[0], Join([sep], xs[1..]), sep);
    }
  }

  /** Every non-space character of `t` that starts a word. */
  function TakeWord(t: string): (w: string)
    ensures |w| <= |t| && w == t[..|w|]
    ensures forall c :: c in w ==> !IsSpace(c)
    ensures |w| < |t| ==> IsSpace(t[|w|])
    ensures |t| > 0 && !IsSpace(t[0]) ==> |w| > 0
  {
    if |t| == 0 || IsSpace(t[0]) then "" else [t[0]] + TakeWord(t[1..])
  }

  /** A non-empty run of non-space characters. */
  predicate IsWord(w: string) {
    |w| > 0 && forall c :: c in w ==> !IsSpace(c)
  }

  /** `s.split()` with no argument: the maximal runs of non-space
      characters, so no word is empty and none holds a space. */
  function SplitWords(s: string): (r: seq<string>)
    ensures forall i :: 0 <= i < |r| ==> IsWord(r[i])
    decreases |s|
  {
    var t := TrimLeft(s);
    if |t| == 0 then []
    else
      var w := TakeWord(t);
      assert IsWord(w);
      var rest := SplitWords(t[|w|..]);
      ConsIndex(w, rest);
      [w] + rest
  }

  /** `s.replace(target, repl)`: every non-overlapping occurrence of `target`,
      found left to right, is replaced. */
  function Replace(s: string, target: string, repl: string): (r: string)
    requires |target| > 0
    decreases |s|
  {
    if |s| == 0 then ""
    else if StartsWith(s, target) then repl + Replace(s[|target|..], target, repl)
    else [s[0]] + Replace(s[1..], target, repl)
  }

  lemma {:induction false} ReplaceAbsent(s: string, target: string, repl: string)
    requires |target| > 0
    requires !Contains(s, target)
    ensures Replace(s, target, repl) == s
    decreases |s|
  {
    if |s| > 0 {
      ReplaceAbsent(s[1..], target, repl);
      assert [s[0]] + s[1..] == s;
    }
  }

  /** Replacing by something at least as long never shortens the text, and
      replacing an occurring target by something longer lengthens it. */
  lemma {:induction false} ReplaceGrows(s: string, target: string, repl: string)
    requires 0 < |target| <= |repl|
    ensures |Replace(s, target, repl)| >= |s|
    ensures |target| < |repl| && Contains(s, target) ==> |Replace(s, target, repl)| > |s|
    decreases |s|
  {
    if |s| > 0 {
      if StartsWith(s, target) {
        ReplaceGrows(s[|target|..], target, repl);
      } else {
        ReplaceGrows(s[1..], target, repl);
      }
    }
  }

  /** No occurrence of `sub` can start inside `p`, whatever follows it: `p`
      never shows the first two characters of `sub` side by side and does
      not end in its first character. */
  predicate NoStartWithin(p: string, sub: string) {
    && |sub| >= 2
    && (forall i :: 0 <= i < |p| - 1 ==> !(p[i] == sub[0] && p[i + 1] == sub[1]))
    && (|p| > 0 ==> p[|p| - 1] != sub[0])
  }

  lemma NoStartHere(p: string, rest: string, sub: string)
    requires |p| > 0 && NoStartWithin(p, sub)
    ensures !StartsWith(p + rest, sub)
    ensures (p + rest)[1..] == p[1..] + rest
    ensures NoStartWithin(p[1..], sub)
  {
    var s := p + rest;
    if |sub| <= |s| {
      assert s[..|sub|][0] == s[0] == p[0];
      assert s[..|sub|][1] == s[1];
      if |p| >= 2 {
        assert s[1] == p[1];
      }
    }
    assert forall i :: 0 <= i < |p| - 1 ==> p[1..][i] == p[i + 1];
  }

  /** A prefix in which `target` cannot start is copied unchanged. */
  lemma {:induction false} ReplaceSkip(p: string, rest: string, target: string, repl: string)
    requires NoStartWithin(p, target)
    ensures Replace(p + rest, target, repl) == p + Replace(rest, target, repl)
    decreases |p|
  {
    if |p| == 0 {
      assert p + rest == rest;
    } else {
      NoStartHere(p, rest, target);
      ReplaceSkip(p[1..], rest, target, repl);
      assert [p[0]] + (p[1..] + Replace(rest, target, repl)) == p + Replace(rest, target, repl);
    }
  }

  /** A target that occurs once, behind a prefix where it cannot start, is
      replaced at that one place. */
  lemma ReplaceOnce(pre: string, rest: string, target: string, repl: string)
    requires NoStartWithin(pre, target) && !Contains(rest, target)
    ensures Replace(pre + target + rest, target, repl) == pre + repl + rest
  {
    Assoc(pre, target, rest);
    Assoc(pre, repl, rest);
    ReplaceSkip(pre, target + rest, target, repl);
    ReplaceAtHead(target, rest, repl);
  }

  /** A text that starts with the target and holds it nowhere else. */
  lemma ReplaceAtHead(target: string, rest: string, repl: string)
    requires |target| > 0 && !Contains(rest, target)
    ensures Replace(target + rest, target, repl) == repl + rest
  {
    assert StartsWith(target + rest, target) by {
      assert (target + rest)[..|target|] == target;
    }
    assert (target + rest)[|target|..] == rest;
    ReplaceAbsent(rest, target, repl);
  }

  /** Behind a prefix in which `sub` cannot start, `sub` occurs exactly
      when it occurs in the rest. */
  lemma {:induction false} ContainsAfter(p: string, rest: string, sub: string)
    requires NoStartWithin(p, sub)
    ensures Contains(p + rest, sub) <==> Contains(rest, sub)
    decreases |p|
  {
    if |p| == 0 {
      assert p + rest == rest;
    } else {
      NoStartHere(p, rest, sub);
      ContainsAfter(p[1..], rest, sub);
    }
  }

  /** An occurrence of an occurrence is an occurrence. */
  lemma ContainsTrans(s: string, mid: string, sub: string)
    requires Contains(s, mid) && Contains(mid, sub)
    ensures Contains(s, sub)
  {
    ContainsIff(s, mid);
    ContainsIff(mid, sub);
    var i :| OccursAt(s, mid, i);
    var j :| OccursAt(mid, sub, j);
    forall k | 0 <= k < |sub| ensures s[i + j + k] == sub[k] {
      assert mid[j + k] == mid[j..j + |sub|][k];
      assert s[i + (j + k)] == s[i..i + |mid|][j + k];
    }
    assert s[i + j..i + j + |sub|] == sub;
    ContainsWitness(s, sub, i + j);
  }

  /** Number of entries of `keys` that occur in `text`. */
  function CountOccurring(keys: seq<string>, text: string): (n: nat)
    ensures n <= |keys|
  {
    if |keys| == 0 then 0
    else (if Contains(text, keys[0]) then 1 else 0) + CountOccurring(keys[1..], text)
  }

  /** Python's `any(k in text for k in keys)`. */
  predicate AnyOccurs(keys: seq<string>, text: string) {
    exists i :: 0 <= i < |keys| && Contains(text, keys[i])
  }

  lemma {:induction false} CountPositiveIffAny(keys: seq<string>, text: string)
    ensures CountOccurring(keys, text) > 0 <==> AnyOccurs(keys, text)
    decreases |keys|
  {
    if |keys| > 0 {
      CountPositiveIffAny(keys[1..], text);
      if AnyOccurs(keys[1..], text) {
        var i :| 0 <= i < |keys[1..]| && Contains(text, keys[1..][i]);
        assert Contains(text, keys[i + 1]);
      }
      if AnyOccurs(keys, text) && !Contains(text, keys[0]) {
        var i :| 0 <= i < |keys| && Contains(text, keys[i]);
        assert keys[1..][i - 1] == keys[i];
      }
    }
  }

  /** More text can only add occurrences. */
  lemma {:induction false} CountGrowsWithText(keys: seq<string>, a: string, b: string)
    ensures CountOccurring(keys, a) <= CountOccurring(keys, a + b)
    decreases |keys|
  {
    if |keys| > 0 {
      CountGrowsWithText(keys[1..], a, b);
      if Contains(a, keys[0]) {
        ContainsPrefixOf(a, b, keys[0]);
      }
    }
  }

  /** The entries of `keys` that occur in `text`, as a set. */
  function OccurringSet(keys: seq<string>, text: string): set<string> {
    set k | k in keys && Contains(text, k)
  }

  /** With distinct keys the count is the size of the set of occurring keys. */
  lemma {:induction false} CountIsSetSize(keys: seq<string>, text: string)
    requires forall i, j :: 0 <= i < j < |keys| ==> keys[i] != keys[j]
    ensures CountOccurring(keys, text) == |OccurringSet(keys, text)|
    decreases |keys|
  {
    var all := OccurringSet(keys, text);
    if |keys| == 0 {
      assert all == {};
    } else {
      var head, tail := keys[0], keys[1..];
      CountIsSetSize(tail, text);
      var tailSet := OccurringSet(tail, text);
      assert head !in tailSet;
      if Contains(text, head) {
        assert all == tailSet + {head};
      } else {
        assert all == tailSet;
      }
    }
  }
}
