/** Character classes and the two regular-expression operations the program
    relies on: `re.search(r'\b' + re.escape(k) + r'\b', text, re.IGNORECASE)`
    (main.py:166) and `re.sub(r'\s+', ' ', title)` (main.py:195, 223), plus
    the display clean-up of titles in the digest (main.py:269). */
module Text {
  import opened Seqs

  /** `\w` restricted to ASCII: letters, digits and underscore. */
  predicate IsWordChar(c: char)
  {
    ('a' <= c <= 'z') || ('A' <= c <= 'Z') || ('0' <= c <= '9') || c == '_'
  }

  /** `\s` for `str` patterns: the characters for which `str.isspace()` holds. */
  predicate IsSpace(c: char)
  {
    c == ' ' || ('\t' <= c <= '\r') || ('\U{1C}' <= c <= '\U{1F}')
    || c == '\U{85}' || c == '\U{A0}' || c == '\U{1680}'
    || ('\U{2000}' <= c <= '\U{200A}') || c == '\U{2028}' || c == '\U{2029}'
    || c == '\U{202F}' || c == '\U{205F}' || c == '\U{3000}'
  }

  /** Case folding used by IGNORECASE, restricted to ASCII letters. */
  function Fold(c: char): (f: char)
    ensures IsWordChar(f) == IsWordChar(c)
    ensures 'A' <= c <= 'Z' ==> 'a' <= f <= 'z'
  {
    if 'A' <= c <= 'Z' then (c as int + 32) as char else c
  }

  /** Position `i` of `s` holds a word character (out of range: it does not). */
  predicate WordAt(s: string, i: int)
  {
    0 <= i < |s| && IsWordChar(s[i])
  }

  /** `\b` at position `i`: a word character on exactly one side, the ends of
      the text counting as non-word. */
  predicate IsBoundary(s: string, i: int)
  {
    WordAt(s, i - 1) != WordAt(s, i)
  }

  /** Character `k` of `p` equals character `i + k` of `s`, ignoring case. */
  predicate AgreesAt(s: string, p: string, i: int, k: int)
  {
    0 <= i && 0 <= k < |p| && i + k < |s| && Fold(s[i + k]) == Fold(p[k])
  }

  /** `p` occurs at position `i` of `s`, ignoring case. */
  predicate MatchesAt(s: string, p: string, i: int)
  {
    0 <= i && i + |p| <= |s| && forall k :: 0 <= k < |p| ==> AgreesAt(s, p, i, k)
  }

  /** `\b p \b` matches at position `i` of `s`. */
  predicate WholeWordAt(s: string, p: string, i: int)
  {
    MatchesAt(s, p, i) && IsBoundary(s, i) && IsBoundary(s, i + |p|)
  }

  /** Scans the start positions from `from` onwards, as the regex engine does. */
  function SearchFrom(s: string, p: string, from: nat): (found: bool)
    ensures found <==> exists i :: from <= i && WholeWordAt(s, p, i)
    decreases |s| - from
  {
    if from + |p| > |s| then false
    else WholeWordAt(s, p, from) || SearchFrom(s, p, from + 1)
  }

  /** Whether `re.search(r'\b' + re.escape(p) + r'\b', s, re.IGNORECASE)` finds
      a match: some position holds `p` as a whole word, ignoring case. */
  function Search(s: string, p: string): (found: bool)
    ensures found <==> exists i :: WholeWordAt(s, p, i)
  {
    SearchFrom(s, p, 0)
  }

  /** One disagreeing character rules out a match at that position. */
  lemma MismatchRulesOut(s: string, p: string, i: int, k: int)
    requires 0 <= k < |p| && !AgreesAt(s, p, i, k)
    ensures !WholeWordAt(s, p, i)
  {
  }

  /** Text appended after a match keeps it when it starts with a non-word
      character: the closing `\b` still sees a non-word on its right. */
  lemma ExtendRight(s: string, t: string, p: string, i: int)
    requires WholeWordAt(s, p, i)
    requires t == [] || !IsWordChar(t[0])
    ensures WholeWordAt(s + t, p, i)
  {
    var u := s + t;
    forall k | 0 <= k < |p|
      ensures AgreesAt(u, p, i, k)
    {
      assert AgreesAt(s, p, i, k);
    }
    assert WordAt(u, i - 1) == WordAt(s, i - 1);
    assert WordAt(u, i) == WordAt(s, i);
    assert WordAt(u, i + |p| - 1) == WordAt(s, i + |p| - 1);
    assert WordAt(u, i + |p|) == WordAt(s, i + |p|);
  }

  /** Text prepended before a match keeps it when it ends with a non-word
      character. */
  lemma ExtendLeft(t: string, s: string, p: string, i: int)
    requires WholeWordAt(s, p, i)
    requires t == [] || !IsWordChar(t[|t| - 1])
    ensures WholeWordAt(t + s, p, i + |t|)
  {
    var u := t + s;
    var j := i + |t|;
    forall k | 0 <= k < |p|
      ensures AgreesAt(u, p, j, k)
    {
      assert AgreesAt(s, p, i, k);
      assert u[j + k] == s[i + k];
    }
    assert WordAt(u, j - 1) == WordAt(s, i - 1);
    assert WordAt(u, j) == WordAt(s, i);
    assert WordAt(u, j + |p| - 1) == WordAt(s, i + |p| - 1);
    assert WordAt(u, j + |p|) == WordAt(s, i + |p|);
  }

  /** Nothing matches in the empty text: it has no word boundary at all. */
  lemma NothingInEmptyText(p: string)
    ensures !Search("", p)
  {
  }

  /** A pattern cannot be found in a text that lacks one of its characters,
      ignoring case. */
  lemma NoMatchWithoutChar(s: string, p: string, k: int)
    requires 0 <= k < |p|
    requires forall i :: 0 <= i < |s| ==> Fold(s[i]) != Fold(p[k])
    ensures !Search(s, p)
  {
    forall i | 0 <= i
      ensures !WholeWordAt(s, p, i)
    {
      MismatchRulesOut(s, p, i, k);
    }
  }

  /** A pattern that ends in a non-word character (such as `'Houck '`) only
      matches when a word character follows it: the closing `\b` then has to
      find the word on its right. */
  lemma TrailingNonWordNeedsWordAfter(s: string, p: string, i: int)
    requires |p| > 0 && !IsWordChar(p[|p| - 1])
    requires WholeWordAt(s, p, i)
    ensures i + |p| < |s| && IsWordChar(s[i + |p|])
  {
    var k := |p| - 1;
    assert AgreesAt(s, p, i, k);
    assert !WordAt(s, i + |p| - 1);
  }

  /** A pattern that starts with a non-word character only matches right
      after a word character. */
  lemma LeadingNonWordNeedsWordBefore(s: string, p: string, i: int)
    requires |p| > 0 && !IsWordChar(p[0])
    requires WholeWordAt(s, p, i)
    ensures i > 0 && IsWordChar(s[i - 1])
  {
    assert AgreesAt(s, p, i, 0);
    assert !WordAt(s, i);
  }

  /** Examples of the whole-word rule: "ion" is not found inside
      "ionosphere", and is found in "trapped ion system" both in lower case
      and as "ION". */
  lemma IonExamples()
    ensures !Search("ionosphere", "ion")
    ensures Search("trapped ion system", "ion")
    ensures Search("Trapped ION system", "ion")
  {
    forall i | WholeWordAt("ionosphere", "ion", i)
      ensures false
    {
    }
    assert WholeWordAt("trapped ion system", "ion", 8);
    assert WholeWordAt("Trapped ION system", "ion", 8);
  }

  /** Examples for the author pattern `'Houck '` (main.py:58), which ends in
      a space: it is not found in "J. Koch, A. Houck" or "A. Houck, J. Koch",
      where no space follows the name, and is found in "A. Houck Jr". */
  lemma HouckExamples()
    ensures !Search("J. Koch, A. Houck", "Houck ")
    ensures !Search("A. Houck, J. Koch", "Houck ")
    ensures Search("A. Houck Jr", "Houck ")
  {
    var p := "Houck ";
    var s1 := "J. Koch, A. Houck";
    assert forall i :: 0 <= i <= |s1| - |p| ==> !AgreesAt(s1, p, i, 0) || !AgreesAt(s1, p, i, 1);
    forall i | 0 <= i <= |s1| - |p|
      ensures !WholeWordAt(s1, p, i)
    {
      MismatchRulesOut(s1, p, i, if AgreesAt(s1, p, i, 0) then 1 else 0);
    }
    var s2 := "A. Houck, J. Koch";
    forall i | WholeWordAt(s2, p, i)
      ensures false
    {
      TrailingNonWordNeedsWordAfter(s2, p, i);
    }
    assert WholeWordAt("A. Houck Jr", p, 3);
  }

  /** `'Houck '` written out at the end of the author string: the pattern
      occurs there, but the closing `\b` after its space has no word
      character to its right, so the rule does not fire. */
  lemma HouckAtEnd(s: string)
    requires s == "J. Koch, A. Houck "
    ensures MatchesAt(s, "Houck ", 12)
    ensures !Search(s, "Houck ")
  {
    var p := "Houck ";
    forall k | 0 <= k < |p|
      ensures AgreesAt(s, p, 12, k)
    {
    }
    forall i | WholeWordAt(s, p, i)
      ensures false
    {
      TrailingNonWordNeedsWordAfter(s, p, i);
      MismatchRulesOut(s, p, i, if AgreesAt(s, p, i, 0) then 1 else 0);
    }
  }

  /** `'Houck '` followed by a comma: the pattern occurs, but a comma after
      its space leaves no word boundary there. */
  lemma HouckBeforeComma(s: string)
    requires s == "A. Houck , J. Koch"
    ensures MatchesAt(s, "Houck ", 3)
    ensures !Search(s, "Houck ")
  {
    var p := "Houck ";
    forall k | 0 <= k < |p|
      ensures AgreesAt(s, p, 3, k)
    {
    }
    forall i | WholeWordAt(s, p, i)
      ensures false
    {
      TrailingNonWordNeedsWordAfter(s, p, i);
      MismatchRulesOut(s, p, i, if AgreesAt(s, p, i, 0) then 1 else 0);
    }
  }

  /** The leading run of whitespace of `s` removed. */
  function DropSpaces(s: string): (r: string)
    ensures |r| <= |s|
    ensures r != [] ==> !IsSpace(r[0])
  {
    if s != [] && IsSpace(s[0]) then DropSpaces(s[1..]) else s
  }

  /** `re.sub(r'\s+', ' ', s)`: every maximal run of whitespace becomes one
      plain space (main.py:195, 223). */
  function CollapseWhitespace(s: string): (r: string)
    ensures |r| <= |s|
    decreases |s|
  {
    if s == [] then []
    else if IsSpace(s[0]) then [' '] + CollapseWhitespace(DropSpaces(s[1..]))
    else [s[0]] + CollapseWhitespace(s[1..])
  }

  /** No whitespace but plain spaces, and never two whitespace characters in a row. */
  predicate Collapsed(s: string)
  {
    forall i :: 0 <= i < |s| && IsSpace(s[i]) ==> s[i] == ' ' && (i + 1 < |s| ==> !IsSpace(s[i + 1]))
  }

  /** The characters of `s` that are not whitespace, in order. */
  function NonSpace(s: string): string
  {
    Filter(s, c => !IsSpace(c))
  }

  lemma {:induction false} CollapseKeepsFirst(s: string)
    requires s != [] && !IsSpace(s[0])
    ensures CollapseWhitespace(s) != [] && CollapseWhitespace(s)[0] == s[0]
  {
  }

  /** The collapsed title never holds a run of whitespace. */
  lemma {:induction false} CollapseIsCollapsed(s: string)
    ensures Collapsed(CollapseWhitespace(s))
    decreases |s|
  {
    if s != [] {
      if IsSpace(s[0]) {
        var t := DropSpaces(s[1..]);
        CollapseIsCollapsed(t);
        if t != [] {
          CollapseKeepsFirst(t);
        }
        var r := CollapseWhitespace(s);
        assert r == [' '] + CollapseWhitespace(t);
      } else {
        CollapseIsCollapsed(s[1..]);
        var r := CollapseWhitespace(s);
        assert r == [s[0]] + CollapseWhitespace(s[1..]);
      }
    }
  }

  /** A title without whitespace runs is left as it is. */
  lemma {:induction false} CollapseFixesCollapsed(s: string)
    requires Collapsed(s)
    ensures CollapseWhitespace(s) == s
    decreases |s|
  {
    if s != [] {
      assert Collapsed(s[1..]) by {
        forall i | 0 <= i < |s[1..]| && IsSpace(s[1..][i])
          ensures s[1..][i] == ' ' && (i + 1 < |s[1..]| ==> !IsSpace(s[1..][i + 1]))
        {
          assert s[1..][i] == s[i + 1];
        }
      }
      CollapseFixesCollapsed(s[1..]);
      if IsSpace(s[0]) {
        assert DropSpaces(s[1..]) == s[1..];
      }
    }
  }

  /** Normalising an already normalised title changes nothing. */
  lemma CollapseIdempotent(s: string)
    ensures CollapseWhitespace(CollapseWhitespace(s)) == CollapseWhitespace(s)
  {
    CollapseIsCollapsed(s);
    CollapseFixesCollapsed(CollapseWhitespace(s));
  }

  lemma {:induction false} DropSpacesKeepsNonSpace(s: string)
    ensures NonSpace(DropSpaces(s)) == NonSpace(s)
    decreases |s|
  {
    if s != [] && IsSpace(s[0]) {
      DropSpacesKeepsNonSpace(s[1..]);
      assert s == [s[0]] + s[1..];
      FilterAppend([s[0]], s[1..], c => !IsSpace(c));
    }
  }

  /** Collapsing touches whitespace only: the other characters survive, in order. */
  lemma {:induction false} CollapseKeepsNonSpace(s: string)
    ensures NonSpace(CollapseWhitespace(s)) == NonSpace(s)
    decreases |s|
  {
    if s != [] {
      var f := c => !IsSpace(c);
      assert s == [s[0]] + s[1..];
      FilterAppend([s[0]], s[1..], f);
      if IsSpace(s[0]) {
        var t := DropSpaces(s[1..]);
        CollapseKeepsNonSpace(t);
        DropSpacesKeepsNonSpace(s[1..]);
        FilterAppend([' '], CollapseWhitespace(t), f);
      } else {
        CollapseKeepsNonSpace(s[1..]);
        FilterAppend([s[0]], CollapseWhitespace(s[1..]), f);
      }
    }
  }

  /** `s.replace('  ', ' ')`: one left-to-right pass replacing non-overlapping
      pairs of spaces by one space (main.py:269). */
  function HalveDoubleSpaces(s: string): (r: string)
    ensures |r| <= |s|
    ensures s != [] ==> r != [] && r[0] == s[0]
    ensures '\n' !in s ==> '\n' !in r
  {
    if |s| < 2 then s
    else if s[0] == ' ' && s[1] == ' ' then [' '] + HalveDoubleSpaces(s[2..])
    else [s[0]] + HalveDoubleSpaces(s[1..])
  }

  /** How the digest shows a title: newlines deleted, then one pass of
      `'  '` to `' '` (main.py:269). */
  function DisplayTitle(title: string): (r: string)
    ensures '\n' !in r
  {
    HalveDoubleSpaces(Filter(title, c => c != '\n'))
  }

  /** The characters other than plain spaces, in order. */
  function NonBlank(s: string): string
  {
    Filter(s, c => c != ' ')
  }

  /** The pass only ever deletes plain spaces. */
  lemma {:induction false} HalveKeepsNonBlank(s: string)
    ensures NonBlank(HalveDoubleSpaces(s)) == NonBlank(s)
    decreases |s|
  {
    var f := c => c != ' ';
    if |s| >= 2 {
      if s[0] == ' ' && s[1] == ' ' {
        HalveKeepsNonBlank(s[2..]);
        assert s == [' ', ' '] + s[2..];
        FilterAppend([' ', ' '], s[2..], f);
        FilterAppend([' '], HalveDoubleSpaces(s[2..]), f);
      } else {
        HalveKeepsNonBlank(s[1..]);
        assert s == [s[0]] + s[1..];
        FilterAppend([s[0]], s[1..], f);
        FilterAppend([s[0]], HalveDoubleSpaces(s[1..]), f);
      }
    }
  }

  /** No two plain spaces in a row. */
  predicate NoDoubleSpace(s: string)
  {
    forall i :: 0 <= i < |s| - 1 ==> !(s[i] == ' ' && s[i + 1] == ' ')
  }

  /** No three plain spaces in a row. */
  predicate NoTripleSpace(s: string)
  {
    forall i :: 0 <= i < |s| - 2 ==> !(s[i] == ' ' && s[i + 1] == ' ' && s[i + 2] == ' ')
  }

  /** A text without two spaces in a row passes the single pass unchanged. */
  lemma {:induction false} HalveFixesSingleSpaced(s: string)
    requires NoDoubleSpace(s)
    ensures HalveDoubleSpaces(s) == s
    decreases |s|
  {
    if |s| >= 2 {
      assert !(s[0] == ' ' && s[1] == ' ');
      forall i | 0 <= i < |s[1..]| - 1
        ensures !(s[1..][i] == ' ' && s[1..][i + 1] == ' ')
      {
        assert s[1..][i] == s[i + 1] && s[1..][i + 1] == s[i + 2];
      }
      HalveFixesSingleSpaced(s[1..]);
      assert s == [s[0]] + s[1..];
    }
  }

  /** A one-line title with single spaces is shown as it is. */
  lemma DisplayTitleFixesPlainTitle(title: string)
    requires '\n' !in title && NoDoubleSpace(title)
    ensures DisplayTitle(title) == title
  {
    FilterAll(title, c => c != '\n');
    HalveFixesSingleSpaced(title);
  }

  /** When the title never has three spaces in a row, the single pass leaves
      no double space behind. */
  lemma {:induction false} HalveRemovesPairs(s: string)
    requires NoTripleSpace(s)
    ensures NoDoubleSpace(HalveDoubleSpaces(s))
    decreases |s|
  {
    if |s| >= 2 {
      var skip := if s[0] == ' ' && s[1] == ' ' then 2 else 1;
      var t := s[skip..];
      assert NoTripleSpace(t) by {
        forall i | 0 <= i < |t| - 2
          ensures !(t[i] == ' ' && t[i + 1] == ' ' && t[i + 2] == ' ')
        {
          assert t[i] == s[i + skip] && t[i + 1] == s[i + 1 + skip] && t[i + 2] == s[i + 2 + skip];
        }
      }
      HalveRemovesPairs(t);
      var rt := HalveDoubleSpaces(t);
      var r := HalveDoubleSpaces(s);
      assert r == [s[0]] + rt;
      forall i | 0 <= i < |r| - 1
        ensures !(r[i] == ' ' && r[i + 1] == ' ')
      {
        if i == 0 {
          assert r[1] == t[0];
          if skip == 2 {
            assert !(s[0] == ' ' && s[1] == ' ' && s[2] == ' ');
          }
        } else {
          assert r[i] == rt[i - 1] && r[i + 1] == rt[i];
        }
      }
    }
  }

  /** Three spaces in a row survive the single pass as two, while the ledger's
      normaliser turns them into one: the two clean-ups of a title differ. */
  lemma TitleCleanupsDiffer()
    ensures HalveDoubleSpaces("a   b") == "a  b"
    ensures CollapseWhitespace("a   b") == "a b"
  {
    assert HalveDoubleSpaces("  b") == " " + HalveDoubleSpaces("b");
    assert DropSpaces("  b") == "b";
  }
}
