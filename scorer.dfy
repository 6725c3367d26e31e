/** Keyword and author scoring: `calculate_score` (main.py:163-168) and
    `get_paper_score` (main.py:147-160). */
module Scorer {
  import opened Seqs
  import opened Text
  import opened Papers

  /** What one rule contributes to the score of `text`: its weight when its
      pattern occurs there as a whole word, negated for a bad-keyword list. */
  function RuleValue(text: string, rule: Rule, isBad: bool): int
  {
    if Search(text, rule.pattern) then (if isBad then -rule.weight else rule.weight) else 0
  }

  /** The value `calculate_score(text, rules, is_bad)` returns. */
  function KeywordScore(text: string, rules: seq<Rule>, isBad: bool): int
  {
    if rules == [] then 0
    else KeywordScore(text, rules[..|rules| - 1], isBad) + RuleValue(text, rules[|rules| - 1], isBad)
  }

  /** The rules whose pattern is found in `text`, in list order. */
  function FoundIn(text: string): Rule -> bool
  {
    (r: Rule) => Search(text, r.pattern)
  }

  function SumWeights(rules: seq<Rule>): int
  {
    if rules == [] then 0 else SumWeights(rules[..|rules| - 1]) + rules[|rules| - 1].weight
  }

  /** `calculate_score` (main.py:163-168): the loop adds the weight of every
      rule whose pattern the regular expression finds, negated for bad lists. */
  method CalculateScore(text: string, keywords: seq<Rule>, isBad: bool) returns (score: int)
    ensures score == KeywordScore(text, keywords, isBad)
  {
    score := 0;
    for i := 0 to |keywords|
      invariant score == KeywordScore(text, keywords[..i], isBad)
    {
      var rule := keywords[i];
      if Search(text, rule.pattern) {
        score := score + (if isBad then -rule.weight else rule.weight);
      }
      assert keywords[..i + 1][..i] == keywords[..i];
    }
    assert keywords[..|keywords|] == keywords;
  }

  /** The score is the total weight of the rules that match, each rule
      counted once however often its pattern occurs; a bad list gives the
      negated total. */
  lemma {:induction false} KeywordScoreIsMatchedWeight(text: string, rules: seq<Rule>)
    ensures KeywordScore(text, rules, false) == SumWeights(Filter(rules, FoundIn(text)))
    ensures KeywordScore(text, rules, true) == -SumWeights(Filter(rules, FoundIn(text)))
  {
    if rules != [] {
      var init, last := rules[..|rules| - 1], rules[|rules| - 1];
      KeywordScoreIsMatchedWeight(text, init);
      var m := Filter(rules, FoundIn(text));
      if Search(text, last.pattern) {
        assert m == Filter(init, FoundIn(text)) + [last];
        assert m[..|m| - 1] == Filter(init, FoundIn(text));
      } else {
        assert m == Filter(init, FoundIn(text));
      }
    }
  }

  lemma {:induction false} KeywordScoreAppend(text: string, a: seq<Rule>, b: seq<Rule>, isBad: bool)
    ensures KeywordScore(text, a + b, isBad) == KeywordScore(text, a, isBad) + KeywordScore(text, b, isBad)
  {
    if b == [] {
      assert a + b == a;
    } else {
      assert (a + b)[..|a + b| - 1] == a + b[..|b| - 1];
      KeywordScoreAppend(text, a, b[..|b| - 1], isBad);
    }
  }

  /** The order of the rules in a list does not change the score. */
  lemma {:induction false} KeywordScoreOrderFree(text: string, a: seq<Rule>, b: seq<Rule>, isBad: bool)
    requires multiset(a) == multiset(b)
    ensures KeywordScore(text, a, isBad) == KeywordScore(text, b, isBad)
    decreases |b|
  {
    if b != [] {
      var init, x := b[..|b| - 1], b[|b| - 1];
      assert b == init + [x];
      assert x in multiset(a);
      var k :| 0 <= k < |a| && a[k] == x;
      var rest := a[..k] + a[k + 1..];
      assert a == a[..k] + [x] + a[k + 1..];
      assert multiset(a) == multiset(a[..k]) + multiset([x]) + multiset(a[k + 1..]);
      assert multiset(b) == multiset(init) + multiset([x]);
      assert multiset(rest) == multiset(a[..k]) + multiset(a[k + 1..]);
      assert multiset(rest) + multiset([x]) == multiset(init) + multiset([x]);
      assert forall y :: multiset(rest)[y] == (multiset(rest) + multiset([x]))[y] - multiset([x])[y];
      assert multiset(rest) == multiset(init);
      KeywordScoreOrderFree(text, rest, init, isBad);
      KeywordScoreAppend(text, a[..k], a[k + 1..], isBad);
      KeywordScoreAppend(text, a[..k] + [x], a[k + 1..], isBad);
      KeywordScoreAppend(text, a[..k], [x], isBad);
      assert KeywordScore(text, [x], isBad) == RuleValue(text, x, isBad) by {
        assert [x][..0] == [];
      }
    } else {
      assert a == [];
    }
  }

  /** An empty title, abstract or author string contributes nothing. */
  lemma {:induction false} KeywordScoreOfEmptyText(rules: seq<Rule>, isBad: bool)
    ensures KeywordScore("", rules, isBad) == 0
  {
    if rules != [] {
      KeywordScoreOfEmptyText(rules[..|rules| - 1], isBad);
      NothingInEmptyText(rules[|rules| - 1].pattern);
    }
  }

  /** `', '.join(names)` (main.py:150). */
  function JoinAuthors(names: seq<string>): (r: string)
    ensures names == [] ==> r == ""
  {
    if names == [] then ""
    else if |names| == 1 then names[0]
    else JoinAuthors(names[..|names| - 1]) + ", " + names[|names| - 1]
  }

  /** A pattern found as a whole word in one author's name is found in the
      joined author string: the `", "` separators are non-word characters. */
  lemma {:induction false} AuthorMatchCarries(names: seq<string>, k: int, pattern: string)
    requires 0 <= k < |names| && Search(names[k], pattern)
    ensures Search(JoinAuthors(names), pattern)
  {
    var n := |names|;
    if n > 1 {
      var prefix := JoinAuthors(names[..n - 1]);
      if k < n - 1 {
        assert names[..n - 1][k] == names[k];
        AuthorMatchCarries(names[..n - 1], k, pattern);
        var i :| WholeWordAt(prefix, pattern, i);
        ExtendRight(prefix, ", " + names[n - 1], pattern, i);
        assert prefix + ", " + names[n - 1] == prefix + (", " + names[n - 1]);
      } else {
        var i :| WholeWordAt(names[k], pattern, i);
        ExtendLeft(prefix + ", ", names[k], pattern, i);
      }
    }
  }

  /** The value `get_paper_score(paper, criteria)` returns. */
  function PaperScore(p: Paper, c: Criteria): int
  {
    KeywordScore(JoinAuthors(p.authors), c.authors, false)
    + KeywordScore(p.title, c.goodKeywords, false)
    + KeywordScore(p.title, c.badKeywords, true)
    + KeywordScore(p.summary, c.goodKeywords, false)
    + KeywordScore(p.summary, c.badKeywords, true)
  }

  /** `get_paper_score` (main.py:147-160): five channels added to one accumulator. */
  method GetPaperScore(p: Paper, c: Criteria) returns (score: int)
    ensures score == PaperScore(p, c)
  {
    score := 0;
    var authors := JoinAuthors(p.authors);
    var s := CalculateScore(authors, c.authors, false);
    score := score + s;
    s := CalculateScore(p.title, c.goodKeywords, false);
    score := score + s;
    s := CalculateScore(p.title, c.badKeywords, true);
    score := score + s;
    s := CalculateScore(p.summary, c.goodKeywords, false);
    score := score + s;
    s := CalculateScore(p.summary, c.badKeywords, true);
    score := score + s;
  }

  /** A paper's score: matched author weight, plus matched good keywords in
      title and abstract, minus matched bad keywords in title and abstract. */
  lemma PaperScoreChannels(p: Paper, c: Criteria)
    ensures PaperScore(p, c) ==
      SumWeights(Filter(c.authors, FoundIn(JoinAuthors(p.authors))))
      + SumWeights(Filter(c.goodKeywords, FoundIn(p.title)))
      + SumWeights(Filter(c.goodKeywords, FoundIn(p.summary)))
      - SumWeights(Filter(c.badKeywords, FoundIn(p.title)))
      - SumWeights(Filter(c.badKeywords, FoundIn(p.summary)))
  {
    KeywordScoreIsMatchedWeight(JoinAuthors(p.authors), c.authors);
    KeywordScoreIsMatchedWeight(p.title, c.goodKeywords);
    KeywordScoreIsMatchedWeight(p.title, c.badKeywords);
    KeywordScoreIsMatchedWeight(p.summary, c.goodKeywords);
    KeywordScoreIsMatchedWeight(p.summary, c.badKeywords);
  }

  /** A paper without authors, title or abstract scores nothing from those
      channels. */
  lemma EmptyChannelsScoreZero(p: Paper, c: Criteria)
    ensures p.authors == [] ==>
      (PaperScore(p, c) ==
       KeywordScore(p.title, c.goodKeywords, false) + KeywordScore(p.title, c.badKeywords, true)
       + KeywordScore(p.summary, c.goodKeywords, false) + KeywordScore(p.summary, c.badKeywords, true))
    ensures p.summary == "" ==>
      (PaperScore(p, c) ==
       KeywordScore(JoinAuthors(p.authors), c.authors, false)
       + KeywordScore(p.title, c.goodKeywords, false) + KeywordScore(p.title, c.badKeywords, true))
    ensures p.authors == [] && p.title == "" && p.summary == "" ==> PaperScore(p, c) == 0
  {
    KeywordScoreOfEmptyText(c.authors, false);
    KeywordScoreOfEmptyText(c.goodKeywords, false);
    KeywordScoreOfEmptyText(c.badKeywords, true);
  }
}
