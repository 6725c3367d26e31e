/** Selecting and ordering papers: `filter_papers_by_score` (main.py:171-180),
    `sort_papers_by_score` (main.py:202-207) and
    `filter_papers_by_most_recent_date` (main.py:134-144). */
module Ranking {
  import opened Wrappers
  import opened Seqs
  import opened Papers
  import opened Scorer

  function AboveThreshold(c: Criteria, threshold: int): Paper -> bool
  {
    (p: Paper) => PaperScore(p, c) > threshold
  }

  function ScoreWith(c: Criteria): Paper -> int
  {
    (p: Paper) => PaperScore(p, c)
  }

  /** The papers scoring strictly above the threshold, in input order. */
  function Relevant(papers: seq<Paper>, c: Criteria, threshold: int): seq<Paper>
  {
    Filter(papers, AboveThreshold(c, threshold))
  }

  /** `filter_papers_by_score` (main.py:171-180): two parallel lists, the
      papers scoring strictly above the threshold and their scores. */
  method FilterPapersByScore(papers: seq<Paper>, c: Criteria, threshold: int)
    returns (filtered: seq<Paper>, scores: seq<int>)
    ensures filtered == Relevant(papers, c, threshold)
    ensures scores == Map(filtered, ScoreWith(c))
    ensures |filtered| == |scores|
    ensures forall i :: 0 <= i < |scores| ==> scores[i] > threshold && scores[i] == PaperScore(filtered[i], c)
    ensures forall p :: p in filtered <==> p in papers && PaperScore(p, c) > threshold
  {
    filtered, scores := [], [];
    for i := 0 to |papers|
      invariant filtered == Relevant(papers[..i], c, threshold)
      invariant scores == Map(filtered, ScoreWith(c))
    {
      var paper := papers[i];
      assert papers[..i + 1][..i] == papers[..i];
      assert Relevant(papers[..i + 1], c, threshold)
        == filtered + (if AboveThreshold(c, threshold)(paper) then [paper] else []);
      var score := GetPaperScore(paper, c);
      if score > threshold {
        assert (filtered + [paper])[..|filtered|] == filtered;
        filtered := filtered + [paper];
        scores := scores + [score];
      }
    }
    assert papers[..|papers|] == papers;
    RelevantScores(papers, c, threshold);
  }

  /** Each relevant paper scores above the threshold, and every paper of the
      input that does is relevant. */
  lemma RelevantScores(papers: seq<Paper>, c: Criteria, threshold: int)
    ensures var filtered := Relevant(papers, c, threshold);
      var scores := Map(filtered, ScoreWith(c));
      && (forall i :: 0 <= i < |scores| ==> scores[i] > threshold && scores[i] == PaperScore(filtered[i], c))
      && (forall p :: p in filtered <==> p in papers && PaperScore(p, c) > threshold)
  {
    var filtered := Relevant(papers, c, threshold);
    forall i | 0 <= i < |filtered|
      ensures PaperScore(filtered[i], c) > threshold
    {
      assert AboveThreshold(c, threshold)(filtered[i]);
    }
  }

  /** The relevant papers are an in-order subsequence of the input; every
      input paper above the threshold is kept, as often as it occurs, and a
      paper scoring exactly the threshold is dropped. */
  lemma RelevantSelects(papers: seq<Paper>, c: Criteria, threshold: int, p: Paper)
    ensures IsSubsequence(Relevant(papers, c, threshold), papers)
    ensures multiset(Relevant(papers, c, threshold))[p] ==
      if PaperScore(p, c) > threshold then multiset(papers)[p] else 0
    ensures PaperScore(p, c) == threshold ==> p !in Relevant(papers, c, threshold)
    ensures PaperScore(p, c) == threshold + 1 && p in papers ==> p in Relevant(papers, c, threshold)
  {
    FilterIsSubsequence(papers, AboveThreshold(c, threshold));
    FilterMultiplicity(papers, AboveThreshold(c, threshold), p);
  }

  /** A paper paired with its score. */
  type Scored = (Paper, int)

  predicate NonIncreasing(s: seq<Scored>)
  {
    forall i, j :: 0 <= i < j < |s| ==> s[i].1 >= s[j].1
  }

  function WithScore(k: int): Scored -> bool
  {
    (x: Scored) => x.1 == k
  }

  /** Places `x` after every element scoring at least as much, so that an
      element inserted later stays behind earlier ones of equal score. */
  function Insert(sorted: seq<Scored>, x: Scored): (r: seq<Scored>)
    ensures multiset(r) == multiset(sorted) + multiset{x}
  {
    if sorted == [] then [x]
    else if sorted[0].1 >= x.1 then
      assert sorted == [sorted[0]] + sorted[1..];
      [sorted[0]] + Insert(sorted[1..], x)
    else [x] + sorted
  }

  /** `sorted(pairs, key=score, reverse=True)`: Python's sort is stable also
      with `reverse=True`. */
  function SortDesc(s: seq<Scored>): (r: seq<Scored>)
    ensures multiset(r) == multiset(s)
  {
    if s == [] then []
    else
      assert s == s[..|s| - 1] + [s[|s| - 1]];
      Insert(SortDesc(s[..|s| - 1]), s[|s| - 1])
  }

  lemma {:induction false} InsertSorted(t: seq<Scored>, x: Scored)
    requires NonIncreasing(t)
    ensures NonIncreasing(Insert(t, x))
  {
    if t != [] && t[0].1 >= x.1 {
      var rest := t[1..];
      InsertSorted(rest, x);
      var r := Insert(t, x);
      var ri := Insert(rest, x);
      assert r == [t[0]] + ri;
      forall j | 0 < j < |r|
        ensures r[0].1 >= r[j].1
      {
        assert r[j] == ri[j - 1];
        assert r[j] in multiset(ri);
        if r[j] != x {
          assert r[j] in multiset(rest);
          var m :| 0 <= m < |rest| && rest[m] == r[j];
          assert rest[m] == t[m + 1];
        }
      }
    }
  }

  lemma {:induction false} SortDescSorted(s: seq<Scored>)
    ensures NonIncreasing(SortDesc(s))
  {
    if s != [] {
      SortDescSorted(s[..|s| - 1]);
      InsertSorted(SortDesc(s[..|s| - 1]), s[|s| - 1]);
    }
  }

  lemma {:induction false} InsertStable(t: seq<Scored>, x: Scored, k: int)
    requires NonIncreasing(t)
    decreases |t|, 1
    ensures Filter(Insert(t, x), WithScore(k)) == Filter(t, WithScore(k)) + Filter([x], WithScore(k))
  {
    if t != [] {
      if t[0].1 >= x.1 {
        InsertStableBehind(t, x, k);
      } else {
        InsertStableInFront(t, x, k);
      }
    }
  }

  lemma NonIncreasingTail(t: seq<Scored>)
    requires NonIncreasing(t) && t != []
    ensures NonIncreasing(t[1..])
  {
    forall i, j | 0 <= i < j < |t| - 1
      ensures t[1..][i].1 >= t[1..][j].1
    {
      assert t[1..][i] == t[i + 1] && t[1..][j] == t[j + 1];
    }
  }

  lemma {:induction false} InsertStableBehind(t: seq<Scored>, x: Scored, k: int)
    requires NonIncreasing(t) && t != [] && t[0].1 >= x.1
    ensures Filter(Insert(t, x), WithScore(k)) == Filter(t, WithScore(k)) + Filter([x], WithScore(k))
    decreases |t|, 0
  {
    var f := WithScore(k);
    var head, rest := [t[0]], t[1..];
    var ins := Insert(rest, x);
    NonIncreasingTail(t);
    assert t == head + rest;
    var a, b, c := Filter(head, f), Filter(rest, f), Filter([x], f);
    calc {
      Filter(Insert(t, x), f);
      Filter(head + ins, f);
      { FilterAppend(head, ins, f); }
      a + Filter(ins, f);
      { InsertStable(rest, x, k); }
      a + (b + c);
      (a + b) + c;
      { FilterAppend(head, rest, f); }
      Filter(t, f) + c;
    }
  }

  lemma {:induction false} InsertStableInFront(t: seq<Scored>, x: Scored, k: int)
    requires NonIncreasing(t) && t != [] && t[0].1 < x.1
    ensures Filter(Insert(t, x), WithScore(k)) == Filter(t, WithScore(k)) + Filter([x], WithScore(k))
  {
    var f := WithScore(k);
    assert Insert(t, x) == [x] + t;
    FilterAppend([x], t, f);
    if x.1 == k {
      forall y | y in t
        ensures !f(y)
      {
        var m :| 0 <= m < |t| && t[m] == y;
        assert m == 0 || t[0].1 >= t[m].1;
      }
      FilterNone(t, f);
    } else {
      assert [x][..0] == [];
      assert Filter([x], f) == [];
    }
  }

  /** Papers of equal score keep their input order: for every score, the
      pairs with that score come out in the order they went in. */
  lemma {:induction false} SortDescStable(s: seq<Scored>, k: int)
    ensures Filter(SortDesc(s), WithScore(k)) == Filter(s, WithScore(k))
  {
    if s != [] {
      var init, last := s[..|s| - 1], s[|s| - 1];
      SortDescStable(init, k);
      SortDescSorted(init);
      InsertStable(SortDesc(init), last, k);
      assert [last][..0] == [];
    }
  }

  function First(x: Scored): Paper
  {
    x.0
  }

  function Second(x: Scored): int
  {
    x.1
  }

  /** `sort_papers_by_score` (main.py:202-207): the zipped pairs sorted by
      descending score, unzipped again; `zip(*[])` cannot be unpacked, so
      nothing to sort is an error. */
  function SortPapersByScore(papers: seq<Paper>, scores: seq<int>): Result<(seq<Paper>, seq<int>), Error>
  {
    var pairs := Zip(papers, scores);
    if pairs == [] then Failure(NothingToSort)
    else
      var sorted := SortDesc(pairs);
      Success((Map(sorted, First), Map(sorted, Second)))
  }

  lemma {:induction false} ZipOfUnzip(s: seq<Scored>)
    ensures Zip(Map(s, First), Map(s, Second)) == s
  {
  }

  /** A successful sort returns the input pairs, rearranged. */
  lemma SortPapersByScorePermutes(papers: seq<Paper>, scores: seq<int>)
    ensures var r := SortPapersByScore(papers, scores);
      r.Success? ==>
        && |r.value.0| == |r.value.1| == |Zip(papers, scores)|
        && multiset(Zip(r.value.0, r.value.1)) == multiset(Zip(papers, scores))
  {
    var pairs := Zip(papers, scores);
    if pairs != [] {
      var sorted := SortDesc(pairs);
      assert |sorted| == |multiset(sorted)| == |multiset(pairs)| == |pairs|;
      ZipOfUnzip(sorted);
    }
  }

  /** Sorting fails exactly on empty input; otherwise the result pairs each
      paper with its own score, is a permutation of the input pairs, has
      non-increasing scores and keeps equal scores in input order. */
  lemma SortPapersByScoreSpec(papers: seq<Paper>, scores: seq<int>, k: int)
    ensures SortPapersByScore(papers, scores).Failure? <==> papers == [] || scores == []
    ensures SortPapersByScore(papers, scores).Success? ==>
      var (ps, ss) := SortPapersByScore(papers, scores).value;
      && |ps| == |ss| == |Zip(papers, scores)|
      && (forall i, j :: 0 <= i < j < |ss| ==> ss[i] >= ss[j])
      && multiset(Zip(ps, ss)) == multiset(Zip(papers, scores))
      && Filter(Zip(ps, ss), WithScore(k)) == Filter(Zip(papers, scores), WithScore(k))
  {
    var pairs := Zip(papers, scores);
    SortPapersByScorePermutes(papers, scores);
    if pairs != [] {
      var sorted := SortDesc(pairs);
      ZipOfUnzip(sorted);
      SortDescSorted(pairs);
      SortDescStable(pairs, k);
      var ps, ss := Map(sorted, First), Map(sorted, Second);
      assert Zip(ps, ss) == sorted;
      forall i, j | 0 <= i < j < |ss|
        ensures ss[i] >= ss[j]
      {
        assert ss[i] == sorted[i].1 && ss[j] == sorted[j].1;
      }
    }
  }

  function SameDateAs(d: Dates.CalendarDate): Paper -> bool
  {
    (p: Paper) => p.published == d
  }

  /** `filter_papers_by_most_recent_date` (main.py:134-144): the papers
      published on the date of the last one; an empty list raises on
      `papers[-1]`. */
  method FilterPapersByMostRecentDate(papers: seq<Paper>) returns (r: Result<seq<Paper>, Error>)
    ensures papers == [] ==> r == Failure(NoPapers)
    ensures papers != [] ==> r == Success(Filter(papers, SameDateAs(papers[|papers| - 1].published)))
  {
    if papers == [] {
      return Failure(NoPapers);
    }
    var mostRecentDate := papers[|papers| - 1].published;
    var filtered: seq<Paper> := [];
    for i := 0 to |papers|
      invariant filtered == Filter(papers[..i], SameDateAs(mostRecentDate))
    {
      if papers[i].published == mostRecentDate {
        filtered := filtered + [papers[i]];
      }
      assert papers[..i + 1][..i] == papers[..i];
    }
    assert papers[..|papers|] == papers;
    return Success(filtered);
  }

  /** The result is never empty (the last paper is always in it), ends with
      the last paper, and holds every paper of that date as often as it
      occurs, in input order. */
  lemma MostRecentDateSpec(papers: seq<Paper>)
    requires papers != []
    ensures var kept := Filter(papers, SameDateAs(papers[|papers| - 1].published));
      && kept != [] && kept[|kept| - 1] == papers[|papers| - 1]
      && (forall p :: p in kept <==> p in papers && p.published == papers[|papers| - 1].published)
      && IsSubsequence(kept, papers)
    ensures forall p ::
      (multiset(Filter(papers, SameDateAs(papers[|papers| - 1].published)))[p] ==
       if p.published == papers[|papers| - 1].published then multiset(papers)[p] else 0)
  {
    var f := SameDateAs(papers[|papers| - 1].published);
    FilterIsSubsequence(papers, f);
    forall p
      ensures multiset(Filter(papers, f))[p] == if f(p) then multiset(papers)[p] else 0
    {
      FilterMultiplicity(papers, f, p);
    }
  }
}
