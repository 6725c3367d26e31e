/** The digest text: `create_message` (main.py:266-276). The run's date is
    passed already formatted as `'%a, %d %b %Y'`. */
module Digest {
  import opened Seqs
  import opened Text
  import opened Numerals
  import opened Papers

  function Header(dateText: string): string
  {
    "**Papers for " + dateText + "**:\n"
  }

  /** A star for scores strictly above the star threshold, a plain bullet otherwise. */
  function Marker(score: int, thresholdStar: int): string
  {
    if score <= thresholdStar then "-  " else "- :star: "
  }

  /** What follows the marker: the cleaned title, the link and the score. */
  function Listing(p: Paper, score: int): string
  {
    DisplayTitle(p.title) + " - <" + p.id + "> (score: " + IntToString(score) + ")\n"
  }

  function Line(p: Paper, score: int, thresholdStar: int): string
  {
    Marker(score, thresholdStar) + Listing(p, score)
  }

  function LineOf(thresholdStar: int): ((Paper, int)) -> string
  {
    (x: (Paper, int)) => Line(x.0, x.1, thresholdStar)
  }

  /** The listing lines, one per pair, in order. */
  function Lines(pairs: seq<(Paper, int)>, thresholdStar: int): string
  {
    Concat(Map(pairs, LineOf(thresholdStar)))
  }

  /** The message `create_message` returns. */
  function Message(papers: seq<Paper>, scores: seq<int>, dateText: string, thresholdStar: int): string
  {
    Header(dateText) + Lines(Zip(papers, scores), thresholdStar) + "\n"
  }

  /** `create_message` (main.py:266-276): the header, one line per
      (paper, score) pair of `zip(relevant_papers, scores)`, and a final
      newline. */
  method CreateMessage(papers: seq<Paper>, scores: seq<int>, dateText: string, thresholdStar: int)
    returns (message: string)
    ensures message == Message(papers, scores, dateText, thresholdStar)
  {
    message := "**Papers for " + dateText + "**:\n";
    var pairs := Zip(papers, scores);
    for i := 0 to |pairs|
      invariant message == Header(dateText) + Lines(pairs[..i], thresholdStar)
    {
      var paper, score := pairs[i].0, pairs[i].1;
      var title := DisplayTitle(paper.title);
      var url := paper.id;
      var listing := title + " - <" + url + "> (score: " + IntToString(score) + ")\n";
      var line: string;
      if score <= thresholdStar {
        line := "-  " + listing;
      } else {
        line := "- :star: " + listing;
      }
      assert line == Line(paper, score, thresholdStar);
      LinesSnoc(pairs, i, thresholdStar);
      AppendAssociative(Header(dateText), Lines(pairs[..i], thresholdStar), line);
      message := message + line;
    }
    assert pairs[..|pairs|] == pairs;
    message := message + "\n";
  }

  lemma LinesSnoc(pairs: seq<(Paper, int)>, i: nat, thresholdStar: int)
    requires i < |pairs|
    ensures Lines(pairs[..i + 1], thresholdStar) == Lines(pairs[..i], thresholdStar) + Line(pairs[i].0, pairs[i].1, thresholdStar)
  {
    assert pairs[..i + 1][..i] == pairs[..i];
    ConcatMapLast(pairs[..i + 1], LineOf(thresholdStar));
  }

  /** A line starts with the star marker exactly when the score is strictly
      above the star threshold, and with the plain bullet otherwise. */
  lemma StarMarker(p: Paper, score: int, thresholdStar: int)
    ensures var line := Line(p, score, thresholdStar);
      && (score > thresholdStar <==> |line| >= 9 && line[..9] == "- :star: ")
      && (score <= thresholdStar <==> |line| >= 3 && line[..3] == "-  ")
  {
    var line, m := Line(p, score, thresholdStar), Marker(score, thresholdStar);
    assert line[..|m|] == m;
    assert line[2] == m[2];
  }

  function CountChar(c: char, s: string): nat
  {
    if s == [] then 0 else CountChar(c, s[..|s| - 1]) + (if s[|s| - 1] == c then 1 else 0)
  }

  lemma {:induction false} CountCharAppend(c: char, a: string, b: string)
    ensures CountChar(c, a + b) == CountChar(c, a) + CountChar(c, b)
  {
    if b == [] {
      assert a + b == a;
    } else {
      assert (a + b)[..|a + b| - 1] == a + b[..|b| - 1];
      CountCharAppend(c, a, b[..|b| - 1]);
    }
  }

  lemma {:induction false} CountCharAbsent(c: char, s: string)
    requires c !in s
    ensures CountChar(c, s) == 0
  {
    if s != [] {
      CountCharAbsent(c, s[..|s| - 1]);
    }
  }

  /** Each line ends with the only newline it holds, when the paper's id has none. */
  lemma LineNewlines(p: Paper, score: int, thresholdStar: int)
    requires '\n' !in p.id
    ensures CountChar('\n', Line(p, score, thresholdStar)) == 1
  {
    var m, t := Marker(score, thresholdStar), DisplayTitle(p.title);
    CountCharAppend('\n', m, Listing(p, score));
    assert ")\n"[..1] == ")";
    IntToStringRoundTrip(score);
    var n := IntToString(score);
    CountCharAppend('\n', t, " - <");
    CountCharAppend('\n', t + " - <", p.id);
    CountCharAppend('\n', t + " - <" + p.id, "> (score: ");
    CountCharAppend('\n', t + " - <" + p.id + "> (score: ", n);
    CountCharAppend('\n', t + " - <" + p.id + "> (score: " + n, ")\n");
    CountCharAbsent('\n', m);
    CountCharAbsent('\n', t);
    CountCharAbsent('\n', " - <");
    CountCharAbsent('\n', p.id);
    CountCharAbsent('\n', "> (score: ");
    CountCharAbsent('\n', n);
  }

  lemma {:induction false} LinesNewlines(pairs: seq<(Paper, int)>, thresholdStar: int)
    requires forall i :: 0 <= i < |pairs| ==> '\n' !in pairs[i].0.id
    ensures CountChar('\n', Lines(pairs, thresholdStar)) == |pairs|
  {
    if pairs != [] {
      var init, last := pairs[..|pairs| - 1], pairs[|pairs| - 1];
      LinesNewlines(init, thresholdStar);
      LineNewlines(last.0, last.1, thresholdStar);
      ConcatMapLast(pairs, LineOf(thresholdStar));
      CountCharAppend('\n', Lines(init, thresholdStar), Line(last.0, last.1, thresholdStar));
    }
  }

  lemma HeaderShape(dateText: string)
    requires '\n' !in dateText
    ensures CountChar('\n', Header(dateText)) == 1
  {
    CountCharAppend('\n', "**Papers for ", dateText);
    CountCharAppend('\n', "**Papers for " + dateText, "**:\n");
    CountCharAbsent('\n', "**Papers for ");
    CountCharAbsent('\n', dateText);
    CountCharAbsent('\n', "**:");
    assert "**:\n"[..3] == "**:";
  }

  lemma LineEndsInNewline(p: Paper, score: int, thresholdStar: int)
    ensures var line := Line(p, score, thresholdStar); |line| > 0 && line[|line| - 1] == '\n'
  {
  }

  /** The digest is the header line, exactly one line per listed paper, and a
      blank line: when neither the date nor any id holds a newline, it has
      two newlines more than it lists papers. */
  lemma MessageNewlines(papers: seq<Paper>, scores: seq<int>, dateText: string, thresholdStar: int)
    requires '\n' !in dateText
    requires forall p :: p in papers ==> '\n' !in p.id
    ensures CountChar('\n', Message(papers, scores, dateText, thresholdStar)) == |Zip(papers, scores)| + 2
  {
    var pairs := Zip(papers, scores);
    assert forall i :: 0 <= i < |pairs| ==> pairs[i].0 == papers[i];
    LinesNewlines(pairs, thresholdStar);
    HeaderShape(dateText);
    var h, body := Header(dateText), Lines(pairs, thresholdStar);
    CountCharAppend('\n', h, body);
    CountCharAppend('\n', h + body, "\n");
    assert "\n"[..0] == "";
  }

  /** The digest always ends in an empty line: the header and every listing
      line end with a newline, and one more follows. */
  lemma LinesEndInNewline(pairs: seq<(Paper, int)>, thresholdStar: int)
    requires pairs != []
    ensures var body := Lines(pairs, thresholdStar); |body| > 0 && body[|body| - 1] == '\n'
  {
    var last := pairs[|pairs| - 1];
    var line := Line(last.0, last.1, thresholdStar);
    LineEndsInNewline(last.0, last.1, thresholdStar);
    ConcatMapLast(pairs, LineOf(thresholdStar));
    var init := Lines(pairs[..|pairs| - 1], thresholdStar);
    assert Lines(pairs, thresholdStar) == init + line;
    assert (init + line)[|init + line| - 1] == line[|line| - 1];
  }

  lemma HeaderEndsInNewline(dateText: string)
    ensures var h := Header(dateText); |h| > 0 && h[|h| - 1] == '\n'
  {
    LastOfAppend("**Papers for " + dateText, "**:\n");
  }

  lemma MessageEndsBlank(papers: seq<Paper>, scores: seq<int>, dateText: string, thresholdStar: int)
    ensures var m := Message(papers, scores, dateText, thresholdStar);
      |m| >= 2 && m[|m| - 2] == '\n' && m[|m| - 1] == '\n'
  {
    var pairs := Zip(papers, scores);
    var h, body := Header(dateText), Lines(pairs, thresholdStar);
    HeaderEndsInNewline(dateText);
    if pairs != [] {
      LinesEndInNewline(pairs, thresholdStar);
      LastOfAppend(h, body);
    } else {
      assert h + body == h;
    }
    LastOfAppend(h + body, "\n");
  }



  /** The lines follow the given order: the digest of a concatenation is the
      concatenation of the digests. */
  lemma LinesAppend(a: seq<(Paper, int)>, b: seq<(Paper, int)>, thresholdStar: int)
    ensures Lines(a + b, thresholdStar) == Lines(a, thresholdStar) + Lines(b, thresholdStar)
  {
    MapAppend(a, b, LineOf(thresholdStar));
    ConcatAppend(Map(a, LineOf(thresholdStar)), Map(b, LineOf(thresholdStar)));
  }
}
