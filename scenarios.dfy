/** Worked runs of the daily job on small inputs. */
module Scenarios {
  import opened Wrappers
  import opened Seqs
  import opened Numerals
  import opened Text
  import opened Dates
  import opened Papers
  import opened Scorer
  import opened Ranking
  import opened Ledger
  import opened Digest
  import opened Pipeline

  const Criteria1: Criteria := Criteria([Rule("Smith", 10)], [Rule("qubit", 2)], [Rule("laser", 3)])
  const Config1: Config := Config(Criteria1, 5, 15)
  const Monday: CalendarDate := Date(2024, 1, 1)

  const PaperA: Paper := Paper("A superconducting qubit device", "", ["John Smith"], "https://arxiv.org/abs/2401.00001", Monday)
  const PaperB: Paper := Paper("Laser spin qubit", "", [], "https://arxiv.org/abs/2401.00002", Monday)

  lemma SingleRule(text: string, r: Rule, isBad: bool)
    ensures KeywordScore(text, [r], isBad) == RuleValue(text, r, isBad)
  {
    assert [r][..0] == [];
  }

  lemma SmithFound()
    ensures Search("John Smith", "Smith")
  {
    assert WholeWordAt("John Smith", "Smith", 5);
  }

  lemma QubitFoundInA()
    ensures Search(PaperA.title, "qubit")
  {
    assert WholeWordAt(PaperA.title, "qubit", 18);
  }

  lemma LaserNotInA()
    ensures !Search(PaperA.title, "laser")
  {
    NoMatchWithoutChar(PaperA.title, "laser", 0);
  }

  lemma BothFoundInB()
    ensures Search(PaperB.title, "qubit") && Search(PaperB.title, "laser")
  {
    assert WholeWordAt(PaperB.title, "qubit", 11);
    assert WholeWordAt(PaperB.title, "laser", 0);
  }

  /** An author match and a good keyword add up; a bad keyword in the title
      outweighs a good one. */
  lemma ExampleScores()
    ensures PaperScore(PaperA, Criteria1) == 12
    ensures PaperScore(PaperB, Criteria1) == -1
  {
    SmithFound();
    QubitFoundInA();
    LaserNotInA();
    BothFoundInB();
    NothingInEmptyText("qubit");
    NothingInEmptyText("laser");
    NothingInEmptyText("Smith");
    SingleRule("John Smith", Rule("Smith", 10), false);
    SingleRule(PaperA.title, Rule("qubit", 2), false);
    SingleRule(PaperA.title, Rule("laser", 3), true);
    SingleRule("", Rule("qubit", 2), false);
    SingleRule("", Rule("laser", 3), true);
    SingleRule("", Rule("Smith", 10), false);
    SingleRule(PaperB.title, Rule("qubit", 2), false);
    SingleRule(PaperB.title, Rule("laser", 3), true);
  }

  /** Only the paper scoring above the threshold is kept. */
  lemma ExampleSelection()
    ensures Relevant([PaperA, PaperB], Criteria1, 5) == [PaperA]
    ensures Relevant([PaperB], Criteria1, 5) == []
  {
    ExampleScores();
    var f := AboveThreshold(Criteria1, 5);
    assert f(PaperA) && !f(PaperB);
    FilterAppend([PaperA], [PaperB], f);
    FilterAll([PaperA], f);
    FilterNone([PaperB], f);
    assert [PaperA] + [PaperB] == [PaperA, PaperB];
  }

  /** An empty ledger has seen nothing. */
  lemma NothingSeenYet(papers: seq<Paper>)
    ensures NewPapers(papers, Some([])) == papers
  {
    assert Titles([]) == [];
    FilterAll(papers, NotListed([]));
  }

  lemma SortOne()
    ensures SortPapersByScore([PaperA], [12]) == Success(([PaperA], [12]))
  {
    var pairs := Zip([PaperA], [12]);
    assert pairs == [(PaperA, 12)];
    assert pairs[..0] == [];
    assert SortDesc(pairs) == Insert([], (PaperA, 12)) == pairs;
    assert Map(pairs, First) == [PaperA];
    assert Map(pairs, Second) == [12];
  }

  /** Paper A's line: a plain bullet (12 is not above 15), its title as
      published, its link and its score. */
  lemma LineOfA(p: Paper)
    requires p == PaperA
    ensures Line(p, 12, 15) == "-  " + (p.title + " - <" + p.id + "> (score: " + "12" + ")\n")
  {
    TitleOfA(p.title);
    TwelveText();
    assert Marker(12, 15) == "-  ";
    assert Listing(p, 12) == p.title + " - <" + p.id + "> (score: " + "12" + ")\n";
  }

  lemma TitleOfA(t: string)
    requires t == PaperA.title
    ensures DisplayTitle(t) == t
  {
    DisplayTitleFixesPlainTitle(t);
  }

  lemma TwelveText()
    ensures IntToString(12) == "12"
  {
  }

  lemma OnlyASelected(papers: seq<Paper>)
    requires papers == [PaperA, PaperB]
    ensures Selected(Config1, papers, Some([])) == [PaperA]
    ensures Map([PaperA], ScoreWith(Criteria1)) == [12]
  {
    NothingSeenYet(papers);
    ExampleSelection();
    ExampleScores();
  }

  lemma LedgerOfA()
    ensures Merged(Some([]), [PaperA]) == {NewEntry(PaperA)}
  {
    assert Map([PaperA], NewEntry) == [NewEntry(PaperA)];
  }

  /** The digest listing paper A alone: the header, A's plain-bullet line,
      and the closing blank line. */
  lemma DigestTextOfA(p: Paper, d: string)
    requires p == PaperA
    ensures Message([p], [12], d, 15) == Header(d) + ("-  " + (p.title + " - <" + p.id + "> (score: " + "12" + ")\n")) + "\n"
  {
    var pairs := [(p, 12)];
    assert Zip([p], [12]) == pairs;
    ConcatMapLast(pairs, LineOf(15));
    assert pairs[..0] == [];
    assert Lines(pairs, 15) == Line(p, 12, 15);
    LineOfA(p);
  }

  /** A Monday run with an empty ledger lists paper A alone, with a plain
      bullet since 12 is not above 15, and records it in the ledger. */
  lemma ExampleDigestRun(papers: seq<Paper>, today: CalendarDate)
    requires papers == [PaperA, PaperB] && today == Monday
    ensures DailyRun(Config1, today, papers, Some([]))
      == Success(Run(Some(Message([PaperA], [12], "Mon, 01 Jan 2024", 15)), Some({NewEntry(PaperA)})))
    ensures Message([PaperA], [12], "Mon, 01 Jan 2024", 15)
      == Header("Mon, 01 Jan 2024") + ("-  " + (papers[0].title + " - <" + papers[0].id + "> (score: " + "12" + ")\n")) + "\n"
  {
    DigestTextOfA(papers[0], "Mon, 01 Jan 2024");
    OnlyASelected(papers);
    SortOne();
    MondayText(today);
    LedgerOfA();
    DigestRun(Config1, today, papers, Some([]));
  }

  lemma NothingSelected(papers: seq<Paper>)
    requires papers == [PaperB]
    ensures Selected(Config1, papers, Some([])) == []
  {
    NothingSeenYet(papers);
    ExampleSelection();
  }

  lemma MondayText(today: CalendarDate)
    requires today == Monday
    ensures Weekday(today) == 0 && LongDate(today) == "Mon, 01 Jan 2024"
  {
    LongDateExample();
  }

  /** A run that finds nothing relevant says so and writes nothing. */
  lemma ExampleQuietRun(papers: seq<Paper>, today: CalendarDate)
    requires papers == [PaperB] && today == Monday
    ensures DailyRun(Config1, today, papers, Some([]))
      == Success(Run(Some(NoRelevantMessage("Mon, 01 Jan 2024")), None))
  {
    NothingSelected(papers);
    MondayText(today);
    DailyRunOutcome(Config1, today, papers, Some([]));
  }

  lemma JoinedKochHouck(names: seq<string>)
    requires names == ["J. Koch", "A. Houck"]
    ensures JoinAuthors(names) == "J. Koch, A. Houck"
  {
    assert names[..1] == ["J. Koch"];
  }

  /** The configured author rules (main.py:37-63) on the joined list
      "J. Koch, A. Houck": `'Koch'` fires and adds 7, while `'Houck '` never
      fires, since no word follows the name that ends the string, so the
      author score is what it would be without that rule. */
  lemma ConfiguredAuthorScore(names: seq<string>)
    requires names == ["J. Koch", "A. Houck"]
    ensures DefaultConfig.criteria.authors[17] == Rule("Koch", 7)
    ensures RuleValue(JoinAuthors(names), Rule("Koch", 7), false) == 7
    ensures DefaultConfig.criteria.authors[21] == Rule("Houck ", 5)
    ensures RuleValue(JoinAuthors(names), Rule("Houck ", 5), false) == 0
    ensures KeywordScore(JoinAuthors(names), DefaultConfig.criteria.authors, false)
      == KeywordScore(JoinAuthors(names), DefaultConfig.criteria.authors[..21] + DefaultConfig.criteria.authors[22..], false)
  {
    var s := JoinAuthors(names);
    JoinedKochHouck(names);
    var rules := DefaultConfig.criteria.authors;
    assert rules[17] == Rule("Koch", 7) && rules[21] == Rule("Houck ", 5);
    assert WholeWordAt(s, "Koch", 3);
    HouckExamples();
    assert rules == rules[..21] + [rules[21]] + rules[22..];
    KeywordScoreAppend(s, rules[..21] + [rules[21]], rules[22..], false);
    KeywordScoreAppend(s, rules[..21], [rules[21]], false);
    KeywordScoreAppend(s, rules[..21], rules[22..], false);
    SingleRule(s, rules[21], false);
  }
}
