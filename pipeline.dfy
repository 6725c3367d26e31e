/** One run of the daily job, `get_message` (main.py:279-312): on a working
    day, drop the papers already in the ledger, keep the relevant ones,
    record them in the ledger, and list them by descending score. The papers
    fetched from arXiv, the ledger file as read and the current date are
    inputs. */
module Pipeline {
  import opened Wrappers
  import opened Seqs
  import opened Dates
  import opened Papers
  import opened Scorer
  import opened Ledger
  import opened Ranking
  import opened Digest

  /** The constants a run uses: the scoring criteria and the two thresholds. */
  datatype Config = Config(criteria: Criteria, thresholdScore: int, thresholdStar: int)

  const DefaultConfig: Config := Config(MyCriteria, ThresholdScore, ThresholdStar)

  /** What a run leaves behind: the message it returns (None on a weekend,
      where the function falls through and returns nothing) and the pairs it
      writes to the ledger (None when the ledger is not written). */
  datatype Run = Run(message: Option<string>, written: Option<set<Entry>>)

  function NoRelevantMessage(dateText: string): string
  {
    "No relevant papers found for " + dateText + "."
  }

  function NewPapers(papers: seq<Paper>, file: LedgerFile): seq<Paper>
    requires file.Some?
  {
    Ledger.Unseen(papers, Titles(file.value))
  }

  /** The papers a working-day run lists, before sorting. */
  function Selected(cfg: Config, papers: seq<Paper>, file: LedgerFile): seq<Paper>
    requires file.Some?
  {
    Relevant(NewPapers(papers, file), cfg.criteria, cfg.thresholdScore)
  }

  /** The outcome of `get_message` run on `today`. */
  function DailyRun(cfg: Config, today: CalendarDate, papers: seq<Paper>, file: LedgerFile): Result<Run, Error>
  {
    if Weekday(today) >= 5 then Success(Run(None, None))
    else if file.None? then Failure(LedgerUnreadable)
    else
      var relevant := Selected(cfg, papers, file);
      if relevant == [] then Success(Run(Some(NoRelevantMessage(LongDate(today))), None))
      else
        var sorted :- SortPapersByScore(relevant, Map(relevant, ScoreWith(cfg.criteria)));
        Success(Run(Some(Message(sorted.0, sorted.1, LongDate(today), cfg.thresholdStar)), Some(Merged(file, relevant))))
  }

  /** `get_message` (main.py:279-312), calling the steps in the order the
      source does: the ledger is written before the list is sorted. */
  method GetMessage(cfg: Config, today: CalendarDate, papers: seq<Paper>, file: LedgerFile)
    returns (r: Result<Run, Error>)
    ensures r == DailyRun(cfg, today, papers, file)
  {
    var weekday := Weekday(today);
    if !(weekday < 5) {
      return Success(Run(None, None));
    }
    var newPapers :- FilterPapersByPaperList(papers, file);
    var relevantPapers, scores := FilterPapersByScore(newPapers, cfg.criteria, cfg.thresholdScore);
    if !(|relevantPapers| > 0) {
      return Success(Run(Some(NoRelevantMessage(LongDate(today))), None));
    }
    var written := WriteLastPublished(relevantPapers, file);
    var sortResult := SortPapersByScore(relevantPapers, scores);
    if sortResult.Failure? {
      assert false;
    }
    var sorted := sortResult.value;
    var message := CreateMessage(sorted.0, sorted.1, LongDate(today), cfg.thresholdStar);
    return Success(Run(Some(message), Some(written)));
  }

  /** A run fails only on a working day with an unreadable ledger; on a
      weekend it does nothing; otherwise it returns a message, and it writes
      the ledger exactly when it found relevant papers. */
  lemma DailyRunOutcome(cfg: Config, today: CalendarDate, papers: seq<Paper>, file: LedgerFile)
    ensures DailyRun(cfg, today, papers, file).Failure? <==> Weekday(today) < 5 && file.None?
    ensures DailyRun(cfg, today, papers, file).Failure? ==> DailyRun(cfg, today, papers, file).error == LedgerUnreadable
    ensures Weekday(today) >= 5 ==> DailyRun(cfg, today, papers, file) == Success(Run(None, None))
    ensures Weekday(today) < 5 && file.Some? ==>
      var run := DailyRun(cfg, today, papers, file).value;
      && run.message.Some?
      && (run.written.Some? <==> Selected(cfg, papers, file) != [])
      && (run.written.None? ==> run.message.value == NoRelevantMessage(LongDate(today)))
  {
    if Weekday(today) < 5 && file.Some? {
      var relevant := Selected(cfg, papers, file);
      SortPapersByScoreSpec(relevant, Map(relevant, ScoreWith(cfg.criteria)), 0);
    }
  }

  /** Sorting the relevant papers with their scores lists each of them once
      with its own score, which is above the threshold. */
  lemma SortedRelevant(c: Criteria, threshold: int, candidates: seq<Paper>)
    requires Relevant(candidates, c, threshold) != []
    ensures var relevant := Relevant(candidates, c, threshold);
      var sorted := SortPapersByScore(relevant, Map(relevant, ScoreWith(c)));
      && sorted.Success?
      && |sorted.value.0| == |sorted.value.1| == |relevant|
      && multiset(sorted.value.0) == multiset(relevant)
      && (forall i :: 0 <= i < |sorted.value.0| ==>
            sorted.value.1[i] == PaperScore(sorted.value.0[i], c) > threshold)
  {
    var relevant := Relevant(candidates, c, threshold);
    var scores := Map(relevant, ScoreWith(c));
    SortPapersByScorePermutes(relevant, scores);
    var sorted := SortPapersByScore(relevant, scores);
    assert Zip(relevant, scores) == Map(relevant, Tag(ScoreWith(c)));
    var ps, ss := sorted.value.0, sorted.value.1;
    TaggedPermutation(ps, ss, relevant, ScoreWith(c));
    forall i | 0 <= i < |ps|
      ensures ss[i] == PaperScore(ps[i], c) > threshold
    {
      assert ps[i] in relevant;
      assert AboveThreshold(c, threshold)(ps[i]);
    }
  }

  /** The sorted scores never increase: the highest score comes first. */
  lemma SortedRelevantOrder(c: Criteria, threshold: int, candidates: seq<Paper>)
    requires Relevant(candidates, c, threshold) != []
    ensures var relevant := Relevant(candidates, c, threshold);
      var sorted := SortPapersByScore(relevant, Map(relevant, ScoreWith(c)));
      && sorted.Success?
      && forall i, j :: 0 <= i < j < |sorted.value.1| ==> sorted.value.1[i] >= sorted.value.1[j]
  {
    var relevant := Relevant(candidates, c, threshold);
    SortPapersByScoreSpec(relevant, Map(relevant, ScoreWith(c)), 0);
  }

  /** On a working day with relevant papers, the run returns the digest of
      the sorted selection and writes the selection's pairs into the ledger. */
  lemma DigestRun(cfg: Config, today: CalendarDate, papers: seq<Paper>, file: LedgerFile)
    requires Weekday(today) < 5 && file.Some?
    requires Selected(cfg, papers, file) != []
    ensures var relevant := Selected(cfg, papers, file);
      var sorted := SortPapersByScore(relevant, Map(relevant, ScoreWith(cfg.criteria)));
      && sorted.Success?
      && DailyRun(cfg, today, papers, file)
           == Success(Run(Some(Message(sorted.value.0, sorted.value.1, LongDate(today), cfg.thresholdStar)),
                          Some(Merged(file, relevant))))
  {
    SortedRelevant(cfg.criteria, cfg.thresholdScore, NewPapers(papers, file));
  }

  /** A second run on the same listing, against the ledger the first run
      wrote (stored in any order), finds nothing new and leaves the ledger
      alone: every paper the first run listed or had seen is now seen. */
  lemma RerunFindsNothingNew(cfg: Config, today: CalendarDate, papers: seq<Paper>, file: LedgerFile, rewritten: seq<Entry>)
    requires Weekday(today) < 5 && file.Some?
    requires DailyRun(cfg, today, papers, file).Success?
    requires DailyRun(cfg, today, papers, file).value.written.Some?
    requires (set e | e in rewritten) == DailyRun(cfg, today, papers, file).value.written.value
    ensures Selected(cfg, papers, Some(rewritten)) == []
    ensures DailyRun(cfg, today, papers, Some(rewritten)) == Success(Run(Some(NoRelevantMessage(LongDate(today))), None))
  {
    var relevant := Selected(cfg, papers, file);
    DailyRunOutcome(cfg, today, papers, file);
    assert (set e | e in rewritten) == Merged(file, relevant);
    var unseenAgain := NewPapers(papers, Some(rewritten));
    forall p | p in unseenAgain
      ensures !AboveThreshold(cfg.criteria, cfg.thresholdScore)(p)
    {
      UnseenSelects(papers, Titles(rewritten), p);
      UnseenSelects(papers, Titles(file.value), p);
      if LedgerTitle(p) in Titles(file.value) {
        TitlesSource(file.value, LedgerTitle(p));
        var e :| e in file.value && e.title == LedgerTitle(p);
        MergedContents(file, relevant, e);
        InTitles(rewritten, e);
      } else if PaperScore(p, cfg.criteria) > cfg.thresholdScore {
        RelevantSelects(NewPapers(papers, file), cfg.criteria, cfg.thresholdScore, p);
        MergedPapersAreSeen(file, relevant, rewritten, p);
      }
    }
    FilterNone(unseenAgain, AboveThreshold(cfg.criteria, cfg.thresholdScore));
  }
}
