/** The deduplication ledger: a JSON list of `[normalised title, "YYYY-MM-DD"]`
    pairs, read by the unseen filter (main.py:183-199), extended by
    `write_last_published` (main.py:210-238) and pruned by
    `remove_entries_older_than_days` (main.py:241-263). The file is modelled
    by its parsed contents. */
module Ledger {
  import opened Wrappers
  import opened Seqs
  import opened Text
  import opened Dates
  import opened Papers

  /** One stored `[title, date]` pair. */
  datatype Entry = Entry(title: string, date: string)

  /** The ledger file as read: None when it is missing or is not valid JSON. */
  type LedgerFile = Option<seq<Entry>>

  /** The ledger's key for a paper: its title with whitespace runs collapsed. */
  function LedgerTitle(p: Paper): string
  {
    CollapseWhitespace(p.title)
  }

  function Titles(entries: seq<Entry>): seq<string>
  {
    Map(entries, (e: Entry) => e.title)
  }

  function NotListed(titles: seq<string>): Paper -> bool
  {
    (p: Paper) => LedgerTitle(p) !in titles
  }

  /** The papers whose normalised title is not among the stored titles. */
  function Unseen(papers: seq<Paper>, titles: seq<string>): seq<Paper>
  {
    Filter(papers, NotListed(titles))
  }

  /** `filter_papers_by_paper_list` (main.py:183-199). The file is opened
      without a handler, so an unreadable ledger aborts; otherwise the papers
      whose normalised title is not stored are kept, in input order. Stored
      dates are ignored. */
  method FilterPapersByPaperList(papers: seq<Paper>, file: LedgerFile) returns (r: Result<seq<Paper>, Error>)
    ensures file.None? ==> r == Failure(LedgerUnreadable)
    ensures file.Some? ==> r == Success(Unseen(papers, Titles(file.value)))
  {
    if file.None? {
      return Failure(LedgerUnreadable);
    }
    var paperData := file.value;
    var existingTitles: seq<string> := [];
    for i := 0 to |paperData|
      invariant existingTitles == Titles(paperData[..i])
    {
      existingTitles := existingTitles + [paperData[i].title];
      assert paperData[..i + 1][..i] == paperData[..i];
    }
    assert paperData[..|paperData|] == paperData;
    var newPapers: seq<Paper> := [];
    for i := 0 to |papers|
      invariant newPapers == Unseen(papers[..i], existingTitles)
    {
      var currentTitle := CollapseWhitespace(papers[i].title);
      if currentTitle !in existingTitles {
        newPapers := newPapers + [papers[i]];
      }
      assert papers[..i + 1][..i] == papers[..i];
    }
    assert papers[..|papers|] == papers;
    return Success(newPapers);
  }

  /** Running the unseen filter again with the same ledger drops nothing more. */
  lemma UnseenIdempotent(papers: seq<Paper>, titles: seq<string>)
    ensures Unseen(Unseen(papers, titles), titles) == Unseen(papers, titles)
  {
    FilterIdempotent(papers, NotListed(titles));
  }

  /** The unseen filter keeps the input order and drops only seen papers:
      a paper is kept exactly when it is in the input and its normalised
      title is not stored, as often as it occurs in the input. */
  lemma UnseenSelects(papers: seq<Paper>, titles: seq<string>, p: Paper)
    ensures IsSubsequence(Unseen(papers, titles), papers)
    ensures p in Unseen(papers, titles) <==> p in papers && LedgerTitle(p) !in titles
    ensures multiset(Unseen(papers, titles))[p] == if LedgerTitle(p) in titles then 0 else multiset(papers)[p]
  {
    FilterIsSubsequence(papers, NotListed(titles));
    FilterMultiplicity(papers, NotListed(titles), p);
  }

  lemma {:induction false} InTitles(entries: seq<Entry>, e: Entry)
    requires e in entries
    ensures e.title in Titles(entries)
  {
    var k :| 0 <= k < |entries| && entries[k] == e;
    assert Titles(entries)[k] == e.title;
  }

  lemma {:induction false} TitlesSource(entries: seq<Entry>, t: string)
    requires t in Titles(entries)
    ensures exists e :: e in entries && e.title == t
  {
    var k :| 0 <= k < |Titles(entries)| && Titles(entries)[k] == t;
    assert entries[k] in entries;
  }

  /** Only the title is checked: a paper is treated as seen when its title is
      stored under any date at all. */
  lemma SeenUnderAnyDate(papers: seq<Paper>, entries: seq<Entry>, p: Paper, date: string)
    requires Entry(LedgerTitle(p), date) in entries
    ensures p !in Unseen(papers, Titles(entries))
  {
    InTitles(entries, Entry(LedgerTitle(p), date));
  }

  /** Two ledgers that store the same titles, whatever their dates, filter alike. */
  lemma UnseenIgnoresDates(papers: seq<Paper>, a: seq<Entry>, b: seq<Entry>)
    requires forall t :: t in Titles(a) <==> t in Titles(b)
    ensures Unseen(papers, Titles(a)) == Unseen(papers, Titles(b))
  {
    FilterCongruent(papers, NotListed(Titles(a)), NotListed(Titles(b)));
  }

  /** The pair `write_last_published` records for a paper (main.py:222-226). */
  function NewEntry(p: Paper): Entry
  {
    Entry(LedgerTitle(p), FormatIso(p.published))
  }

  /** The stored pairs; a missing or undecodable file counts as empty
      (main.py:214-218). */
  function StoredSet(file: LedgerFile): set<Entry>
  {
    if file.None? then {} else set e | e in file.value
  }

  /** `set(existing_data) | set(paper_data)` (main.py:230). */
  function Merged(file: LedgerFile, papers: seq<Paper>): set<Entry>
  {
    StoredSet(file) + set e | e in Map(papers, NewEntry)
  }

  /** `write_last_published` (main.py:210-238): builds the new pairs in a loop
      and writes the union with the stored pairs. The result is the set of
      pairs written; the order of the written list is that of Python's set
      iteration and is not modelled. */
  method WriteLastPublished(papers: seq<Paper>, file: LedgerFile) returns (written: set<Entry>)
    ensures written == Merged(file, papers)
  {
    var existingData: seq<Entry> := if file.Some? then file.value else [];
    var paperData: seq<Entry> := [];
    for i := 0 to |papers|
      invariant paperData == Map(papers[..i], NewEntry)
    {
      var title := CollapseWhitespace(papers[i].title);
      var publishDate := FormatIso(papers[i].published);
      paperData := paperData + [Entry(title, publishDate)];
      assert papers[..i + 1][..i] == papers[..i];
    }
    assert papers[..|papers|] == papers;
    written := (set e | e in existingData) + (set e | e in paperData);
  }

  /** The merged ledger holds exactly the stored pairs and the new papers'
      pairs. */
  lemma MergedContents(file: LedgerFile, papers: seq<Paper>, e: Entry)
    ensures e in Merged(file, papers) <==> e in StoredSet(file) || exists p :: p in papers && e == NewEntry(p)
  {
    if e in Map(papers, NewEntry) {
      var k :| 0 <= k < |papers| && Map(papers, NewEntry)[k] == e;
      assert papers[k] in papers;
    }
    if exists p :: p in papers && e == NewEntry(p) {
      var p :| p in papers && e == NewEntry(p);
      var k :| 0 <= k < |papers| && papers[k] == p;
      assert Map(papers, NewEntry)[k] == e;
    }
  }

  /** Merging the same papers into the ledger just written changes nothing. */
  lemma MergeIdempotent(file: LedgerFile, papers: seq<Paper>, rewritten: seq<Entry>)
    requires (set e | e in rewritten) == Merged(file, papers)
    ensures Merged(Some(rewritten), papers) == Merged(file, papers)
  {
  }

  /** Every date the merge adds reads back as the paper's date, so a ledger
      whose stored dates parse still has only parseable dates after it. */
  lemma MergedDatesParse(file: LedgerFile, papers: seq<Paper>)
    requires forall e :: e in StoredSet(file) ==> ParseIso(e.date).Some?
    ensures forall e :: e in Merged(file, papers) ==> ParseIso(e.date).Some?
  {
    forall e | e in Merged(file, papers)
      ensures ParseIso(e.date).Some?
    {
      MergedContents(file, papers, e);
      if e !in StoredSet(file) {
        var p :| p in papers && e == NewEntry(p);
        ParseFormatIso(p.published);
      }
    }
  }

  /** After the merge, every merged paper is seen: the unseen filter over the
      rewritten ledger drops all of them. */
  lemma MergedPapersAreSeen(file: LedgerFile, papers: seq<Paper>, rewritten: seq<Entry>, p: Paper)
    requires (set e | e in rewritten) == Merged(file, papers)
    requires p in papers
    ensures LedgerTitle(p) in Titles(rewritten)
  {
    MergedContents(file, papers, NewEntry(p));
    InTitles(rewritten, NewEntry(p));
  }

  /** What `remove_entries_older_than_days` leaves: the file untouched, or
      the list it writes back. */
  datatype PruneOutcome = NotWritten | Written(entries: seq<Entry>)

  /** Every stored date is a valid zero-padded `YYYY-MM-DD`. */
  predicate AllDatesParse(entries: seq<Entry>)
  {
    forall e :: e in entries ==> ParseIso(e.date).Some?
  }

  /** Entries whose date is on or after the cutoff day (given as an ordinal). */
  function OnOrAfter(cutoff: int): Entry -> bool
  {
    (e: Entry) => var d := ParseIso(e.date); d.Some? && Ordinal(d.value) >= cutoff
  }

  /** `remove_entries_older_than_days` (main.py:241-263), with today's date a
      parameter. The cutoff is computed first and overflows outside
      `date.min` .. `date.max`; an unreadable file is reported and left
      alone; a stored date that does not parse raises; otherwise the entries
      dated on or after the cutoff are written back, in stored order. */
  function PruneLedger(file: LedgerFile, today: CalendarDate, daysAgo: int): Result<PruneOutcome, Error>
  {
    var cutoff := Ordinal(today) - daysAgo;
    if !(1 <= cutoff <= MaxOrdinal) then Failure(CutoffOutOfRange)
    else if file.None? then Success(NotWritten)
    else if !AllDatesParse(file.value) then Failure(MalformedLedgerDate)
    else Success(Written(Filter(file.value, OnOrAfter(cutoff))))
  }

  /** The prune fails only when the cutoff leaves the calendar or a stored
      date does not parse; an unreadable file is never written. */
  lemma PruneOutcomes(file: LedgerFile, today: CalendarDate, daysAgo: int)
    ensures PruneLedger(file, today, daysAgo).Failure? <==>
      !(1 <= Ordinal(today) - daysAgo <= MaxOrdinal) || (file.Some? && !AllDatesParse(file.value))
    ensures PruneLedger(file, today, daysAgo).Success? ==>
      (PruneLedger(file, today, daysAgo).value.NotWritten? <==> file.None?)
    ensures 0 <= daysAgo < Ordinal(today) && file.None? ==> PruneLedger(file, today, daysAgo) == Success(NotWritten)
  {
    OrdinalRange(today);
  }

  /** The prune keeps, in stored order, exactly the entries dated on or after
      `today - daysAgo`, each as often as it is stored. */
  lemma PruneKeeps(entries: seq<Entry>, today: CalendarDate, daysAgo: int, e: Entry)
    requires PruneLedger(Some(entries), today, daysAgo).Success?
    ensures PruneLedger(Some(entries), today, daysAgo).value.Written?
    ensures IsSubsequence(PruneLedger(Some(entries), today, daysAgo).value.entries, entries)
    ensures e in PruneLedger(Some(entries), today, daysAgo).value.entries <==>
      e in entries && Ordinal(ParseIso(e.date).value) >= Ordinal(today) - daysAgo
    ensures multiset(PruneLedger(Some(entries), today, daysAgo).value.entries)[e] ==
      if OnOrAfter(Ordinal(today) - daysAgo)(e) then multiset(entries)[e] else 0
  {
    var cutoff := Ordinal(today) - daysAgo;
    var kept := Filter(entries, OnOrAfter(cutoff));
    assert PruneLedger(Some(entries), today, daysAgo) == Success(Written(kept));
    FilterIsSubsequence(entries, OnOrAfter(cutoff));
    FilterMultiplicity(entries, OnOrAfter(cutoff), e);
  }

  /** Whether a stored date survives is decided on calendar order, as Python
      compares `date` objects: it survives unless it is strictly before the
      cutoff date. */
  lemma PruneBoundary(today: CalendarDate, daysAgo: int, d: CalendarDate, cutoffDate: CalendarDate)
    requires Ordinal(cutoffDate) == Ordinal(today) - daysAgo
    ensures OnOrAfter(Ordinal(today) - daysAgo)(Entry("", FormatIso(d))) <==> !Before(d, cutoffDate)
    ensures Ordinal(d) == Ordinal(today) - daysAgo ==> OnOrAfter(Ordinal(today) - daysAgo)(Entry("", FormatIso(d)))
    ensures Ordinal(d) == Ordinal(today) - daysAgo - 1 ==> !OnOrAfter(Ordinal(today) - daysAgo)(Entry("", FormatIso(d)))
  {
    ParseFormatIso(d);
    OrdinalOrder(d, cutoffDate);
  }

  /** Pruning what the prune wrote, with the same day and window, writes it
      back unchanged. */
  lemma PruneIdempotent(entries: seq<Entry>, today: CalendarDate, daysAgo: int, kept: seq<Entry>)
    requires PruneLedger(Some(entries), today, daysAgo) == Success(Written(kept))
    ensures PruneLedger(Some(kept), today, daysAgo) == Success(Written(kept))
  {
    var cutoff := Ordinal(today) - daysAgo;
    var f := OnOrAfter(cutoff);
    assert 1 <= cutoff <= MaxOrdinal && AllDatesParse(entries) && kept == Filter(entries, f);
    FilterIdempotent(entries, f);
    assert AllDatesParse(kept);
  }

  /** A ledger that the merge wrote over a well-dated ledger can always be
      pruned without a date error. */
  lemma PruneAfterMerge(file: LedgerFile, papers: seq<Paper>, rewritten: seq<Entry>, today: CalendarDate, daysAgo: int)
    requires forall e :: e in StoredSet(file) ==> ParseIso(e.date).Some?
    requires (set e | e in rewritten) == Merged(file, papers)
    requires 1 <= Ordinal(today) - daysAgo <= MaxOrdinal
    ensures PruneLedger(Some(rewritten), today, daysAgo).Success?
    ensures PruneLedger(Some(rewritten), today, daysAgo).value.Written?
  {
    MergedDatesParse(file, papers);
    assert forall e :: e in rewritten ==> e in Merged(file, papers);
    assert AllDatesParse(rewritten);
  }
}
