/** The records the pipeline works on: weighted rules, the criteria set
    (main.py:29-33) with its configured instance (main.py:36-114), and the
    feed entries the arXiv query returns. */
module Papers {
  import opened Dates

  /** A pattern and the weight a whole-word match of it adds (or, for a bad
      keyword, subtracts). */
  datatype Rule = Rule(pattern: string, weight: int)

  datatype Criteria = Criteria(authors: seq<Rule>, goodKeywords: seq<Rule>, badKeywords: seq<Rule>)

  /** One feed entry. `published` is the calendar date of its timestamp, the
      `.date()` of the parsed `published` field. */
  datatype Paper = Paper(
    title: string,
    summary: string,
    authors: seq<string>,
    id: string,
    published: CalendarDate)

  /** The ways a run can fail, each standing for the exception the program
      lets propagate. */
  datatype Error =
    | LedgerUnreadable     // `open`/`json.load` of the ledger raises (main.py:186-187)
    | NothingToSort        // `zip(*[])` cannot be unpacked (main.py:205)
    | NoPapers             // `papers[-1]` on an empty list (main.py:136)
    | CutoffOutOfRange     // `today - timedelta(days)` overflows (main.py:244)
    | MalformedLedgerDate  // `strptime(entry[1], '%Y-%m-%d')` raises (main.py:256)

  /** `THRESHOLD_SCORE` and `THRESHOLD_STAR` (main.py:21-22). */
  const ThresholdScore: int := 5
  const ThresholdStar: int := 15

  /** The author rules of `my_criteria` (main.py:37-63). */
  const MyAuthors: seq<Rule> :=
    [Rule("Devoret", 10), Rule("Blais", 10), Rule("Puri", 10), Rule("Wallraff", 10),
     Rule("Schoelkopf", 10), Rule("Leghtas", 10), Rule("Mirrahimi", 10), Rule("Siddiqi", 10),
     Rule("Grimm", 10), Rule("Oliver", 10), Rule("Frattini", 10), Rule("Fedorov", 8),
     Rule("Clerk", 5), Rule("Chen Wang", 8), Rule("Jiang", 6), Rule("Lukin", 4),
     Rule("Monroe", 4), Rule("Koch", 7), Rule("Schuster", 5), Rule("Girvin", 5),
     Rule("Minev", 5), Rule("Houck ", 5), Rule("Gambetta", 3), Rule("Martinis", 3),
     Rule("Venkatraman", 5), Rule("Retzker", 8), Rule("DiCarlo", 8)]

  /** The good keywords of `my_criteria` (main.py:65-85). */
  const MyGoodKeywords: seq<Rule> :=
    [Rule("superconducting", 4), Rule("niobium cavity", 5), Rule("Bosonic", 3),
     Rule("Josephson", 3), Rule("Transmon", 2), Rule("qubit", 2), Rule("cat", 2),
     Rule("kerr-cat", 5), Rule("dissipative cat", 5), Rule("circuit QED", 3),
     Rule("quantum error correction", 4), Rule("quantum information processing", 5),
     Rule("quantum computing", 2), Rule("XZZX", 2), Rule("GKP", 2), Rule("microwave", 2),
     Rule("High-Q", 2), Rule("distillation", 3), Rule("artificial atom", 3),
     Rule("squeezing", 2), Rule("Nb ", 2)]

  /** The bad keywords of `my_criteria` (main.py:87-113). */
  const MyBadKeywords: seq<Rule> :=
    [Rule("nitrogen", 2), Rule("ion", 2), Rule("spin", 2), Rule("optical", 2),
     Rule("laser", 3), Rule("molecular", 3), Rule("molecule", 3), Rule("nanowire", 2),
     Rule("MoTe2", 3), Rule("Mott", 3), Rule("phonon", 2), Rule("diamond", 3),
     Rule("magnon", 3), Rule("vibrational", 2), Rule("quantum dot", 2),
     Rule("nanomechanical", 2), Rule("mechanical resonator", 2), Rule("black hole", 4),
     Rule("gravity", 4), Rule("finance", 2), Rule("algebra", 2), Rule("annealing", 2),
     Rule("markovian", 1), Rule("decoder", 1), Rule("neural network", 1),
     Rule("MaxCut", 1), Rule("toric", 1)]

  /** `my_criteria` (main.py:36-114). */
  const MyCriteria: Criteria := Criteria(MyAuthors, MyGoodKeywords, MyBadKeywords)
}
