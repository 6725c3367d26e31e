# arxiv_bot paper-selection pipeline in Dafny

This project models the paper-selection core of the arXiv digest bot (`main.py`).

- **Daily job.** On a working day, `get_message` takes the quant-ph papers of the last week and drops those whose whitespace-normalised title is already in the JSON ledger. It scores the rest against weighted author, good-keyword and bad-keyword rules, keeps the papers scoring strictly above `THRESHOLD_SCORE`, records them in the ledger, and returns a Markdown digest. The digest lists them by descending score and stars the ones above `THRESHOLD_STAR`.
- **Scoring.** A rule matches when its pattern occurs as a whole word, ignoring case: `\b` + escaped pattern + `\b`.
- **Ledger.** Entries are `[title, "YYYY-MM-DD"]` pairs, merged as a set and pruned by date.

The model takes the source's own form:

- **Loops become methods.** The accumulator loops are `method`s with loop invariants: `calculate_score`, `filter_papers_by_score`, `filter_papers_by_paper_list`, `write_last_published`, `filter_papers_by_most_recent_date` and `create_message`. Each is proved equal to a specification function.
- **Straight-line code becomes methods too.** `get_paper_score` and `get_message` have no loop of their own. They are `method`s that call the others in the source's order, proved equal to a specification function.
- **Expressions become functions.** The pure parts are functions: the `sorted`/`zip` expression, the set union and the prune comprehension.
- **Properties are lemmas.** The source's promises are proved about those functions.

Modules:

- `Wrappers`: `Option` and `Result`.
- `Seqs`: generic filter, map, zip and subsequence lemmas.
- `Text`: `\b`, `\s`, case folding, the regex search, and both title clean-ups.
- `Numerals`: `str(int)`.
- `Dates`: `datetime.date`, ordinals, `%Y-%m-%d`, the weekday, and `'%a, %d %b %Y'`.
- `Papers`: records and the configured criteria.
- `Scorer`: scoring.
- `Ledger`: the unseen filter, the merge and the prune.
- `Ranking`: the threshold filter, the stable sort and the most-recent-date filter.
- `Digest`: the message text.
- `Pipeline`: `get_message`.
- `Scenarios`: worked runs.

External inputs become parameters:

- The fetched papers are a parameter, with each `published` timestamp already reduced to its calendar date.
- The ledger file is a parameter, given as its parsed contents (`None` when it is missing or is not valid JSON).
- Today's date is a parameter.

How the code treats the ledger:

- **Unread ledger aborts a run.** `filter_papers_by_paper_list` opens the ledger without a handler (main.py:186-187). A missing or invalid ledger therefore aborts a working-day run with `LedgerUnreadable`.
- **Merge and prune recover.** The merge treats a missing or invalid ledger as empty (main.py:214-218). The prune prints and leaves the file untouched (main.py:247-252).
- **Prune order.** The prune writes back the kept entries as a list, in stored order, each as often as it was stored (main.py:255-263).
- **Merge writes a set.** The merge writes the set union of the stored and new pairs (main.py:230-231). The model keeps that set.
- **No author list in the digest.** `create_message` prints no list of matched authors (main.py:266-276).

## Model

| member | source | states |
|---|---|---|
| Text.Search | main.py:166 | the regex finds the pattern exactly when some position holds a case-insensitive occurrence with a word/non-word transition at both ends (string ends count as non-word) |
| Text.SearchFrom | main.py:166 | scanning start positions from `from` finds a match exactly when one exists at or after `from` |
| Text.IonExamples | main.py:166 | examples: "ion" is not found inside "ionosphere" but is found in "trapped ion system", both in lower case and as "ION" |
| Text.HouckExamples | main.py:58 | examples: `'Houck '` is not found in "J. Koch, A. Houck" or "A. Houck, J. Koch", where no space follows the name, and is found in "A. Houck Jr" |
| Text.HouckAtEnd | main.py:58 | example: in "J. Koch, A. Houck " the pattern `'Houck '` occurs, but no word character follows its space, so it is not found |
| Text.HouckBeforeComma | main.py:58 | example: in "A. Houck , J. Koch" the pattern `'Houck '` occurs, but a comma follows its space, so it is not found |
| Text.TrailingNonWordNeedsWordAfter | main.py:166 | a pattern ending in a non-word character matches only right before a word character |
| Text.LeadingNonWordNeedsWordBefore | main.py:166 | a pattern starting with a non-word character matches only right after a word character |
| Text.NothingInEmptyText | main.py:166 | nothing matches in an empty text |
| Text.NoMatchWithoutChar | main.py:166 | a pattern is not found in a text that lacks one of its characters, ignoring case |
| Text.ExtendRight | main.py:150 | appending text that starts with a non-word character keeps a whole-word match |
| Text.ExtendLeft | main.py:150 | prepending text that ends with a non-word character keeps a whole-word match, shifted |
| Text.CollapseIsCollapsed | main.py:195 | the normalised title has no whitespace but single plain spaces |
| Text.CollapseFixesCollapsed | main.py:195 | a title whose only whitespace is single plain spaces is left unchanged by the normaliser |
| Text.CollapseIdempotent | main.py:195 | normalising a normalised title changes nothing |
| Text.CollapseKeepsNonSpace | main.py:195 | the normaliser keeps every non-whitespace character, in order |
| Text.HalveKeepsNonBlank | main.py:269 | the single `'  '`→`' '` pass deletes only plain spaces |
| Text.HalveFixesSingleSpaced | main.py:269 | the pass leaves a text without two adjacent spaces unchanged |
| Text.HalveRemovesPairs | main.py:269 | when the title has no three spaces in a row, the pass leaves no two in a row |
| Text.TitleCleanupsDiffer | main.py:269 | three spaces survive the digest's pass as two but the ledger normaliser makes them one |
| Text.DisplayTitle | main.py:269 | the displayed title holds no newline |
| Text.DisplayTitleFixesPlainTitle | main.py:269 | a one-line, single-spaced title is displayed as it is |
| Numerals.IntToStringRoundTrip | main.py:272-274 | the printed score reads back as the same integer and holds no newline |
| Dates.OrdinalOrder | main.py:256 | comparing ordinals is comparing dates (year, month, day) |
| Dates.OrdinalRange | main.py:244 | every valid date's ordinal lies between `date.min` and `date.max` |
| Dates.ParseFormatIso | main.py:224-225 | a date written as `%Y-%m-%d` parses back to the same date |
| Dates.FormatParseIso | main.py:256 | a date string that parses is exactly the formatting of its date |
| Dates.WeekdayAdvances | main.py:282 | the weekday advances by one a day, modulo seven |
| Dates.LongDateOneLine | main.py:267 | the date text holds no newline |
| Dates.LongDateExample | main.py:267 | 2024-01-01 is a Monday and reads "Mon, 01 Jan 2024" |
| Scorer.CalculateScore | main.py:163-168 | the accumulator loop returns the score of the rule list |
| Scorer.KeywordScoreIsMatchedWeight | main.py:163-168 | the score is the summed weight of the rules that match, each counted once, negated for a bad list |
| Scorer.KeywordScoreOrderFree | main.py:165-167 | reordering the rules does not change the score |
| Scorer.KeywordScoreOfEmptyText | main.py:163-168 | an empty text scores 0 against any list |
| Scorer.AuthorMatchCarries | main.py:150-154 | an author pattern matching one name also matches the `', '`-joined author string |
| Scorer.GetPaperScore | main.py:147-160 | the five channel scores are added into one total |
| Scorer.PaperScoreChannels | main.py:147-160 | total = matched authors + good(title) + good(abstract) − bad(title) − bad(abstract) |
| Scorer.EmptyChannelsScoreZero | main.py:150-158 | an empty author list or abstract contributes nothing, and an empty paper scores 0 |
| Ranking.FilterPapersByScore | main.py:171-180 | the two lists have equal length; each score exceeds the threshold and is its paper's score; a paper is kept exactly when it is in the input and scores above the threshold |
| Ranking.RelevantSelects | main.py:171-180 | the kept papers are an in-order subsequence with the input's multiplicities; a score equal to the threshold is dropped |
| Ranking.SortPapersByScoreSpec | main.py:202-207 | sorting fails exactly on empty input; otherwise it returns a permutation of the pairs with non-increasing scores, and pairs of equal score stay in input order |
| Ranking.SortPapersByScorePermutes | main.py:204-205 | a successful sort returns the same pairs, rearranged |
| Ranking.SortDescStable | main.py:204 | for every score, the pairs with that score leave in the order they came |
| Ranking.SortDescSorted | main.py:204 | the sorted pairs have non-increasing scores |
| Ranking.FilterPapersByMostRecentDate | main.py:134-144 | an empty list fails on `papers[-1]`; otherwise the papers dated like the last one are kept, in order |
| Ranking.MostRecentDateSpec | main.py:134-144 | the result is non-empty, ends with the last paper, and holds every input paper of that date as often as it occurs and no other, in input order |
| Ledger.FilterPapersByPaperList | main.py:183-199 | an unreadable ledger aborts; otherwise the papers whose normalised title is not stored are kept, in order |
| Ledger.UnseenSelects | main.py:192-199 | a paper is kept exactly when it is in the input and its normalised title is not stored, with its multiplicity, order kept |
| Ledger.UnseenIdempotent | main.py:183-199 | filtering twice against the same ledger drops nothing more |
| Ledger.SeenUnderAnyDate | main.py:188-196 | only the title is compared: a stored title under any date counts as seen |
| Ledger.UnseenIgnoresDates | main.py:188-196 | ledgers with the same titles filter alike, whatever their dates |
| Ledger.WriteLastPublished | main.py:210-238 | the pairs written are the stored pairs plus the new papers' (normalised title, `%Y-%m-%d` date) pairs |
| Ledger.MergedContents | main.py:214-231 | a pair is written exactly when it was stored or belongs to a new paper; a missing ledger counts as empty |
| Ledger.MergeIdempotent | main.py:230 | merging the same papers into the written ledger changes nothing |
| Ledger.MergedDatesParse | main.py:224-226 | every date the merge adds parses back |
| Ledger.MergedPapersAreSeen | main.py:230 | after the merge every merged paper's title is stored |
| Ledger.PruneOutcomes | main.py:241-263 | the prune fails only on an out-of-range cutoff or an unparseable stored date; an unreadable file is never written |
| Ledger.PruneKeeps | main.py:255-256 | the written list is an in-order subsequence holding every stored entry dated on or after today − days, as often as it is stored, and no other |
| Ledger.PruneBoundary | main.py:243-256 | an entry dated at the cutoff survives, one a day older is dropped, and the test is Python's date order |
| Ledger.PruneIdempotent | main.py:255-263 | pruning the written list again writes it back unchanged |
| Ledger.PruneAfterMerge | main.py:230 | a ledger written by the merge over a well-dated ledger always prunes without a date error |
| Digest.CreateMessage | main.py:266-276 | the loop builds the header, one line per (paper, score) pair in order, and a final newline |
| Digest.StarMarker | main.py:271-274 | a line starts with `- :star: ` exactly when the score exceeds the star threshold, otherwise with `-  ` |
| Digest.LinesAppend | main.py:268 | the lines follow the given order: the lines of a concatenation are the concatenated lines |
| Digest.MessageNewlines | main.py:266-276 | with newline-free date and ids the digest has two newlines more than it lists papers |
| Digest.MessageEndsBlank | main.py:275 | the digest ends with an empty line |
| Pipeline.GetMessage | main.py:279-312 | the steps run in the source's order and give the run's outcome |
| Pipeline.DailyRunOutcome | main.py:285-304 | a run fails only on a working day with an unreadable ledger; a weekend returns nothing; the ledger is written exactly when relevant papers were found |
| Pipeline.SortedRelevant | main.py:292-301 | the sorted list holds each relevant paper once, paired with its own score, which exceeds the threshold |
| Pipeline.SortedRelevantOrder | main.py:301 | the listed scores never increase |
| Pipeline.DigestRun | main.py:299-304 | a run with relevant papers returns the digest of the sorted selection and writes the selection into the ledger |
| Pipeline.RerunFindsNothingNew | main.py:291-299 | a second run on the same listing against the ledger just written finds nothing new and writes nothing |
| Scenarios.ExampleScores | main.py:147-168 | an author match (10) plus a title keyword (2) score 12; a good (2) and a bad (3) title keyword score −1 |
| Scenarios.ExampleSelection | main.py:171-180 | with threshold 5 the paper scoring 12 is kept and the one scoring −1 is not |
| Scenarios.ExampleDigestRun | main.py:279-304 | a Monday run with an empty ledger lists the qualifying paper alone, as the header, its plain-bullet line and a blank line, and records its pair |
| Scenarios.ExampleQuietRun | main.py:295-297 | a run that finds nothing relevant returns the fixed message and writes nothing |
| Scenarios.ConfiguredAuthorScore | main.py:37-63 | with the configured author rules, "J. Koch, A. Houck" gets 7 from `'Koch'` and nothing from `'Houck '`, so the author score equals the score without that rule |

## Left out

- `get_quant_ph_papers` (main.py:119-131): the HTTP fetch through feedparser. The fetched list is an input.
- `send_message` (main.py:314-331) and the `__main__` block (main.py:333-338): the HTTP POST and argv handling.
- The file operations `open`, `json.load`, `json.dump` and `json.dumps` (main.py:186-187, 214-218, 234-238, 247-252, 259-263) are left out. The ledger is given as its parsed entries, or `None` when it is missing or is not valid JSON.
- Other read errors are left out. The merge and the prune catch only `FileNotFoundError` and `JSONDecodeError` (main.py:217, 250). A ledger that exists but cannot be opened (`PermissionError`, `IsADirectoryError`) or cannot be decoded in the locale's encoding (`UnicodeDecodeError`) makes them raise. `open(json_file, 'r')` names no encoding. The model has no value for such a file.
- Ledger entries other than `[title, date]` pairs are left out. A list shorter than two makes the unseen filter's unpacking (main.py:188) and the prune's `entry[1]` (main.py:256) raise. A longer list makes the unseen filter raise, while the merge keeps it as a longer tuple (main.py:216) and the prune keeps or drops it by its second item. A two-character string unpacks into its two characters at main.py:188. Other JSON values are not modelled either.
- Writing is modelled by its result. `WriteLastPublished` returns the set of pairs written, and `PruneLedger` returns the list it would write.
- WriteLastPublished: the order of the written list is Python's set iteration order, which is not modelled. The result is the set of pairs.
- `datetime.now()` (main.py:243, 281) is the `today` parameter. The hour (main.py:283) and the always-true hour check (main.py:286) have no effect and are left out.
- The prints (main.py:280, 287, 310, 312, 251) are left out.
- The prune call after `return` (main.py:307) is dead code, so a run never prunes. `PruneLedger` is modelled on its own.
- The unused Discord/asyncio imports and the constants `TRIGGER_COMMAND` and `PUBLISH_HOUR` (main.py:19, 24) are left out. So is the ledger path (main.py:26).
- `\w` is modelled as ASCII letters, digits and underscore, and IGNORECASE as ASCII case folding. Unicode word characters and Unicode case folding are not modelled. `\s` covers the characters `str.isspace` accepts.
- The `published` timestamp string and its `strptime` parse (main.py:136, 139, 224) are left out. Each paper carries the calendar date already. A malformed timestamp would raise and is not modelled.
- The strict ledger-date parse accepts only zero-padded `YYYY-MM-DD`. `strptime` also accepts unpadded months and days, which the model treats as unparseable.
- Dates.FormatIso: `%Y` is written with four digits. The platform-dependent output for years below 1000 is not modelled.
- The configured `my_criteria` (main.py:36-114) is kept as data. Most worked runs use a small criteria set. `ConfiguredAuthorScore` applies the configured author rules.
