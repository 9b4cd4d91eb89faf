# Log analyzer core, modelled in Dafny

This project models the analysis core of `log_analyzer.py`, a command-line
tool that reads a server log and reports on it. Each line has the form
`YYYY-MM-DD HH:MM:SS LEVEL UserID:<user> <message>`. The model covers the
following parts:

- `parse_log_line` turns one line into a record of four strings
  (timestamp, level, user id, message). It returns nothing when the line
  cannot be indexed that way.
- `filter_logs` keeps the records that match an optional level and an
  optional inclusive time window. Every record's timestamp is read with
  `strptime` first, so one unreadable timestamp aborts the whole call.
- `summarize_logs` reports the time span (first and last record), the
  number of records per level (`INFO`, `ERROR`, `WARN`) and the most
  active user.
- The body of `main` chains them: strip and parse every line, read the
  `--st_time` and `--end_time` bounds, filter, and summarize on request.

The modules follow the source:

- `Text` (`text.dfy`) holds the Python string operations the source
  calls: `str.split` with a separator and a limit, and `str.strip()`.
  `str.join` (`Join`) and `str.count` (`Occurrences`) are not called by
  the source; they are there to state what a split does
  (`SplitJoin`, `SplitCount`).
- `Timestamps` (`timestamps.dfy`) is the strict `%Y-%m-%d %H:%M:%S`
  reader with a canonical writer as its partner, plus chronological order.
- `LogParser` (`parser.dfy`) models `parse_log_line`.
- `LogFilter` (`filter.dfy`) models `filter_logs`. The loop is a method
  proved equal to a recursive specification function, `Filtered`.
- `LogSummary` (`summary.dfy`) models `summarize_logs`. The counting loop
  is the method `CountPass`, proved equal to the specification function
  `Tallies`. `max(..., key=...)` is the loop `MaxKey`.
- `Pipeline` (`pipeline.dfy`) models the analysis steps of `main`.
- `Wrappers` (`wrappers.dfy`) holds `Option` and `Result`.

Exceptions are modelled as values:

- An `IndexError` in `parse_log_line` is `None`.
- The `ValueError` of `strptime` is `Err(BadTimestamp(text))`.
- The `KeyError` of `summarize_logs` is `Err(UnknownLevel(level))`.

The model follows the code, including where it may surprise a reader:

- Lines are split on single spaces (`split(' ', 3)`), not on runs of
  whitespace. Two spaces in a row produce an empty field.
- `parse_log_line` does not check the timestamp, the level or the
  `UserID:` tag. The user id is whatever lies between the first and second
  colon of the fourth part's first word. The message is cut after
  `len('UserID:' + user) + 1` characters, whatever tag is actually there
  (`LogParser.ParseTagged`).
- A malformed line is skipped silently by the rest of the pipeline.
- A record whose timestamp does not read makes `filter_logs` raise for
  the whole input, even when the level criterion would have dropped that
  record.
- Both time bounds are inclusive, and each applies on its own. An empty
  level or bound string means "no criterion", as Python truthiness gives.
- `summarize_logs` of no records returns an empty category map, not one
  with three zeros.
- A level outside the three counted ones raises `KeyError` instead of
  being counted. `main` reports it through its catch-all handler.
- The time span is taken from the first and last record by position, not
  from the earliest and latest timestamps.

## Model

| member | source | states |
|---|---|---|
| Text.IndexOf | log_analyzer.py:12 | the index returned holds the character and no earlier position does |
| Text.IndexOfUnique | log_analyzer.py:12 | a position holding `c` with no `c` before it is the first occurrence |
| Text.TakeUntil | log_analyzer.py:12 | the result is a prefix free of the separator, and is either the whole string or followed by the separator (the first piece of a split) |
| Text.Strip | log_analyzer.py:94 | `str.strip()`: the kept text is one stretch of the line with whitespace only before and after it (`StripShape`, `StripTail`), has non-space ends (`StripEnds`), and is a fixed point (`StripIdempotent`) |
| Text.Split | log_analyzer.py:9 | `str.split(sep, maxsplit)` always yields at least one piece |
| Text.SplitCount | log_analyzer.py:9 | the number of pieces is one more than the number of separators, or than the limit when there are more separators than that |
| Text.SeparatorSplitsCount | log_analyzer.py:9 | the text after the first separator holds one separator fewer |
| Text.SplitJoin | log_analyzer.py:9 | joining the pieces of any split with the separator gives back the original string |
| Text.SplitInnerPieces | log_analyzer.py:9 | every piece except the last is free of the separator |
| Text.SplitLastPiece | log_analyzer.py:9 | the last piece is free of the separator too when the limit covers every separator |
| Text.CutAtFirst | log_analyzer.py:9 | in `x + [sep] + y` with `x` separator-free, the first separator sits at `|x|`, with `x` before it and `y` after it |
| Text.SplitAtFirst | log_analyzer.py:9-12 | splitting `x + [sep] + y` (with `x` separator-free) peels off `x` and splits `y` with the limit lowered by one |
| Text.TakeUntilFirst | log_analyzer.py:12 | the first piece of `x + [sep] + y` is `x` when `x` is separator-free |
| Text.SplitHead | log_analyzer.py:12 | `split(sep)[0]` is the text before the first separator |
| Text.LeadingSpaces | log_analyzer.py:94 | the count of leading whitespace stays within the string and stops at a non-space |
| Text.LeadingAllSpace | log_analyzer.py:94 | everything counted as leading whitespace is whitespace |
| Text.TrailingSpaces | log_analyzer.py:94 | the count of trailing whitespace stays within the string and stops at a non-space |
| Text.TrailingAllSpace | log_analyzer.py:94 | everything counted as trailing whitespace is whitespace |
| Text.StripShape | log_analyzer.py:94 | `strip()` keeps one contiguous stretch of the line, starting after its leading whitespace |
| Text.StripTail | log_analyzer.py:94 | what `strip()` drops after the kept stretch is all whitespace |
| Text.StripEnds | log_analyzer.py:94 | a non-empty stripped line neither starts nor ends with whitespace |
| Text.StripIdempotent | log_analyzer.py:94 | stripping twice is the same as stripping once |
| Timestamps.Earlier | log_analyzer.py:29-31 | datetime `<`: field-by-field order from year to second, a strict total order (`EarlierTrichotomy`, `EarlierTransitive`) |
| Timestamps.Format | log_analyzer.py:26 | the canonical `%Y-%m-%d %H:%M:%S` text, the partner of `ParseTimestamp`: each reads back as the other (`ParseFormat`, `FormatParse`) |
| Timestamps.EarlierTrichotomy | log_analyzer.py:29-31 | the `<` and `>` comparisons of timestamps form a strict total order: irreflexive, asymmetric and total |
| Timestamps.EarlierTransitive | log_analyzer.py:29-31 | the order is transitive |
| Timestamps.DigitsRoundTrip | log_analyzer.py:26 | a number below `10^width` is written in exactly `width` digits that read back as that number |
| Timestamps.DecimalRoundTrip | log_analyzer.py:26 | a digit string is the zero-padded writing of the number it denotes |
| Timestamps.ParseTimestamp | log_analyzer.py:26 | `strptime(..., '%Y-%m-%d %H:%M:%S')` yields only real calendar dates and times of day |
| Timestamps.FormatLayout | log_analyzer.py:26 | the canonical text has 19 characters, the separators in place, and each field's digits at its position |
| Timestamps.ParseFormat | log_analyzer.py:26 | every valid timestamp is read back from its canonical text |
| Timestamps.FormatParse | log_analyzer.py:26 | a text that reads is exactly the canonical text of what it reads as, so the reading is injective |
| LogParser.ParseLogLine | log_analyzer.py:6-17 | `None` exactly when the line has fewer than three spaces or the first word of its fourth part has no colon (`ParseFewerThanThreeSpaces`, `LineDecomposes`, `ParseShape`); otherwise the fields `ParseShape` gives, and a well-formed line gives back its fields (`ParseWellFormed`) |
| LogParser.FromParts | log_analyzer.py:10-17 | the part of `parse_log_line` after `split(' ', 3)`: `None` for fewer than four parts or no colon, else the record (`ParseShape`, `ColonFields`) |
| LogParser.Drop | log_analyzer.py:13 | Python's `s[n:]`: its length and characters, and empty once `n` passes the end |
| LogParser.ParseFewerThanThreeSpaces | log_analyzer.py:9-17 | a line with fewer than three spaces is malformed (`IndexError` on `parts[3]`) |
| LogParser.LineDecomposes | log_analyzer.py:9 | a line with at least three spaces is `a b c rest`, with `a`, `b`, `c` space-free, and these are its four parts |
| LogParser.SplitLine | log_analyzer.py:9 | `split(' ', 3)` of `a b c rest` (with `a`, `b`, `c` space-free) is exactly `[a, b, c, rest]` |
| LogParser.ColonFields | log_analyzer.py:12 | `word.split(':')` has a second field exactly when the word has a colon, and that field is the text between the first and second colons |
| LogParser.ParseShape | log_analyzer.py:6-17 | for `a b c rest`, parsing fails exactly when the first word of `rest` has no colon; otherwise it yields timestamp `a b`, level `c`, the user between the first two colons, and `rest` minus `8 + len(user)` characters |
| LogParser.ParseTagged | log_analyzer.py:12-13 | for `date time level tag:user message`, the user is read whatever the tag is, and the message is cut at the fixed `UserID:` length whatever the tag's length |
| LogParser.ParseWellFormed | log_analyzer.py:6-14 | a line written in the expected layout gives back its date and time, level, user and message |
| LogParser.ParseLines | log_analyzer.py:94 | the list comprehension parses every stripped line, one entry per line |
| LogFilter.Present | log_analyzer.py:23-24 | the records of the entries that parsed: a record is among them exactly when some entry holds it, and there are at most as many as entries |
| LogFilter.Lift | log_analyzer.py:22 | wrapping records as parsed entries keeps their number |
| LogFilter.Admits | log_analyzer.py:27-33 | a record with a read timestamp meets the level criterion (when set and non-empty) and both inclusive bounds |
| LogFilter.Passes | log_analyzer.py:26-33 | a record is kept when its timestamp reads and it meets the criteria (`FilteredPass`, `FilterMembership`) |
| LogFilter.Filtered | log_analyzer.py:19-34 | what `filter_logs` returns or raises, entry by entry; it returns at most one record per entry, and the lemmas below establish its error, multiplicity, order and idempotence |
| LogFilter.FilteredAppend | log_analyzer.py:22-33 | filtering a concatenation filters the first part, then the second, and concatenates the outputs; an error in the first part wins |
| LogFilter.FilteredSingle | log_analyzer.py:23-33 | a skipped entry yields nothing; an unreadable timestamp raises; otherwise the record is kept exactly when it meets the criteria |
| LogFilter.FilterLogs | log_analyzer.py:19-34 | the loop returns what the entry-by-entry specification `Filtered` returns or raises |
| LogFilter.FilterFailsOnBadTimestamp | log_analyzer.py:26 | the call raises exactly when some record's timestamp does not read, whatever the criteria, and the error names the first such timestamp |
| LogFilter.FilterKeepsPassing | log_analyzer.py:27-33 | each record appears in the output as often as in the input when it passes the criteria, and never otherwise |
| LogFilter.FilterMembership | log_analyzer.py:22-34 | a record is in the output exactly when it was parsed from some line and passes |
| LogFilter.FilterKeepsOrder | log_analyzer.py:21-34 | the output is a subsequence of the parsed records: input order is kept |
| LogFilter.SubsequenceOfTail | log_analyzer.py:21-34 | a subsequence of a tail is a subsequence of the whole |
| LogFilter.FilterWithoutCriteria | log_analyzer.py:27-33 | with no level (or an empty one), no bounds and readable timestamps, the output is every parsed record in order |
| LogFilter.FilteredPass | log_analyzer.py:27-33 | every output record passes the criteria |
| LogFilter.PassingKept | log_analyzer.py:27-33 | records that all pass come through unchanged |
| LogFilter.FilterIdempotent | log_analyzer.py:19-34 | filtering the output again with the same criteria returns it unchanged |
| LogSummary.Count | log_analyzer.py:47 | the number of records with a level: its multiplicity among the levels (`CountIsMultiplicity`), the three adding up to all records (`LevelCountsSum`) |
| LogSummary.LevelCounts | log_analyzer.py:43-47 | the reported category map: the three levels with their counts, which the counting pass produces (`TalliesLevels`, `LevelMap`) |
| LogSummary.MostFrequent | log_analyzer.py:50 | the user `max` picks: as frequent as any, and strictly more frequent than every user seen before it; unique (`MostFrequentUnique`) and met by `max` over the counting pass (`MaxKeyIsMostFrequent`) |
| LogSummary.Tallies | log_analyzer.py:43-48 | the counting pass record by record: it fails exactly on the first unknown level (`TalliesError`, `TalliesStuck`), and otherwise holds the three level counts (`TalliesLevels`) and the per-user counts keyed in first-seen order (`TalliesUsers`) |
| LogSummary.Levels | log_analyzer.py:47 | the levels of the records, one per record |
| LogSummary.UserIds | log_analyzer.py:48 | the user ids of the records, one per record |
| LogSummary.CountIsMultiplicity | log_analyzer.py:47 | the per-level count is the level's multiplicity among the records' levels |
| LogSummary.Dedup | log_analyzer.py:44-48 | the keys of a dictionary filled from a sequence: exactly its distinct elements, each appearing once |
| LogSummary.DedupFirstSeen | log_analyzer.py:48-50 | an element met before the first occurrence of the j-th key is among the first j keys (insertion order) |
| LogSummary.MaxKey | log_analyzer.py:50 | `max(keys, key=counts.get)` returns a key with the largest count, and every earlier key has a strictly smaller count |
| LogSummary.SummarizeLogs | log_analyzer.py:36-57 | no records give `N/A`, an empty map and `N/A`; the call raises exactly when some level is unknown, with the first one; otherwise the span runs from the first to the last timestamp, the categories are the three level counts, and the user is the most frequent, ties going to the first seen |
| LogSummary.CountPass | log_analyzer.py:43-48 | the counting loop computes what the specification `Tallies` computes, including the `KeyError` |
| LogSummary.TalliesStuck | log_analyzer.py:47 | once the counting pass has raised, later records do not change the outcome |
| LogSummary.TalliesLevels | log_analyzer.py:43-47 | a successful pass saw only known levels, and `levels_count` holds exactly the three levels with their counts |
| LogSummary.TalliesError | log_analyzer.py:47 | the pass raises exactly when some level is unknown, and then with the first unknown level |
| LogSummary.TalliesLast | log_analyzer.py:46-47 | one more record keeps an earlier error; otherwise it raises exactly when its level is unknown |
| LogSummary.TalliesUsers | log_analyzer.py:44-48 | after a successful pass, `user_activity` maps exactly the users to their record counts, with keys in first-seen order |
| LogSummary.LevelMap | log_analyzer.py:43-47 | a map holding exactly the three levels with their counts is the reported category map |
| LogSummary.MaxKeyIsMostFrequent | log_analyzer.py:50 | the key `max` picks from the counting pass's dictionary is the most frequent user, ties going to the first seen |
| LogSummary.SeenBeforeFirst | log_analyzer.py:48-50 | a user met before the first occurrence of the k-th key is one of the first k keys |
| LogSummary.LevelCountsSum | log_analyzer.py:43-47 | when every level is known, the three counts add up to the number of records |
| LogSummary.MostFrequentUnique | log_analyzer.py:50 | the most active user is determined uniquely |
| LogSummary.MostActiveOfThree | log_analyzer.py:50 | for users `[a, a, b]`, `a` is the most active |
| LogSummary.MostActiveTieGoesToFirst | log_analyzer.py:50 | for users `[a, b]` with one record each, the tie goes to `a` and not to `b` |
| Pipeline.TimeBound | log_analyzer.py:96-97 | an absent or empty argument gives no bound; a readable one gives a valid timestamp whose canonical text is the argument; otherwise it raises with the argument |
| Pipeline.FilterOutcome | log_analyzer.py:94-99 | what `filter_logs` returns or raises on the stripped, parsed lines once both bounds are read; what it returns has at most one row per line |
| Pipeline.Finish | log_analyzer.py:101-108 | the rows are reported, and summarized on request, as `Finished` states |
| Pipeline.Finished | log_analyzer.py:101-108 | without `--summarize` the report is the rows alone; with it, the call fails exactly when some row's level is unknown (with the first such level), and otherwise the summary has the `N/A` sentinel for no rows, or the span from the first to the last row, the three level counts and the most frequent user |
| Pipeline.Analyze | log_analyzer.py:94-108 | a bad start bound is reported before a bad end bound; with both bounds read, an unreadable record timestamp is reported with its text, and otherwise the outcome is what `Finished` says of the rows `filter_logs` returns; with a level filter only a timestamp error can occur |
| Pipeline.MalformedLineIgnored | log_analyzer.py:94 | inserting a line that does not parse changes neither what `filter_logs` returns nor what it raises |
| Pipeline.ParseLinesAppend | log_analyzer.py:94 | lines are parsed one by one: parsing a concatenation concatenates the results |
| Pipeline.SkippedEntry | log_analyzer.py:23-24 | a skipped entry changes neither what `filter_logs` returns nor what it raises |

## Left out

- `insert_to_mongodb` and the database steps of `main` (lines 59-76 and 110-115) are foreign I/O and are not modelled.
- Reading the log file, argument parsing, writing the CSV report with pandas, and printing the summary are I/O. `Pipeline.Analyze` takes the file's lines and the argument values as parameters. It returns the rows and the summary.
- Pipeline.Analyze: the CSV is written before `summarize_logs` runs, so a `KeyError` in the summary still leaves the report on disk. The model returns only the error in that case.
- Pipeline.Analyze: requires the level to be absent or one of `INFO`, `ERROR`, `WARN`, which `choices` in the argument parser enforces. Other values are rejected before any analysis happens.
- The messages `main` prints for each exception are not modelled; the `Failure` value says which handler is reached. `FileNotFoundError` is not modelled, because there is no file.
- The `print` of a skipped line in `parse_log_line` (line 16) is output only, and is not modelled.
- Timestamps.ParseTimestamp: reads only the fixed-width ASCII form (four-digit year, two digits for every other field, one space between date and time). CPython's `strptime` is more lenient, and the model rejects these texts that the source accepts:
  - one-digit months, days, hours, minutes and seconds;
  - a space-padded field such as the day in `2024-01- 1 10:00:00`;
  - any run of whitespace where the format has its space, such as a tab after the space;
  - non-ASCII decimal digits, which its digit patterns match.
  This strict reading is what makes `Timestamps.FormatParse` hold.
- LogSummary.SummarizeLogs: the `"N/A"` branch for the most active user on line 50 is not modelled as a separate outcome. It is unreachable once `logs` is non-empty, because every record adds a user.
- The summary's dictionary keys in insertion order and the exact printed text of `"Time Duration"` beyond the concatenation are not modelled.
- The `__main__` block, `api.py` and `ui.py` lie outside the analysis core, and are not part of this model.
- Python strings are modelled as sequences of code points, with no encoding. `str.strip()` uses the whitespace set of `str.isspace()`.
