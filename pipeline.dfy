/** The analysis `main` runs: parse every stripped line of the log file, read
    the optional time bounds, filter, and summarize on request. */
module Pipeline {
  import opened Wrappers
  import opened Text
  import opened Timestamps
  import opened LogParser
  import opened LogFilter
  import opened LogSummary

  /** What `main` produces: the rows of the CSV report, and the summary when
      one was asked for. */
  datatype Report = Report(rows: seq<Record>, summary: Option<Summary>)

  /** Why `main` stops early: the `ValueError` of a timestamp that does not
      read (a bound argument or a record), which its handler reports as an
      invalid date format, or the `KeyError` of `summarize_logs`, which ends
      up in its catch-all handler for `Exception`. */
  datatype Failure = InvalidTime(text: string) | UnknownLevelKey(level: string)

  /** A time-bound argument: absent or empty means no bound; otherwise it must
      read as a timestamp. */
  function TimeBound(arg: Option<string>): (r: Result<Option<DateTime>, string>)
    ensures r.Ok? && r.value.None? <==> arg.None? || arg.value == ""
    ensures r.Ok? && r.value.Some? ==> arg.Some? && Valid(r.value.value) && Format(r.value.value) == arg.value
    ensures r.Err? <==> arg.Some? && arg.value != "" && ParseTimestamp(arg.value).None?
    ensures r.Err? ==> r.error == arg.value
  {
    if arg.None? || arg.value == "" then Ok(None)
    else
      match ParseTimestamp(arg.value)
      case None => Err(arg.value)
      case Some(t) => FormatParse(arg.value); Ok(Some(t))
  }

  /** What `filter_logs` returns or raises on the stripped and parsed lines,
      once both bound arguments have been read. */
  function FilterOutcome(lines: seq<string>, level: Option<string>, startArg: Option<string>, endArg: Option<string>)
    : (r: Result<seq<Record>, FilterError>)
    requires TimeBound(startArg).Ok? && TimeBound(endArg).Ok?
    ensures r.Ok? ==> |r.value| <= |lines|
  {
    var c := Criteria(level, TimeBound(startArg).value, TimeBound(endArg).value);
    Filtered(ParseLines(lines), c)
  }

  /** What `main` does with the filtered rows, as the source promises it:
      without `--summarize` it reports the rows alone; with it, the call
      raises exactly when some row's level is not one of the three, with
      the first such level, and otherwise reports the summary of the rows. */
  predicate Finished(rows: seq<Record>, summarize: bool, r: Result<Report, Failure>)
  {
    && (!summarize ==> r == Ok(Report(rows, None)))
    && (summarize ==> (r.Err? <==> exists i :: 0 <= i < |rows| && !KnownLevel(rows[i].level)))
    && (summarize && r.Err? ==>
          exists i :: 0 <= i < |rows| && !KnownLevel(rows[i].level)
            && (forall j :: 0 <= j < i ==> KnownLevel(rows[j].level))
            && r == Err(UnknownLevelKey(rows[i].level)))
    && (r.Ok? ==> r.value.rows == rows && (r.value.summary.Some? <==> summarize))
    && (r.Ok? && summarize && rows == [] ==>
          r.value.summary == Some(Summary(NotAvailable, map[], NotAvailable)))
    && (r.Ok? && summarize && rows != [] ==>
          && r.value.summary.value.timeDuration == rows[0].timestamp + " - " + rows[|rows| - 1].timestamp
          && r.value.summary.value.logsByCategory == LevelCounts(rows)
          && MostFrequent(UserIds(rows), r.value.summary.value.mostActiveUser))
  }

  /** Lines 101-108 of `main`: the rows are reported, and summarized on request. */
  method Finish(rows: seq<Record>, summarize: bool) returns (r: Result<Report, Failure>)
    ensures Finished(rows, summarize, r)
  {
    if !summarize {
      return Ok(Report(rows, None));
    }
    var s := SummarizeLogs(rows);
    if s.Err? {
      return Err(UnknownLevelKey(s.error.level));
    }
    return Ok(Report(rows, Some(s.value)));
  }

  /** `main` without its file and database I/O. `level` is one of the three
      levels or absent, as the argument parser only admits those. */
  method Analyze(lines: seq<string>, level: Option<string>, startArg: Option<string>, endArg: Option<string>, summarize: bool)
    returns (r: Result<Report, Failure>)
    requires level.None? || KnownLevel(level.value)
    ensures TimeBound(startArg).Err? ==> r == Err(InvalidTime(startArg.value))
    ensures TimeBound(startArg).Ok? && TimeBound(endArg).Err? ==> r == Err(InvalidTime(endArg.value))
    ensures TimeBound(startArg).Ok? && TimeBound(endArg).Ok? && FilterOutcome(lines, level, startArg, endArg).Err? ==>
      r == Err(InvalidTime(FilterOutcome(lines, level, startArg, endArg).error.text))
    ensures TimeBound(startArg).Ok? && TimeBound(endArg).Ok? && FilterOutcome(lines, level, startArg, endArg).Ok? ==>
      Finished(FilterOutcome(lines, level, startArg, endArg).value, summarize, r)
    ensures level.Some? && r.Err? ==> r.error.InvalidTime?
  {
    var logs := ParseLines(lines);
    var start := TimeBound(startArg);
    if start.Err? {
      return Err(InvalidTime(start.error));
    }
    var end := TimeBound(endArg);
    if end.Err? {
      return Err(InvalidTime(end.error));
    }
    var c := Criteria(level, start.value, end.value);
    var filtered := FilterLogs(logs, c);
    assert filtered == FilterOutcome(lines, level, startArg, endArg);
    if filtered.Err? {
      return Err(InvalidTime(filtered.error.text));
    }
    var rows := filtered.value;
    // every row meets the criteria: under a level filter, its level is known
    FilteredPass(logs, c, rows);
    r := Finish(rows, summarize);
  }

  /** A line that does not parse is skipped: the report is the same as
      without it. */
  lemma MalformedLineIgnored(pre: seq<string>, bad: string, post: seq<string>, c: Criteria)
    requires ParseLogLine(Strip(bad)).None?
    ensures Filtered(ParseLines(pre + [bad] + post), c) == Filtered(ParseLines(pre + post), c)
  {
    ParseLinesAppend(pre + [bad], post);
    ParseLinesAppend(pre, [bad]);
    ParseLinesAppend(pre, post);
    assert ParseLines([bad]) == [None];
    SkippedEntry(ParseLines(pre), ParseLines(post), c);
  }

  /** Lines are parsed one by one. */
  lemma ParseLinesAppend(a: seq<string>, b: seq<string>)
    ensures ParseLines(a + b) == ParseLines(a) + ParseLines(b)
  {
    forall k | 0 <= k < |a + b| ensures ParseLines(a + b)[k] == (ParseLines(a) + ParseLines(b))[k] {
      if k < |a| {
        assert (a + b)[k] == a[k];
      } else {
        assert (a + b)[k] == b[k - |a|];
      }
    }
  }

  /** A skipped entry does not change what `filter_logs` returns or raises. */
  lemma SkippedEntry(p: seq<Option<Record>>, q: seq<Option<Record>>, c: Criteria)
    ensures Filtered(p + [None] + q, c) == Filtered(p + q, c)
  {
    assert p + [None] + q == p + ([None] + q);
    assert ([None] + q)[1..] == q;
    FilteredAppend(p, [None] + q, c);
    FilteredAppend(p, q, c);
  }
}
