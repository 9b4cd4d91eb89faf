/** `filter_logs`: keep the parsed records that match an optional level and
    an optional inclusive time window, in input order. Every record's
    timestamp is read before any criterion is applied, so one unreadable
    timestamp makes the whole call fail. */
module LogFilter {
  import opened Wrappers
  import opened Timestamps
  import opened LogParser

  /** The optional arguments `level`, `start_time` and `end_time`. */
  datatype Criteria = Criteria(level: Option<string>, start: Option<DateTime>, end: Option<DateTime>)

  /** The `ValueError` of `strptime`, carrying the text it could not read. */
  datatype FilterError = BadTimestamp(text: string)

  /** `if level and ...`: an absent and an empty level both mean "any level". */
  predicate LevelActive(c: Criteria)
  {
    c.level.Some? && c.level.value != ""
  }

  /** Whether a record whose timestamp reads as `t` meets every given criterion;
      both bounds are inclusive. */
  predicate Admits(c: Criteria, r: Record, t: DateTime)
  {
    && (!LevelActive(c) || r.level == c.level.value)
    && (c.start.None? || !Earlier(t, c.start.value))
    && (c.end.None? || !Earlier(c.end.value, t))
  }

  /** A record is kept when its timestamp reads and it meets the criteria. */
  predicate Passes(c: Criteria, r: Record)
  {
    match ParseTimestamp(r.timestamp)
    case None => false
    case Some(t) => Admits(c, r, t)
  }

  /** An input entry that makes `filter_logs` raise: a record whose timestamp
      does not read. Skipped lines (`None`) never do. */
  predicate Unreadable(entry: Option<Record>)
  {
    entry.Some? && ParseTimestamp(entry.value.timestamp).None?
  }

  /** The records of the entries that parsed, in order. */
  function Present(logs: seq<Option<Record>>): (rs: seq<Record>)
    ensures |rs| <= |logs|
    ensures forall r :: r in rs <==> Some(r) in logs
  {
    if logs == [] then []
    else (if logs[0].Some? then [logs[0].value] else []) + Present(logs[1..])
  }

  /** Entries wrapped as parsed lines. */
  function Lift(rs: seq<Record>): (logs: seq<Option<Record>>)
    ensures |logs| == |rs|
  {
    seq(|rs|, i requires 0 <= i < |rs| => Some(rs[i]))
  }

  /** `xs` is `ys` with some elements left out, order kept. */
  predicate IsSubsequence<T(==)>(xs: seq<T>, ys: seq<T>)
  {
    if xs == [] then true
    else if ys == [] then false
    else (xs[0] == ys[0] && IsSubsequence(xs[1..], ys[1..])) || IsSubsequence(xs, ys[1..])
  }

  /** What `filter_logs(logs, level, start_time, end_time)` returns or raises,
      taking the entries from left to right. */
  function Filtered(logs: seq<Option<Record>>, c: Criteria): (r: Result<seq<Record>, FilterError>)
    ensures r.Ok? ==> |r.value| <= |logs|
  {
    if logs == [] then Ok([])
    else match logs[0]
      case None => Filtered(logs[1..], c)
      case Some(r) =>
        match ParseTimestamp(r.timestamp)
        case None => Err(BadTimestamp(r.timestamp))
        case Some(t) =>
          match Filtered(logs[1..], c)
          case Err(e) => Err(e)
          case Ok(rest) => Ok(if Admits(c, r, t) then [r] + rest else rest)
  }

  /** Filtering a concatenation filters the first part, then the second. */
  lemma {:induction false} FilteredAppend(a: seq<Option<Record>>, b: seq<Option<Record>>, c: Criteria)
    ensures Filtered(a + b, c) ==
      match Filtered(a, c)
      case Err(e) => Err(e)
      case Ok(x) =>
        match Filtered(b, c)
        case Err(e) => Err(e)
        case Ok(y) => Ok(x + y)
  {
    if a == [] {
      assert a + b == b;
      if Filtered(b, c).Ok? {
        assert [] + Filtered(b, c).value == Filtered(b, c).value;
      }
    } else {
      assert (a + b)[1..] == a[1..] + b;
      FilteredAppend(a[1..], b, c);
      match Filtered(a[1..], c)
      case Err(_) =>
      case Ok(x) =>
        match Filtered(b, c)
        case Err(_) =>
        case Ok(y) =>
          if a[0].Some? && ParseTimestamp(a[0].value.timestamp).Some? {
            assert [a[0].value] + (x + y) == [a[0].value] + x + y;
          }
    }
  }

  /** The outcome for a single entry. */
  lemma FilteredSingle(entry: Option<Record>, c: Criteria)
    ensures Filtered([entry], c) ==
      if entry.None? then Ok([])
      else match ParseTimestamp(entry.value.timestamp)
        case None => Err(BadTimestamp(entry.value.timestamp))
        case Some(t) => Ok(if Admits(c, entry.value, t) then [entry.value] else [])
  {
    assert [entry][1..] == [];
    if entry.Some? {
      assert [entry.value] + [] == [entry.value];
    }
  }

  /** `filter_logs`: one pass over the entries, appending every record that
      meets the criteria. */
  method FilterLogs(logs: seq<Option<Record>>, c: Criteria) returns (result: Result<seq<Record>, FilterError>)
    ensures result == Filtered(logs, c)
  {
    var filtered: seq<Record> := [];
    for i := 0 to |logs|
      invariant Filtered(logs[..i], c) == Ok(filtered)
    {
      assert logs[..i + 1] == logs[..i] + [logs[i]];
      FilteredAppend(logs[..i], [logs[i]], c);
      FilteredSingle(logs[i], c);
      if logs[i].None? {
        assert filtered + [] == filtered;
        continue;
      }
      var log := logs[i].value;
      var timestamp := ParseTimestamp(log.timestamp);
      if timestamp.None? {
        assert logs == logs[..i + 1] + logs[i + 1..];
        FilteredAppend(logs[..i + 1], logs[i + 1..], c);
        return Err(BadTimestamp(log.timestamp));
      }
      assert filtered + [] == filtered;
      if LevelActive(c) && log.level != c.level.value {
        continue;
      }
      if c.start.Some? && Earlier(timestamp.value, c.start.value) {
        continue;
      }
      if c.end.Some? && Earlier(c.end.value, timestamp.value) {
        continue;
      }
      filtered := filtered + [log];
    }
    assert logs[..|logs|] == logs;
    result := Ok(filtered);
  }

  /** The call fails exactly when some record's timestamp does not read,
      whatever the criteria, so even a record the level would have dropped
      makes it fail; the error names the first such timestamp. */
  lemma {:induction false} FilterFailsOnBadTimestamp(logs: seq<Option<Record>>, c: Criteria)
    ensures Filtered(logs, c).Err? <==> exists i :: 0 <= i < |logs| && Unreadable(logs[i])
    ensures Filtered(logs, c).Err? ==>
      exists i :: 0 <= i < |logs| && Unreadable(logs[i])
        && (forall j :: 0 <= j < i ==> !Unreadable(logs[j]))
        && Filtered(logs, c).error == BadTimestamp(logs[i].value.timestamp)
  {
    if logs != [] {
      FilterFailsOnBadTimestamp(logs[1..], c);
      if Unreadable(logs[0]) {
      } else if Filtered(logs, c).Err? {
        var i :| 0 <= i < |logs[1..]| && Unreadable(logs[1..][i])
          && (forall j :: 0 <= j < i ==> !Unreadable(logs[1..][j]))
          && Filtered(logs[1..], c).error == BadTimestamp(logs[1..][i].value.timestamp);
        assert Unreadable(logs[i + 1]);
      } else {
        forall i | 1 <= i < |logs| ensures !Unreadable(logs[i]) {
          assert logs[i] == logs[1..][i - 1];
        }
      }
    }
  }

  /** Each record is kept as many times as it occurs in the input when it
      passes the criteria, and never when it does not. */
  lemma {:induction false} FilterKeepsPassing(logs: seq<Option<Record>>, c: Criteria, out: seq<Record>)
    requires Filtered(logs, c) == Ok(out)
    ensures forall r :: multiset(out)[r] == if Passes(c, r) then multiset(logs)[Some(r)] else 0
  {
    if logs != [] {
      assert logs == [logs[0]] + logs[1..];
      assert multiset(logs) == multiset{logs[0]} + multiset(logs[1..]);
      var rest := Filtered(logs[1..], c).value;
      FilterKeepsPassing(logs[1..], c, rest);
      if logs[0].Some? {
        var r0 := logs[0].value;
        if Passes(c, r0) {
          assert out == [r0] + rest;
          assert multiset(out) == multiset{r0} + multiset(rest);
        }
      }
    }
  }

  /** A record is in the output exactly when it passes and was parsed from
      some line: nothing is invented, nothing that passes is lost. */
  lemma FilterMembership(logs: seq<Option<Record>>, c: Criteria, out: seq<Record>, r: Record)
    requires Filtered(logs, c) == Ok(out)
    ensures r in out <==> Some(r) in logs && Passes(c, r)
  {
    FilterKeepsPassing(logs, c, out);
    assert r in out <==> multiset(out)[r] > 0;
    assert Some(r) in logs <==> multiset(logs)[Some(r)] > 0;
  }

  /** The output keeps the input order: it is the parsed records with some left out. */
  lemma {:induction false} FilterKeepsOrder(logs: seq<Option<Record>>, c: Criteria, out: seq<Record>)
    requires Filtered(logs, c) == Ok(out)
    ensures IsSubsequence(out, Present(logs))
  {
    if logs != [] {
      var rest := Filtered(logs[1..], c).value;
      FilterKeepsOrder(logs[1..], c, rest);
      if logs[0].Some? {
        var r0 := logs[0].value;
        var ys := Present(logs);
        assert ys == [r0] + Present(logs[1..]);
        assert ys[1..] == Present(logs[1..]);
        if out == [r0] + rest {
          assert out[1..] == rest;
        } else {
          assert out == rest;
          SubsequenceOfTail(rest, r0, Present(logs[1..]));
        }
      } else {
        assert Present(logs) == [] + Present(logs[1..]) == Present(logs[1..]);
      }
    }
  }

  /** A subsequence of a tail is a subsequence of the whole. */
  lemma SubsequenceOfTail<T>(xs: seq<T>, y: T, ys: seq<T>)
    requires IsSubsequence(xs, ys)
    ensures IsSubsequence(xs, [y] + ys)
  {
    assert ([y] + ys)[1..] == ys;
  }

  /** With no criteria (or an empty level) and every timestamp readable, the
      output is every parsed record, in order. */
  lemma {:induction false} FilterWithoutCriteria(logs: seq<Option<Record>>, level: Option<string>)
    requires level.None? || level == Some("")
    requires forall i :: 0 <= i < |logs| ==> !Unreadable(logs[i])
    ensures Filtered(logs, Criteria(level, None, None)) == Ok(Present(logs))
  {
    if logs != [] {
      forall i | 0 <= i < |logs[1..]| ensures !Unreadable(logs[1..][i]) {
        assert logs[1..][i] == logs[i + 1];
      }
      FilterWithoutCriteria(logs[1..], level);
      assert !Unreadable(logs[0]);
      if logs[0].None? {
        assert Present(logs) == [] + Present(logs[1..]) == Present(logs[1..]);
      }
    }
  }

  /** Every record in the output passes the criteria. */
  lemma {:induction false} FilteredPass(logs: seq<Option<Record>>, c: Criteria, out: seq<Record>)
    requires Filtered(logs, c) == Ok(out)
    ensures forall k :: 0 <= k < |out| ==> Passes(c, out[k])
  {
    FilterKeepsPassing(logs, c, out);
    forall k | 0 <= k < |out| ensures Passes(c, out[k]) {
      assert multiset(out)[out[k]] > 0;
    }
  }

  /** Records that all pass come through a filter unchanged. */
  lemma {:induction false} PassingKept(rs: seq<Record>, c: Criteria)
    requires forall k :: 0 <= k < |rs| ==> Passes(c, rs[k])
    ensures Filtered(Lift(rs), c) == Ok(rs)
  {
    if rs != [] {
      assert Lift(rs) == [Some(rs[0])] + Lift(rs[1..]);
      PassingKept(rs[1..], c);
      PassingHead(rs[0], Lift(rs[1..]), c);
      assert rs == [rs[0]] + rs[1..];
    }
  }

  /** A passing record in front is kept in front. */
  lemma PassingHead(r: Record, rest: seq<Option<Record>>, c: Criteria)
    requires Passes(c, r)
    ensures Filtered([Some(r)] + rest, c) ==
      match Filtered(rest, c)
      case Err(e) => Err(e)
      case Ok(x) => Ok([r] + x)
  {
    assert ([Some(r)] + rest)[1..] == rest;
  }

  /** Filtering twice with the same criteria is filtering once. */
  lemma FilterIdempotent(logs: seq<Option<Record>>, c: Criteria, out: seq<Record>)
    requires Filtered(logs, c) == Ok(out)
    ensures Filtered(Lift(out), c) == Ok(out)
  {
    FilteredPass(logs, c, out);
    PassingKept(out, c);
  }
}
