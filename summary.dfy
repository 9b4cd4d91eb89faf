/** `summarize_logs`: the time span of a record sequence (by position), the
    number of records per level, and the most active user. */
module LogSummary {
  import opened Wrappers
  import opened Text
  import opened LogParser

  /** The three entries of the summary dictionary. */
  datatype Summary = Summary(timeDuration: string, logsByCategory: map<string, nat>, mostActiveUser: string)

  /** The `KeyError` raised for a level outside the three counted ones. */
  datatype SummaryError = UnknownLevel(level: string)

  const NotAvailable: string := "N/A"

  /** The levels `levels_count` is seeded with. */
  predicate KnownLevel(level: string)
  {
    level == "INFO" || level == "ERROR" || level == "WARN"
  }

  function Levels(logs: seq<Record>): (levels: seq<string>)
    ensures |levels| == |logs|
  {
    seq(|logs|, i requires 0 <= i < |logs| => logs[i].level)
  }

  function UserIds(logs: seq<Record>): (ids: seq<string>)
    ensures |ids| == |logs|
  {
    seq(|logs|, i requires 0 <= i < |logs| => logs[i].userId)
  }

  /** The number of records with the given level. */
  function Count(logs: seq<Record>, level: string): nat
  {
    if logs == [] then 0
    else Count(logs[..|logs| - 1], level) + (if logs[|logs| - 1].level == level then 1 else 0)
  }

  /** `Count` is the multiplicity of the level among the records' levels. */
  lemma {:induction false} CountIsMultiplicity(logs: seq<Record>, level: string)
    ensures Count(logs, level) == multiset(Levels(logs))[level]
  {
    if logs != [] {
      var init := logs[..|logs| - 1];
      CountIsMultiplicity(init, level);
      assert Levels(logs) == Levels(init) + [logs[|logs| - 1].level];
    }
  }

  /** The level counts as the summary reports them. */
  function LevelCounts(logs: seq<Record>): map<string, nat>
  {
    map["INFO" := Count(logs, "INFO"), "ERROR" := Count(logs, "ERROR"), "WARN" := Count(logs, "WARN")]
  }

  /** `u` occurs in `ids` at least as often as any other element, and every
      element met before the first `u` occurs strictly less often: the
      element `max` picks from a dictionary of counts kept in first-seen order. */
  predicate MostFrequent(ids: seq<string>, u: string)
  {
    && u in ids
    && (forall i :: 0 <= i < |ids| ==> multiset(ids)[ids[i]] <= multiset(ids)[u])
    && (forall i :: 0 <= i < IndexOf(ids, u) ==> multiset(ids)[ids[i]] < multiset(ids)[u])
  }

  /** The distinct elements of `s` in the order they are first seen: the keys
      of a dictionary filled from `s`. */
  function Dedup(s: seq<string>): (d: seq<string>)
    ensures forall x :: x in d <==> x in s
    ensures forall i, j :: 0 <= i < j < |d| ==> d[i] != d[j]
  {
    if s == [] then []
    else
      var d := Dedup(s[..|s| - 1]);
      assert s == s[..|s| - 1] + [s[|s| - 1]];
      if s[|s| - 1] in d then d else d + [s[|s| - 1]]
  }

  /** Every element met before the first occurrence of `Dedup(s)[j]` is among
      the first `j` distinct elements. */
  lemma {:induction false} DedupFirstSeen(s: seq<string>, j: nat, i: nat)
    requires j < |Dedup(s)| && i < |s| && Dedup(s)[j] !in s[..i + 1]
    ensures s[i] in Dedup(s)[..j]
  {
    var n := |s| - 1;
    var init := s[..n];
    var d := Dedup(init);
    var x := Dedup(s)[j];
    assert s == init + [s[n]];
    assert s[..n + 1] == s;
    if i < n {
      if j < |d| {
        assert x == d[j];
        assert init[..i + 1] == s[..i + 1];
        DedupFirstSeen(init, j, i);
        assert Dedup(s)[..j] == d[..j];
      } else {
        assert s[n] !in d && Dedup(s) == d + [s[n]] && j == |d|;
        assert s[i] == init[i] && s[i] in init;
        assert Dedup(s)[..j] == d;
      }
    }
  }

  /** `max(user_activity, key=user_activity.get)`: the position of the first
      key whose count is largest. */
  method MaxKey(keys: seq<string>, counts: map<string, nat>) returns (best: nat)
    requires keys != []
    requires forall k :: k in keys ==> k in counts
    ensures best < |keys|
    ensures forall j :: 0 <= j < |keys| ==> counts[keys[j]] <= counts[keys[best]]
    ensures forall j :: 0 <= j < best ==> counts[keys[j]] < counts[keys[best]]
  {
    best := 0;
    for k := 1 to |keys|
      invariant best < |keys|
      invariant forall j :: 0 <= j < k ==> counts[keys[j]] <= counts[keys[best]]
      invariant forall j :: 0 <= j < best ==> counts[keys[j]] < counts[keys[best]]
    {
      if counts[keys[k]] > counts[keys[best]] {
        best := k;
      }
    }
  }

  /** `summarize_logs`: the span from the first to the last record, a
      counting pass that raises on an unknown level, and `max` over the
      per-user counts. */
  method SummarizeLogs(logs: seq<Record>) returns (result: Result<Summary, SummaryError>)
    ensures logs == [] ==> result == Ok(Summary(NotAvailable, map[], NotAvailable))
    ensures result.Err? <==> exists i :: 0 <= i < |logs| && !KnownLevel(logs[i].level)
    ensures result.Err? ==>
      exists i :: 0 <= i < |logs| && !KnownLevel(logs[i].level)
        && (forall j :: 0 <= j < i ==> KnownLevel(logs[j].level))
        && result.error == UnknownLevel(logs[i].level)
    ensures result.Ok? && logs != [] ==>
      && result.value.timeDuration == logs[0].timestamp + " - " + logs[|logs| - 1].timestamp
      && result.value.logsByCategory == LevelCounts(logs)
      && MostFrequent(UserIds(logs), result.value.mostActiveUser)
  {
    if logs == [] {
      return Ok(Summary(NotAvailable, map[], NotAvailable));
    }
    var startTime := logs[0].timestamp;
    var endTime := logs[|logs| - 1].timestamp;
    var outcome := CountPass(logs);
    TalliesError(logs);
    if outcome.Err? {
      return Err(outcome.error);
    }
    var Tally(levelsCount, userActivity, users) := outcome.value;
    TalliesLevels(logs);
    LevelMap(levelsCount, logs);
    TalliesUsers(logs);
    assert UserIds(logs)[0] in UserIds(logs);
    // `max` keeps the first key whose count is largest
    var best := MaxKey(users, userActivity);
    MaxKeyIsMostFrequent(UserIds(logs), userActivity, best);
    result := Ok(Summary(startTime + " - " + endTime, levelsCount, users[best]));
  }

  /** What the counting pass builds: `levels_count`, `user_activity` and the
      keys of `user_activity` in insertion order. */
  datatype Tally = Tally(levelsCount: map<string, nat>, userActivity: map<string, nat>, users: seq<string>)

  /** The counting pass over the records, one record at a time from the
      seeded level counts; it fails at the first record whose level is not a
      key of the level counts. */
  function Tallies(logs: seq<Record>): Result<Tally, SummaryError>
  {
    if logs == [] then Ok(Tally(map["INFO" := 0, "ERROR" := 0, "WARN" := 0], map[], []))
    else
      var log := logs[|logs| - 1];
      match Tallies(logs[..|logs| - 1])
      case Err(e) => Err(e)
      case Ok(Tally(levelsCount, userActivity, users)) =>
        if log.level !in levelsCount then Err(UnknownLevel(log.level))
        else Ok(Tally(levelsCount[log.level := levelsCount[log.level] + 1],
                      userActivity[log.userId := (if log.userId in userActivity then userActivity[log.userId] else 0) + 1],
                      if log.userId in userActivity then users else users + [log.userId]))
  }

  /** The counting loop of `summarize_logs`. */
  method CountPass(logs: seq<Record>) returns (outcome: Result<Tally, SummaryError>)
    ensures outcome == Tallies(logs)
  {
    var levelsCount: map<string, nat> := map["INFO" := 0, "ERROR" := 0, "WARN" := 0];
    var userActivity: map<string, nat> := map[];
    var users: seq<string> := [];
    assert logs[..0] == [];
    for i := 0 to |logs|
      invariant Tallies(logs[..i]) == Ok(Tally(levelsCount, userActivity, users))
    {
      var log := logs[i];
      assert logs[..i + 1][..i] == logs[..i];
      if log.level !in levelsCount {
        TalliesStuck(logs, i + 1);
        return Err(UnknownLevel(log.level));
      }
      levelsCount := levelsCount[log.level := levelsCount[log.level] + 1];
      if log.userId !in userActivity {
        users := users + [log.userId];
      }
      userActivity := userActivity[log.userId := (if log.userId in userActivity then userActivity[log.userId] else 0) + 1];
    }
    assert logs[..|logs|] == logs;
    return Ok(Tally(levelsCount, userActivity, users));
  }

  /** Once the counting pass has failed, later records do not change the outcome. */
  lemma {:induction false} TalliesStuck(logs: seq<Record>, k: nat)
    requires k <= |logs| && Tallies(logs[..k]).Err?
    ensures Tallies(logs) == Tallies(logs[..k])
    decreases |logs|
  {
    if k < |logs| {
      var init := logs[..|logs| - 1];
      assert init[..k] == logs[..k];
      TalliesStuck(init, k);
    } else {
      assert logs[..k] == logs;
    }
  }

  /** A successful counting pass saw only known levels, and its level counts
      hold the three levels with their numbers of records. */
  lemma {:induction false} TalliesLevels(logs: seq<Record>)
    ensures Tallies(logs).Ok? ==>
      && (forall j :: 0 <= j < |logs| ==> KnownLevel(logs[j].level))
      && (forall level :: level in Tallies(logs).value.levelsCount <==> KnownLevel(level))
      && (forall level :: level in Tallies(logs).value.levelsCount ==>
            Tallies(logs).value.levelsCount[level] == Count(logs, level))
  {
    if logs != [] {
      var init := logs[..|logs| - 1];
      TalliesLevels(init);
      assert forall j :: 0 <= j < |init| ==> init[j] == logs[j];
    }
  }

  /** The counting pass fails exactly when some level is unknown, and then
      with the first unknown level. */
  lemma {:induction false} TalliesError(logs: seq<Record>)
    ensures Tallies(logs).Err? <==> exists i :: 0 <= i < |logs| && !KnownLevel(logs[i].level)
    ensures Tallies(logs).Err? ==>
      exists i :: 0 <= i < |logs| && !KnownLevel(logs[i].level)
        && (forall j :: 0 <= j < i ==> KnownLevel(logs[j].level))
        && Tallies(logs).error == UnknownLevel(logs[i].level)
  {
    if logs != [] {
      var n := |logs| - 1;
      var init := logs[..n];
      TalliesError(init);
      TalliesLast(logs);
      assert forall j :: 0 <= j < n ==> init[j] == logs[j];
      if Tallies(init).Err? {
        var i :| 0 <= i < n && !KnownLevel(init[i].level)
          && (forall j :: 0 <= j < i ==> KnownLevel(init[j].level))
          && Tallies(init).error == UnknownLevel(init[i].level);
        assert !KnownLevel(logs[i].level);
      } else if !KnownLevel(logs[n].level) {
        assert forall j :: 0 <= j < n ==> KnownLevel(logs[j].level);
      } else {
        assert forall j :: 0 <= j < |logs| ==> KnownLevel(logs[j].level) by {
          assert forall j :: 0 <= j < n ==> KnownLevel(init[j].level);
        }
      }
    }
  }

  /** One more record: an error so far stays the error; otherwise the pass
      fails exactly when the new record's level is unknown, and then with it. */
  lemma TalliesLast(logs: seq<Record>)
    requires logs != []
    ensures Tallies(logs[..|logs| - 1]).Err? ==> Tallies(logs) == Tallies(logs[..|logs| - 1])
    ensures Tallies(logs[..|logs| - 1]).Ok? ==>
      (Tallies(logs).Err? <==> !KnownLevel(logs[|logs| - 1].level))
    ensures Tallies(logs[..|logs| - 1]).Ok? && Tallies(logs).Err? ==>
      Tallies(logs).error == UnknownLevel(logs[|logs| - 1].level)
  {
    TalliesLevels(logs[..|logs| - 1]);
  }

  /** After a successful counting pass, `user_activity` maps exactly the
      users of the records to their numbers of records, and its keys in
      insertion order are the users in the order they are first seen. */
  lemma {:induction false} TalliesUsers(logs: seq<Record>)
    ensures Tallies(logs).Ok? ==>
      && (forall u :: u in Tallies(logs).value.userActivity <==> u in UserIds(logs))
      && (forall u :: u in Tallies(logs).value.userActivity ==>
            Tallies(logs).value.userActivity[u] == multiset(UserIds(logs))[u])
      && Tallies(logs).value.users == Dedup(UserIds(logs))
  {
    if logs != [] {
      var init := logs[..|logs| - 1];
      TalliesUsers(init);
      var ids := UserIds(logs);
      assert ids == UserIds(init) + [logs[|logs| - 1].userId];
      assert ids[..|ids| - 1] == UserIds(init);
    }
  }

  /** A map holding exactly the three levels, each with its count, is the
      one the summary reports. */
  lemma LevelMap(m: map<string, nat>, logs: seq<Record>)
    requires forall level :: level in m <==> KnownLevel(level)
    requires forall level :: level in m ==> m[level] == Count(logs, level)
    ensures m == LevelCounts(logs)
  {
  }

  /** The key `MaxKey` picks from the counts of the counting pass is the most
      frequent user. */
  lemma MaxKeyIsMostFrequent(ids: seq<string>, counts: map<string, nat>, best: nat)
    requires forall u :: u in counts ==> counts[u] == multiset(ids)[u]
    requires forall u :: u in ids ==> u in counts
    requires best < |Dedup(ids)|
    requires forall j :: 0 <= j < |Dedup(ids)| ==> counts[Dedup(ids)[j]] <= counts[Dedup(ids)[best]]
    requires forall j :: 0 <= j < best ==> counts[Dedup(ids)[j]] < counts[Dedup(ids)[best]]
    ensures MostFrequent(ids, Dedup(ids)[best])
  {
    var users := Dedup(ids);
    var m := users[best];
    forall i | 0 <= i < |ids| ensures multiset(ids)[ids[i]] <= multiset(ids)[m] {
      var u := ids[i];
      assert u in users;
      var j :| 0 <= j < |users| && users[j] == u;
    }
    forall i | 0 <= i < IndexOf(ids, m) ensures multiset(ids)[ids[i]] < multiset(ids)[m] {
      SeenBeforeFirst(ids, best, i);
    }
  }

  /** An element met before the first occurrence of `Dedup(ids)[k]` is one
      of the first `k` distinct elements. */
  lemma SeenBeforeFirst(ids: seq<string>, k: nat, i: nat)
    requires k < |Dedup(ids)| && Dedup(ids)[k] in ids
    requires i < IndexOf(ids, Dedup(ids)[k])
    ensures exists j :: 0 <= j < k && Dedup(ids)[j] == ids[i]
  {
    var first := IndexOf(ids, Dedup(ids)[k]);
    assert ids[..i + 1] == ids[..first][..i + 1];
    DedupFirstSeen(ids, k, i);
  }

  /** When every level is one of the three, their counts add up to the number
      of records. */
  lemma {:induction false} LevelCountsSum(logs: seq<Record>)
    requires forall i :: 0 <= i < |logs| ==> KnownLevel(logs[i].level)
    ensures Count(logs, "INFO") + Count(logs, "ERROR") + Count(logs, "WARN") == |logs|
  {
    if logs != [] {
      LevelCountsSum(logs[..|logs| - 1]);
    }
  }

  /** The most active user is determined uniquely. */
  lemma MostFrequentUnique(ids: seq<string>, u: string, v: string)
    requires MostFrequent(ids, u) && MostFrequent(ids, v)
    ensures u == v
  {
    var iu := IndexOf(ids, u);
    var iv := IndexOf(ids, v);
  }

  /** Users `[a, a, b]`: `a` is the most active. */
  lemma MostActiveOfThree(a: string, b: string)
    requires a != b
    ensures MostFrequent([a, a, b], a)
  {
    var ids := [a, a, b];
    assert multiset(ids)[a] == 2 && multiset(ids)[b] == 1;
  }

  /** Users `[a, b]`, one record each: the tie goes to `a`, seen first. */
  lemma MostActiveTieGoesToFirst(a: string, b: string)
    requires a != b
    ensures MostFrequent([a, b], a) && !MostFrequent([a, b], b)
  {
    var ids := [a, b];
    assert multiset(ids)[a] == 1 && multiset(ids)[b] == 1;
    assert b !in ids[..1];
  }
}
