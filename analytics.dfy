/** Aggregates over the derived task table: the health snapshot (total,
    flag counts and frequency maps by status and by owner) and the four-line
    daily summary. Both derive the table themselves, from the same
    threshold and the same `now`. */
module Analytics {
  import opened Text
  import opened TaskManager

  // ---- Counting flagged rows ----

  /** The boolean columns that the aggregates sum. */
  datatype Flag = Blocked | AtRisk | LongRunning | CompletedToday

  predicate Holds(f: Flag, d: DerivedRow) {
    match f
    case Blocked => d.isBlocked
    case AtRisk => d.atRisk
    case LongRunning => d.isLongRunning
    case CompletedToday => d.task.status == "Completed" && d.inactivityDays == 0
  }

  /** `column.sum()` over a boolean column: the number of rows for which
      the flag holds. */
  function CountFlag(rows: seq<DerivedRow>, f: Flag): (n: nat)
    ensures n <= |rows|
  {
    if |rows| == 0 then 0
    else CountFlag(rows[..|rows| - 1], f) + (if Holds(f, rows[|rows| - 1]) then 1 else 0)
  }

  ghost function IndicesWhere(rows: seq<DerivedRow>, f: Flag): set<int> {
    set k | 0 <= k < |rows| && Holds(f, rows[k])
  }

  /** Extending the rows by one row adds that row's position to the
      positions where the flag holds exactly when it holds there. */
  lemma IndicesWhereSnoc(rows: seq<DerivedRow>, f: Flag)
    requires |rows| > 0
    ensures IndicesWhere(rows, f)
         == IndicesWhere(rows[..|rows| - 1], f) + (if Holds(f, rows[|rows| - 1]) then {|rows| - 1} else {})
  {
    var prefix := rows[..|rows| - 1];
    assert forall k :: 0 <= k < |prefix| ==> prefix[k] == rows[k];
  }

  /** The count is the number of positions at which the flag holds. */
  lemma {:induction false} CountFlagIsIndexCount(rows: seq<DerivedRow>, f: Flag)
    ensures CountFlag(rows, f) == |IndicesWhere(rows, f)|
  {
    if |rows| > 0 {
      var n := |rows| - 1;
      CountFlagIsIndexCount(rows[..n], f);
      IndicesWhereSnoc(rows, f);
      assert n !in IndicesWhere(rows[..n], f);
    }
  }

  // ---- Frequency maps ----

  /** `column.value_counts().to_dict()`: every label of the column mapped to
      the number of times it occurs. */
  function Frequencies(labels: seq<string>): (m: map<string, nat>)
    ensures forall x :: x in m <==> x in labels
    ensures forall x :: x in m ==> m[x] == multiset(labels)[x] && m[x] >= 1
  {
    if |labels| == 0 then map[]
    else
      var prefix := labels[..|labels| - 1];
      var last := labels[|labels| - 1];
      var before := Frequencies(prefix);
      assert labels == prefix + [last];
      before[last := (if last in before then before[last] else 0) + 1]
  }

  /** The sum of the values of a map. */
  ghost function MapSum(m: map<string, nat>): nat
    decreases |m.Keys|
  {
    if m.Keys == {} then 0
    else
      var k :| k in m.Keys;
      m[k] + MapSum(m - {k})
  }

  /** Removing two keys one after the other, in either order, leaves the
      same map, smaller than the original by each step. */
  lemma RemoveTwoKeys(m: map<string, nat>, j: string, k: string)
    requires j in m && k in m && j != k
    ensures |(m - {j}).Keys| < |m.Keys| && |(m - {k}).Keys| < |m.Keys|
    ensures k in m - {j} && j in m - {k}
    ensures (m - {j}) - {k} == (m - {k}) - {j}
  {
    assert (m - {j}).Keys == m.Keys - {j};
    assert (m - {k}).Keys == m.Keys - {k};
  }

  /** The sum does not depend on which key is taken out first. */
  lemma {:induction false} MapSumRemove(m: map<string, nat>, k: string)
    requires k in m
    ensures MapSum(m) == m[k] + MapSum(m - {k})
    decreases |m.Keys|
  {
    var j :| j in m.Keys && MapSum(m) == m[j] + MapSum(m - {j});
    if j != k {
      RemoveTwoKeys(m, j, k);
      MapSumRemove(m - {j}, k);
      MapSumRemove(m - {k}, j);
    }
  }

  /** The counts of a frequency map add up to the length of the column. */
  lemma {:induction false} FrequenciesSumToLength(labels: seq<string>)
    ensures MapSum(Frequencies(labels)) == |labels|
  {
    if |labels| > 0 {
      var prefix := labels[..|labels| - 1];
      var last := labels[|labels| - 1];
      var before := Frequencies(prefix);
      var m := Frequencies(labels);
      FrequenciesSumToLength(prefix);
      MapSumRemove(m, last);
      assert m - {last} == before - {last};
      if last in before {
        MapSumRemove(before, last);
      } else {
        assert before - {last} == before;
      }
    }
  }

  /** A column has at least one distinct value when it is not empty, and no
      more distinct values than rows. */
  lemma {:induction false} DistinctValuesBounds(labels: seq<string>)
    ensures |set x | x in labels| <= |labels|
    ensures |labels| > 0 ==> |set x | x in labels| >= 1
  {
    if |labels| > 0 {
      var prefix := labels[..|labels| - 1];
      var last := labels[|labels| - 1];
      DistinctValuesBounds(prefix);
      assert labels == prefix + [last];
      assert (set x | x in labels) == (set x | x in prefix) + {last};
    }
  }

  /** `len(column.unique())`: the number of distinct values of a column. */
  function DistinctCount(labels: seq<string>): (n: nat)
    ensures n <= |labels|
    ensures |labels| > 0 ==> n >= 1
  {
    DistinctValuesBounds(labels);
    |set x | x in labels|
  }

  function Statuses(table: seq<Task>): seq<string> {
    seq(|table|, k requires 0 <= k < |table| => table[k].status)
  }

  function Owners(table: seq<Task>): seq<string> {
    seq(|table|, k requires 0 <= k < |table| => table[k].owner)
  }

  // ---- Health snapshot ----

  datatype Health = Health(
    total: nat,
    blocked: nat,
    atRisk: nat,
    longRunning: nat,
    byStatus: map<string, nat>,
    byOwner: map<string, nat>)

  /** The health snapshot of a table; every count is zero and both maps are
      empty for the empty table. */
  function ComputeHealth(tasks: seq<Task>, threshold: int, now: int): (h: Health)
    ensures h.total == |tasks|
    ensures h.blocked <= h.total && h.atRisk <= h.total && h.longRunning <= h.total
    ensures forall s :: s in h.byStatus <==> s in Statuses(tasks)
    ensures forall s :: s in h.byStatus ==> h.byStatus[s] == multiset(Statuses(tasks))[s] >= 1
    ensures forall o :: o in h.byOwner <==> o in Owners(tasks)
    ensures forall o :: o in h.byOwner ==> h.byOwner[o] == multiset(Owners(tasks))[o] >= 1
    ensures |tasks| == 0 ==> h == Health(0, 0, 0, 0, map[], map[])
  {
    var rows := WithDerivedMetrics(tasks, threshold, now);
    var table := OriginalRows(rows);
    var total := |rows|;
    Health(
      total,
      if total > 0 then CountFlag(rows, Blocked) else 0,
      if total > 0 then CountFlag(rows, AtRisk) else 0,
      if total > 0 then CountFlag(rows, LongRunning) else 0,
      if total > 0 then Frequencies(Statuses(table)) else map[],
      if total > 0 then Frequencies(Owners(table)) else map[])
  }

  /** Each flag count is the number of tasks for which the corresponding
      condition on the stored fields holds. */
  lemma HealthCounts(tasks: seq<Task>, threshold: int, now: int)
    ensures ComputeHealth(tasks, threshold, now).blocked
         == |set k | 0 <= k < |tasks| && tasks[k].status == "Blocked"|
    ensures ComputeHealth(tasks, threshold, now).atRisk
         == |set k | 0 <= k < |tasks| && now - tasks[k].lastUpdatedAt >= threshold * SecondsPerDay|
    ensures ComputeHealth(tasks, threshold, now).longRunning
         == |set k | 0 <= k < |tasks| && tasks[k].status != "Completed"
                                      && now - tasks[k].createdAt >= 2 * threshold * SecondsPerDay|
  {
    var rows := WithDerivedMetrics(tasks, threshold, now);
    CountFlagIsIndexCount(rows, Blocked);
    CountFlagIsIndexCount(rows, AtRisk);
    CountFlagIsIndexCount(rows, LongRunning);
    assert IndicesWhere(rows, Blocked) == set k | 0 <= k < |tasks| && tasks[k].status == "Blocked";
    assert IndicesWhere(rows, AtRisk)
        == set k | 0 <= k < |tasks| && now - tasks[k].lastUpdatedAt >= threshold * SecondsPerDay;
    assert IndicesWhere(rows, LongRunning)
        == set k | 0 <= k < |tasks| && tasks[k].status != "Completed"
                                    && now - tasks[k].createdAt >= 2 * threshold * SecondsPerDay;
  }

  /** The counts of each frequency map add up to the number of tasks. */
  lemma HealthMapsSumToTotal(tasks: seq<Task>, threshold: int, now: int)
    ensures MapSum(ComputeHealth(tasks, threshold, now).byStatus) == |tasks|
    ensures MapSum(ComputeHealth(tasks, threshold, now).byOwner) == |tasks|
  {
    FrequenciesSumToLength(Statuses(tasks));
    FrequenciesSumToLength(Owners(tasks));
  }

  // ---- Daily summary ----

  datatype Summary = Summary(
    total: nat,
    blocked: nat,
    atRisk: nat,
    completedToday: nat,
    ownersActive: nat)

  /** The figures of the daily summary. Blocked and at-risk agree with the
      health snapshot; "completed today" and the owner count never exceed
      the total, and a non-empty table has at least one active owner. */
  function SummaryFigures(tasks: seq<Task>, threshold: int, now: int): (s: Summary)
    ensures s.total == |tasks|
    ensures s.blocked == ComputeHealth(tasks, threshold, now).blocked
    ensures s.atRisk == ComputeHealth(tasks, threshold, now).atRisk
    ensures s.completedToday <= s.total
    ensures s.ownersActive == DistinctCount(Owners(tasks))
    ensures s.ownersActive <= s.total
    ensures s.total > 0 ==> s.ownersActive >= 1
    ensures s.total == 0 ==> s == Summary(0, 0, 0, 0, 0)
  {
    var rows := WithDerivedMetrics(tasks, threshold, now);
    var total := |rows|;
    Summary(
      total,
      if total > 0 then CountFlag(rows, Blocked) else 0,
      if total > 0 then CountFlag(rows, AtRisk) else 0,
      if total > 0 then CountFlag(rows, CompletedToday) else 0,
      if total > 0 then DistinctCount(Owners(OriginalRows(rows))) else 0)
  }

  /** "Completed today" counts the completed tasks last updated less than
      one day before `now` (and not after it). */
  lemma CompletedTodayCount(tasks: seq<Task>, threshold: int, now: int)
    ensures SummaryFigures(tasks, threshold, now).completedToday
         == |set k | 0 <= k < |tasks| && tasks[k].status == "Completed"
                                      && 0 <= now - tasks[k].lastUpdatedAt < SecondsPerDay|
  {
    var rows := WithDerivedMetrics(tasks, threshold, now);
    CountFlagIsIndexCount(rows, CompletedToday);
    assert IndicesWhere(rows, CompletedToday)
        == set k | 0 <= k < |tasks| && tasks[k].status == "Completed"
                                    && 0 <= now - tasks[k].lastUpdatedAt < SecondsPerDay;
  }

  /** For a non-empty table, the summary's count of active owners is the
      number of owners in the health report's per-owner breakdown. */
  lemma OwnersActiveMatchesHealth(tasks: seq<Task>, threshold: int, now: int)
    requires |tasks| > 0
    ensures SummaryFigures(tasks, threshold, now).ownersActive
         == |ComputeHealth(tasks, threshold, now).byOwner.Keys|
  {
    var h := ComputeHealth(tasks, threshold, now);
    assert h.byOwner.Keys == set x | x in Owners(tasks);
  }

  /** A line made of a caption and a printed count holds no newline. */
  lemma LabelledCountLine(caption: string, n: nat)
    requires '\n' !in caption
    ensures '\n' !in caption + NatToDecimal(n)
  {
    DecimalHasNoNewline(n);
  }

  /** The four lines of the summary text, none of which holds a newline. */
  function SummaryLines(s: Summary): (r: seq<string>)
    ensures |r| == 4
    ensures forall k :: 0 <= k < |r| ==> '\n' !in r[k]
  {
    var blocked := OneLine("Blocked: ") + NatToDecimal(s.blocked);
    LabelledCountLine(OneLine("Total tasks: "), s.total);
    LabelledCountLine(OneLine("Blocked: "), s.blocked);
    LabelledCountLine(blocked + OneLine(", At-Risk: "), s.atRisk);
    LabelledCountLine(OneLine("Completed today: "), s.completedToday);
    LabelledCountLine(OneLine("Owners active: "), s.ownersActive);
    [ "Total tasks: " + NatToDecimal(s.total),
      blocked + ", At-Risk: " + NatToDecimal(s.atRisk),
      "Completed today: " + NatToDecimal(s.completedToday),
      "Owners active: " + NatToDecimal(s.ownersActive) ]
  }

  /** The daily summary text: the four lines joined by newlines, so that
      splitting it into lines gives back exactly those lines. */
  function DailySummary(tasks: seq<Task>, threshold: int, now: int): (r: string)
    ensures SplitLines(r) == SummaryLines(SummaryFigures(tasks, threshold, now))
  {
    var lines := SummaryLines(SummaryFigures(tasks, threshold, now));
    SplitJoinLines(lines);
    Join(lines, "\n")
  }

  /** The summary text is exactly four lines: the number of tasks, the
      blocked and at-risk counts of the health snapshot, the completed-today
      count and the number of active owners. */
  lemma DailySummaryLines(tasks: seq<Task>, threshold: int, now: int)
    ensures var lines := SplitLines(DailySummary(tasks, threshold, now));
            var h := ComputeHealth(tasks, threshold, now);
            var s := SummaryFigures(tasks, threshold, now);
            && |lines| == 4
            && lines[0] == "Total tasks: " + NatToDecimal(|tasks|)
            && lines[1] == "Blocked: " + NatToDecimal(h.blocked) + ", At-Risk: " + NatToDecimal(h.atRisk)
            && lines[2] == "Completed today: " + NatToDecimal(s.completedToday)
            && lines[3] == "Owners active: " + NatToDecimal(s.ownersActive)
  {
  }
}
