/** The daily timeline of scripts/generate_dashboard.py: every stored
    vulnerability row is assigned to the day it was first seen and counted
    as new (never seen again) or repeat (seen again at least once). */
module Timeline {
  import opened Strings
  import Dict

  /** The three columns the timeline query selects from a stored row. */
  datatype Selected = Selected(firstSeen: string, lastSeen: string, repeatCount: int)

  /** Per-day counters, both starting at zero. */
  datatype Tally = Tally(newRows: nat, repeatRows: nat)

  /** The dashboard chart: `dates` with the aligned `new_findings` and
      `repeated_findings` arrays. */
  datatype Chart = Chart(dates: seq<string>, newFindings: seq<int>, repeatedFindings: seq<int>)

  /** The day of a row: its `first_seen` up to the first "T". */
  function Day(row: Selected): string {
    PrefixBefore(row.firstSeen, 'T')
  }

  /** A row is a repeat exactly when its repeat count is positive. */
  predicate IsRepeat(row: Selected) {
    row.repeatCount > 0
  }

  /** The days that occur among `rows`. */
  ghost function Days(rows: seq<Selected>): set<string> {
    set i | 0 <= i < |rows| :: Day(rows[i])
  }

  /** How many of `rows` fall on day `d` and are new. */
  function CountNew(rows: seq<Selected>, d: string): nat {
    if |rows| == 0 then 0
    else
      var last := rows[|rows| - 1];
      CountNew(rows[..|rows| - 1], d) + (if Day(last) == d && !IsRepeat(last) then 1 else 0)
  }

  /** How many of `rows` fall on day `d` and are repeats. */
  function CountRepeat(rows: seq<Selected>, d: string): nat {
    if |rows| == 0 then 0
    else
      var last := rows[|rows| - 1];
      CountRepeat(rows[..|rows| - 1], d) + (if Day(last) == d && IsRepeat(last) then 1 else 0)
  }

  /** `timeline[day]` of the `defaultdict`: a day not yet seen reads as zero counts. */
  function Lookup(timeline: map<string, Tally>, day: string): Tally {
    if day in timeline then timeline[day] else Tally(0, 0)
  }

  /** A day on which no row falls has zero counts. */
  lemma {:induction false} NoRowsOutsideDays(rows: seq<Selected>, d: string)
    requires d !in Days(rows)
    ensures CountNew(rows, d) == 0 && CountRepeat(rows, d) == 0
  {
    if |rows| > 0 {
      var init := rows[..|rows| - 1];
      assert d !in Days(init);
      NoRowsOutsideDays(init, d);
      assert Day(rows[|rows| - 1]) in Days(rows);
    }
  }

  /** One pass of the aggregation loop: the row's day gets one more new or
      one more repeat; every other day is left as it was. */
  function Tick(timeline: map<string, Tally>, row: Selected): (r: map<string, Tally>)
    ensures r.Keys == timeline.Keys + {Day(row)}
    ensures forall d :: d in timeline && d != Day(row) ==> r[d] == timeline[d]
    ensures var before := Lookup(timeline, Day(row));
      if IsRepeat(row) then r[Day(row)] == Tally(before.newRows, before.repeatRows + 1)
      else r[Day(row)] == Tally(before.newRows + 1, before.repeatRows)
  {
    var day := Day(row);
    var t := Lookup(timeline, day);
    if IsRepeat(row) then timeline[day := t.(repeatRows := t.repeatRows + 1)]
    else timeline[day := t.(newRows := t.newRows + 1)]
  }

  /** `timeline` holds exactly the per-day counts of `rows`. */
  ghost predicate Tallies(timeline: map<string, Tally>, rows: seq<Selected>) {
    && timeline.Keys == Days(rows)
    && forall d :: d in timeline ==> timeline[d] == Tally(CountNew(rows, d), CountRepeat(rows, d))
  }

  /** One more row adds one to its own day's new or repeat count and
      nothing to any other day. */
  lemma CountStep(rows: seq<Selected>, row: Selected, d: string)
    ensures CountNew(rows + [row], d)
      == CountNew(rows, d) + (if Day(row) == d && !IsRepeat(row) then 1 else 0)
    ensures CountRepeat(rows + [row], d)
      == CountRepeat(rows, d) + (if Day(row) == d && IsRepeat(row) then 1 else 0)
  {
    assert (rows + [row])[..|rows|] == rows;
  }

  /** One more row adds its day to the days that occur. */
  lemma DaysStep(rows: seq<Selected>, row: Selected)
    ensures Days(rows + [row]) == Days(rows) + {Day(row)}
  {
    var all := rows + [row];
    forall d | d in Days(rows)
      ensures d in Days(all)
    {
      var k :| 0 <= k < |rows| && Day(rows[k]) == d;
      assert all[k] == rows[k];
    }
    assert all[|rows|] == row;
  }

  /** Ticking one more row keeps the timeline exact. */
  lemma TickStep(timeline: map<string, Tally>, rows: seq<Selected>, row: Selected)
    requires Tallies(timeline, rows)
    ensures Tallies(Tick(timeline, row), rows + [row])
  {
    var next := Tick(timeline, row);
    DaysStep(rows, row);
    if Day(row) !in timeline {
      NoRowsOutsideDays(rows, Day(row));
    }
    forall d | d in next
      ensures next[d] == Tally(CountNew(rows + [row], d), CountRepeat(rows + [row], d))
    {
      CountStep(rows, row, d);
    }
  }

  /** The `timeline` dictionary built by the loop over all rows: one entry
      per day that occurs, holding that day's new and repeat counts. */
  method Aggregate(rows: seq<Selected>) returns (timeline: map<string, Tally>)
    ensures timeline.Keys == Days(rows)
    ensures forall d :: d in timeline ==>
      timeline[d] == Tally(CountNew(rows, d), CountRepeat(rows, d))
  {
    timeline := map[];
    for i := 0 to |rows|
      invariant Tallies(timeline, rows[..i])
    {
      TickStep(timeline, rows[..i], rows[i]);
      assert rows[..i + 1] == rows[..i] + [rows[i]];
      timeline := Tick(timeline, rows[i]);
    }
    assert rows[..|rows|] == rows;
  }

  /** `sorted(keys)`: the keys in ascending order. */
  method SortedKeys(keys: set<string>) returns (sorted: seq<string>)
    ensures StrictlySorted(sorted)
    ensures forall d :: d in sorted <==> d in keys
    ensures |sorted| == |keys|
  {
    sorted := [];
    var rest := keys;
    while rest != {}
      invariant StrictlySorted(sorted)
      invariant rest <= keys
      invariant forall d :: d in sorted <==> d in keys && d !in rest
      invariant |sorted| + |rest| == |keys|
      decreases |rest|
    {
      var d :| d in rest;
      sorted := InsertSorted(sorted, d);
      rest := rest - {d};
    }
  }

  /** The two count arrays read off `timeline` along `dates`. */
  function Columns(timeline: map<string, Tally>, dates: seq<string>): (chart: Chart)
    requires forall d :: d in dates ==> d in timeline
    ensures chart.dates == dates
    ensures |chart.newFindings| == |dates| && |chart.repeatedFindings| == |dates|
    ensures forall i :: 0 <= i < |dates| ==>
      chart.newFindings[i] == timeline[dates[i]].newRows && chart.repeatedFindings[i] == timeline[dates[i]].repeatRows
  {
    Chart(
      dates,
      seq(|dates|, i requires 0 <= i < |dates| => timeline[dates[i]].newRows),
      seq(|dates|, i requires 0 <= i < |dates| => timeline[dates[i]].repeatRows))
  }

  /** Read off an exact timeline, each column entry is the count of its day. */
  lemma ChartCounts(rows: seq<Selected>, timeline: map<string, Tally>, chart: Chart)
    requires forall d :: d in timeline ==> timeline[d] == Tally(CountNew(rows, d), CountRepeat(rows, d))
    requires forall d :: d in chart.dates ==> d in timeline
    requires |chart.newFindings| == |chart.dates| && |chart.repeatedFindings| == |chart.dates|
    requires forall i :: 0 <= i < |chart.dates| ==>
      && chart.newFindings[i] == timeline[chart.dates[i]].newRows
      && chart.repeatedFindings[i] == timeline[chart.dates[i]].repeatRows
    ensures forall i :: 0 <= i < |chart.dates| ==>
      && chart.newFindings[i] == CountNew(rows, chart.dates[i])
      && chart.repeatedFindings[i] == CountRepeat(rows, chart.dates[i])
  {
    forall i | 0 <= i < |chart.dates|
      ensures chart.newFindings[i] == CountNew(rows, chart.dates[i])
      ensures chart.repeatedFindings[i] == CountRepeat(rows, chart.dates[i])
    {
      assert chart.dates[i] in timeline;
    }
  }

  /** When the dates are the days of the rows, each once, the columns add up
      to the number of rows. */
  lemma ChartTotal(rows: seq<Selected>, chart: Chart)
    requires StrictlySorted(chart.dates)
    requires forall d :: d in chart.dates <==> d in Days(rows)
    requires |chart.newFindings| == |chart.dates| && |chart.repeatedFindings| == |chart.dates|
    requires forall i :: 0 <= i < |chart.dates| ==>
      && chart.newFindings[i] == CountNew(rows, chart.dates[i])
      && chart.repeatedFindings[i] == CountRepeat(rows, chart.dates[i])
    ensures Sum(chart.newFindings) + Sum(chart.repeatedFindings) == |rows|
  {
    SumsAreTallies(rows, chart.dates, chart.newFindings, chart.repeatedFindings);
    forall i | 0 <= i < |rows|
      ensures Day(rows[i]) in chart.dates
    {
      assert Day(rows[i]) in Days(rows);
    }
    EveryRowCounted(rows, chart.dates);
  }

  /** No rows, no days: the chart is three empty arrays. */
  lemma ChartEmpty(rows: seq<Selected>, chart: Chart)
    requires |rows| == 0
    requires |chart.dates| == |Days(rows)|
    requires |chart.newFindings| == |chart.dates| && |chart.repeatedFindings| == |chart.dates|
    ensures chart == Chart([], [], [])
  {
    assert Days(rows) == {};
  }

  /** `generate_dashboard_data` without the database: the chart of `rows`. */
  method GenerateDashboardData(rows: seq<Selected>) returns (chart: Chart)
    ensures StrictlySorted(chart.dates)
    ensures forall d :: d in chart.dates <==> d in Days(rows)
    ensures |chart.dates| == |Days(rows)|
    ensures |chart.newFindings| == |chart.dates| && |chart.repeatedFindings| == |chart.dates|
    ensures forall i :: 0 <= i < |chart.dates| ==>
      && chart.newFindings[i] == CountNew(rows, chart.dates[i])
      && chart.repeatedFindings[i] == CountRepeat(rows, chart.dates[i])
    ensures Sum(chart.newFindings) + Sum(chart.repeatedFindings) == |rows|
    ensures |rows| == 0 ==> chart == Chart([], [], [])
  {
    var timeline := Aggregate(rows);
    var dates := SortedKeys(timeline.Keys);
    chart := Columns(timeline, dates);
    ChartCounts(rows, timeline, chart);
    ChartTotal(rows, chart);
    if |rows| == 0 {
      ChartEmpty(rows, chart);
    }
  }

  /** Sum of a sequence of counts. */
  function Sum(s: seq<int>): int {
    if |s| == 0 then 0 else s[0] + Sum(s[1..])
  }

  /** Number of rows that fall on any of `dates`, counting a day once per
      occurrence in `dates`. */
  function Covered(rows: seq<Selected>, dates: seq<string>): nat {
    if |dates| == 0 then 0
    else CountNew(rows, dates[0]) + CountRepeat(rows, dates[0]) + Covered(rows, dates[1..])
  }

  /** Summing the aligned arrays adds up the counts of every listed date. */
  lemma {:induction false} SumsAreTallies(rows: seq<Selected>, dates: seq<string>, newRows: seq<int>, repeatRows: seq<int>)
    requires |newRows| == |dates| && |repeatRows| == |dates|
    requires forall i :: 0 <= i < |dates| ==>
      newRows[i] == CountNew(rows, dates[i]) && repeatRows[i] == CountRepeat(rows, dates[i])
    ensures Sum(newRows) + Sum(repeatRows) == Covered(rows, dates)
  {
    if |dates| > 0 {
      SumsAreTallies(rows, dates[1..], newRows[1..], repeatRows[1..]);
    }
  }

  /** One more row adds, to the rows covered by `dates`, one for each time
      its day is listed. */
  lemma {:induction false} CoveredStep(rows: seq<Selected>, dates: seq<string>)
    requires |rows| > 0
    ensures Covered(rows, dates)
      == Covered(rows[..|rows| - 1], dates) + Dict.CountOf(dates, Day(rows[|rows| - 1]))
  {
    if |dates| > 0 {
      CoveredStep(rows, dates[1..]);
    }
  }

  /** When `dates` lists every day of `rows` once, each row is counted
      exactly once: the chart's totals add up to the number of rows. */
  lemma {:induction false} EveryRowCounted(rows: seq<Selected>, dates: seq<string>)
    requires StrictlySorted(dates)
    requires forall i :: 0 <= i < |rows| ==> Day(rows[i]) in dates
    ensures Covered(rows, dates) == |rows|
  {
    if |rows| == 0 {
      NothingCovered(dates);
    } else {
      var init := rows[..|rows| - 1];
      forall i | 0 <= i < |init|
        ensures Day(init[i]) in dates
      {
        assert init[i] == rows[i];
      }
      EveryRowCounted(init, dates);
      CoveredStep(rows, dates);
      SortedIsDistinct(dates);
      Dict.OccursOnce(dates, Day(rows[|rows| - 1]));
    }
  }

  /** No rows, nothing covered. */
  lemma {:induction false} NothingCovered(dates: seq<string>)
    ensures Covered([], dates) == 0
  {
    if |dates| > 0 {
      NothingCovered(dates[1..]);
    }
  }
}
