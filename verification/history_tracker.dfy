/** The occurrence tracker of scripts/memory_tracker.py: every secret of
    every result is keyed by "Target::RuleID"; the memory keeps, per key, a
    count and the list of run timestamps it was seen at; the dashboard shows
    one row per remembered key, with the details of the current scan when
    the key was seen in it. */
module HistoryTracker {
  import opened Wrappers
  import opened Trivy
  import opened Dict

  /** One entry of memory.json. */
  datatype Record = Record(count: int, history: seq<string>)

  /** One value of `current_findings`. */
  datatype Current = Current(timestamp: string, severity: string, rule: Option<string>, target: Option<string>, title: string)

  /** One dashboard row; a `None` target or rule is written as JSON null. */
  datatype Row = Row(
    id: string,
    severity: string,
    title: string,
    target: Option<string>,
    rule: Option<string>,
    occurrences: int,
    lastSeen: string)

  /** A secret together with the target of the result it came from. */
  datatype Sighting = Sighting(target: Option<string>, secret: Secret)

  /** The state after the scan loop. */
  datatype Scan = Scan(current: map<string, Current>, memory: Dict<Record>)

  /** How an f-string renders a string value or Python's None. */
  function Show(o: Option<string>): string {
    o.GetOr("None")
  }

  /** The key "Target::RuleID" of a sighting. */
  function UniqueId(s: Sighting): string {
    Show(s.target) + "::" + Show(s.secret.ruleId)
  }

  /** The secrets of one result, each with the result's target. */
  function SightingsOf(result: ScanResult): (r: seq<Sighting>)
    ensures |r| == |SecretsOf(result)|
    ensures forall k :: 0 <= k < |r| ==> r[k] == Sighting(result.target, SecretsOf(result)[k])
  {
    var secrets := SecretsOf(result);
    seq(|secrets|, k requires 0 <= k < |secrets| => Sighting(result.target, secrets[k]))
  }

  /** Every secret of every result, in report order; unlike memory_tracker.py
      the result class is not looked at. */
  function Sightings(results: seq<ScanResult>): (r: seq<Sighting>)
    ensures forall k :: 0 <= k < |r| ==>
      exists i :: 0 <= i < |results| && r[k].target == results[i].target && r[k].secret in SecretsOf(results[i])
  {
    if |results| == 0 then []
    else Sightings(results[..|results| - 1]) + SightingsOf(results[|results| - 1])
  }

  /** The scan follows report order: the sightings of two result lists in a
      row are those of the first followed by those of the second. */
  lemma {:induction false} SightingsConcat(a: seq<ScanResult>, b: seq<ScanResult>)
    ensures Sightings(a + b) == Sightings(a) + Sightings(b)
  {
    if |b| == 0 {
      assert a + b == a;
    } else {
      var b' := b[..|b| - 1];
      assert (a + b)[..|a + b| - 1] == a + b';
      assert (a + b)[|a + b| - 1] == b[|b| - 1];
      SightingsConcat(a, b');
    }
  }

  /** Every result contributes all its secrets, whatever its class. */
  lemma SightingsSingle(result: ScanResult)
    ensures Sightings([result]) == SightingsOf(result)
  {
    assert [result][..0] == [];
  }

  /** The `current_findings` value of a sighting in a run at `now`. */
  function Info(s: Sighting, now: string): Current {
    Current(now, s.secret.severity.GetOr("UNKNOWN"), s.secret.ruleId, s.target, s.secret.title.GetOr(""))
  }

  /** The record of `id` as `setdefault` leaves it: the stored one, or a zero
      count with an empty history. */
  function Prior(memory: map<string, Record>, id: string): Record {
    if id in memory then memory[id] else Record(0, [])
  }

  /** `setdefault`, then one more occurrence stamped `now`. */
  function Bump(memory: map<string, Record>, id: string, now: string): (r: map<string, Record>)
    ensures r.Keys == memory.Keys + {id}
    ensures forall k :: k in memory && k != id ==> r[k] == memory[k]
    ensures r[id].count == Prior(memory, id).count + 1
    ensures r[id].history == Prior(memory, id).history + [now]
  {
    var p := Prior(memory, id);
    memory[id := Record(p.count + 1, p.history + [now])]
  }

  /** The keys of `sightings`. */
  function Ids(sightings: seq<Sighting>): set<string> {
    if |sightings| == 0 then {}
    else Ids(sightings[..|sightings| - 1]) + {UniqueId(sightings[|sightings| - 1])}
  }

  /** How many of `sightings` have key `id`. */
  function Hits(sightings: seq<Sighting>, id: string): nat {
    if |sightings| == 0 then 0
    else Hits(sightings[..|sightings| - 1], id) + (if UniqueId(sightings[|sightings| - 1]) == id then 1 else 0)
  }

  /** A key occurs in a scan exactly when some sighting has it. */
  lemma {:induction false} IdsHit(sightings: seq<Sighting>, id: string)
    ensures id in Ids(sightings) <==> Hits(sightings, id) > 0
  {
    if |sightings| > 0 {
      IdsHit(sightings[..|sightings| - 1], id);
    }
  }

  /** The memory updates of the scan loop: memory only grows, and keys not in
      the scan keep their record. */
  function Remember(memory: map<string, Record>, sightings: seq<Sighting>, now: string): (r: map<string, Record>)
    ensures r.Keys == memory.Keys + Ids(sightings)
    ensures forall k :: k in memory && k !in Ids(sightings) ==> r[k] == memory[k]
  {
    if |sightings| == 0 then memory
    else Bump(Remember(memory, sightings[..|sightings| - 1], now), UniqueId(sightings[|sightings| - 1]), now)
  }

  /** `current_findings` after the scan loop: exactly the keys of the scan. */
  function Latest(sightings: seq<Sighting>, now: string): (r: map<string, Current>)
    ensures r.Keys == Ids(sightings)
  {
    if |sightings| == 0 then map[]
    else
      var last := sightings[|sightings| - 1];
      Latest(sightings[..|sightings| - 1], now)[UniqueId(last) := Info(last, now)]
  }

  /** The keys of `sightings`, one per sighting, in order. */
  function IdList(sightings: seq<Sighting>): (r: seq<string>)
    ensures |r| == |sightings|
    ensures forall k :: 0 <= k < |r| ==> r[k] == UniqueId(sightings[k])
    ensures forall k :: k in r <==> k in Ids(sightings)
  {
    if |sightings| == 0 then []
    else IdList(sightings[..|sightings| - 1]) + [UniqueId(sightings[|sightings| - 1])]
  }

  /** The last of `sightings` with key `id`: the one whose details
      `current_findings` keeps. */
  function LastSighting(sightings: seq<Sighting>, id: string): (s: Sighting)
    requires id in Ids(sightings)
    ensures UniqueId(s) == id
  {
    var last := sightings[|sightings| - 1];
    if UniqueId(last) == id then last else LastSighting(sightings[..|sightings| - 1], id)
  }

  /** `current_findings` holds, for each key of the scan, the details of its
      last sighting. */
  lemma {:induction false} LatestIsLastSighting(sightings: seq<Sighting>, now: string, id: string)
    requires id in Ids(sightings)
    ensures Latest(sightings, now)[id] == Info(LastSighting(sightings, id), now)
  {
    if UniqueId(sightings[|sightings| - 1]) != id {
      LatestIsLastSighting(sightings[..|sightings| - 1], now, id);
    }
  }

  /** The scan loop of one run at time `now`: `current_findings` and the
      updated memory dict. */
  function Track(sightings: seq<Sighting>, memory: Dict<Record>, now: string): (r: Scan)
    requires Valid(memory)
    ensures Valid(r.memory)
    ensures |memory.keys| <= |r.memory.keys| && r.memory.keys[..|memory.keys|] == memory.keys
  {
    Scan(Latest(sightings, now), Dict(Extend(memory.keys, IdList(sightings)), Remember(memory.values, sightings, now)))
  }

  /** n copies of `now`. */
  function Stamps(now: string, n: nat): (r: seq<string>)
    ensures |r| == n
    ensures forall i :: 0 <= i < n ==> r[i] == now
  {
    seq(n, _ => now)
  }

  /** Appending one more stamp to a history followed by n stamps gives the
      history followed by n + 1 stamps. */
  lemma AppendStamp(history: seq<string>, now: string, n: nat)
    ensures (history + Stamps(now, n)) + [now] == history + Stamps(now, n + 1)
  {
    assert Stamps(now, n + 1) == Stamps(now, n) + [now];
  }

  /** After a run, each remembered key's count grew by the number of times it
      was seen, and its history by that many copies of the run timestamp. */
  lemma {:induction false} RememberCounts(memory: map<string, Record>, sightings: seq<Sighting>, now: string, id: string)
    requires id in memory || Hits(sightings, id) > 0
    ensures id in Remember(memory, sightings, now)
    ensures Remember(memory, sightings, now)[id]
      == Record(Prior(memory, id).count + Hits(sightings, id), Prior(memory, id).history + Stamps(now, Hits(sightings, id)))
  {
    var n := |sightings|;
    if n > 0 {
      var init := sightings[..n - 1];
      var last := sightings[n - 1];
      var before := Remember(memory, init, now);
      var after := Bump(before, UniqueId(last), now);
      var p := Prior(memory, id);
      var h := Hits(init, id);
      assert Remember(memory, sightings, now) == after;
      if id in memory || h > 0 {
        RememberCounts(memory, init, now, id);
        assert Prior(before, id) == Record(p.count + h, p.history + Stamps(now, h));
      } else {
        IdsHit(init, id);
        assert Prior(before, id) == Record(0, []);
      }
      if UniqueId(last) == id {
        AppendStamp(p.history, now, h);
        assert Hits(sightings, id) == h + 1;
        assert after[id] == Record(p.count + h + 1, p.history + Stamps(now, h + 1));
      } else {
        assert Hits(sightings, id) == h;
        assert after[id] == before[id];
      }
    } else {
      assert Stamps(now, 0) == [];
    }
  }

  /** Every record's history is as long as its count. */
  ghost predicate Consistent(memory: map<string, Record>) {
    forall k :: k in memory ==> |memory[k].history| == memory[k].count
  }

  /** A run keeps every history exactly as long as its count. */
  lemma RememberKeepsConsistent(memory: map<string, Record>, sightings: seq<Sighting>, now: string)
    requires Consistent(memory)
    ensures Consistent(Remember(memory, sightings, now))
  {
    var r := Remember(memory, sightings, now);
    forall k | k in r
      ensures |r[k].history| == r[k].count
    {
      IdsHit(sightings, k);
      RememberCounts(memory, sightings, now, k);
    }
  }

  /** When a key repeats within one scan, the last sighting with that key is
      the one `current_findings` keeps. */
  lemma {:induction false} LastSightingWins(sightings: seq<Sighting>, now: string, i: nat)
    requires i < |sightings|
    requires forall j :: i < j < |sightings| ==> UniqueId(sightings[j]) != UniqueId(sightings[i])
    ensures UniqueId(sightings[i]) in Latest(sightings, now)
    ensures Latest(sightings, now)[UniqueId(sightings[i])] == Info(sightings[i], now)
  {
    var n := |sightings|;
    if i < n - 1 {
      var init := sightings[..n - 1];
      assert init[i] == sightings[i];
      forall j | i < j < |init|
        ensures UniqueId(init[j]) != UniqueId(init[i])
      {
        assert init[j] == sightings[j];
      }
      LastSightingWins(init, now, i);
    }
  }

  /** `current_findings.get(id, {}).get(field, default)`, then the stored
      record: the dashboard row of key `id`. */
  function RowOf(id: string, record: Record, current: map<string, Current>): (row: Row)
    ensures row.id == id && row.occurrences == record.count
    ensures row.lastSeen == if |record.history| > 0 then record.history[|record.history| - 1] else "N/A"
    ensures id in current ==>
      && row.severity == current[id].severity && row.title == current[id].title
      && row.target == current[id].target && row.rule == current[id].rule
    ensures id !in current ==>
      row.severity == "UNKNOWN" && row.title == "" && row.target == Some("") && row.rule == Some("")
  {
    var lastSeen := if |record.history| > 0 then record.history[|record.history| - 1] else "N/A";
    if id in current then
      var c := current[id];
      Row(id, c.severity, c.title, c.target, c.rule, record.count, lastSeen)
    else
      Row(id, "UNKNOWN", "", Some(""), Some(""), record.count, lastSeen)
  }

  /** The dashboard: one row per remembered key, in memory order. */
  function DashboardRows(memory: Dict<Record>, current: map<string, Current>): (rows: seq<Row>)
    requires Valid(memory)
    ensures |rows| == |memory.keys| == |memory.values|
    ensures forall i :: 0 <= i < |rows| ==> rows[i] == RowOf(memory.keys[i], memory.values[memory.keys[i]], current)
    ensures forall i, j :: 0 <= i < j < |rows| ==> rows[i].id != rows[j].id
  {
    SizeIsKeyCount(memory);
    seq(|memory.keys|, i requires 0 <= i < |memory.keys| =>
      RowOf(memory.keys[i], memory.values[memory.keys[i]], current))
  }

  /** The outputs of one run: the memory to save and the dashboard rows. */
  datatype Outcome = Outcome(memory: Dict<Record>, rows: seq<Row>)

  /** `main` of the script, with the report, the loaded memory and the run's
      timestamp given. */
  function Run(report: Report, memory: Dict<Record>, now: string): (r: Outcome)
    requires Valid(memory)
    ensures Valid(r.memory)
    ensures |r.rows| == |r.memory.values|
  {
    var scan := Track(Sightings(ResultsOf(report)), memory, now);
    Outcome(scan.memory, DashboardRows(scan.memory, scan.current))
  }

  /** The row shows the severity, title, target and rule of the sighting,
      with the defaults of `secret.get`. */
  predicate ShowsSighting(row: Row, s: Sighting) {
    && row.severity == s.secret.severity.GetOr("UNKNOWN")
    && row.title == s.secret.title.GetOr("")
    && row.target == s.target
    && row.rule == s.secret.ruleId
  }

  /** The rows after a run: a key seen in the scan shows the run timestamp as
      last seen and its count grown by its sightings; a key not seen shows
      placeholders and the count it had before. */
  lemma RowsAfterRun(report: Report, memory: Dict<Record>, now: string)
    requires Valid(memory)
    ensures var sightings := Sightings(ResultsOf(report));
      var rows := Run(report, memory, now).rows;
      forall i :: 0 <= i < |rows| ==>
        && (rows[i].id in Ids(sightings) ==>
            && rows[i].lastSeen == now
            && rows[i].occurrences == Prior(memory.values, rows[i].id).count + Hits(sightings, rows[i].id)
            && ShowsSighting(rows[i], LastSighting(sightings, rows[i].id)))
        && (rows[i].id !in Ids(sightings) ==>
            && rows[i].id in memory.values
            && rows[i].occurrences == memory.values[rows[i].id].count
            && rows[i].severity == "UNKNOWN" && rows[i].title == "" && rows[i].target == Some("") && rows[i].rule == Some(""))
  {
    var sightings := Sightings(ResultsOf(report));
    var scan := Track(sightings, memory, now);
    var rows := Run(report, memory, now).rows;
    forall i | 0 <= i < |rows| && rows[i].id in Ids(sightings)
      ensures rows[i].lastSeen == now
      ensures rows[i].occurrences == Prior(memory.values, rows[i].id).count + Hits(sightings, rows[i].id)
      ensures ShowsSighting(rows[i], LastSighting(sightings, rows[i].id))
    {
      var id := scan.memory.keys[i];
      IdsHit(sightings, id);
      RememberCounts(memory.values, sightings, now, id);
      LatestIsLastSighting(sightings, now, id);
    }
  }

  /** A row shows the last recorded timestamp of its key as last seen, or
      "N/A" when the history is empty; with consistent memory that is exactly
      when the key has no occurrences. */
  lemma NeverSeenShowsPlaceholder(memory: Dict<Record>, current: map<string, Current>, i: nat)
    requires Valid(memory)
    requires i < |memory.keys|
    ensures var row := DashboardRows(memory, current)[i];
      var history := memory.values[memory.keys[i]].history;
      && row.lastSeen == (if |history| > 0 then history[|history| - 1] else "N/A")
      && (Consistent(memory.values) && row.occurrences == 0 ==> row.lastSeen == "N/A")
      && (Consistent(memory.values) && row.occurrences != 0 ==> row.lastSeen == history[|history| - 1])
  {
    SizeIsKeyCount(memory);
  }
}
