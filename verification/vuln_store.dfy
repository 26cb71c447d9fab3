/** The vulnerability memory of scripts/compare.py: every vulnerability in a
    Trivy report is looked up in the `vulnerabilities` table by the pair
    (vuln_id, file_path); a row that exists is bumped, a missing one is
    inserted. The table is a map from that pair to the remaining columns. */
module VulnStore {
  import opened Wrappers
  import opened Trivy

  /** One tuple `(vuln_id, desc, path, severity)` of `current_vulns`. */
  datatype Sighting = Sighting(vulnId: Option<string>, desc: string, path: string, severity: string)

  /** The primary key `(vuln_id, file_path)`. */
  type Key = (string, string)

  /** The columns of a stored row other than the key. */
  datatype Row = Row(description: string, severity: string, firstSeen: string, lastSeen: string, repeatCount: int)

  /** A row stored with a NULL vuln_id, together with its file_path. */
  datatype UnkeyedRow = UnkeyedRow(filePath: string, row: Row)

  /** The table. SQLite admits NULL in a composite primary key that is not an
      INTEGER PRIMARY KEY and treats NULLs as distinct, so rows without a
      vuln_id are kept apart, in insertion order. */
  datatype Table = Table(rows: map<Key, Row>, unkeyed: seq<UnkeyedRow>)

  /** Python truthiness of an optional string. */
  predicate Truthy(s: Option<string>) {
    s.Some? && s.value != ""
  }

  /** The tuple built for one vulnerability of one result. */
  function ToSighting(result: ScanResult, v: Vulnerability): (s: Sighting)
    ensures s.vulnId == v.vulnerabilityId
    ensures Truthy(v.title) ==> s.desc == v.title.value
    ensures !Truthy(v.title) ==> s.desc == v.description.GetOr("")
    ensures s.path == result.target.GetOr("")
    ensures s.severity == v.severity.GetOr("")
  {
    var desc := if Truthy(v.title) then v.title.value else v.description.GetOr("");
    Sighting(v.vulnerabilityId, desc, result.target.GetOr(""), v.severity.GetOr(""))
  }

  /** The tuples of one result, one per vulnerability, in order. */
  function SightingsOf(result: ScanResult): (r: seq<Sighting>)
    ensures |r| == |VulnerabilitiesOf(result)|
    ensures forall j :: 0 <= j < |r| ==> r[j] == ToSighting(result, VulnerabilitiesOf(result)[j])
  {
    var vs := VulnerabilitiesOf(result);
    seq(|vs|, j requires 0 <= j < |vs| => ToSighting(result, vs[j]))
  }

  /** `current_vulns`: the tuples of all results, result by result. */
  function Extract(results: seq<ScanResult>): (r: seq<Sighting>)
    ensures forall k :: 0 <= k < |r| ==> exists i :: 0 <= i < |results| && r[k] in SightingsOf(results[i])
  {
    if |results| == 0 then []
    else
      var init := results[..|results| - 1];
      var last := |results| - 1;
      assert forall i :: 0 <= i < |init| ==> init[i] == results[i];
      Extract(init) + SightingsOf(results[last])
  }

  /** Extraction keeps the order of results: the tuples of a concatenation of
      result lists are the concatenation of their tuples. */
  lemma {:induction false} ExtractConcat(a: seq<ScanResult>, b: seq<ScanResult>)
    ensures Extract(a + b) == Extract(a) + Extract(b)
  {
    if |b| == 0 {
      assert a + b == a;
    } else {
      var b' := b[..|b| - 1];
      var last := SightingsOf(b[|b| - 1]);
      assert (a + b)[..|a + b| - 1] == a + b';
      assert (a + b)[|a + b| - 1] == b[|b| - 1];
      assert Extract(a + b) == Extract(a + b') + last;
      ExtractConcat(a, b');
      assert Extract(b) == Extract(b') + last;
      assert Extract(a + b) == Extract(a) + (Extract(b') + last);
    }
  }

  /** A single result yields exactly its vulnerabilities, in order. */
  lemma ExtractSingle(result: ScanResult)
    ensures Extract([result]) == SightingsOf(result)
  {
    assert [result][..0] == [];
  }

  /** `extract` over a whole report: `trivy_data.get("Results", [])`. */
  function ExtractReport(report: Report): seq<Sighting> {
    Extract(ResultsOf(report))
  }

  /** The key a sighting is stored under, if it has a vuln_id. */
  function KeyOf(s: Sighting): Option<Key> {
    if s.vulnId.Some? then Some((s.vulnId.value, s.path)) else None
  }

  /** `next` is a later state of the stored row `prev`: the UPDATE never
      changes description, severity or first_seen. */
  predicate Keeps(prev: Row, next: Row) {
    next.description == prev.description && next.severity == prev.severity && next.firstSeen == prev.firstSeen
  }

  /** The SELECT, then the UPDATE or the INSERT, for one tuple. */
  function Upsert(t: Table, s: Sighting, now: string): (r: Table)
    ensures KeyOf(s).None? ==>
      && r.rows == t.rows
      && r.unkeyed == t.unkeyed + [UnkeyedRow(s.path, Row(s.desc, s.severity, now, now, 0))]
    ensures KeyOf(s).Some? ==>
      && r.unkeyed == t.unkeyed
      && r.rows.Keys == t.rows.Keys + {KeyOf(s).value}
      && (forall k :: k in t.rows && k != KeyOf(s).value ==> r.rows[k] == t.rows[k])
    ensures forall k :: k in t.rows ==> k in r.rows && Keeps(t.rows[k], r.rows[k])
    ensures KeyOf(s).Some? && KeyOf(s).value in t.rows ==>
      var prev := t.rows[KeyOf(s).value];
      r.rows[KeyOf(s).value] == Row(prev.description, prev.severity, prev.firstSeen, now, prev.repeatCount + 1)
    ensures KeyOf(s).Some? && KeyOf(s).value !in t.rows ==>
      r.rows[KeyOf(s).value] == Row(s.desc, s.severity, now, now, 0)
  {
    match KeyOf(s)
    case None =>
      Table(t.rows, t.unkeyed + [UnkeyedRow(s.path, Row(s.desc, s.severity, now, now, 0))])
    case Some(key) =>
      if key in t.rows then
        var prev := t.rows[key];
        Table(t.rows[key := prev.(lastSeen := now, repeatCount := prev.repeatCount + 1)], t.unkeyed)
      else
        Table(t.rows[key := Row(s.desc, s.severity, now, now, 0)], t.unkeyed)
  }

  /** The keys that occur among `sightings`. */
  function KeysOf(sightings: seq<Sighting>): set<Key> {
    if |sightings| == 0 then {}
    else
      var last := sightings[|sightings| - 1];
      KeysOf(sightings[..|sightings| - 1]) + (if KeyOf(last).Some? then {KeyOf(last).value} else {})
  }

  /** How many of `sightings` carry key `k`. */
  function Hits(sightings: seq<Sighting>, k: Key): nat {
    if |sightings| == 0 then 0
    else Hits(sightings[..|sightings| - 1], k) + (if KeyOf(sightings[|sightings| - 1]) == Some(k) then 1 else 0)
  }

  /** A key occurs in a scan exactly when some sighting carries it. */
  lemma {:induction false} KeysOfHits(sightings: seq<Sighting>, k: Key)
    ensures k in KeysOf(sightings) <==> Hits(sightings, k) > 0
  {
    if |sightings| > 0 {
      KeysOfHits(sightings[..|sightings| - 1], k);
    }
  }

  /** How many of `sightings` lack a vuln_id. */
  function Unkeyed(sightings: seq<Sighting>): nat {
    if |sightings| == 0 then 0
    else Unkeyed(sightings[..|sightings| - 1]) + (if KeyOf(sightings[|sightings| - 1]).None? then 1 else 0)
  }

  /** The upsert loop of one run, with one timestamp `now` for the run. Rows
      are never deleted; rows whose key is not in the scan are untouched; a
      stored row keeps its description, severity and first_seen; every
      sighting without a vuln_id appends a fresh row that starts at zero. */
  function Apply(t: Table, sightings: seq<Sighting>, now: string): (r: Table)
    ensures r.rows.Keys == t.rows.Keys + KeysOf(sightings)
    ensures forall k :: k in t.rows && k !in KeysOf(sightings) ==> r.rows[k] == t.rows[k]
    ensures forall k :: k in t.rows ==> Keeps(t.rows[k], r.rows[k])
    ensures |r.unkeyed| == |t.unkeyed| + Unkeyed(sightings)
    ensures forall i :: 0 <= i < |t.unkeyed| ==> r.unkeyed[i] == t.unkeyed[i]
    ensures forall i :: |t.unkeyed| <= i < |r.unkeyed| ==> r.unkeyed[i].row.repeatCount == 0
  {
    if |sightings| == 0 then t
    else
      var init := sightings[..|sightings| - 1];
      var last := sightings[|sightings| - 1];
      Upsert(Apply(t, init, now), last, now)
  }

  /** After one run, a key seen k > 0 times has been bumped k times if it was
      stored before, and k - 1 times after its insertion otherwise; its
      last_seen is the run's timestamp. */
  lemma {:induction false} ApplyCounts(t: Table, sightings: seq<Sighting>, now: string, k: Key)
    requires Hits(sightings, k) > 0
    ensures k in Apply(t, sightings, now).rows
    ensures Apply(t, sightings, now).rows[k].repeatCount
      == if k in t.rows then t.rows[k].repeatCount + Hits(sightings, k) else Hits(sightings, k) - 1
    ensures Apply(t, sightings, now).rows[k].lastSeen == now
    ensures k !in t.rows ==> Apply(t, sightings, now).rows[k].firstSeen == now
  {
    var init := sightings[..|sightings| - 1];
    var last := sightings[|sightings| - 1];
    var mid := Apply(t, init, now);
    var r := Upsert(mid, last, now);
    var seen := Hits(init, k);
    var base := if k in t.rows then t.rows[k].repeatCount else -1;
    assert Apply(t, sightings, now) == r;
    assert Hits(sightings, k) == seen + (if KeyOf(last) == Some(k) then 1 else 0);
    if KeyOf(last) == Some(k) {
      if seen > 0 {
        ApplyCounts(t, init, now, k);
        assert mid.rows[k].repeatCount == base + seen;
      } else {
        NoHitsUntouched(t, init, now, k);
      }
      assert r.rows[k].repeatCount == base + seen + 1;
    } else {
      ApplyCounts(t, init, now, k);
      assert r.rows[k] == mid.rows[k];
      assert r.rows[k].repeatCount == base + seen;
    }
  }

  /** A key that does not occur in the scan is left exactly as it was. */
  lemma {:induction false} NoHitsUntouched(t: Table, sightings: seq<Sighting>, now: string, k: Key)
    requires Hits(sightings, k) == 0
    ensures k in Apply(t, sightings, now).rows <==> k in t.rows
    ensures k in t.rows ==> Apply(t, sightings, now).rows[k] == t.rows[k]
  {
    if |sightings| > 0 {
      NoHitsUntouched(t, sightings[..|sightings| - 1], now, k);
    }
  }

  /** Several runs in a row, the i-th with scan `scans[i]` at time `nows[i]`. */
  function RunAll(t: Table, scans: seq<seq<Sighting>>, nows: seq<string>): (r: Table)
    requires |scans| == |nows|
    ensures t.rows.Keys <= r.rows.Keys
    ensures forall k :: k in t.rows ==> Keeps(t.rows[k], r.rows[k])
    ensures |t.unkeyed| <= |r.unkeyed|
    ensures forall i :: 0 <= i < |t.unkeyed| ==> r.unkeyed[i] == t.unkeyed[i]
  {
    if |scans| == 0 then t
    else Apply(RunAll(t, scans[..|scans| - 1], nows[..|nows| - 1]), scans[|scans| - 1], nows[|nows| - 1])
  }

  /** A key never stored before and seen exactly once in each of n >= 1 runs
      has repeat_count n - 1, first_seen of the first run and last_seen of
      the last run. */
  lemma {:induction false} RepeatCountCountsRuns(t: Table, scans: seq<seq<Sighting>>, nows: seq<string>, k: Key)
    requires |scans| == |nows| && |scans| > 0
    requires k !in t.rows
    requires forall i :: 0 <= i < |scans| ==> Hits(scans[i], k) == 1
    ensures k in RunAll(t, scans, nows).rows
    ensures RunAll(t, scans, nows).rows[k].repeatCount == |scans| - 1
    ensures RunAll(t, scans, nows).rows[k].firstSeen == nows[0]
    ensures RunAll(t, scans, nows).rows[k].lastSeen == nows[|nows| - 1]
  {
    var n := |scans|;
    var before := RunAll(t, scans[..n - 1], nows[..n - 1]);
    if n == 1 {
      ApplyCounts(before, scans[0], nows[0], k);
    } else {
      var earlier := scans[..n - 1];
      forall i | 0 <= i < |earlier|
        ensures Hits(earlier[i], k) == 1
      {
        assert earlier[i] == scans[i];
      }
      RepeatCountCountsRuns(t, scans[..n - 1], nows[..n - 1], k);
      ApplyCounts(before, scans[n - 1], nows[n - 1], k);
    }
  }

  /** The whole of compare.py after the table is opened: extract the report,
      then upsert every tuple with the run's timestamp. */
  function Compare(report: Report, t: Table, now: string): (r: Table)
    ensures r.rows.Keys == t.rows.Keys + KeysOf(ExtractReport(report))
    ensures forall k :: k in t.rows && k !in KeysOf(ExtractReport(report)) ==> r.rows[k] == t.rows[k]
  {
    Apply(t, ExtractReport(report), now)
  }
}
