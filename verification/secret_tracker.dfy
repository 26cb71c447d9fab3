/** The secret tracker of memory_tracker.py: secrets of results of class
    "secret" are keyed by "RuleID_Target"; a memory keeps, per key, when it
    was first and last seen and how often; the dashboard shows one entry per
    key seen in the current report, and an alert is raised when some key has
    been seen at least twice. */
module SecretTracker {
  import opened Wrappers
  import opened Trivy
  import opened Dict

  /** Keys whose count reaches this value are alerted on. */
  const RepeatThreshold := 2

  /** The class of the results that hold secrets. */
  const SecretClass := "secret"

  /** One entry of memory_db.json; a loaded file may lack any field. */
  datatype MemoryRecord = MemoryRecord(firstSeen: Option<string>, repeatCount: Option<int>, lastSeen: Option<string>)

  type Memory = map<string, MemoryRecord>

  /** A secret of a "secret" result, with the result's `Target` and the
      secret's `RuleID`, both of which the script indexes directly. */
  datatype Hit = Hit(target: string, ruleId: string, secret: Secret)

  /** The per-fingerprint summary of the current report (a value of
      `repeated`). */
  datatype Details = Details(count: int, file: string, ruleType: string, contributors: set<string>, severity: string)

  /** One dashboard entry; the contributor set is joined into one string by
      the script, in an order Python does not fix. */
  datatype Entry = Entry(timestamp: string, count: int, file: string, ruleType: string, contributors: set<string>, severity: string)

  /** The `alert` object. */
  datatype Alert = Alert(active: bool, count: nat, threshold: int)

  /** The `data.json` artifact and the memory to save. */
  datatype Output = Output(entries: seq<Entry>, alert: Alert, memory: Memory)

  /** The result that holds secrets. */
  predicate IsSecretResult(result: ScanResult) {
    result.resultClass == Some(SecretClass)
  }

  /** `result['Target']` and each `secret['RuleID']` exist whenever the
      loop visits a secret of this result; otherwise the script stops with a
      KeyError. */
  predicate Indexable(result: ScanResult) {
    |SecretsOf(result)| > 0 ==>
      && result.target.Some?
      && forall j :: 0 <= j < |SecretsOf(result)| ==> SecretsOf(result)[j].ruleId.Some?
  }

  /** Every "secret" result is indexable. */
  predicate WellFormed(results: seq<ScanResult>) {
    forall i :: 0 <= i < |results| && IsSecretResult(results[i]) ==> Indexable(results[i])
  }

  /** The secrets of one result, each with its rule and target. */
  function HitsOf(result: ScanResult): (r: seq<Hit>)
    requires Indexable(result)
    ensures |r| == |SecretsOf(result)|
    ensures forall j :: 0 <= j < |r| ==>
      r[j].secret == SecretsOf(result)[j] && Some(r[j].ruleId) == r[j].secret.ruleId && Some(r[j].target) == result.target
  {
    var secrets := SecretsOf(result);
    seq(|secrets|, j requires 0 <= j < |secrets| => Hit(result.target.value, secrets[j].ruleId.value, secrets[j]))
  }

  /** `h` is a secret of `result`, a result of class "secret", and carries
      that result's `Target`. */
  predicate HitIn(h: Hit, result: ScanResult) {
    IsSecretResult(result) && Some(h.target) == result.target && h.secret in SecretsOf(result)
  }

  /** The secrets the loop visits, in report order: only results whose
      `Class` is exactly "secret" contribute. */
  function SecretHits(results: seq<ScanResult>): (r: seq<Hit>)
    requires WellFormed(results)
    ensures forall k :: 0 <= k < |r| ==> Some(r[k].ruleId) == r[k].secret.ruleId
    ensures forall k :: 0 <= k < |r| ==> exists i :: 0 <= i < |results| && HitIn(r[k], results[i])
  {
    if |results| == 0 then []
    else
      var init := results[..|results| - 1];
      var last := results[|results| - 1];
      assert forall i :: 0 <= i < |init| ==> init[i] == results[i];
      if IsSecretResult(last) then SecretHits(init) + HitsOf(last)
      else SecretHits(init)
  }

  /** The fingerprint "RuleID_Target". */
  function Fingerprint(h: Hit): string {
    h.ruleId + "_" + h.target
  }

  /** `secret.get("RuleID", "UNKNOWN")`, shown as the entry's type. */
  function RuleType(h: Hit): string {
    h.secret.ruleId.GetOr("UNKNOWN")
  }

  /** `secret.get("Contributor", "UnknownUser")` */
  function Contributor(h: Hit): string {
    h.secret.contributor.GetOr("UnknownUser")
  }

  /** The record stores `repeat_count` and it equals `n`. */
  predicate HasCount(rec: MemoryRecord, n: int) {
    rec.repeatCount.Some? && rec.repeatCount.value == n
  }

  /** The count a fingerprint has before this sighting: a stored record
      without `repeat_count` reads as 1, a fingerprint never stored as 0. */
  function Prior(memory: Memory, fp: string): int {
    if fp in memory then memory[fp].repeatCount.GetOr(1) else 0
  }

  /** Records one sighting of `fp` at `now`. A known fingerprint keeps its
      first_seen; a new one starts at count 1 with both stamps set. */
  function Upsert(memory: Memory, fp: string, now: string): (r: Memory)
    ensures r.Keys == memory.Keys + {fp}
    ensures forall k :: k in memory && k != fp ==> r[k] == memory[k]
    ensures HasCount(r[fp], Prior(memory, fp) + 1)
    ensures r[fp].lastSeen == Some(now)
    ensures fp in memory ==> r[fp].firstSeen == memory[fp].firstSeen
    ensures fp !in memory ==> r[fp] == MemoryRecord(Some(now), Some(1), Some(now))
  {
    if fp in memory then
      var rec := memory[fp];
      memory[fp := rec.(repeatCount := Some(rec.repeatCount.GetOr(1) + 1), lastSeen := Some(now))]
    else
      memory[fp := MemoryRecord(Some(now), Some(1), Some(now))]
  }

  /** The `repeated` entry of a fingerprint as the `defaultdict` reads it. */
  function DetailsOf(repeated: map<string, Details>, fp: string): Details {
    if fp in repeated then repeated[fp] else Details(0, "", "", {}, "")
  }

  /** Updates the `repeated` entry of the hit's fingerprint with the count the
      memory now holds: count, file, type and severity are overwritten, the
      contributor is added. */
  function Note(repeated: map<string, Details>, h: Hit, count: int): (r: map<string, Details>)
    ensures r.Keys == repeated.Keys + {Fingerprint(h)}
    ensures forall k :: k in repeated && k != Fingerprint(h) ==> r[k] == repeated[k]
    ensures r[Fingerprint(h)] == Details(count, h.target, RuleType(h),
      DetailsOf(repeated, Fingerprint(h)).contributors + {Contributor(h)}, h.secret.severity.GetOr("UNKNOWN"))
  {
    var fp := Fingerprint(h);
    var d := DetailsOf(repeated, fp);
    repeated[fp := Details(count, h.target, RuleType(h), d.contributors + {Contributor(h)}, h.secret.severity.GetOr("UNKNOWN"))]
  }

  /** The fingerprints of `hits`. */
  function Fingerprints(hits: seq<Hit>): set<string> {
    if |hits| == 0 then {}
    else Fingerprints(hits[..|hits| - 1]) + {Fingerprint(hits[|hits| - 1])}
  }

  /** The fingerprints of `hits`, one per hit, in order. */
  function FingerprintList(hits: seq<Hit>): (r: seq<string>)
    ensures |r| == |hits|
    ensures forall k :: 0 <= k < |r| ==> r[k] == Fingerprint(hits[k])
    ensures forall k :: k in r <==> k in Fingerprints(hits)
  {
    if |hits| == 0 then []
    else FingerprintList(hits[..|hits| - 1]) + [Fingerprint(hits[|hits| - 1])]
  }

  /** The last of `hits` with fingerprint `fp`: the one whose file, type and
      severity `repeated` ends up showing. */
  function LastHitOf(hits: seq<Hit>, fp: string): (h: Hit)
    requires fp in Fingerprints(hits)
    ensures Fingerprint(h) == fp
  {
    var last := hits[|hits| - 1];
    if Fingerprint(last) == fp then last else LastHitOf(hits[..|hits| - 1], fp)
  }

  /** The last hit of a fingerprint is one of the hits. */
  lemma {:induction false} LastHitIsHit(hits: seq<Hit>, fp: string)
    requires fp in Fingerprints(hits)
    ensures LastHitOf(hits, fp) in hits
  {
    if Fingerprint(hits[|hits| - 1]) != fp {
      LastHitIsHit(hits[..|hits| - 1], fp);
    }
  }

  /** How many of `hits` have fingerprint `fp`. */
  function Occurrences(hits: seq<Hit>, fp: string): nat {
    if |hits| == 0 then 0
    else Occurrences(hits[..|hits| - 1], fp) + (if Fingerprint(hits[|hits| - 1]) == fp then 1 else 0)
  }

  /** The contributors of the hits with fingerprint `fp`. */
  function Contributors(hits: seq<Hit>, fp: string): set<string> {
    if |hits| == 0 then {}
    else
      var last := hits[|hits| - 1];
      Contributors(hits[..|hits| - 1], fp) + (if Fingerprint(last) == fp then {Contributor(last)} else {})
  }

  /** The memory updates of the loop of `extract_repeated_secrets`: the
      memory grows by the fingerprints of the report, a stored record keeps
      its first_seen, and records of fingerprints not in the report are
      untouched. */
  function Remember(memory: Memory, hits: seq<Hit>, now: string): (r: Memory)
    ensures r.Keys == memory.Keys + Fingerprints(hits)
    ensures forall k :: k in memory && k !in Fingerprints(hits) ==> r[k] == memory[k]
    ensures forall k :: k in memory ==> r[k].firstSeen == memory[k].firstSeen
  {
    if |hits| == 0 then memory
    else Upsert(Remember(memory, hits[..|hits| - 1], now), Fingerprint(hits[|hits| - 1]), now)
  }

  /** The `repeated` updates of the same loop: each hit records the count its
      fingerprint's memory record has just been given. */
  function Summarize(memory: Memory, hits: seq<Hit>, now: string): (r: map<string, Details>)
    ensures r.Keys == Fingerprints(hits)
  {
    if |hits| == 0 then map[]
    else
      var init := hits[..|hits| - 1];
      var last := hits[|hits| - 1];
      Note(Summarize(memory, init, now), last, Prior(Remember(memory, init, now), Fingerprint(last)) + 1)
  }

  /** `extract_repeated_secrets`: `repeated` as an ordered dict (fingerprints
      in order of first sighting) and the updated memory. */
  function ExtractRepeatedSecrets(report: Report, memory: Memory, now: string): (r: (Dict<Details>, Memory))
    requires WellFormed(ResultsOf(report))
    ensures Valid(r.0)
  {
    var hits := SecretHits(ResultsOf(report));
    (Dict(Extend([], FingerprintList(hits)), Summarize(memory, hits, now)), Remember(memory, hits, now))
  }

  /** A fingerprint seen k > 0 times in one report was bumped k times: its
      count is the prior count plus k, and last_seen is the run time; one not
      stored before has first_seen set to the run time. */
  lemma {:induction false} RememberCounts(memory: Memory, hits: seq<Hit>, now: string, fp: string)
    requires Occurrences(hits, fp) > 0
    ensures fp in Remember(memory, hits, now)
    ensures HasCount(Remember(memory, hits, now)[fp], Prior(memory, fp) + Occurrences(hits, fp))
    ensures Remember(memory, hits, now)[fp].lastSeen == Some(now)
    ensures fp !in memory ==> Remember(memory, hits, now)[fp].firstSeen == Some(now)
  {
    var init := hits[..|hits| - 1];
    var last := Fingerprint(hits[|hits| - 1]);
    var before := Remember(memory, init, now);
    var after := Upsert(before, last, now);
    var seen := Occurrences(init, fp);
    assert Remember(memory, hits, now) == after;
    assert Occurrences(hits, fp) == seen + (if last == fp then 1 else 0);
    if seen > 0 {
      RememberCounts(memory, init, now, fp);
      assert Prior(before, fp) == Prior(memory, fp) + seen;
      if last == fp {
        assert HasCount(after[fp], Prior(memory, fp) + seen + 1);
      } else {
        assert after[fp] == before[fp];
      }
    } else {
      OccurrencesFingerprints(init, fp);
      assert last == fp;
      assert Prior(before, fp) == Prior(memory, fp);
      assert HasCount(after[fp], Prior(memory, fp) + 1);
    }
  }

  /** Each fingerprint's count in `repeated` is its repeat_count in the
      updated memory. */
  lemma {:induction false} SummaryMatchesMemory(memory: Memory, hits: seq<Hit>, now: string, fp: string)
    requires fp in Summarize(memory, hits, now)
    ensures fp in Remember(memory, hits, now)
    ensures HasCount(Remember(memory, hits, now)[fp], Summarize(memory, hits, now)[fp].count)
  {
    var init := hits[..|hits| - 1];
    var last := hits[|hits| - 1];
    if Fingerprint(last) != fp {
      SummaryMatchesMemory(memory, init, now, fp);
    }
  }

  /** A fingerprint is in a report exactly when some hit has it. */
  lemma {:induction false} OccurrencesFingerprints(hits: seq<Hit>, fp: string)
    ensures fp in Fingerprints(hits) <==> Occurrences(hits, fp) > 0
  {
    if |hits| > 0 {
      OccurrencesFingerprints(hits[..|hits| - 1], fp);
    }
  }

  /** The contributors of an entry are all contributors of its fingerprint's
      hits, duplicates collapsed. */
  lemma {:induction false} SummaryContributors(memory: Memory, hits: seq<Hit>, now: string, fp: string)
    requires fp in Summarize(memory, hits, now)
    ensures Summarize(memory, hits, now)[fp].contributors == Contributors(hits, fp)
  {
    var init := hits[..|hits| - 1];
    if fp in Summarize(memory, init, now) {
      SummaryContributors(memory, init, now, fp);
    } else {
      OccurrencesFingerprints(init, fp);
      NoContributors(init, fp);
    }
  }

  /** An entry's file, type and severity are those of the last hit with its
      fingerprint: every later hit overwrites them. */
  lemma {:induction false} SummaryShowsLastHit(memory: Memory, hits: seq<Hit>, now: string, fp: string)
    requires fp in Summarize(memory, hits, now)
    ensures var d := Summarize(memory, hits, now)[fp];
      var h := LastHitOf(hits, fp);
      d.file == h.target && d.ruleType == RuleType(h) && d.severity == h.secret.severity.GetOr("UNKNOWN")
  {
    var init := hits[..|hits| - 1];
    if Fingerprint(hits[|hits| - 1]) != fp {
      SummaryShowsLastHit(memory, init, now, fp);
    }
  }

  lemma {:induction false} NoContributors(hits: seq<Hit>, fp: string)
    requires Occurrences(hits, fp) == 0
    ensures Contributors(hits, fp) == {}
  {
    if |hits| > 0 {
      NoContributors(hits[..|hits| - 1], fp);
    }
  }

  /** `build_dashboard_data`: one entry per fingerprint, in `repeated`'s
      order, all stamped with the one timestamp of the call. */
  function BuildDashboardData(repeated: Dict<Details>, stamp: string): (entries: seq<Entry>)
    requires Valid(repeated)
    ensures |entries| == |repeated.keys| == |repeated.values|
    ensures forall i :: 0 <= i < |entries| ==>
      var d := repeated.values[repeated.keys[i]];
      entries[i] == Entry(stamp, d.count, d.file, d.ruleType, d.contributors, d.severity)
  {
    SizeIsKeyCount(repeated);
    seq(|repeated.keys|, i requires 0 <= i < |repeated.keys| =>
      var d := repeated.values[repeated.keys[i]];
      Entry(stamp, d.count, d.file, d.ruleType, d.contributors, d.severity))
  }

  /** The fingerprints whose count reaches the threshold. */
  ghost function Alerting(repeated: map<string, Details>): set<string> {
    set fp | fp in repeated && repeated[fp].count >= RepeatThreshold
  }

  /** A subset is no larger than the set that holds it. */
  lemma {:induction false} SubsetSize(a: set<string>, b: set<string>)
    requires a <= b
    ensures |a| <= |b|
  {
    if a != {} {
      var x :| x in a;
      SubsetSize(a - {x}, b - {x});
    }
  }

  /** `len([v for v in values if v["count"] >= 2])`, walking the keys. */
  function CountAlerting(keys: seq<string>, repeated: map<string, Details>): nat
    requires forall k :: k in keys ==> k in repeated
  {
    if |keys| == 0 then 0
    else
      var last := keys[|keys| - 1];
      CountAlerting(keys[..|keys| - 1], repeated) + (if repeated[last].count >= RepeatThreshold then 1 else 0)
  }

  /** The keys among `keys` whose count reaches the threshold. */
  ghost function AlertingAmong(keys: seq<string>, repeated: map<string, Details>): set<string>
    requires forall k :: k in keys ==> k in repeated
  {
    set fp | fp in keys && repeated[fp].count >= RepeatThreshold
  }

  /** One more distinct key adds itself to the alerting keys exactly when
      its count reaches the threshold. */
  lemma AlertingAmongStep(keys: seq<string>, repeated: map<string, Details>)
    requires |keys| > 0 && Distinct(keys) && forall k :: k in keys ==> k in repeated
    ensures var init := keys[..|keys| - 1];
      var last := keys[|keys| - 1];
      && Distinct(init)
      && last !in AlertingAmong(init, repeated)
      && AlertingAmong(keys, repeated)
        == AlertingAmong(init, repeated) + (if repeated[last].count >= RepeatThreshold then {last} else {})
  {
    var init := keys[..|keys| - 1];
    var last := keys[|keys| - 1];
    assert keys == init + [last];
    assert last !in init;
  }

  /** Counting along distinct keys counts each alerting fingerprint once. */
  lemma {:induction false} CountAlertingIsSize(keys: seq<string>, repeated: map<string, Details>)
    requires Distinct(keys) && forall k :: k in keys ==> k in repeated
    ensures CountAlerting(keys, repeated) == |AlertingAmong(keys, repeated)|
  {
    if |keys| > 0 {
      AlertingAmongStep(keys, repeated);
      CountAlertingIsSize(keys[..|keys| - 1], repeated);
    }
  }

  /** The alert of `main`: the number of fingerprints whose count is at least
      the threshold, active exactly when there is one. */
  function ComputeAlert(repeated: Dict<Details>): (a: Alert)
    requires Valid(repeated)
    ensures a.count == |Alerting(repeated.values)|
    ensures a.active <==> exists fp :: fp in repeated.values && repeated.values[fp].count >= RepeatThreshold
    ensures a.threshold == RepeatThreshold
  {
    var n := CountAlerting(repeated.keys, repeated.values);
    CountAlertingIsSize(repeated.keys, repeated.values);
    assert AlertingAmong(repeated.keys, repeated.values) == Alerting(repeated.values);
    assert forall fp :: fp in Alerting(repeated.values) <==> fp in repeated.values && repeated.values[fp].count >= RepeatThreshold;
    Alert(n > 0, n, RepeatThreshold)
  }

  /** `main` without the file I/O: `now` stands for the clock reads of the
      extraction, `stamp` for the one of `build_dashboard_data`. */
  function RunTracker(report: Report, memory: Memory, now: string, stamp: string): (out: Output)
    requires WellFormed(ResultsOf(report))
    ensures out.memory.Keys == memory.Keys + Fingerprints(SecretHits(ResultsOf(report)))
    ensures |out.entries| == |Fingerprints(SecretHits(ResultsOf(report)))|
    ensures out.alert.active <==> out.alert.count > 0
    ensures out.alert.count <= |out.entries|
    ensures out.alert.threshold == RepeatThreshold
  {
    var (repeated, updated) := ExtractRepeatedSecrets(report, memory, now);
    var alert := ComputeAlert(repeated);
    assert repeated.values.Keys == Fingerprints(SecretHits(ResultsOf(report)));
    SubsetSize(Alerting(repeated.values), repeated.values.Keys);
    Output(BuildDashboardData(repeated, stamp), alert, updated)
  }

  /** A prefix of a well-formed report is well formed. */
  lemma WellFormedPrefix(results: seq<ScanResult>, n: nat)
    requires WellFormed(results) && n <= |results|
    ensures WellFormed(results[..n])
  {
    assert forall i :: 0 <= i < n ==> results[..n][i] == results[i];
  }

  /** Extraction keeps report order: the hits of two result lists in a row
      are the hits of the first followed by those of the second. */
  lemma {:induction false} SecretHitsConcat(a: seq<ScanResult>, b: seq<ScanResult>)
    requires WellFormed(a + b)
    ensures WellFormed(a) && WellFormed(b)
    ensures SecretHits(a + b) == SecretHits(a) + SecretHits(b)
  {
    var ab := a + b;
    assert ab[..|a|] == a;
    WellFormedPrefix(ab, |a|);
    assert forall i :: 0 <= i < |b| ==> b[i] == ab[|a| + i];
    if |b| == 0 {
      assert ab == a;
    } else {
      var b' := b[..|b| - 1];
      assert ab[..|ab| - 1] == a + b';
      WellFormedPrefix(ab, |ab| - 1);
      SecretHitsConcat(a, b');
      assert ab[|ab| - 1] == b[|b| - 1];
    }
  }

  /** A single result contributes its secrets exactly when its class is
      "secret", and nothing otherwise. */
  lemma SecretHitsSingle(result: ScanResult)
    requires IsSecretResult(result) ==> Indexable(result)
    ensures WellFormed([result])
    ensures IsSecretResult(result) ==> SecretHits([result]) == HitsOf(result)
    ensures !IsSecretResult(result) ==> SecretHits([result]) == []
  {
    assert [result][..0] == [];
  }

  /** The type shown for a hit is its RuleID: the "UNKNOWN" default of
      `secret.get("RuleID", "UNKNOWN")` is never used, since the RuleID was
      already indexed directly. */
  lemma {:induction false} RuleTypeIsRuleId(results: seq<ScanResult>, i: nat)
    requires WellFormed(results)
    requires i < |SecretHits(results)|
    ensures RuleType(SecretHits(results)[i]) == SecretHits(results)[i].ruleId
  {
    var init := results[..|results| - 1];
    var last := results[|results| - 1];
    assert forall k :: 0 <= k < |init| ==> init[k] == results[k];
    if i < |SecretHits(init)| {
      RuleTypeIsRuleId(init, i);
    }
  }

  /** The characters of a fingerprint up to and including the separator. */
  lemma CharOfFingerprint(h: Hit, k: nat)
    requires k <= |h.ruleId|
    ensures k < |h.ruleId| ==> Fingerprint(h)[k] == h.ruleId[k]
    ensures k == |h.ruleId| ==> Fingerprint(h)[k] == '_'
  {
  }

  /** Fingerprints tell findings apart when rule ids contain no "_". */
  lemma FingerprintInjective(a: Hit, b: Hit)
    requires '_' !in a.ruleId && '_' !in b.ruleId
    requires Fingerprint(a) == Fingerprint(b)
    ensures a.ruleId == b.ruleId && a.target == b.target
  {
    var s := Fingerprint(a);
    if |a.ruleId| < |b.ruleId| {
      CharOfFingerprint(a, |a.ruleId|);
      assert false;
    } else if |b.ruleId| < |a.ruleId| {
      CharOfFingerprint(b, |b.ruleId|);
      assert false;
    } else {
      assert a.ruleId == s[..|a.ruleId|] == b.ruleId;
      assert a.target == s[|a.ruleId| + 1..] == b.target;
    }
  }

  /** Without that condition two different findings can share a fingerprint
      and are then counted as one: rule "a_b" in target "c" and rule "a" in
      target "b_c" both give "a_b_c". */
  lemma FingerprintsCanCollide(secret: Secret)
    ensures Fingerprint(Hit("c", "a_b", secret)) == Fingerprint(Hit("b_c", "a", secret))
  {
    assert "a_b" + "_" + "c" == "a" + "_" + "b_c";
  }

  /** What the dashboard entry of fingerprint `fp` shows after a run over
      `hits`: the count now stored for `fp`, the run's single timestamp, the
      contributors of all its hits, and the file, type and severity of its
      last hit. */
  ghost predicate EntryShows(e: Entry, fp: string, hits: seq<Hit>, updated: Memory, stamp: string)
    requires fp in Fingerprints(hits)
  {
    var h := LastHitOf(hits, fp);
    && fp in updated
    && HasCount(updated[fp], e.count)
    && e.timestamp == stamp
    && e.contributors == Contributors(hits, fp)
    && e.file == h.target
    && e.ruleType == h.ruleId
    && e.severity == h.secret.severity.GetOr("UNKNOWN")
  }

  /** The entry built from the `repeated` value of one fingerprint. */
  lemma EntryOfFingerprint(memory: Memory, hits: seq<Hit>, now: string, stamp: string, fp: string)
    requires fp in Fingerprints(hits)
    requires forall k :: 0 <= k < |hits| ==> Some(hits[k].ruleId) == hits[k].secret.ruleId
    ensures var d := Summarize(memory, hits, now)[fp];
      EntryShows(Entry(stamp, d.count, d.file, d.ruleType, d.contributors, d.severity), fp, hits, Remember(memory, hits, now), stamp)
  {
    SummaryMatchesMemory(memory, hits, now, fp);
    SummaryContributors(memory, hits, now, fp);
    SummaryShowsLastHit(memory, hits, now, fp);
    LastHitIsHit(hits, fp);
  }

  /** Each dashboard entry belongs to a fingerprint of the report and shows
      what `EntryShows` says. */
  lemma EntriesMatchMemory(report: Report, memory: Memory, now: string, stamp: string)
    requires WellFormed(ResultsOf(report))
    ensures var out := RunTracker(report, memory, now, stamp);
      var repeated := ExtractRepeatedSecrets(report, memory, now).0;
      var hits := SecretHits(ResultsOf(report));
      forall i :: 0 <= i < |out.entries| ==>
        && repeated.keys[i] in Fingerprints(hits)
        && EntryShows(out.entries[i], repeated.keys[i], hits, out.memory, stamp)
  {
    var out := RunTracker(report, memory, now, stamp);
    var hits := SecretHits(ResultsOf(report));
    var repeated := ExtractRepeatedSecrets(report, memory, now).0;
    forall i | 0 <= i < |out.entries|
      ensures repeated.keys[i] in Fingerprints(hits)
      ensures EntryShows(out.entries[i], repeated.keys[i], hits, out.memory, stamp)
    {
      EntryOfFingerprint(memory, hits, now, stamp, repeated.keys[i]);
    }
  }

  /** A report without secrets leaves the memory as it was and produces no
      entries and no alert. */
  lemma QuietReport(report: Report, memory: Memory, now: string, stamp: string)
    requires WellFormed(ResultsOf(report))
    requires SecretHits(ResultsOf(report)) == []
    ensures RunTracker(report, memory, now, stamp) == Output([], Alert(false, 0, RepeatThreshold), memory)
  {
    var repeated := ExtractRepeatedSecrets(report, memory, now).0;
    assert repeated.keys == [];
    assert Alerting(repeated.values) == {};
  }

  /** After one run every fingerprint of the report that occurs once in it
      and was not stored before has count 1. */
  lemma FirstRunCounts(hits: seq<Hit>, memory: Memory, now: string, fp: string)
    requires fp in Summarize(memory, hits, now)
    requires fp !in memory && Occurrences(hits, fp) == 1
    ensures Summarize(memory, hits, now)[fp].count == 1
    ensures HasCount(Remember(memory, hits, now)[fp], 1)
  {
    SummaryMatchesMemory(memory, hits, now, fp);
    RememberCounts(memory, hits, now, fp);
  }

  /** Findings that are new and occur once: each has count 1 after their
      first run, so none of them reaches the threshold. */
  lemma FirstRunQuiet(hits: seq<Hit>, memory: Memory, now: string)
    requires forall fp :: fp in Fingerprints(hits) ==> fp !in memory && Occurrences(hits, fp) == 1
    ensures forall fp :: fp in Fingerprints(hits) ==> Summarize(memory, hits, now)[fp].count == 1
    ensures Alerting(Summarize(memory, hits, now)) == {}
  {
    var sum := Summarize(memory, hits, now);
    forall fp | fp in sum
      ensures sum[fp].count == 1
    {
      FirstRunCounts(hits, memory, now, fp);
    }
  }

  /** The same findings run again: every one of them now has count 2, so
      all of them reach the threshold. */
  lemma SecondRunAlerts(hits: seq<Hit>, memory: Memory, now1: string, now2: string)
    requires forall fp :: fp in Fingerprints(hits) ==> fp !in memory && Occurrences(hits, fp) == 1
    ensures forall fp :: fp in Fingerprints(hits) ==> Summarize(Remember(memory, hits, now1), hits, now2)[fp].count == 2
    ensures Alerting(Summarize(Remember(memory, hits, now1), hits, now2)) == Fingerprints(hits)
  {
    var mem1 := Remember(memory, hits, now1);
    var sum2 := Summarize(mem1, hits, now2);
    forall fp | fp in Fingerprints(hits)
      ensures sum2[fp].count == 2
    {
      OccurrencesFingerprints(hits, fp);
      RememberCounts(memory, hits, now1, fp);
      SummaryMatchesMemory(mem1, hits, now2, fp);
      RememberCounts(mem1, hits, now2, fp);
    }
  }

  /** With the threshold at 2, a report whose findings are all new and occur
      once raises no alert on its first run and an alert on every one of them
      when the same report is run again. */
  lemma AlertOnSecondSighting(report: Report, memory: Memory, now1: string, now2: string, stamp1: string, stamp2: string)
    requires WellFormed(ResultsOf(report))
    requires SecretHits(ResultsOf(report)) != []
    requires forall fp :: fp in Fingerprints(SecretHits(ResultsOf(report))) ==>
      fp !in memory && Occurrences(SecretHits(ResultsOf(report)), fp) == 1
    ensures var first := RunTracker(report, memory, now1, stamp1);
      && !first.alert.active
      && RunTracker(report, first.memory, now2, stamp2).alert.active
      && RunTracker(report, first.memory, now2, stamp2).alert.count
        == |Fingerprints(SecretHits(ResultsOf(report)))|
  {
    var hits := SecretHits(ResultsOf(report));
    FirstRunQuiet(hits, memory, now1);
    SecondRunAlerts(hits, memory, now1, now2);
    assert Fingerprint(hits[|hits| - 1]) in Fingerprints(hits);
  }
}
