# Finding memory of the CTEM pipeline scripts, in Dafny

The scripts of this repository read a Trivy scan report, remember every
finding they have seen in a persistent store, and write a small JSON
artifact for a dashboard. The logic they share is the **finding-memory
upsert**: a map from a finding's fingerprint to a record that is created on
first sight, updated on every later sighting and never deleted. This project
models four variants of it as pure functions over sequences and maps, with
file, SQLite and clock access replaced by parameters:

| module | file | what it models |
|---|---|---|
| `SecretTracker` | `secret_tracker.dfy` | memory_tracker.py: secrets of "secret" results keyed by `RuleID_Target`; counts start at 1; dashboard entries and the alert (threshold 2) |
| `HistoryTracker` | `history_tracker.dfy` | scripts/memory_tracker.py: secrets keyed by `Target::RuleID`; a count and a list of timestamps per key; one dashboard row per remembered key |
| `VulnStore` | `vuln_store.dfy` | scripts/compare.py: vulnerabilities keyed by `(vuln_id, file_path)`; counts start at 0; the table as a map |
| `Timeline` | `timeline.dfy` | scripts/generate_dashboard.py: rows grouped by the day of `first_seen`, new vs repeat counts, sorted dates |

Shared modules: `Wrappers` (an `Option` for JSON keys that may be absent),
`Trivy` (the parsed report), `Dict` (Python's insertion-ordered `dict`:
dashboard rows and entries follow its key order), `Strings` (Python's `<` on
`str`, ordered insertion, the first piece of `str.split`).

A loop that carries state from one element to the next (the walk over the
results, the memory and count updates, the `repeated` and `current_findings`
updates, the alert count) is a recursive function on the prefix that ends
before the last element, so it visits elements in the order the Python loop
does. A loop that builds one output per element independently (the secrets
of one result, the dashboard entries and rows, the two count arrays of the
chart) is a `seq` comprehension. The timeline loop of generate_dashboard.py
is the method `Timeline.Aggregate`, and its `sorted(...)` call is the method
`Timeline.SortedKeys`. Timestamps are opaque strings.

Behaviour of the code that a reader might not expect, and that the model
keeps:

- Counting starts at 1 in memory_tracker.py: a new fingerprint gets
  `repeat_count = 1`, and a stored record without a count reads as 1
  (`SecretTracker.Upsert`, `SecretTracker.Prior`). compare.py starts a new
  row at 0.
- Counts grow per sighting, not per run: a key seen k times in one report is
  bumped k times (`SecretTracker.RememberCounts`,
  `HistoryTracker.RememberCounts`, `VulnStore.ApplyCounts`). A vulnerability
  listed twice for one target in the first scan is therefore already a
  "repeat" with count 1. The count is the number of runs minus one only when
  a key occurs once per run (`VulnStore.RepeatCountCountsRuns`).
- Missing fields do not all default to "UNKNOWN". compare.py defaults a
  missing target and severity to "". scripts/memory_tracker.py writes a
  missing `Target` or `RuleID` into the key as "None".
- In compare.py a missing `VulnerabilityID` is bound as SQL NULL. `vuln_id=?`
  never matches NULL, and SQLite admits NULL in a composite primary key that
  is not an INTEGER PRIMARY KEY. So every such sighting inserts a new row with
  count 0 (`VulnStore.Table.unkeyed`, `VulnStore.Apply`).
- The fingerprint `RuleID + "_" + Target` is not injective: rule "a_b" in
  target "c" and rule "a" in target "b_c" collide
  (`SecretTracker.FingerprintsCanCollide`). It is injective when rule ids
  contain no "_" (`SecretTracker.FingerprintInjective`).

## Model

| member | source | states |
|---|---|---|
| `SecretTracker.HitsOf` | memory_tracker.py:30-31 | one hit per entry of `Secrets`, in order, carrying that secret, its `RuleID` and the result's `Target` |
| `SecretTracker.SecretHits` | memory_tracker.py:24-31 | every secret visited comes from a result whose `Class` is "secret", carries that result's `Target`, and carries its own `RuleID` |
| `SecretTracker.SecretHitsConcat` | memory_tracker.py:24-30 | the secrets visited for two result lists in a row are those of the first followed by those of the second (report order is kept) |
| `SecretTracker.SecretHitsSingle` | memory_tracker.py:26-30 | a result contributes its secrets exactly when its `Class` is "secret", and nothing otherwise |
| `SecretTracker.RuleTypeIsRuleId` | memory_tracker.py:31-34 | the type shown for every visited secret is its `RuleID`; the "UNKNOWN" default is never used |
| `SecretTracker.FingerprintInjective` | memory_tracker.py:31 | when rule ids contain no "_", equal fingerprints mean equal rule and target |
| `SecretTracker.FingerprintsCanCollide` | memory_tracker.py:31 | two findings with different rule and target can share a fingerprint |
| `SecretTracker.Upsert` | memory_tracker.py:36-46 | one sighting: the key set gains the fingerprint, other records are unchanged, the count becomes prior + 1 (prior 0 if new, 1 if the field is missing), last_seen is the run time, a known record keeps first_seen, a new one gets count 1 and both stamps |
| `SecretTracker.Remember` | memory_tracker.py:26-46 | after the loop the memory's keys are the old keys plus the report's fingerprints, records of other fingerprints are untouched, and every stored record keeps its first_seen |
| `SecretTracker.RememberCounts` | memory_tracker.py:36-46 | a fingerprint seen k > 0 times ends with count prior + k and last_seen = run time; a new one has first_seen = run time |
| `SecretTracker.Note` | memory_tracker.py:48-52 | the `repeated` entry of the hit's fingerprint gets the given count, the hit's target as file, its rule as type and its severity (default "UNKNOWN"), and gains the hit's contributor; other entries are unchanged |
| `SecretTracker.FingerprintList` | memory_tracker.py:31 | the k-th fingerprint listed is the fingerprint of the k-th secret visited |
| `SecretTracker.Summarize` | memory_tracker.py:26-52 | `repeated` has exactly the fingerprints of the report |
| `SecretTracker.SummaryMatchesMemory` | memory_tracker.py:37-48 | each fingerprint's count in `repeated` equals its repeat_count in the updated memory |
| `SecretTracker.SummaryContributors` | memory_tracker.py:32-51 | an entry's contributors are the set of contributors of all hits with its fingerprint |
| `SecretTracker.SummaryShowsLastHit` | memory_tracker.py:48-52 | an entry's file, type and severity are those of the last hit with its fingerprint |
| `SecretTracker.ExtractRepeatedSecrets` | memory_tracker.py:19-54 | the ordered `repeated` dict lists each fingerprint exactly once |
| `SecretTracker.BuildDashboardData` | memory_tracker.py:56-71 | exactly one entry per fingerprint, in dict order, every entry with the single call timestamp and its fingerprint's details |
| `SecretTracker.CountAlertingIsSize` | memory_tracker.py:81 | counting along the distinct keys gives the number of fingerprints whose count is at least 2 |
| `SecretTracker.ComputeAlert` | memory_tracker.py:80-89 | `count` is the number of fingerprints with count >= 2, `active` holds iff one exists, `threshold` is 2 |
| `SecretTracker.RunTracker` | memory_tracker.py:73-90 | the saved memory has the old fingerprints plus the report's; there is one entry per fingerprint of the report; the alert is active iff its count is positive, counts at most one per entry, and has threshold 2 |
| `SecretTracker.EntryOfFingerprint` | memory_tracker.py:36-68 | the entry built from a fingerprint's `repeated` value shows the count stored in memory, the timestamp, the contributors of its hits, and the file, type and severity of its last hit |
| `SecretTracker.EntriesMatchMemory` | memory_tracker.py:36-78 | every dashboard entry belongs to a fingerprint of the report and shows the count stored in memory for it, the run's timestamp, its contributors, and the file, type (its `RuleID`) and severity of its last hit |
| `SecretTracker.QuietReport` | memory_tracker.py:73-90 | a report with no secrets gives no entries, an inactive alert with count 0, and leaves the memory unchanged |
| `SecretTracker.FirstRunCounts` | memory_tracker.py:40-46 | a new fingerprint seen once has count 1 in `repeated` and in memory |
| `SecretTracker.FirstRunQuiet` | memory_tracker.py:40-46 | findings that are new and occur once in a report all have count 1 after it, so none reaches the threshold |
| `SecretTracker.SecondRunAlerts` | memory_tracker.py:36-38 | running the same report again gives every one of those findings count 2, so all of them reach the threshold |
| `SecretTracker.AlertOnSecondSighting` | memory_tracker.py:36-89 | for new findings seen once per report, the first run raises no alert and running the same report again alerts on every one of them |
| `HistoryTracker.SightingsOf` | scripts/memory_tracker.py:39-42 | one sighting per secret of a result, in order, with the result's target |
| `HistoryTracker.Sightings` | scripts/memory_tracker.py:38-42 | every sighting carries a secret of some result of the report together with that result's target |
| `HistoryTracker.SightingsConcat` | scripts/memory_tracker.py:38-42 | the scan visits results in report order |
| `HistoryTracker.SightingsSingle` | scripts/memory_tracker.py:38-42 | every result contributes all its secrets, whatever its class |
| `HistoryTracker.Bump` | scripts/memory_tracker.py:56-58 | one sighting: an absent key starts from count 0 and empty history, then the count grows by 1 and the history by the run timestamp; other keys unchanged |
| `HistoryTracker.Remember` | scripts/memory_tracker.py:38-58 | after the loop the keys are the old keys plus the scan's keys, and keys not in the scan keep their record |
| `HistoryTracker.RememberCounts` | scripts/memory_tracker.py:56-58 | a key's count grows by the number of its sightings and its history by that many copies of the run timestamp |
| `HistoryTracker.RememberKeepsConsistent` | scripts/memory_tracker.py:56-58 | if every history is as long as its count before the run, the same holds after it |
| `HistoryTracker.IdList` | scripts/memory_tracker.py:46 | the k-th key listed is the `Target::RuleID` key of the k-th sighting, so the keys listed are exactly the keys of the scan |
| `HistoryTracker.Latest` | scripts/memory_tracker.py:48-54 | `current_findings` has exactly the keys of the scan |
| `HistoryTracker.LatestIsLastSighting` | scripts/memory_tracker.py:48-54 | each key of `current_findings` holds the details of the last sighting with that key |
| `HistoryTracker.LastSightingWins` | scripts/memory_tracker.py:42-54 | when a key repeats within a scan, `current_findings` holds the details of its last sighting |
| `HistoryTracker.Track` | scripts/memory_tracker.py:35-58 | the memory dict stays valid and keeps its old keys in their old order at the front |
| `HistoryTracker.RowOf` | scripts/memory_tracker.py:61-69 | the row of a key has its id and count; severity, title, target and rule come from `current_findings` when the key is there and are "UNKNOWN", "", "", "" otherwise; last seen is the last history entry, or "N/A" for an empty history |
| `HistoryTracker.DashboardRows` | scripts/memory_tracker.py:60-69 | exactly one row per memory key, in memory order, with distinct ids, each being the key's row as `RowOf` states it |
| `HistoryTracker.Run` | scripts/memory_tracker.py:30-72 | the saved memory is valid and there are as many rows as remembered keys |
| `HistoryTracker.RowsAfterRun` | scripts/memory_tracker.py:38-68 | a row of a key seen in the scan shows the run timestamp, the grown count, and the severity, title, target and rule of its last sighting; a row of an unseen key shows severity "UNKNOWN", empty title, target and rule, and its old count |
| `HistoryTracker.NeverSeenShowsPlaceholder` | scripts/memory_tracker.py:68 | every row shows the last entry of its key's history as last seen, or "N/A" if the history is empty; with consistent memory, that is "N/A" exactly for keys with no occurrences |
| `VulnStore.ToSighting` | scripts/compare.py:36-40 | the tuple keeps the id; desc is the title when truthy, else the description or ""; path is the result's target and severity the vulnerability's, each "" when missing |
| `VulnStore.SightingsOf` | scripts/compare.py:35-40 | one tuple per vulnerability of a result, in order |
| `VulnStore.Extract` | scripts/compare.py:33-40 | every tuple is the tuple of a vulnerability of some result of the report |
| `VulnStore.ExtractConcat` | scripts/compare.py:33-40 | the tuples of two result lists in a row are those of the first followed by those of the second |
| `VulnStore.ExtractSingle` | scripts/compare.py:34-40 | a single result yields exactly its vulnerabilities' tuples |
| `VulnStore.Upsert` | scripts/compare.py:44-64 | a stored key gets count + 1 and the new last_seen with description, severity and first_seen kept; a new key is inserted with count 0 and both stamps = now; other rows unchanged; a tuple without id appends a fresh row |
| `VulnStore.Apply` | scripts/compare.py:44-64 | no row is deleted; rows whose key is not in the scan are untouched; stored rows keep description, severity and first_seen; each tuple without an id adds one row with count 0 |
| `VulnStore.KeysOfHits` | scripts/compare.py:46-47 | a key is in the scan exactly when some tuple carries that (vuln_id, file_path) pair |
| `VulnStore.ApplyCounts` | scripts/compare.py:51-64 | a key seen k > 0 times ends with count old + k if stored, k - 1 if new; last_seen is now; a new key's first_seen is now |
| `VulnStore.NoHitsUntouched` | scripts/compare.py:44-64 | a key not in the scan is present after the run exactly when it was before, with the same row |
| `VulnStore.RunAll` | scripts/compare.py:44-64 | over several runs no key is removed, every stored row keeps its description, severity and first_seen, and the NULL-id rows stored before stay unchanged in their places |
| `VulnStore.RepeatCountCountsRuns` | scripts/compare.py:51-64 | a new key seen once in each of n runs has count n - 1, first_seen of the first run and last_seen of the last |
| `VulnStore.Compare` | scripts/compare.py:33-64 | after a run the keys are the old keys plus those of the report, and rows of other keys are untouched |
| `Strings.PrefixBefore` | scripts/generate_dashboard.py:20 | the day is a prefix of `first_seen` containing no "T", and either all of it or followed by a "T" |
| `Strings.Below` | scripts/generate_dashboard.py:26 | a proper prefix sorts before the longer string, and no string sorts before one of its prefixes |
| `Strings.BelowAtFirstDifference` | scripts/generate_dashboard.py:26 | otherwise the first code point at which the strings differ decides the order |
| `Strings.BelowIrreflexive` | scripts/generate_dashboard.py:26 | no string sorts before itself |
| `Strings.BelowTransitive` | scripts/generate_dashboard.py:26 | the string order is transitive |
| `Strings.BelowTotal` | scripts/generate_dashboard.py:26 | any two distinct strings are ordered one way or the other |
| `Strings.InsertSorted` | scripts/generate_dashboard.py:26 | inserting into a strictly ascending list keeps it strictly ascending and adds exactly the new string |
| `Timeline.Tick` | scripts/generate_dashboard.py:20-24 | the row's day gains one repeat if its count is positive and one new otherwise, starting from zero; other days unchanged |
| `Timeline.TickStep` | scripts/generate_dashboard.py:19-24 | one more row keeps the timeline equal to the per-day counts of the rows seen so far |
| `Timeline.Aggregate` | scripts/generate_dashboard.py:18-24 | the timeline has one entry per day that occurs, with that day's new and repeat counts |
| `Timeline.SortedKeys` | scripts/generate_dashboard.py:26 | the days in strictly ascending order, each exactly once |
| `Timeline.Columns` | scripts/generate_dashboard.py:27-28 | the chart keeps the dates, and its two arrays are as long as the dates and hold, at each index, that date's new and repeat counts |
| `Timeline.EveryRowCounted` | scripts/generate_dashboard.py:18-28 | when the dates list every day of the rows once, the day counts add up to the number of rows |
| `Timeline.SumsAreTallies` | scripts/generate_dashboard.py:27-28 | the sums of the aligned count arrays are the per-day counts summed over the dates |
| `Timeline.GenerateDashboardData` | scripts/generate_dashboard.py:17-34 | dates strictly ascending and exactly the days of the rows, each listed once; both arrays as long as dates and aligned with them; total new + repeat is the number of rows; empty input gives three empty arrays |
| `Dict.Extend` | scripts/memory_tracker.py:56 | assigning keys keeps the old key order as a prefix, adds exactly the keys not already there, in the order of their first assignment, and never lists a key twice |

## Left out

- File and JSON I/O (`load_json`, `load_trivy_data`, `load_memory`, `save_*`, `json.dump`, `os.makedirs`): the parsed report and the loaded memory are inputs, the outputs are returned.
- The fallbacks of `load_json` for a missing or malformed file, and the crash of `trivy_data.get` when the report falls back to a list: the report is always a parsed object.
- SQLite mechanics (connect, `CREATE TABLE`, cursors, commit): the table is a map from `(vuln_id, file_path)` plus a list of rows with a NULL id; the rows given to the timeline are a sequence, and the `ORDER BY` is not modelled because the result does not depend on row order.
- Clock reads: each run takes its timestamp as a parameter (`now`); the dashboard timestamp of memory_tracker.py is a separate parameter (`stamp`).
- SecretTracker.Upsert, SecretTracker.RememberCounts: memory_tracker.py reads the clock at every sighting (lines 39, 42 and 44: twice for a new fingerprint, once for a known one), so in the program a new record's first_seen and last_seen can differ and the records of one run can carry different stamps. The model passes one value `now` for all reads of a run, so "first_seen == last_seen == now" and "last_seen is the run time" hold only under that simplification.
- KeyError on a missing `RuleID` or `Target` in memory_tracker.py: `SecretTracker.WellFormed` is a precondition instead.
- HistoryTracker.Record: every record of memory.json is assumed to carry both `count` and `history`; scripts/memory_tracker.py stops with a KeyError otherwise (lines 57-58 for a key seen in the scan, lines 67-68 for every key when the rows are built), and that crash is not modelled.
- JSON values of the wrong type, and keys present with an explicit null, which `.get` would return instead of the default.
- The joined contributor string: Python's set order is not fixed, so entries carry the contributor set.
- The secret memory and the `current_findings` dict are plain maps: the memory's key order only affects the layout of the saved memory file, and `current_findings` is only looked up, never iterated or written.
- generate_trivy.py (random fake data), app/main.py (a web route reading a file) and scripts/alert.py (a query and printing).
