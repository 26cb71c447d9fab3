/** The parts of a parsed Trivy JSON report that the trackers read.
    Every key the scripts look up with `.get` is optional. */
module Trivy {
  import opened Wrappers

  /** One entry of `Results[].Secrets[]`. */
  datatype Secret = Secret(
    ruleId: Option<string>,
    severity: Option<string>,
    title: Option<string>,
    contributor: Option<string>)

  /** One entry of `Results[].Vulnerabilities[]`. */
  datatype Vulnerability = Vulnerability(
    vulnerabilityId: Option<string>,
    title: Option<string>,
    description: Option<string>,
    severity: Option<string>)

  /** One entry of `Results[]`: a scanned target and what was found in it. */
  datatype ScanResult = ScanResult(
    target: Option<string>,
    resultClass: Option<string>,
    secrets: Option<seq<Secret>>,
    vulnerabilities: Option<seq<Vulnerability>>)

  /** The whole report; `Results` may be missing. */
  datatype Report = Report(results: Option<seq<ScanResult>>)

  /** `report.get("Results", [])` */
  function ResultsOf(report: Report): seq<ScanResult> {
    report.results.GetOr([])
  }

  /** `result.get("Secrets", [])` */
  function SecretsOf(result: ScanResult): seq<Secret> {
    result.secrets.GetOr([])
  }

  /** `result.get("Vulnerabilities", [])` */
  function VulnerabilitiesOf(result: ScanResult): seq<Vulnerability> {
    result.vulnerabilities.GetOr([])
  }
}
