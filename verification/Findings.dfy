/** Review findings as they travel through verification and composition (pkg/review). */
module Findings {
  import opened Prelude

  datatype Evidence = Evidence(file: string, line: Option<int>, endLine: Option<int>, message: string)

  datatype Remediation = Remediation(estimate: string, complexity: string)

  /** Where a merged finding came from. */
  datatype Origin = Origin(adversary: string, scope: string, findingId: string, ruleId: string)

  /** Metadata is reduced to the recorded composition sources. */
  datatype Finding = Finding(
    id: string, ruleId: string, groupKey: string, title: string, summary: string,
    severity: string, confidence: string,
    whyItMatters: string, impact: string, recommendation: string, remediation: Option<Remediation>,
    evidence: seq<Evidence>, tags: seq<string>, origins: seq<Origin>)
}
