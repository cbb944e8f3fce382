/** Evaluated snapshots and the strict loader that decides which evidence artifacts are accepted. */
module Evidence {
  import opened Wrappers

  datatype Result<+T> = Accepted(value: T) | Rejected

  datatype Status = PASS | WARN | FAIL | UNKNOWN

  const SNAPSHOT_SCHEMA := "forgeops.snapshot/v1alpha1"
  const EXPECTED_CONTEXT := "kubernetes-admin@kubernetes"

  /** A field that must hold one fixed disclosure text. */
  datatype FixedText = Supported | OtherText

  datatype Check = Check(id: string, status: Status, observation: string, source: string, collectedAt: int,
                         expected: Option<string>, observed: Option<string>, errorCategory: Option<string>)

  datatype Snapshot = Snapshot(schema: string, collectedAt: int, context: string, checks: seq<Check>)

  datatype SummaryDocument = SummaryDocument(pass: int, warn: int, fail: int, unknown: int,
                                             overallStatus: Status, exitCode: int)

  /** An artifact as it lies on disk: well-typed, but nothing else is known about it. */
  datatype EvidenceDocument = EvidenceDocument(schema: string, collectedAt: int, context: string, scope: FixedText,
                                               redaction: FixedText, summary: SummaryDocument, checks: seq<Check>,
                                               limitations: FixedText)

  // ----- Status -----

  function Count(statuses: seq<Status>, status: Status): nat {
    if statuses == [] then 0 else (if statuses[0] == status then 1 else 0) + Count(statuses[1..], status)
  }

  function Statuses(checks: seq<Check>): seq<Status> {
    seq(|checks|, k requires 0 <= k < |checks| => checks[k].status)
  }

  function OverallStatus(statuses: seq<Status>): Status {
    if UNKNOWN in statuses then UNKNOWN
    else if FAIL in statuses then FAIL
    else if WARN in statuses then WARN
    else PASS
  }

  function ExitCode(statuses: seq<Status>): int {
    if UNKNOWN in statuses then 2
    else if WARN in statuses || FAIL in statuses then 1
    else 0
  }

  function Severity(status: Status): nat {
    match status
    case PASS => 0
    case WARN => 1
    case FAIL => 2
    case UNKNOWN => 3
  }

  /** The overall status is the worst one present, PASS when there is none; the exit code follows it. */
  lemma OverallIsWorst(statuses: seq<Status>)
    ensures statuses != [] ==> OverallStatus(statuses) in statuses
    ensures forall s :: s in statuses ==> Severity(s) <= Severity(OverallStatus(statuses))
    ensures ExitCode(statuses) ==
      match OverallStatus(statuses) case PASS => 0 case UNKNOWN => 2 case _ => 1
  {
    if statuses != [] {
      assert statuses[0] in statuses;
      match statuses[0] {
        case PASS =>
        case WARN =>
        case FAIL =>
        case UNKNOWN =>
      }
    }
  }

  lemma {:induction false} CountMeans(statuses: seq<Status>, status: Status)
    ensures Count(statuses, status) == multiset(statuses)[status]
  {
    if statuses != [] {
      CountMeans(statuses[1..], status);
      assert statuses == [statuses[0]] + statuses[1..];
    }
  }

  function SummaryOf(statuses: seq<Status>): SummaryDocument {
    SummaryDocument(Count(statuses, PASS), Count(statuses, WARN), Count(statuses, FAIL), Count(statuses, UNKNOWN),
                    OverallStatus(statuses), ExitCode(statuses))
  }

  /** The four counts of a summary are those of the statuses, and leave none out. */
  lemma SummaryMeans(statuses: seq<Status>)
    ensures var s, m := SummaryOf(statuses), multiset(statuses);
      s.pass == m[PASS] && s.warn == m[WARN] && s.fail == m[FAIL] && s.unknown == m[UNKNOWN]
    ensures var s := SummaryOf(statuses); s.pass + s.warn + s.fail + s.unknown == |statuses|
  {
    CountMeans(statuses, PASS);
    CountMeans(statuses, WARN);
    CountMeans(statuses, FAIL);
    CountMeans(statuses, UNKNOWN);
    CountsAddUp(statuses);
  }

  lemma {:induction false} CountsAddUp(statuses: seq<Status>)
    ensures Count(statuses, PASS) + Count(statuses, WARN) + Count(statuses, FAIL) + Count(statuses, UNKNOWN) ==
      |statuses|
  {
    if statuses != [] {
      CountsAddUp(statuses[1..]);
    }
  }

  // ----- The loader -----

  predicate PresentIsNonEmpty(detail: Option<string>) {
    detail.Some? ==> detail.value != ""
  }

  predicate CheckIsWellFormed(check: Check, collectedAt: int) {
    && check.id != "" && check.observation != "" && check.source != "" && check.collectedAt == collectedAt
    && PresentIsNonEmpty(check.expected) && PresentIsNonEmpty(check.observed) && PresentIsNonEmpty(check.errorCategory)
  }

  ghost predicate UniqueIds(checks: seq<Check>) {
    forall i, j :: 0 <= i < j < |checks| ==> checks[i].id != checks[j].id
  }

  ghost predicate IsAcceptable(d: EvidenceDocument) {
    && d.schema == SNAPSHOT_SCHEMA && d.context == EXPECTED_CONTEXT
    && d.scope.Supported? && d.redaction.Supported? && d.limitations.Supported?
    && d.checks != [] && (forall k :: 0 <= k < |d.checks| ==> CheckIsWellFormed(d.checks[k], d.collectedAt))
    && UniqueIds(d.checks)
    && d.summary == SummaryOf(Statuses(d.checks))
  }

  function SnapshotOf(d: EvidenceDocument): Snapshot {
    Snapshot(d.schema, d.collectedAt, d.context, d.checks)
  }

  /** What holds of every snapshot that the loader lets through. */
  ghost predicate IsValidated(s: Snapshot) {
    && s.schema == SNAPSHOT_SCHEMA && s.context == EXPECTED_CONTEXT && s.checks != []
    && (forall k :: 0 <= k < |s.checks| ==> CheckIsWellFormed(s.checks[k], s.collectedAt))
    && UniqueIds(s.checks)
  }

  method ParseEvidence(d: EvidenceDocument) returns (r: Result<Snapshot>)
    ensures r == if IsAcceptable(d) then Accepted(SnapshotOf(d)) else Rejected
    ensures r.Accepted? ==> IsValidated(r.value)
  {
    if d.schema != SNAPSHOT_SCHEMA || d.context != EXPECTED_CONTEXT {
      return Rejected;
    }
    if !d.scope.Supported? || !d.redaction.Supported? || !d.limitations.Supported? || d.checks == [] {
      return Rejected;
    }
    var identifiers := {};
    var checks := [];
    for i := 0 to |d.checks|
      invariant checks == d.checks[..i]
      invariant identifiers == set k | 0 <= k < i :: d.checks[k].id
      invariant forall k :: 0 <= k < i ==> CheckIsWellFormed(d.checks[k], d.collectedAt)
      invariant UniqueIds(d.checks[..i])
    {
      var check := d.checks[i];
      if check.id == "" {
        return Rejected;
      }
      if check.id in identifiers {
        var k :| 0 <= k < i && d.checks[k].id == check.id;
        return Rejected;
      }
      identifiers := identifiers + {check.id};
      if check.collectedAt != d.collectedAt || check.observation == "" || check.source == "" {
        return Rejected;
      }
      if check.expected == Some("") || check.observed == Some("") || check.errorCategory == Some("") {
        return Rejected;
      }
      checks := checks + [check];
    }
    assert d.checks[..|d.checks|] == d.checks;
    var statuses := Statuses(checks);
    if d.summary.pass != Count(statuses, PASS) || d.summary.warn != Count(statuses, WARN) ||
        d.summary.fail != Count(statuses, FAIL) || d.summary.unknown != Count(statuses, UNKNOWN) ||
        d.summary.overallStatus != OverallStatus(statuses) || d.summary.exitCode != ExitCode(statuses) {
      return Rejected;
    }
    return Accepted(Snapshot(d.schema, d.collectedAt, d.context, checks));
  }
}
