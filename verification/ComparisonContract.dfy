/** The comparison document: how a comparison is written, and which documents the strict reader accepts. */
module ComparisonContract {
  import opened Lexicographic
  import opened Evidence
  import opened EvidenceComparison

  const COMPARISON_SCHEMA := "forgeops.comparison/v1alpha1"

  datatype ComparisonSummary = ComparisonSummary(totalChecks: int, unchangedChecks: int, changedChecks: int, added: int,
                                                 removed: int, statusChanged: int, evidenceChanged: int,
                                                 comparisonExit: int)

  datatype ComparisonDocument = ComparisonDocument(schema: string, evidenceSchema: string, beforeAt: int, afterAt: int,
                                                   beforeOverall: Status, afterOverall: Status,
                                                   summary: ComparisonSummary,
                                                   deltas: seq<Delta>, limitations: FixedText)

  function CountKind(deltas: seq<Delta>, kind: DeltaKind): nat {
    if deltas == [] then 0 else (if deltas[0].kind == kind then 1 else 0) + CountKind(deltas[1..], kind)
  }

  function ExitOf(deltas: seq<Delta>): int {
    if deltas == [] then 0 else 1
  }

  function RenderComparison(c: Comparison): ComparisonDocument {
    ComparisonDocument(
      COMPARISON_SCHEMA, c.schema, c.beforeAt, c.afterAt, c.beforeOverall, c.afterOverall,
      ComparisonSummary(c.totalChecks, c.unchangedChecks, |c.deltas|, CountKind(c.deltas, ADDED),
                        CountKind(c.deltas, REMOVED), CountKind(c.deltas, STATUS_CHANGED),
                        CountKind(c.deltas, EVIDENCE_CHANGED), ExitOf(c.deltas)),
      c.deltas, Supported)
  }

  predicate DeltaIsAcceptable(d: Delta) {
    d.id != "" && InOrder(d.changed) && ShapeFits(d)
  }

  ghost predicate DeltasAreAcceptable(deltas: seq<Delta>) {
    && (forall k :: 0 <= k < |deltas| ==> DeltaIsAcceptable(deltas[k]))
    && Ascending(DeltaIds(deltas))
  }

  ghost predicate IsAcceptableComparison(d: ComparisonDocument) {
    && d.schema == COMPARISON_SCHEMA && d.evidenceSchema == SNAPSHOT_SCHEMA && d.beforeAt <= d.afterAt
    && DeltasAreAcceptable(d.deltas)
    && d.summary.totalChecks >= 0 && d.summary.unchangedChecks >= 0
    && d.summary.changedChecks == |d.deltas|
    && d.summary.added == CountKind(d.deltas, ADDED) && d.summary.removed == CountKind(d.deltas, REMOVED)
    && d.summary.statusChanged == CountKind(d.deltas, STATUS_CHANGED)
    && d.summary.evidenceChanged == CountKind(d.deltas, EVIDENCE_CHANGED)
    && d.summary.totalChecks == d.summary.unchangedChecks + |d.deltas|
    && d.summary.comparisonExit == ExitOf(d.deltas)
    && d.limitations.Supported?
  }

  function ComparisonOf(d: ComparisonDocument): Comparison {
    Comparison(SNAPSHOT_SCHEMA, d.beforeAt, d.afterAt, d.beforeOverall, d.afterOverall,
                          d.summary.totalChecks, d.summary.unchangedChecks, d.deltas)
  }

  method ParseComparison(d: ComparisonDocument) returns (r: Result<Comparison>)
    ensures r == if IsAcceptableComparison(d) then Accepted(ComparisonOf(d)) else Rejected
  {
    if d.schema != COMPARISON_SCHEMA || d.evidenceSchema != SNAPSHOT_SCHEMA || d.afterAt < d.beforeAt {
      return Rejected;
    }
    var acceptable := CheckDeltas(d.deltas);
    if !acceptable || d.summary.totalChecks < 0 || d.summary.unchangedChecks < 0 {
      return Rejected;
    }
    if d.summary.changedChecks != |d.deltas| ||
        d.summary.added != CountKind(d.deltas, ADDED) || d.summary.removed != CountKind(d.deltas, REMOVED) ||
        d.summary.statusChanged != CountKind(d.deltas, STATUS_CHANGED) ||
        d.summary.evidenceChanged != CountKind(d.deltas, EVIDENCE_CHANGED) ||
        d.summary.totalChecks != d.summary.unchangedChecks + |d.deltas| ||
        d.summary.comparisonExit != ExitOf(d.deltas) || !d.limitations.Supported? {
      return Rejected;
    }
    return Accepted(Comparison(SNAPSHOT_SCHEMA, d.beforeAt, d.afterAt, d.beforeOverall, d.afterOverall,
                               d.summary.totalChecks, d.summary.unchangedChecks, d.deltas));
  }

  method CheckDelta(d: Delta) returns (acceptable: bool)
    ensures acceptable <==> DeltaIsAcceptable(d)
  {
    FieldsInOrder(d.changed);
    if d.id == "" || !CanonicalOrder.IsCanonical(d.changed, FIELDS) {
      return false;
    }
    match d.kind {
      case ADDED => acceptable := d.before.None? && d.after.Some? && d.changed == [];
      case REMOVED => acceptable := d.before.Some? && d.after.None? && d.changed == [];
      case STATUS_CHANGED =>
        acceptable := d.before.Some? && d.after.Some? && d.before != d.after && StatusField in d.changed;
      case EVIDENCE_CHANGED =>
        acceptable := d.before.Some? && d.before == d.after && d.changed != [] && StatusField !in d.changed;
    }
  }

  /** The loop over the deltas, and the test that their identifiers are unique and sorted. */
  method CheckDeltas(deltas: seq<Delta>) returns (acceptable: bool)
    ensures acceptable <==> DeltasAreAcceptable(deltas)
  {
    var identifiers := [];
    for i := 0 to |deltas|
      invariant identifiers == DeltaIds(deltas[..i])
      invariant forall k :: 0 <= k < i ==> DeltaIsAcceptable(deltas[k])
    {
      var fits := CheckDelta(deltas[i]);
      if !fits {
        return false;
      }
      identifiers := identifiers + [deltas[i].id];
    }
    assert deltas[..|deltas|] == deltas;
    SortUniqueFixedPoints(identifiers);
    acceptable := identifiers == SortUnique(identifiers);
  }

  /** The comparisons that a document can carry. */
  ghost predicate IsWellFormed(c: Comparison) {
    && c.schema == SNAPSHOT_SCHEMA && c.beforeAt <= c.afterAt && DeltasAreAcceptable(c.deltas)
    && c.unchangedChecks >= 0 && c.totalChecks == c.unchangedChecks + |c.deltas|
  }

  /** Rendering is accepted exactly for well-formed comparisons, and reading it gives the comparison back. */
  lemma ReadRendered(c: Comparison)
    ensures IsAcceptableComparison(RenderComparison(c)) <==> IsWellFormed(c)
    ensures IsWellFormed(c) ==> ComparisonOf(RenderComparison(c)) == c
  {
  }

  /** The other way round: an accepted document is the one rendering of what was read from it. */
  lemma RenderRead(d: ComparisonDocument)
    requires IsAcceptableComparison(d)
    ensures IsWellFormed(ComparisonOf(d)) && RenderComparison(ComparisonOf(d)) == d
  {
  }

  /** What the comparer produces is well formed. */
  lemma CompareIsWellFormed(before: Snapshot, after: Snapshot)
    requires IsValidated(before) && IsValidated(after) && before.collectedAt <= after.collectedAt
    ensures IsWellFormed(Compare(before, after))
  {
    var deltas, b, a := Compare(before, after).deltas, ById(before.checks), ById(after.checks);
    CompareDeltas(before, after);
    ByIdMeans(before.checks);
    ByIdMeans(after.checks);
    forall k | 0 <= k < |deltas| ensures DeltaIsAcceptable(deltas[k]) {
      assert IsDeltaBetween(deltas[k], b, a);
    }
  }

  /**
   Every identifier of either snapshot has one delta, or is counted as unchanged; it has none exactly
   when both snapshots hold it with equal fields, and the delta's statuses are those of the snapshots.
   */
  lemma CompareMeans(before: Snapshot, after: Snapshot, id: string)
    requires UniqueIds(before.checks) && UniqueIds(after.checks)
    ensures var c, b, a := Compare(before, after), ById(before.checks), ById(after.checks);
      && c.totalChecks == |b.Keys + a.Keys| && c.unchangedChecks == c.totalChecks - |c.deltas|
      && (id in DeltaIds(c.deltas) <==> (id in b || id in a) && !Untouched(id, b, a))
      && (forall d :: d in c.deltas && d.id == id ==> IsDeltaBetween(d, b, a))
  {
    AllIdsMeans(before, after);
    AscendingSize(AllIds(before, after));
    CompareDeltas(before, after);
    var deltas := Compare(before, after).deltas;
    if id in DeltaIds(deltas) {
      var k :| 0 <= k < |deltas| && DeltaIds(deltas)[k] == id;
      assert IsDeltaBetween(deltas[k], ById(before.checks), ById(after.checks));
    }
  }

  /** No check of the snapshot is worse, and one of them is as bad, if there are any. */
  ghost predicate IsWorst(status: Status, checks: seq<Check>) {
    && (forall check :: check in checks ==> Severity(check.status) <= Severity(status))
    && (checks != [] ==> exists check :: check in checks && check.status == status)
    && (checks == [] ==> status == PASS)
  }

  lemma OverallOfChecks(checks: seq<Check>)
    ensures IsWorst(OverallStatus(Statuses(checks)), checks)
  {
    OverallIsWorst(Statuses(checks));
    forall check | check in checks ensures check.status in Statuses(checks) {
      var k :| 0 <= k < |checks| && checks[k] == check;
      assert Statuses(checks)[k] == check.status;
    }
    if checks != [] {
      var k :| 0 <= k < |checks| && Statuses(checks)[k] == OverallStatus(Statuses(checks));
      assert checks[k] in checks;
    }
  }

  /** The comparison names the two times and the worst status of each side, each in its own place. */
  lemma CompareHeader(before: Snapshot, after: Snapshot)
    requires UniqueIds(before.checks) && UniqueIds(after.checks)
    ensures var c := Compare(before, after);
      && c.schema == before.schema && c.beforeAt == before.collectedAt && c.afterAt == after.collectedAt
      && IsWorst(c.beforeOverall, before.checks) && IsWorst(c.afterOverall, after.checks)
  {
    OverallOfChecks(before.checks);
    OverallOfChecks(after.checks);
  }

  // ----- What the summary counts -----

  ghost function IdsOfKind(deltas: seq<Delta>, kind: DeltaKind): set<string> {
    set d | d in deltas && d.kind == kind :: d.id
  }

  lemma FirstId(deltas: seq<Delta>)
    requires deltas != [] && Ascending(DeltaIds(deltas))
    ensures Ascending(DeltaIds(deltas[1..])) && forall d :: d in deltas[1..] ==> d.id != deltas[0].id
  {
    var ids := DeltaIds(deltas);
    assert DeltaIds(deltas[1..]) == ids[1..];
    AscendingTail(ids);
    forall d | d in deltas[1..] ensures d.id != deltas[0].id {
      IdInDeltas(deltas[1..], d);
    }
  }

  lemma {:induction false} CountKindMeans(deltas: seq<Delta>, kind: DeltaKind)
    requires Ascending(DeltaIds(deltas))
    ensures CountKind(deltas, kind) == |IdsOfKind(deltas, kind)|
  {
    if deltas == [] {
      assert IdsOfKind(deltas, kind) == {};
    } else {
      FirstId(deltas);
      CountKindMeans(deltas[1..], kind);
      KindOfFirst(deltas, kind);
    }
  }

  lemma KindOfFirst(deltas: seq<Delta>, kind: DeltaKind)
    requires deltas != []
    ensures IdsOfKind(deltas, kind) ==
      IdsOfKind(deltas[1..], kind) + if deltas[0].kind == kind then {deltas[0].id} else {}
  {
    assert deltas == [deltas[0]] + deltas[1..];
  }

  /** The identifiers of each kind, in terms of the two snapshots. */
  lemma IdsOfKindAre(before: Snapshot, after: Snapshot, id: string)
    requires UniqueIds(before.checks) && UniqueIds(after.checks)
    ensures var deltas, b, a := Compare(before, after).deltas, ById(before.checks), ById(after.checks);
      && (id in IdsOfKind(deltas, ADDED) <==> id !in b && id in a)
      && (id in IdsOfKind(deltas, REMOVED) <==> id in b && id !in a)
      && (id in IdsOfKind(deltas, STATUS_CHANGED) <==> id in b && id in a && b[id].status != a[id].status)
      && (id in IdsOfKind(deltas, EVIDENCE_CHANGED) <==>
            id in b && id in a && b[id].status == a[id].status && b[id].(collectedAt := a[id].collectedAt) != a[id])
  {
    var deltas := Compare(before, after).deltas;
    ReportedWhenDifferent(before, after, id);
    forall d | d in deltas && d.id == id ensures id in DeltaIds(deltas) {
      IdInDeltas(deltas, d);
    }
    if id in DeltaIds(deltas) {
      var k :| 0 <= k < |deltas| && DeltaIds(deltas)[k] == id;
      assert deltas[k] in deltas && deltas[k].id == id;
      CompareDeltas(before, after);
      forall d | d in deltas && d.id == id ensures d == deltas[k] {
        var j :| 0 <= j < |deltas| && deltas[j] == d;
        AscendingInjective(DeltaIds(deltas), j, k);
      }
      DeltaFields(before, after, deltas[k]);
    }
  }

  lemma KindSets(before: Snapshot, after: Snapshot)
    requires UniqueIds(before.checks) && UniqueIds(after.checks)
    ensures var deltas, b, a := Compare(before, after).deltas, ById(before.checks), ById(after.checks);
      && IdsOfKind(deltas, ADDED) == a.Keys - b.Keys && IdsOfKind(deltas, REMOVED) == b.Keys - a.Keys
      && IdsOfKind(deltas, STATUS_CHANGED) == (set id | id in b && id in a && b[id].status != a[id].status)
      && IdsOfKind(deltas, EVIDENCE_CHANGED) ==
        (set id | id in b && id in a && b[id].status == a[id].status &&
                  b[id].(collectedAt := a[id].collectedAt) != a[id])
  {
    var deltas, b, a := Compare(before, after).deltas, ById(before.checks), ById(after.checks);
    forall id ensures
      && (id in IdsOfKind(deltas, ADDED) <==> id in a.Keys - b.Keys)
      && (id in IdsOfKind(deltas, REMOVED) <==> id in b.Keys - a.Keys)
      && (id in IdsOfKind(deltas, STATUS_CHANGED) <==> id in b && id in a && b[id].status != a[id].status)
      && (id in IdsOfKind(deltas, EVIDENCE_CHANGED) <==>
            id in b && id in a && b[id].status == a[id].status && b[id].(collectedAt := a[id].collectedAt) != a[id])
    {
      IdsOfKindAre(before, after, id);
    }
  }

  /** The counts of a comparison's summary are the sizes of those sets, and its exit code is 0 when all are empty. */
  lemma SummaryCounts(before: Snapshot, after: Snapshot)
    requires UniqueIds(before.checks) && UniqueIds(after.checks)
    ensures var s, b, a := RenderComparison(Compare(before, after)).summary, ById(before.checks), ById(after.checks);
      && s.added == |a.Keys - b.Keys| && s.removed == |b.Keys - a.Keys|
      && s.statusChanged == |set id | id in b && id in a && b[id].status != a[id].status|
      && s.evidenceChanged == |set id | id in b && id in a && b[id].status == a[id].status &&
                                        b[id].(collectedAt := a[id].collectedAt) != a[id]|
      && s.comparisonExit == if s.added + s.removed + s.statusChanged + s.evidenceChanged == 0 then 0 else 1
  {
    var deltas := Compare(before, after).deltas;
    assert Ascending(DeltaIds(deltas)) by {
      CompareDeltas(before, after);
    }
    CountKindMeans(deltas, ADDED);
    CountKindMeans(deltas, REMOVED);
    CountKindMeans(deltas, STATUS_CHANGED);
    CountKindMeans(deltas, EVIDENCE_CHANGED);
    CountsOfAll(deltas);
    KindSets(before, after);
  }

  lemma {:induction false} CountsOfAll(deltas: seq<Delta>)
    ensures CountKind(deltas, ADDED) + CountKind(deltas, REMOVED) + CountKind(deltas, STATUS_CHANGED) +
            CountKind(deltas, EVIDENCE_CHANGED) == |deltas|
  {
    if deltas != [] {
      CountsOfAll(deltas[1..]);
    }
  }
}
