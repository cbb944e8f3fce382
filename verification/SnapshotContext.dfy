/** Snapshot context for a brief: both snapshots' check statuses, what they cover and what they say about recovery. */
module SnapshotContext {
  import opened Lexicographic
  import opened Evidence
  import opened EvidenceComparison

  datatype SnapshotCheck = SnapshotCheck(id: string, status: Status)

  datatype Context = Context(collectedAt: int, checks: seq<SnapshotCheck>)

  datatype ContextDocument = ContextDocument(collectedAt: int, summary: SummaryDocument, checks: seq<SnapshotCheck>)

  // ----- Contexts -----

  function ContextIds(checks: seq<SnapshotCheck>): seq<string> {
    seq(|checks|, k requires 0 <= k < |checks| => checks[k].id)
  }

  function ContextStatuses(checks: seq<SnapshotCheck>): seq<Status> {
    seq(|checks|, k requires 0 <= k < |checks| => checks[k].status)
  }

  /** Python's {c.check_id: c.status for c in checks}. */
  function StatusMap(checks: seq<SnapshotCheck>): map<string, Status> {
    if checks == [] then map[]
    else StatusMap(checks[..|checks| - 1])[checks[|checks| - 1].id := checks[|checks| - 1].status]
  }

  function ContextSummary(checks: seq<SnapshotCheck>): SummaryDocument {
    var statuses := ContextStatuses(checks);
    var overall := OverallStatus(statuses);
    SummaryDocument(Count(statuses, PASS), Count(statuses, WARN), Count(statuses, FAIL), Count(statuses, UNKNOWN),
                    overall, if overall == UNKNOWN then 2 else if overall == PASS then 0 else 1)
  }

  /** The context's own way of computing the exit code agrees with the evidence summary. */
  lemma SummariesAgree(checks: seq<SnapshotCheck>)
    ensures ContextSummary(checks) == SummaryOf(ContextStatuses(checks))
  {
    OverallIsWorst(ContextStatuses(checks));
  }

  /** The checks of a snapshot, sorted by identifier and reduced to their statuses. */
  function ContextOf(s: Snapshot): Context
    requires UniqueIds(s.checks)
  {
    ByIdMeans(s.checks);
    var ids, table := SortUnique(Ids(s.checks)), ById(s.checks);
    SortUniqueMeans(Ids(s.checks));
    assert forall id :: id in ids ==> id in Elements(ids);
    Context(s.collectedAt, seq(|ids|, k requires 0 <= k < |ids| => SnapshotCheck(ids[k], table[ids[k]].status)))
  }

  lemma {:induction false} StatusMapKeys(checks: seq<SnapshotCheck>)
    ensures StatusMap(checks).Keys == Elements(ContextIds(checks))
  {
    if checks != [] {
      var n := |checks| - 1;
      StatusMapKeys(checks[..n]);
      assert ContextIds(checks) == ContextIds(checks[..n]) + [checks[n].id];
    }
  }

  lemma {:induction false} StatusMapLookup(checks: seq<SnapshotCheck>, k: nat)
    requires Ascending(ContextIds(checks)) && k < |checks|
    ensures checks[k].id in StatusMap(checks) && StatusMap(checks)[checks[k].id] == checks[k].status
  {
    var n := |checks| - 1;
    if k < n {
      var ids := ContextIds(checks[..n]);
      assert ids == ContextIds(checks)[..n];
      StatusMapLookup(checks[..n], k);
      LessIsTotal(ContextIds(checks)[k], ContextIds(checks)[n]);
    }
  }

  /** The context's identifiers and statuses are exactly the snapshot's, in ascending order. */
  lemma ContextOfMeans(s: Snapshot)
    requires UniqueIds(s.checks)
    ensures var c := ContextOf(s);
      && Ascending(ContextIds(c.checks)) && |c.checks| == |s.checks|
      && StatusMap(c.checks).Keys == ById(s.checks).Keys
      && forall id :: id in ById(s.checks) ==> StatusMap(c.checks)[id] == ById(s.checks)[id].status
  {
    var c, table := ContextOf(s), ById(s.checks);
    var ids := SortUnique(Ids(s.checks));
    ByIdMeans(s.checks);
    SortUniqueMeans(Ids(s.checks));
    assert ContextIds(c.checks) == ids;
    StatusMapKeys(c.checks);
    forall id | id in table ensures StatusMap(c.checks)[id] == table[id].status {
      assert id in Elements(ids);
      var k :| 0 <= k < |ids| && ids[k] == id;
      StatusMapLookup(c.checks, k);
    }
    AscendingSize(ids);
    UniqueIdsSize(s.checks);
  }

  lemma {:induction false} UniqueIdsSize(checks: seq<Check>)
    requires UniqueIds(checks)
    ensures |Elements(Ids(checks))| == |checks|
  {
    if checks != [] {
      var n := |checks| - 1;
      UniqueIdsSize(checks[..n]);
      assert Ids(checks) == Ids(checks[..n]) + [checks[n].id];
      ElementsSnoc(Ids(checks[..n]), checks[n].id);
    }
  }

  ghost predicate IsValidContext(c: Context) {
    && c.checks != [] && (forall k :: 0 <= k < |c.checks| ==> c.checks[k].id != "")
    && Ascending(ContextIds(c.checks))
  }

  function RenderContext(c: Context): ContextDocument {
    ContextDocument(c.collectedAt, ContextSummary(c.checks), c.checks)
  }

  ghost predicate IsAcceptableContext(d: ContextDocument) {
    IsValidContext(Context(d.collectedAt, d.checks)) && d.summary == ContextSummary(d.checks)
  }

  method ParseContext(d: ContextDocument) returns (r: Result<Context>)
    ensures r == if IsAcceptableContext(d) then Accepted(Context(d.collectedAt, d.checks)) else Rejected
  {
    if d.checks == [] {
      return Rejected;
    }
    var checks, identifiers := [], [];
    for i := 0 to |d.checks|
      invariant checks == d.checks[..i] && identifiers == ContextIds(d.checks[..i])
      invariant forall k :: 0 <= k < i ==> d.checks[k].id != ""
    {
      if d.checks[i].id == "" {
        return Rejected;
      }
      checks := checks + [d.checks[i]];
      identifiers := identifiers + [d.checks[i].id];
    }
    assert d.checks[..|d.checks|] == d.checks;
    SortUniqueFixedPoints(identifiers);
    if identifiers != SortUnique(identifiers) || d.summary != ContextSummary(checks) {
      return Rejected;
    }
    return Accepted(Context(d.collectedAt, checks));
  }

  // ----- Coverage and assessment -----

  datatype Recovery = NONE_ESTABLISHED | PARTIAL | COMPLETE_FOR_SUPPLIED_CHECKS

  datatype Coverage = Coverage(completeness: FixedText, added: seq<string>, removed: seq<string>,
                               limitations: FixedText)

  datatype Assessment = Assessment(recovery: Recovery, recovered: seq<string>, regained: seq<string>,
                                   remaining: seq<string>)

  /** Python's sorted(id for id in ids if p(id)) over the keys of a dictionary. */
  function SortedWhere(ids: seq<string>, p: string -> bool): seq<string> {
    SortUnique(CanonicalOrder.Filter(ids, p))
  }

  lemma SortedWhereMeans(ids: seq<string>, p: string -> bool)
    ensures Ascending(SortedWhere(ids, p))
    ensures forall id :: id in SortedWhere(ids, p) <==> id in ids && p(id)
  {
    var kept := CanonicalOrder.Filter(ids, p);
    SortUniqueMeans(kept);
    forall id ensures id in SortedWhere(ids, p) <==> id in ids && p(id) {
      CanonicalOrder.FilterKeeps(ids, p, id);
      assert id in SortUnique(kept) <==> id in Elements(SortUnique(kept));
      assert id in kept <==> id in Elements(kept);
    }
  }

  predicate Recovered(id: string, before: map<string, Status>, after: map<string, Status>) {
    id in before && id in after && (before[id] == WARN || before[id] == FAIL) && after[id] == PASS
  }

  predicate Regained(id: string, before: map<string, Status>, after: map<string, Status>) {
    id in before && id in after && before[id] == UNKNOWN && after[id] != UNKNOWN
  }

  predicate Remaining(id: string, after: map<string, Status>) {
    id in after && after[id] != PASS
  }

  function CoverageOf(before: Context, after: Context): Coverage {
    var b, a := StatusMap(before.checks), StatusMap(after.checks);
    Coverage(Supported, SortedWhere(ContextIds(after.checks), id => id !in b),
             SortedWhere(ContextIds(before.checks), id => id !in a), Supported)
  }

  function AssessmentOf(before: Context, after: Context): Assessment {
    var b, a := StatusMap(before.checks), StatusMap(after.checks);
    var recovered := SortedWhere(ContextIds(before.checks), id => Recovered(id, b, a));
    var regained := SortedWhere(ContextIds(before.checks), id => Regained(id, b, a));
    var remaining := SortedWhere(ContextIds(after.checks), id => Remaining(id, a));
    Assessment(if recovered == [] then NONE_ESTABLISHED
               else if b.Keys == a.Keys && remaining == [] then COMPLETE_FOR_SUPPLIED_CHECKS
               else PARTIAL,
               recovered, regained, remaining)
  }

  lemma InContext(checks: seq<SnapshotCheck>, id: string)
    ensures id in ContextIds(checks) <==> id in StatusMap(checks)
  {
    StatusMapKeys(checks);
    assert id in ContextIds(checks) <==> id in Elements(ContextIds(checks));
  }

  /** The identifiers listed as added and removed are exactly those of one snapshot only. */
  lemma CoverageMeans(before: Context, after: Context, id: string)
    ensures var c, b, a := CoverageOf(before, after), StatusMap(before.checks), StatusMap(after.checks);
      && (id in c.added <==> id in a && id !in b) && (id in c.removed <==> id in b && id !in a)
  {
    var b, a := StatusMap(before.checks), StatusMap(after.checks);
    SortedWhereMeans(ContextIds(after.checks), id => id !in b);
    SortedWhereMeans(ContextIds(before.checks), id => id !in a);
    InContext(before.checks, id);
    InContext(after.checks, id);
  }

  /** What is listed as recovered, regained and remaining, each list in ascending order. */
  lemma AssessmentMeans(before: Context, after: Context, id: string)
    ensures var r, b, a := AssessmentOf(before, after), StatusMap(before.checks), StatusMap(after.checks);
      && (id in r.recovered <==>
            id in b && id in a && (b[id] == WARN || b[id] == FAIL) && a[id] == PASS)
      && (id in r.regained <==> id in b && id in a && b[id] == UNKNOWN && a[id] != UNKNOWN)
      && (id in r.remaining <==> id in a && a[id] != PASS)
      && Ascending(r.recovered) && Ascending(r.regained) && Ascending(r.remaining)
  {
    var b, a := StatusMap(before.checks), StatusMap(after.checks);
    SortedWhereMeans(ContextIds(before.checks), id => Recovered(id, b, a));
    SortedWhereMeans(ContextIds(before.checks), id => Regained(id, b, a));
    SortedWhereMeans(ContextIds(after.checks), id => Remaining(id, a));
    InContext(before.checks, id);
    InContext(after.checks, id);
  }

  /** When each degree of recovery is claimed. */
  lemma RecoveryMeans(before: Context, after: Context, b: map<string, Status>, a: map<string, Status>)
    requires b == StatusMap(before.checks) && a == StatusMap(after.checks)
    ensures AssessmentOf(before, after).recovery == NONE_ESTABLISHED <==>
      !exists id :: id in b && id in a && (b[id] == WARN || b[id] == FAIL) && a[id] == PASS
    ensures AssessmentOf(before, after).recovery == COMPLETE_FOR_SUPPLIED_CHECKS <==>
      && (exists id :: id in b && id in a && (b[id] == WARN || b[id] == FAIL) && a[id] == PASS)
      && b.Keys == a.Keys && forall id :: id in a ==> a[id] == PASS
  {
    var r := AssessmentOf(before, after);
    CanonicalOrder.NoItems(r.recovered);
    CanonicalOrder.NoItems(r.remaining);
    forall id ensures id in r.recovered <==> Recovered(id, b, a) {
      AssessmentMeans(before, after, id);
    }
    forall id ensures id in r.remaining <==> id in a && a[id] != PASS {
      AssessmentMeans(before, after, id);
    }
  }
}
