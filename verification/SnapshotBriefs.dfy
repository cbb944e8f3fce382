/** The brief with snapshot context: the delta brief joined back to the statuses of both snapshots. */
module SnapshotBriefs {
  import opened Wrappers
  import opened Lexicographic
  import opened Evidence
  import opened EvidenceComparison
  import opened ComparisonContract
  import opened RunbookMapping
  import opened MappingContract
  import opened Incident
  import opened IncidentContract
  import opened SnapshotContext

  const SNAPSHOT_BRIEF_SCHEMA := "forgeops.incident-brief/v1alpha2"

  datatype SnapshotBrief = SnapshotBrief(before: Context, after: Context, delta: Brief)

  datatype SnapshotBriefDocument = SnapshotBriefDocument(
    schema: string, evidenceSchema: string, before: ContextDocument, after: ContextDocument, coverage: Coverage,
    assessment: Assessment, deltaBrief: BriefDocument, limitations: FixedText)

  // ----- Linkage -----

  function StatusAt(statuses: map<string, Status>, id: string): Option<Status> {
    if id in statuses then Some(statuses[id]) else None
  }

  function KindFor(id: string, before: map<string, Status>, after: map<string, Status>): DeltaKind {
    if id !in before then ADDED
    else if id !in after then REMOVED
    else if before[id] != after[id] then STATUS_CHANGED
    else EVIDENCE_CHANGED
  }

  predicate FactMatches(f: Fact, before: map<string, Status>, after: map<string, Status>) {
    && (f.id in before || f.id in after)
    && f.before == StatusAt(before, f.id) && f.after == StatusAt(after, f.id) && f.kind == KindFor(f.id, before, after)
  }

  ghost predicate FactsMatch(facts: seq<Fact>, before: map<string, Status>, after: map<string, Status>) {
    && (forall id :: StatusAt(before, id) != StatusAt(after, id) ==> id in FactIds(facts))
    && forall k :: 0 <= k < |facts| ==> FactMatches(facts[k], before, after)
  }

  ghost predicate ContextIsLinked(s: SnapshotBrief) {
    && s.before.collectedAt == s.delta.beforeAt && s.after.collectedAt == s.delta.afterAt
    && FactsMatch(s.delta.facts, StatusMap(s.before.checks), StatusMap(s.after.checks))
  }

  method ValidateContextLinkage(s: SnapshotBrief) returns (linked: bool)
    ensures linked <==> ContextIsLinked(s)
  {
    if s.before.collectedAt != s.delta.beforeAt || s.after.collectedAt != s.delta.afterAt {
      return false;
    }
    linked := CheckStatuses(s.delta.facts, StatusMap(s.before.checks), StatusMap(s.after.checks));
  }

  method CheckStatuses(facts: seq<Fact>, before: map<string, Status>, after: map<string, Status>)
    returns (fits: bool)
    ensures fits <==> FactsMatch(facts, before, after)
  {
    var required := set id | id in before.Keys + after.Keys && StatusAt(before, id) != StatusAt(after, id);
    var factIds := Elements(FactIds(facts));
    assert forall id :: id in required <==> StatusAt(before, id) != StatusAt(after, id);
    if !(required <= factIds) {
      return false;
    }
    for i := 0 to |facts|
      invariant forall k :: 0 <= k < i ==> FactMatches(facts[k], before, after)
    {
      var fact := facts[i];
      var key := fact.id;
      if (key !in before && key !in after) || fact.before != StatusAt(before, key) ||
          fact.after != StatusAt(after, key) {
        return false;
      }
      var expectedKind :=
        if key !in before then ADDED
        else if key !in after then REMOVED
        else if before[key] != after[key] then STATUS_CHANGED
        else EVIDENCE_CHANGED;
      if fact.kind != expectedKind {
        return false;
      }
    }
    return true;
  }

  // ----- Reading and writing -----

  function RenderSnapshotBrief(s: SnapshotBrief): SnapshotBriefDocument {
    SnapshotBriefDocument(
      SNAPSHOT_BRIEF_SCHEMA, SNAPSHOT_SCHEMA, RenderContext(s.before), RenderContext(s.after),
      CoverageOf(s.before, s.after), AssessmentOf(s.before, s.after), RenderBrief(s.delta), Supported)
  }

  function SnapshotBriefOf(d: SnapshotBriefDocument): SnapshotBrief {
    SnapshotBrief(Context(d.before.collectedAt, d.before.checks), Context(d.after.collectedAt, d.after.checks),
                  BriefOf(d.deltaBrief))
  }

  /** The briefs that a document can carry. */
  ghost predicate IsValidSnapshotBrief(s: SnapshotBrief) {
    IsValidContext(s.before) && IsValidContext(s.after) && IsValidBrief(s.delta) && ContextIsLinked(s)
  }

  ghost predicate IsAcceptableSnapshotBrief(d: SnapshotBriefDocument) {
    && d.schema == SNAPSHOT_BRIEF_SCHEMA && d.evidenceSchema == SNAPSHOT_SCHEMA
    && IsAcceptableContext(d.before) && IsAcceptableContext(d.after) && IsAcceptableBrief(d.deltaBrief)
    && var s := SnapshotBriefOf(d);
       && ContextIsLinked(s)
       && d.coverage == CoverageOf(s.before, s.after) && d.assessment == AssessmentOf(s.before, s.after)
       && d.limitations.Supported?
  }

  method ParseSnapshotBrief(d: SnapshotBriefDocument) returns (r: Result<SnapshotBrief>)
    ensures r == if IsAcceptableSnapshotBrief(d) then Accepted(SnapshotBriefOf(d)) else Rejected
  {
    if d.schema != SNAPSHOT_BRIEF_SCHEMA || d.evidenceSchema != SNAPSHOT_SCHEMA {
      return Rejected;
    }
    var before := ParseContext(d.before);
    var after := ParseContext(d.after);
    var delta := ParseBrief(d.deltaBrief);
    if before.Rejected? || after.Rejected? || delta.Rejected? {
      return Rejected;
    }
    var s := SnapshotBrief(before.value, after.value, delta.value);
    var linked := ValidateContextLinkage(s);
    if !linked || d.coverage != CoverageOf(s.before, s.after) || d.assessment != AssessmentOf(s.before, s.after) ||
        !d.limitations.Supported? {
      return Rejected;
    }
    return Accepted(s);
  }

  /** A rendered brief is accepted exactly when it is valid, and reading it gives the brief back. */
  lemma ReadRenderedSnapshotBrief(s: SnapshotBrief)
    ensures IsAcceptableSnapshotBrief(RenderSnapshotBrief(s)) <==> IsValidSnapshotBrief(s)
    ensures SnapshotBriefOf(RenderSnapshotBrief(s)) == s
  {
    ReadRenderedBrief(s.delta);
  }

  /** An accepted document is the one rendering of what was read from it. */
  lemma RenderReadSnapshotBrief(d: SnapshotBriefDocument)
    requires IsAcceptableSnapshotBrief(d)
    ensures IsValidSnapshotBrief(SnapshotBriefOf(d)) && RenderSnapshotBrief(SnapshotBriefOf(d)) == d
  {
    RenderReadBrief(d.deltaBrief);
  }

  // ----- Building -----

  function SnapshotBriefFor(before: Snapshot, after: Snapshot, c: Comparison, m: Mapping): SnapshotBrief
    requires UniqueIds(before.checks) && UniqueIds(after.checks)
  {
    SnapshotBrief(ContextOf(before), ContextOf(after), BriefFor(c, m))
  }

  /** The arguments of the builder belong together. */
  ghost predicate IsBuildable(before: Snapshot, after: Snapshot, c: Comparison, m: Mapping)
    requires UniqueIds(before.checks) && UniqueIds(after.checks)
  {
    before.collectedAt <= after.collectedAt && c == Compare(before, after) && IsLinked(c, m)
  }

  method BuildSnapshotIncidentBrief(before: Snapshot, after: Snapshot, c: Comparison, m: Mapping)
    returns (r: Result<SnapshotBrief>)
    requires IsValidated(before) && IsValidated(after) && IsValidMapping(m)
    ensures r == if IsBuildable(before, after, c, m) then Accepted(SnapshotBriefFor(before, after, c, m)) else Rejected
  {
    var compared := CompareEvidence(before, after);
    if compared != Accepted(c) {
      return Rejected;
    }
    var delta := BuildIncidentBrief(c, m);
    if delta.Rejected? {
      return Rejected;
    }
    var s := SnapshotBrief(ContextOf(before), ContextOf(after), delta.value);
    r := ParseSnapshotBrief(RenderSnapshotBrief(s));
    ReadRenderedSnapshotBrief(s);
    BuiltSnapshotBriefIsValid(before, after, c, m);
  }

  lemma BuiltContextIsValid(s: Snapshot)
    requires IsValidated(s)
    ensures IsValidContext(ContextOf(s))
  {
    var c := ContextOf(s);
    ContextOfMeans(s);
    ByIdMeans(s.checks);
    forall k | 0 <= k < |c.checks| ensures c.checks[k].id != "" {
      assert c.checks[k].id in ContextIds(c.checks) by {
        assert ContextIds(c.checks)[k] == c.checks[k].id;
      }
      InContext(c.checks, c.checks[k].id);
      var check := ById(s.checks)[c.checks[k].id];
      var j :| 0 <= j < |s.checks| && s.checks[j] == check;
      assert CheckIsWellFormed(s.checks[j], s.collectedAt);
    }
  }

  lemma DeltaFactMatches(d: Delta, before: Snapshot, after: Snapshot)
    requires UniqueIds(before.checks) && UniqueIds(after.checks)
    requires IsDeltaBetween(d, ById(before.checks), ById(after.checks))
    ensures FactMatches(FactOf(d), StatusMap(ContextOf(before).checks), StatusMap(ContextOf(after).checks))
  {
    ContextOfMeans(before);
    ContextOfMeans(after);
  }

  lemma ComparisonFactsMatch(before: Snapshot, after: Snapshot)
    requires UniqueIds(before.checks) && UniqueIds(after.checks)
    ensures FactsMatch(Facts(Compare(before, after).deltas),
                       StatusMap(ContextOf(before).checks), StatusMap(ContextOf(after).checks))
  {
    var deltas := Compare(before, after).deltas;
    var b, a := StatusMap(ContextOf(before).checks), StatusMap(ContextOf(after).checks);
    CompareDeltas(before, after);
    forall k | 0 <= k < |deltas| ensures FactMatches(FactOf(deltas[k]), b, a) {
      DeltaFactMatches(deltas[k], before, after);
    }
    assert FactIds(Facts(deltas)) == DeltaIds(deltas);
    forall id | StatusAt(b, id) != StatusAt(a, id) ensures id in DeltaIds(deltas) {
      ContextOfMeans(before);
      ContextOfMeans(after);
      assert !Untouched(id, ById(before.checks), ById(after.checks)) by {
        assert Untouched(id, ById(before.checks), ById(after.checks)) ==>
          !Differs(ById(before.checks)[id], ById(after.checks)[id], StatusField);
      }
    }
  }

  /** Whatever belongs together builds a brief that the strict reader accepts: its own re-read cannot fail. */
  lemma BuiltSnapshotBriefIsValid(before: Snapshot, after: Snapshot, c: Comparison, m: Mapping)
    requires IsValidated(before) && IsValidated(after) && IsValidMapping(m)
    requires IsBuildable(before, after, c, m)
    ensures IsValidSnapshotBrief(SnapshotBriefFor(before, after, c, m))
  {
    CompareIsWellFormed(before, after);
    BuiltBriefIsValid(c, m);
    BuiltContextIsValid(before);
    BuiltContextIsValid(after);
    ComparisonFactsMatch(before, after);
  }
}
