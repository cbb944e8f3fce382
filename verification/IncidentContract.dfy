/** The incident-brief document: how a brief is written, and which documents the strict reader accepts. */
module IncidentContract {
  import opened Lexicographic
  import opened Evidence
  import opened EvidenceComparison
  import opened ComparisonContract
  import opened Runbooks
  import opened RunbookMapping
  import opened MappingContract
  import opened Incident

  const BRIEF_SCHEMA := "forgeops.incident-brief/v1alpha1"

  datatype BriefDocument = BriefDocument(schema: string, comparisonSchema: string, mappingSchema: string, beforeAt: int,
                                         afterAt: int, state: IncidentState, facts: seq<Fact>,
                                         runbooks: seq<RunbookMatch>,
                                         unmapped: seq<string>, uncertainties: seq<string>, limitations: FixedText)

  function RenderBrief(b: Brief): BriefDocument {
    BriefDocument(BRIEF_SCHEMA, COMPARISON_SCHEMA, MAPPING_SCHEMA, b.beforeAt, b.afterAt, b.state, b.facts,
                  b.runbooks, b.unmapped, b.uncertainties, Supported)
  }

  function BriefOf(d: BriefDocument): Brief {
    Brief(d.beforeAt, d.afterAt, d.state, d.facts, d.runbooks, d.unmapped, d.uncertainties)
  }

  // ----- Facts -----

  predicate FactIsAcceptable(f: Fact) {
    && f.id != ""
    && match f.kind
       case ADDED => f.before.None? && f.after.Some?
       case REMOVED => f.before.Some? && f.after.None?
       case STATUS_CHANGED => f.before.Some? && f.after.Some? && f.before != f.after
       case EVIDENCE_CHANGED => f.before.Some? && f.before == f.after
  }

  function FactIds(facts: seq<Fact>): seq<string> {
    seq(|facts|, k requires 0 <= k < |facts| => facts[k].id)
  }

  ghost predicate FactsAreAcceptable(facts: seq<Fact>) {
    (forall k :: 0 <= k < |facts| ==> FactIsAcceptable(facts[k])) && Ascending(FactIds(facts))
  }

  /** The delta that the reader reconstructs for a fact, with a stand-in for the fields that changed. */
  function DeltaFrom(f: Fact): Delta {
    Delta(f.id, f.kind, f.before, f.after,
          if f.kind == STATUS_CHANGED then [StatusField]
          else if f.kind == EVIDENCE_CHANGED then [ObservationField] else [])
  }

  function DeltasFrom(facts: seq<Fact>): seq<Delta> {
    seq(|facts|, k requires 0 <= k < |facts| => DeltaFrom(facts[k]))
  }

  // ----- Acceptance -----

  ghost predicate RunbooksFit(runbooks: seq<RunbookMatch>, facts: seq<Fact>) {
    MatchesAreAcceptable(runbooks) && ReasonsAgree(runbooks, Table(DeltasFrom(facts)))
  }

  ghost predicate UnmappedFit(b: Brief) {
    && "" !in b.unmapped && Ascending(b.unmapped)
    && Elements(b.unmapped) == Elements(FactIds(b.facts)) - MappedIds(b.runbooks)
  }

  /** The briefs that a document can carry. */
  ghost predicate IsValidBrief(b: Brief) {
    && b.beforeAt <= b.afterAt && FactsAreAcceptable(b.facts) && RunbooksFit(b.runbooks, b.facts) && UnmappedFit(b)
    && b.state == Classify(DeltasFrom(b.facts))
    && b.uncertainties == Uncertainties(b.facts != [], b.state, b.unmapped != [])
  }

  ghost predicate IsAcceptableBrief(d: BriefDocument) {
    && d.schema == BRIEF_SCHEMA && d.comparisonSchema == COMPARISON_SCHEMA && d.mappingSchema == MAPPING_SCHEMA
    && d.limitations.Supported? && IsValidBrief(BriefOf(d))
  }

  // ----- The reader -----

  method ParseBrief(d: BriefDocument) returns (r: Result<Brief>)
    ensures r == if IsAcceptableBrief(d) then Accepted(BriefOf(d)) else Rejected
  {
    if d.schema != BRIEF_SCHEMA || d.comparisonSchema != COMPARISON_SCHEMA || d.mappingSchema != MAPPING_SCHEMA ||
        d.afterAt < d.beforeAt {
      return Rejected;
    }
    var acceptable := CheckFacts(d.facts);
    if !acceptable {
      return Rejected;
    }
    acceptable := CheckRunbooks(d.runbooks, d.facts);
    if !acceptable {
      return Rejected;
    }
    acceptable := CheckUnmapped(BriefOf(d), MappedIds(d.runbooks));
    if !acceptable {
      return Rejected;
    }
    acceptable := CheckConclusions(BriefOf(d));
    if !acceptable || !d.limitations.Supported? {
      return Rejected;
    }
    return Accepted(BriefOf(d));
  }

  method CheckFacts(facts: seq<Fact>) returns (acceptable: bool)
    ensures acceptable <==> FactsAreAcceptable(facts)
  {
    var ids := [];
    for i := 0 to |facts|
      invariant ids == FactIds(facts[..i])
      invariant forall k :: 0 <= k < i ==> FactIsAcceptable(facts[k])
    {
      var fact := facts[i];
      if fact.id == "" {
        return false;
      }
      var validShape :=
        if fact.kind == ADDED then fact.before.None? && fact.after.Some?
        else if fact.kind == REMOVED then fact.before.Some? && fact.after.None?
        else if fact.kind == STATUS_CHANGED then fact.before.Some? && fact.after.Some? && fact.before != fact.after
        else fact.before.Some? && fact.before == fact.after;
      if !validShape {
        return false;
      }
      ids := ids + [fact.id];
    }
    assert facts[..|facts|] == facts;
    SortUniqueFixedPoints(ids);
    acceptable := ids == SortUnique(ids);
  }

  /** No reason can name a removed delta, because every reason repeats the after status of its fact. */
  lemma AgreeingReasonIsAcceptable(r: Reason, facts: seq<Fact>)
    requires FactsAreAcceptable(facts) && Agrees(r, Table(DeltasFrom(facts)))
    ensures ReasonIsAcceptable(r)
  {
    var deltas := DeltasFrom(facts);
    TableHolds(deltas, r.checkId);
    var k :| 0 <= k < |deltas| && deltas[k] == Table(deltas)[r.checkId] && deltas[k].id == r.checkId;
    assert FactIsAcceptable(facts[k]) && deltas[k] == DeltaFrom(facts[k]);
  }

  lemma {:induction false} TableHolds(deltas: seq<Delta>, id: string)
    requires id in Table(deltas)
    ensures exists k :: 0 <= k < |deltas| && deltas[k] == Table(deltas)[id] && deltas[k].id == id
  {
    var n := |deltas| - 1;
    if deltas[n].id != id {
      TableHolds(deltas[..n], id);
      var k :| 0 <= k < n && deltas[..n][k] == Table(deltas[..n])[id] && deltas[..n][k].id == id;
      assert deltas[k] == Table(deltas)[id];
    } else {
      assert deltas[n] == Table(deltas)[id];
    }
  }

  method CheckRunbooks(runbooks: seq<RunbookMatch>, facts: seq<Fact>) returns (acceptable: bool)
    requires FactsAreAcceptable(facts)
    ensures acceptable <==> RunbooksFit(runbooks, facts)
  {
    var ids := [];
    assert runbooks[..0] == [] && runbooks[..|runbooks|] == runbooks;
    for i := 0 to |runbooks|
      invariant ids == MatchIds(runbooks[..i])
      invariant forall k :: 0 <= k < i ==> RunbookFits(runbooks[k], facts)
    {
      acceptable := CheckRunbook(runbooks[i], facts);
      if !acceptable {
        RunbooksFitEach(runbooks, facts);
        return;
      }
      ids := ids + [runbooks[i].id];
    }
    SortUniqueFixedPoints(ids);
    acceptable := ids == SortUnique(ids);
    RunbooksFitEach(runbooks, facts);
  }

  ghost predicate RunbookFits(m: RunbookMatch, facts: seq<Fact>) {
    MatchIsAcceptable(m) && forall r :: r in m.reasons ==> Agrees(r, Table(DeltasFrom(facts)))
  }

  lemma RunbooksFitEach(runbooks: seq<RunbookMatch>, facts: seq<Fact>)
    ensures RunbooksFit(runbooks, facts) <==>
      (forall k :: 0 <= k < |runbooks| ==> RunbookFits(runbooks[k], facts)) && Ascending(MatchIds(runbooks))
  {
  }

  method CheckRunbook(m: RunbookMatch, facts: seq<Fact>) returns (acceptable: bool)
    requires FactsAreAcceptable(facts)
    ensures acceptable <==> RunbookFits(m, facts)
  {
    if m.id == "" || m.reasons == [] {
      return false;
    }
    var table := Table(DeltasFrom(facts));
    var ids := [];
    for i := 0 to |m.reasons|
      invariant ids == ReasonIds(m.reasons[..i])
      invariant forall k :: 0 <= k < i ==> ReasonIsAcceptable(m.reasons[k]) && Agrees(m.reasons[k], table)
    {
      var reason := m.reasons[i];
      if reason.checkId == "" || !Agrees(reason, table) {
        assert reason in m.reasons;
        return false;
      }
      AgreeingReasonIsAcceptable(reason, facts);
      ids := ids + [reason.checkId];
    }
    assert m.reasons[..|m.reasons|] == m.reasons;
    SortUniqueFixedPoints(ids);
    return ids == SortUnique(ids) && m.title != "" && IsRunbookPath(m.path) && m.section != "";
  }

  method CheckUnmapped(b: Brief, mappedIds: set<string>) returns (acceptable: bool)
    requires mappedIds == MappedIds(b.runbooks)
    ensures acceptable <==> UnmappedFit(b)
  {
    SortUniqueFixedPoints(b.unmapped);
    if "" in b.unmapped || b.unmapped != SortUnique(b.unmapped) {
      return false;
    }
    var unmapped := Elements(b.unmapped);
    return unmapped == Elements(FactIds(b.facts)) - mappedIds && mappedIds * unmapped == {};
  }

  method CheckConclusions(b: Brief) returns (acceptable: bool)
    ensures acceptable <==>
      && b.state == Classify(DeltasFrom(b.facts))
      && b.uncertainties == Uncertainties(b.facts != [], b.state, b.unmapped != [])
  {
    if b.state != Classify(DeltasFrom(b.facts)) {
      return false;
    }
    var expected := ["point-in-time-only"];
    if b.facts != [] {
      expected := expected + ["cause-not-established"];
    }
    if b.state == INCOMPLETE {
      expected := expected + ["evidence-incomplete"];
    }
    if b.unmapped != [] {
      expected := expected + ["mapping-incomplete"];
    }
    return b.uncertainties == SortUnique(expected);
  }

  // ----- Round trips and closure -----

  /** A rendered brief is accepted exactly when it is valid, and reading it gives the brief back. */
  lemma ReadRenderedBrief(b: Brief)
    ensures IsAcceptableBrief(RenderBrief(b)) <==> IsValidBrief(b)
    ensures BriefOf(RenderBrief(b)) == b
  {
  }

  /** An accepted document is the one rendering of what was read from it. */
  lemma RenderReadBrief(d: BriefDocument)
    requires IsAcceptableBrief(d)
    ensures IsValidBrief(BriefOf(d)) && RenderBrief(BriefOf(d)) == d
  {
  }

  lemma FactsFromDeltas(deltas: seq<Delta>)
    requires DeltasAreAcceptable(deltas)
    ensures FactsAreAcceptable(Facts(deltas)) && FactIds(Facts(deltas)) == DeltaIds(deltas)
    ensures Alike(DeltasFrom(Facts(deltas)), deltas)
  {
    assert FactIds(Facts(deltas)) == DeltaIds(deltas);
    forall k | 0 <= k < |deltas| ensures FactIsAcceptable(FactOf(deltas[k])) {
      assert DeltaIsAcceptable(deltas[k]);
    }
  }

  /** For any accepted comparison and mapping that belong together, the brief built from them is accepted. */
  lemma BuiltBriefIsValid(c: Comparison, m: Mapping)
    requires IsWellFormed(c) && IsValidMapping(m) && IsLinked(c, m)
    ensures IsValidBrief(BriefFor(c, m))
  {
    var deltas := DeltasFrom(Facts(c.deltas));
    FactsFromDeltas(c.deltas);
    AlikeStates(deltas, c.deltas);
    forall section, r | section in m.matches && r in section.reasons ensures Agrees(r, Table(deltas)) {
      AlikeTables(deltas, c.deltas, r);
    }
  }
}
