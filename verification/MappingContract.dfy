/** The mapping document: how a mapping is written, and which documents the strict reader accepts. */
module MappingContract {
  import opened Lexicographic
  import opened Evidence
  import opened EvidenceComparison
  import opened ComparisonContract
  import opened Runbooks
  import opened RunbookMapping

  const MAPPING_SCHEMA := "forgeops.runbook-mapping/v1alpha1"

  datatype MappingSummary = MappingSummary(totalDeltas: int, mappedDeltas: int, unmappedDeltas: int,
                                           runbookMatches: int, mappingExit: int)

  datatype MappingDocument = MappingDocument(schema: string, comparisonSchema: string, beforeAt: int, afterAt: int,
                                             summary: MappingSummary, matches: seq<RunbookMatch>,
                                             unmapped: seq<string>, limitations: FixedText)

  function MappingExit(unmapped: seq<string>): int {
    if unmapped == [] then 0 else 1
  }

  function RenderMapping(m: Mapping): MappingDocument {
    MappingDocument(MAPPING_SCHEMA, COMPARISON_SCHEMA, m.beforeAt, m.afterAt,
                    MappingSummary(m.totalDeltas, |MappedIds(m.matches)|, |m.unmapped|, |m.matches|,
                                   MappingExit(m.unmapped)),
                    m.matches, m.unmapped, Supported)
  }

  predicate ReasonIsAcceptable(r: Reason) {
    r.checkId != "" && r.kind != REMOVED
  }

  ghost predicate MatchIsAcceptable(m: RunbookMatch) {
    && m.id != "" && m.title != "" && IsRunbookPath(m.path) && m.section != "" && m.reasons != []
    && (forall k :: 0 <= k < |m.reasons| ==> ReasonIsAcceptable(m.reasons[k]))
    && Ascending(ReasonIds(m.reasons))
  }

  ghost predicate MatchesAreAcceptable(matches: seq<RunbookMatch>) {
    && (forall k :: 0 <= k < |matches| ==> MatchIsAcceptable(matches[k]))
    && Ascending(MatchIds(matches))
  }

  ghost predicate CoverageFits(matches: seq<RunbookMatch>, unmapped: seq<string>) {
    "" !in unmapped && Ascending(unmapped) && MappedIds(matches) !! Elements(unmapped)
  }

  ghost predicate IsAcceptableMapping(d: MappingDocument) {
    && d.schema == MAPPING_SCHEMA && d.comparisonSchema == COMPARISON_SCHEMA && d.beforeAt <= d.afterAt
    && MatchesAreAcceptable(d.matches) && CoverageFits(d.matches, d.unmapped)
    && d.summary.mappingExit == MappingExit(d.unmapped)
    && d.summary.mappedDeltas == |MappedIds(d.matches)| && d.summary.unmappedDeltas == |d.unmapped|
    && d.summary.runbookMatches == |d.matches|
    && d.summary.totalDeltas == |MappedIds(d.matches) + Elements(d.unmapped)|
    && d.limitations.Supported?
  }

  function MappingOf(d: MappingDocument): Mapping {
    Mapping(d.beforeAt, d.afterAt, d.summary.totalDeltas, d.matches, d.unmapped)
  }

  method ParseMapping(d: MappingDocument) returns (r: Result<Mapping>)
    ensures r == if IsAcceptableMapping(d) then Accepted(MappingOf(d)) else Rejected
  {
    if d.schema != MAPPING_SCHEMA || d.comparisonSchema != COMPARISON_SCHEMA || d.afterAt < d.beforeAt {
      return Rejected;
    }
    var acceptable := CheckMatches(d.matches);
    if !acceptable {
      return Rejected;
    }
    var mappedIds := MappedIds(d.matches);
    SortUniqueFixedPoints(d.unmapped);
    if "" in d.unmapped || d.unmapped != SortUnique(d.unmapped) || mappedIds * Elements(d.unmapped) != {} {
      return Rejected;
    }
    if d.summary.mappingExit != (if d.unmapped == [] then 0 else 1) {
      return Rejected;
    }
    if d.summary.mappedDeltas != |mappedIds| || d.summary.unmappedDeltas != |d.unmapped| ||
        d.summary.runbookMatches != |d.matches| || d.summary.totalDeltas != |mappedIds + Elements(d.unmapped)| ||
        !d.limitations.Supported? {
      return Rejected;
    }
    return Accepted(Mapping(d.beforeAt, d.afterAt, d.summary.totalDeltas, d.matches, d.unmapped));
  }

  method CheckMatches(matches: seq<RunbookMatch>) returns (acceptable: bool)
    ensures acceptable <==> MatchesAreAcceptable(matches)
  {
    var matchIds := [];
    assert matches[..0] == [] && matches[..|matches|] == matches;
    for i := 0 to |matches|
      invariant matchIds == MatchIds(matches[..i])
      invariant forall k :: 0 <= k < i ==> MatchIsAcceptable(matches[k])
    {
      acceptable := CheckMatch(matches[i]);
      if !acceptable {
        return;
      }
      matchIds := matchIds + [matches[i].id];
    }
    SortUniqueFixedPoints(matchIds);
    acceptable := matchIds == SortUnique(matchIds);
  }

  method CheckMatch(m: RunbookMatch) returns (acceptable: bool)
    ensures acceptable <==> MatchIsAcceptable(m)
  {
    if m.id == "" || m.reasons == [] {
      return false;
    }
    var reasonIds := [];
    for i := 0 to |m.reasons|
      invariant reasonIds == ReasonIds(m.reasons[..i])
      invariant forall k :: 0 <= k < i ==> ReasonIsAcceptable(m.reasons[k])
    {
      if m.reasons[i].checkId == "" || m.reasons[i].kind == REMOVED {
        return false;
      }
      reasonIds := reasonIds + [m.reasons[i].checkId];
    }
    assert m.reasons[..|m.reasons|] == m.reasons;
    SortUniqueFixedPoints(reasonIds);
    return reasonIds == SortUnique(reasonIds) && m.title != "" && IsRunbookPath(m.path) && m.section != "";
  }

  /** The mappings that a document can carry. */
  ghost predicate IsValidMapping(m: Mapping) {
    && m.beforeAt <= m.afterAt && MatchesAreAcceptable(m.matches) && CoverageFits(m.matches, m.unmapped)
    && m.totalDeltas == |MappedIds(m.matches)| + |m.unmapped|
  }

  lemma CoverageSize(matches: seq<RunbookMatch>, unmapped: seq<string>)
    requires CoverageFits(matches, unmapped)
    ensures |MappedIds(matches) + Elements(unmapped)| == |MappedIds(matches)| + |unmapped|
  {
    AscendingSize(unmapped);
  }

  /** A rendered mapping is accepted exactly when it is valid, and reading it gives the mapping back. */
  lemma ReadRenderedMapping(m: Mapping)
    ensures IsAcceptableMapping(RenderMapping(m)) <==> IsValidMapping(m)
    ensures MappingOf(RenderMapping(m)) == m
  {
    if CoverageFits(m.matches, m.unmapped) {
      CoverageSize(m.matches, m.unmapped);
    }
  }

  /** An accepted document is the one rendering of what was read from it. */
  lemma RenderReadMapping(d: MappingDocument)
    requires IsAcceptableMapping(d)
    ensures IsValidMapping(MappingOf(d)) && RenderMapping(MappingOf(d)) == d
  {
    CoverageSize(d.matches, d.unmapped);
  }

  // ----- The mapper produces valid mappings -----

  lemma MatchOfIsAcceptable(entry: Entry, deltas: seq<Delta>)
    requires EntryIsAcceptable(entry) && DeltasAreAcceptable(deltas) && EntryReasons(entry, deltas) != []
    ensures MatchIsAcceptable(MatchOf(entry, deltas))
  {
    var reasons := EntryReasons(entry, deltas);
    ReasonsAscend(entry, deltas);
    forall k | 0 <= k < |reasons| ensures ReasonIsAcceptable(reasons[k]) {
      ReasonsMean(entry, deltas, reasons[k]);
      var d :| d in deltas && IsReasonFor(reasons[k], entry, d);
      assert DeltaIsAcceptable(d);
    }
  }

  lemma UnmappedAreNamed(deltas: seq<Delta>, mapped: set<string>)
    requires DeltasAreAcceptable(deltas)
    ensures "" !in UnmappedIds(deltas, mapped)
  {
    UnmappedAscend(deltas, mapped);
    var unmapped := UnmappedIds(deltas, mapped);
    forall k | 0 <= k < |unmapped| ensures unmapped[k] != "" {
      assert unmapped[k] in Elements(unmapped);
      var j :| 0 <= j < |DeltaIds(deltas)| && DeltaIds(deltas)[j] == unmapped[k];
      assert DeltaIsAcceptable(deltas[j]);
    }
  }

  lemma MatchesAreValid(entries: seq<Entry>, deltas: seq<Delta>)
    requires IsValidCatalog(Catalog(entries)) && DeltasAreAcceptable(deltas)
    ensures MatchesAreAcceptable(MatchesOf(entries, deltas))
  {
    var matches := MatchesOf(entries, deltas);
    MatchesAscend(entries, deltas);
    forall k | 0 <= k < |matches| ensures MatchIsAcceptable(matches[k]) {
      assert matches[k] in matches;
      MatchesMean(entries, deltas, matches[k]);
      var e :| e in entries && matches[k] == MatchOf(e, deltas);
      MatchOfIsAcceptable(e, deltas);
    }
  }

  lemma MapIsValid(c: Comparison, catalog: Catalog)
    requires IsWellFormed(c) && IsValidCatalog(catalog)
    ensures IsValidMapping(Map(c, catalog))
  {
    var m := Map(c, catalog);
    MatchesAreValid(catalog.entries, c.deltas);
    UnmappedAscend(c.deltas, MappedIds(m.matches));
    UnmappedAreNamed(c.deltas, MappedIds(m.matches));
    MappingPartitions(c, catalog);
  }
}
