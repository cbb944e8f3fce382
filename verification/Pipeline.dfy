/** The stages in sequence, each reading strictly what the stage before it wrote. */
module Pipeline {
  import opened Evidence
  import opened EvidenceComparison
  import opened ComparisonContract
  import opened Runbooks
  import opened RunbookMapping
  import opened MappingContract
  import opened Incident
  import opened IncidentContract
  import opened SnapshotBriefs

  /** The inputs that the whole pipeline needs, and nothing more. */
  ghost predicate IsReady(before: EvidenceDocument, after: EvidenceDocument, catalog: CatalogDocument) {
    && IsAcceptable(before) && IsAcceptable(after) && IsAcceptableCatalog(catalog)
    && before.collectedAt <= after.collectedAt
  }

  /** The mapping is made from the comparison as it was read back, and both are read back again before the brief. */
  method Run(before: EvidenceDocument, after: EvidenceDocument, catalog: CatalogDocument)
    returns (r: Result<SnapshotBriefDocument>)
    ensures r.Accepted? <==> IsReady(before, after, catalog)
    ensures r.Accepted? ==>
      var b, a := SnapshotOf(before), SnapshotOf(after);
      var c := Compare(b, a);
      && IsAcceptableSnapshotBrief(r.value)
      && SnapshotBriefOf(r.value) == SnapshotBriefFor(b, a, c, Map(c, Catalog(catalog.entries)))
  {
    var b := ParseEvidence(before);
    var a := ParseEvidence(after);
    var entries := ParseCatalog(catalog);
    if b.Rejected? || a.Rejected? || entries.Rejected? {
      return Rejected;
    }
    var compared := CompareEvidence(b.value, a.value);
    if compared.Rejected? {
      return Rejected;
    }
    StagesAgree(b.value, a.value, entries.value);
    var c := ParseComparison(RenderComparison(compared.value));
    var mapping := MapRunbooks(c.value, entries.value);
    var m := ParseMapping(RenderMapping(mapping));
    var brief := BuildSnapshotIncidentBrief(b.value, a.value, c.value, m.value);
    ReadRenderedSnapshotBrief(brief.value);
    return Accepted(RenderSnapshotBrief(brief.value));
  }

  /** Every stage accepts what the stage before it wrote, reads it unchanged, and its output belongs to its input. */
  lemma StagesAgree(before: Snapshot, after: Snapshot, catalog: Catalog)
    requires IsValidated(before) && IsValidated(after) && before.collectedAt <= after.collectedAt
    requires IsValidCatalog(catalog)
    ensures var c := Compare(before, after);
      var m := Map(c, catalog);
      && IsAcceptableComparison(RenderComparison(c)) && ComparisonOf(RenderComparison(c)) == c
      && IsAcceptableMapping(RenderMapping(m)) && MappingOf(RenderMapping(m)) == m && IsValidMapping(m)
      && IsBuildable(before, after, c, m)
      && IsAcceptableBrief(RenderBrief(BriefFor(c, m))) && BriefOf(RenderBrief(BriefFor(c, m))) == BriefFor(c, m)
      && IsValidSnapshotBrief(SnapshotBriefFor(before, after, c, m))
  {
    var c := Compare(before, after);
    var m := Map(c, catalog);
    CompareIsWellFormed(before, after);
    ReadRendered(c);
    MapIsValid(c, catalog);
    ReadRenderedMapping(m);
    MapIsLinked(c, catalog);
    BuiltBriefIsValid(c, m);
    BuiltSnapshotBriefIsValid(before, after, c, m);
  }
}
