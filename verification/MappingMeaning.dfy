/** What a runbook mapping says, in terms of the selectors of the catalog and the fields of the deltas. */
module MappingMeaning {
  import opened Wrappers
  import opened Lexicographic
  import opened Evidence
  import opened EvidenceComparison
  import opened Runbooks
  import opened RunbookMapping
  import MappingContract

  /** An exact selector names one check, a prefix selector every check whose identifier goes on from it. */
  ghost predicate Concerns(signal: Signal, id: string) {
    match signal.mode
    case Exact => id == signal.checkId
    case Prefix => exists rest :: id == signal.checkId + rest
  }

  /** A check of this identifier that changed in this way, to this status. */
  ghost predicate Covers(signal: Signal, id: string, kind: DeltaKind, status: Status) {
    Concerns(signal, id) && kind in signal.kinds && status in signal.statuses
  }

  ghost predicate CoveredBy(entry: Entry, id: string, kind: DeltaKind, status: Status) {
    exists signal :: signal in entry.signals && Covers(signal, id, kind, status)
  }

  ghost predicate Happened(deltas: seq<Delta>, id: string, kind: DeltaKind, status: Status) {
    exists d :: d in deltas && d.id == id && d.kind == kind && d.after == Some(status)
  }

  lemma PrefixMeans(part: string, text: string)
    ensures part <= text <==> exists rest :: text == part + rest
  {
    if part <= text {
      assert text == part + text[|part|..];
    }
  }

  lemma SelectorMeans(signal: Signal, d: Delta)
    ensures SelectorMatches(signal, d) <==> d.after.Some? && Covers(signal, d.id, d.kind, d.after.value)
  {
    PrefixMeans(signal.checkId, d.id);
  }

  lemma SelectsMeans(entry: Entry, d: Delta)
    ensures Selects(entry, d) <==> d.after.Some? && CoveredBy(entry, d.id, d.kind, d.after.value)
  {
    if Selects(entry, d) {
      var signal :| signal in entry.signals && SelectorMatches(signal, d);
      SelectorMeans(signal, d);
    } else if d.after.Some? {
      forall signal | signal in entry.signals ensures !Covers(signal, d.id, d.kind, d.after.value) {
        SelectorMeans(signal, d);
      }
    }
  }

  /** A section lists a check, a kind and a status exactly when that happened and the section covers it. */
  lemma ReasonMeans(entry: Entry, deltas: seq<Delta>, r: Reason)
    ensures r in EntryReasons(entry, deltas) <==>
      Happened(deltas, r.checkId, r.kind, r.after) && CoveredBy(entry, r.checkId, r.kind, r.after)
  {
    ReasonsMean(entry, deltas, r);
    if r in EntryReasons(entry, deltas) {
      var d :| d in deltas && IsReasonFor(r, entry, d);
      SelectsMeans(entry, d);
    }
    if Happened(deltas, r.checkId, r.kind, r.after) {
      var d :| d in deltas && d.id == r.checkId && d.kind == r.kind && d.after == Some(r.after);
      SelectsMeans(entry, d);
      assert CoveredBy(entry, r.checkId, r.kind, r.after) ==> IsReasonFor(r, entry, d);
    }
  }

  /** What one match must be: the section's own data, with every reason, in order of identifier. */
  ghost predicate IsSection(m: RunbookMatch, entry: Entry, deltas: seq<Delta>) {
    && m.id == entry.id && m.title == entry.title && m.path == entry.path && m.section == entry.section
    && m.reasons != [] && Ascending(ReasonIds(m.reasons))
    && forall r :: r in m.reasons <==>
        Happened(deltas, r.checkId, r.kind, r.after) && CoveredBy(entry, r.checkId, r.kind, r.after)
  }

  lemma ReasonAt(reasons: seq<Reason>, id: string)
    ensures id in ReasonIds(reasons) <==> exists r :: r in reasons && r.checkId == id
  {
    if id in ReasonIds(reasons) {
      var k :| 0 <= k < |reasons| && ReasonIds(reasons)[k] == id;
      assert reasons[k] in reasons;
    }
    if r :| r in reasons && r.checkId == id {
      var k :| 0 <= k < |reasons| && reasons[k] == r;
      assert ReasonIds(reasons)[k] == id;
    }
  }

  /** Reasons in order of identifier are determined by their set. */
  lemma SameReasons(xs: seq<Reason>, ys: seq<Reason>)
    requires Ascending(ReasonIds(xs)) && Ascending(ReasonIds(ys)) && forall r :: r in xs <==> r in ys
    ensures xs == ys
  {
    forall id ensures id in Elements(ReasonIds(xs)) <==> id in Elements(ReasonIds(ys)) {
      ReasonAt(xs, id);
      ReasonAt(ys, id);
    }
    AscendingIsUnique(ReasonIds(xs), ReasonIds(ys));
    assert |xs| == |ReasonIds(xs)| == |ys|;
    forall k | 0 <= k < |xs| ensures xs[k] == ys[k] {
      assert xs[k] in ys;
      var j :| 0 <= j < |ys| && ys[j] == xs[k];
      assert ReasonIds(ys)[j] == ReasonIds(xs)[k] == ReasonIds(ys)[k];
      AscendingInjective(ReasonIds(ys), j, k);
    }
  }

  lemma SectionMeans(m: RunbookMatch, entry: Entry, deltas: seq<Delta>)
    requires Ascending(DeltaIds(deltas))
    ensures IsSection(m, entry, deltas) <==> m == MatchOf(entry, deltas) && m.reasons != []
  {
    ReasonsAscend(entry, deltas);
    forall r ensures r in EntryReasons(entry, deltas) <==>
        Happened(deltas, r.checkId, r.kind, r.after) && CoveredBy(entry, r.checkId, r.kind, r.after)
    {
      ReasonMeans(entry, deltas, r);
    }
    if IsSection(m, entry, deltas) {
      SameReasons(m.reasons, EntryReasons(entry, deltas));
    }
  }

  /** The matches of a mapping, with everything they contain. */
  lemma MappingMatches(c: Comparison, catalog: Catalog, m: RunbookMatch)
    requires Ascending(DeltaIds(c.deltas))
    ensures m in Map(c, catalog).matches <==> exists e :: e in catalog.entries && IsSection(m, e, c.deltas)
  {
    MatchesMean(catalog.entries, c.deltas, m);
    forall e | e in catalog.entries
      ensures IsSection(m, e, c.deltas) <==> m == MatchOf(e, c.deltas) && m.reasons != []
    {
      SectionMeans(m, e, c.deltas);
    }
  }

  /** The unmapped identifiers are those of the deltas that no section covers; no section covers a removal. */
  lemma UnmappedMeans(c: Comparison, catalog: Catalog, d: Delta)
    requires Ascending(DeltaIds(c.deltas)) && d in c.deltas
    ensures d.id in Map(c, catalog).unmapped <==>
      d.after == None || forall e :: e in catalog.entries ==> !CoveredBy(e, d.id, d.kind, d.after.value)
    ensures d.kind == REMOVED && ShapeFits(d) ==> d.id in Map(c, catalog).unmapped
  {
    var mapped := MappedIds(Map(c, catalog).matches);
    UnmappedAscend(c.deltas, mapped);
    IdInDeltas(c.deltas, d);
    assert d.id in UnmappedIds(c.deltas, mapped) <==> d.id in Elements(UnmappedIds(c.deltas, mapped));
    MappedWhenSelected(c, catalog, d);
    forall e | e in catalog.entries
      ensures Selects(e, d) <==> d.after.Some? && CoveredBy(e, d.id, d.kind, d.after.value)
    {
      SelectsMeans(e, d);
    }
  }

  /** An accepted prefix selector covers whole families: what it names ends at a dot. */
  lemma PrefixEndsAtDot(signal: Signal, id: string)
    requires SignalIsAcceptable(signal) && signal.mode.Prefix?
    ensures Concerns(signal, id) <==> exists family, rest :: signal.checkId == family + "." && id == family + "." + rest
  {
    var family := signal.checkId[..|signal.checkId| - 1];
    assert signal.checkId == family + ".";
    if rest :| id == signal.checkId + rest {
      assert id == family + "." + rest;
    }
  }

  /** The catalog's own selector for nodes picks up a node that has begun to fail; an exact one would not. */
  lemma NodeReadinessSelects()
    ensures var nodes := Signal(Prefix, "node.", [ADDED, STATUS_CHANGED, EVIDENCE_CHANGED], [WARN, FAIL, UNKNOWN]);
      var failing := Delta("node.forge-node-01", STATUS_CHANGED, Some(PASS), Some(FAIL), [StatusField]);
      SignalIsAcceptable(nodes) && SelectorMatches(nodes, failing) && !SelectorMatches(nodes.(mode := Exact), failing)
  {
    var nodes := Signal(Prefix, "node.", [ADDED, STATUS_CHANGED, EVIDENCE_CHANGED], [WARN, FAIL, UNKNOWN]);
    var failing := Delta("node.forge-node-01", STATUS_CHANGED, Some(PASS), Some(FAIL), [StatusField]);
    SelectorMeans(nodes, failing);
    assert nodes.kinds[1] == STATUS_CHANGED && nodes.statuses[1] == FAIL;
    assert "node.forge-node-01" == "node." + "forge-node-01";
    assert |"node.forge-node-01"| != |"node."|;
  }

  /** The exit code of a mapping is 0 exactly when every delta has a status and some section covers it. */
  lemma MappingExitMeans(c: Comparison, catalog: Catalog)
    requires Ascending(DeltaIds(c.deltas))
    ensures MappingContract.MappingExit(Map(c, catalog).unmapped) ==
      if forall d :: d in c.deltas ==> IsCovered(d, catalog) then 0 else 1
  {
    var unmapped := Map(c, catalog).unmapped;
    UnmappedAscend(c.deltas, MappedIds(Map(c, catalog).matches));
    forall d | d in c.deltas ensures d.id in unmapped <==> !IsCovered(d, catalog) {
      UnmappedMeans(c, catalog, d);
    }
    if unmapped != [] {
      assert unmapped[0] in Elements(unmapped) && unmapped[0] in DeltaIds(c.deltas);
      var k :| 0 <= k < |c.deltas| && DeltaIds(c.deltas)[k] == unmapped[0];
      assert c.deltas[k] in c.deltas;
    }
  }

  ghost predicate IsCovered(d: Delta, catalog: Catalog) {
    d.after.Some? && exists e :: e in catalog.entries && CoveredBy(e, d.id, d.kind, d.after.value)
  }
}
