/** Which runbook sections a comparison refers to, by which reasons, and which of its deltas no section covers. */
module RunbookMapping {
  import opened Lexicographic
  import opened Evidence
  import opened EvidenceComparison
  import opened Runbooks

  datatype Reason = Reason(checkId: string, kind: DeltaKind, after: Status)

  datatype RunbookMatch = RunbookMatch(id: string, title: string, path: string, section: string, reasons: seq<Reason>)

  datatype Mapping = Mapping(beforeAt: int, afterAt: int, totalDeltas: int, matches: seq<RunbookMatch>,
                             unmapped: seq<string>)

  // ----- Selection -----

  predicate SelectorMatches(signal: Signal, delta: Delta) {
    && (if signal.mode.Exact? then delta.id == signal.checkId else signal.checkId <= delta.id)
    && delta.kind in signal.kinds && delta.after.Some? && delta.after.value in signal.statuses
  }

  predicate Selects(entry: Entry, delta: Delta) {
    exists signal :: signal in entry.signals && SelectorMatches(signal, delta)
  }

  function ReasonOf(delta: Delta): Reason
    requires delta.after.Some?
  {
    Reason(delta.id, delta.kind, delta.after.value)
  }

  function EntryReasons(entry: Entry, deltas: seq<Delta>): seq<Reason> {
    if deltas == [] then []
    else
      var n := |deltas| - 1;
      var rest := EntryReasons(entry, deltas[..n]);
      if Selects(entry, deltas[n]) then rest + [ReasonOf(deltas[n])] else rest
  }

  function MatchOf(entry: Entry, deltas: seq<Delta>): RunbookMatch {
    RunbookMatch(entry.id, entry.title, entry.path, entry.section, EntryReasons(entry, deltas))
  }

  /** The entries with at least one reason, in catalog order. */
  function MatchesOf(entries: seq<Entry>, deltas: seq<Delta>): seq<RunbookMatch> {
    if entries == [] then []
    else
      var n := |entries| - 1;
      var rest := MatchesOf(entries[..n], deltas);
      if EntryReasons(entries[n], deltas) == [] then rest else rest + [MatchOf(entries[n], deltas)]
  }

  function ReasonIds(reasons: seq<Reason>): seq<string> {
    seq(|reasons|, k requires 0 <= k < |reasons| => reasons[k].checkId)
  }

  function MatchIds(matches: seq<RunbookMatch>): seq<string> {
    seq(|matches|, k requires 0 <= k < |matches| => matches[k].id)
  }

  function MappedIds(matches: seq<RunbookMatch>): set<string> {
    if matches == [] then {}
    else MappedIds(matches[..|matches| - 1]) + Elements(ReasonIds(matches[|matches| - 1].reasons))
  }

  function UnmappedIds(deltas: seq<Delta>, mapped: set<string>): seq<string> {
    if deltas == [] then []
    else
      var n := |deltas| - 1;
      var rest := UnmappedIds(deltas[..n], mapped);
      if deltas[n].id in mapped then rest else rest + [deltas[n].id]
  }

  function Map(c: Comparison, catalog: Catalog): Mapping {
    var matches := MatchesOf(catalog.entries, c.deltas);
    Mapping(c.beforeAt, c.afterAt, |c.deltas|, matches, UnmappedIds(c.deltas, MappedIds(matches)))
  }

  method CollectReasons(entry: Entry, deltas: seq<Delta>) returns (reasons: seq<Reason>)
    ensures reasons == EntryReasons(entry, deltas)
  {
    reasons := [];
    for i := 0 to |deltas|
      invariant reasons == EntryReasons(entry, deltas[..i])
    {
      assert deltas[..i + 1][..i] == deltas[..i];
      if exists signal :: signal in entry.signals && SelectorMatches(signal, deltas[i]) {
        reasons := reasons + [Reason(deltas[i].id, deltas[i].kind, deltas[i].after.value)];
      }
    }
    assert deltas[..|deltas|] == deltas;
  }

  method MapRunbooks(c: Comparison, catalog: Catalog) returns (m: Mapping)
    ensures m == Map(c, catalog)
  {
    var matches, mapped := [], {};
    for i := 0 to |catalog.entries|
      invariant matches == MatchesOf(catalog.entries[..i], c.deltas) && mapped == MappedIds(matches)
    {
      var entry := catalog.entries[i];
      assert catalog.entries[..i + 1][..i] == catalog.entries[..i];
      var reasons := CollectReasons(entry, c.deltas);
      if reasons != [] {
        mapped := mapped + Elements(ReasonIds(reasons));
        matches := matches + [RunbookMatch(entry.id, entry.title, entry.path, entry.section, reasons)];
        assert matches[..|matches| - 1] == MatchesOf(catalog.entries[..i], c.deltas);
      }
    }
    assert catalog.entries[..|catalog.entries|] == catalog.entries;
    var unmapped := CollectUnmapped(c.deltas, mapped);
    return Mapping(c.beforeAt, c.afterAt, |c.deltas|, matches, unmapped);
  }

  method CollectUnmapped(deltas: seq<Delta>, mapped: set<string>) returns (unmapped: seq<string>)
    ensures unmapped == UnmappedIds(deltas, mapped)
  {
    unmapped := [];
    for i := 0 to |deltas|
      invariant unmapped == UnmappedIds(deltas[..i], mapped)
    {
      assert deltas[..i + 1][..i] == deltas[..i];
      if deltas[i].id !in mapped {
        unmapped := unmapped + [deltas[i].id];
      }
    }
    assert deltas[..|deltas|] == deltas;
  }

  // ----- What a mapping says -----

  ghost predicate IsReasonFor(r: Reason, entry: Entry, d: Delta) {
    Selects(entry, d) && d.after.Some? && r == ReasonOf(d)
  }

  lemma LastDelta(deltas: seq<Delta>)
    requires deltas != [] && Ascending(DeltaIds(deltas))
    ensures var ids := DeltaIds(deltas[..|deltas| - 1]);
      Ascending(ids) && ids + [deltas[|deltas| - 1].id] == DeltaIds(deltas)
  {
    var ids := DeltaIds(deltas[..|deltas| - 1]);
    assert ids + [deltas[|deltas| - 1].id] == DeltaIds(deltas);
    forall i, j | 0 <= i < j < |ids| ensures Less(ids[i], ids[j]) {
      assert Less(DeltaIds(deltas)[i], DeltaIds(deltas)[j]);
    }
  }

  lemma ReasonIdsAppend(reasons: seq<Reason>, r: Reason)
    ensures ReasonIds(reasons + [r]) == ReasonIds(reasons) + [r.checkId]
  {
  }

  lemma {:induction false} ReasonsAscend(entry: Entry, deltas: seq<Delta>)
    requires Ascending(DeltaIds(deltas))
    ensures Ascending(ReasonIds(EntryReasons(entry, deltas)))
    ensures Elements(ReasonIds(EntryReasons(entry, deltas))) <= Elements(DeltaIds(deltas))
  {
    if deltas != [] {
      var n := |deltas| - 1;
      LastDelta(deltas);
      ElementsSnoc(DeltaIds(deltas[..n]), deltas[n].id);
      ReasonsAscend(entry, deltas[..n]);
      var rest := EntryReasons(entry, deltas[..n]);
      if Selects(entry, deltas[n]) {
        AscendingSelection(ReasonIds(rest), DeltaIds(deltas[..n]), deltas[n].id);
        ReasonIdsAppend(rest, ReasonOf(deltas[n]));
        ElementsSnoc(ReasonIds(rest), deltas[n].id);
      }
    }
  }

  /** A section's reasons are exactly the deltas that one of its selectors accepts. */
  lemma {:induction false} ReasonsMean(entry: Entry, deltas: seq<Delta>, r: Reason)
    ensures r in EntryReasons(entry, deltas) <==> exists d :: d in deltas && IsReasonFor(r, entry, d)
  {
    if deltas != [] {
      var n := |deltas| - 1;
      ReasonsMean(entry, deltas[..n], r);
      assert deltas == deltas[..n] + [deltas[n]];
      if r in EntryReasons(entry, deltas[..n]) {
        var d :| d in deltas[..n] && IsReasonFor(r, entry, d);
        assert d in deltas;
      } else if Selects(entry, deltas[n]) && r == ReasonOf(deltas[n]) {
        assert deltas[n] in deltas && IsReasonFor(r, entry, deltas[n]);
      }
    }
  }

  lemma {:induction false} UnmappedAscend(deltas: seq<Delta>, mapped: set<string>)
    requires Ascending(DeltaIds(deltas))
    ensures Ascending(UnmappedIds(deltas, mapped))
    ensures Elements(UnmappedIds(deltas, mapped)) == Elements(DeltaIds(deltas)) - mapped
  {
    if deltas != [] {
      var n := |deltas| - 1;
      LastDelta(deltas);
      ElementsSnoc(DeltaIds(deltas[..n]), deltas[n].id);
      UnmappedAscend(deltas[..n], mapped);
      if deltas[n].id !in mapped {
        AscendingSelection(UnmappedIds(deltas[..n], mapped), DeltaIds(deltas[..n]), deltas[n].id);
        ElementsSnoc(UnmappedIds(deltas[..n], mapped), deltas[n].id);
      }
    }
  }

  lemma LastEntry(entries: seq<Entry>)
    requires entries != [] && Ascending(EntryIds(entries))
    ensures var ids := EntryIds(entries[..|entries| - 1]);
      Ascending(ids) && ids + [entries[|entries| - 1].id] == EntryIds(entries)
  {
    var ids := EntryIds(entries[..|entries| - 1]);
    assert ids + [entries[|entries| - 1].id] == EntryIds(entries);
    forall i, j | 0 <= i < j < |ids| ensures Less(ids[i], ids[j]) {
      assert Less(EntryIds(entries)[i], EntryIds(entries)[j]);
    }
  }

  lemma MatchIdsAppend(matches: seq<RunbookMatch>, m: RunbookMatch)
    ensures MatchIds(matches + [m]) == MatchIds(matches) + [m.id]
  {
  }

  lemma {:induction false} MatchesAscend(entries: seq<Entry>, deltas: seq<Delta>)
    requires Ascending(EntryIds(entries))
    ensures Ascending(MatchIds(MatchesOf(entries, deltas)))
    ensures Elements(MatchIds(MatchesOf(entries, deltas))) <= Elements(EntryIds(entries))
  {
    if entries != [] {
      var n := |entries| - 1;
      LastEntry(entries);
      ElementsSnoc(EntryIds(entries[..n]), entries[n].id);
      MatchesAscend(entries[..n], deltas);
      var rest := MatchesOf(entries[..n], deltas);
      if EntryReasons(entries[n], deltas) != [] {
        AscendingSelection(MatchIds(rest), EntryIds(entries[..n]), entries[n].id);
        MatchIdsAppend(rest, MatchOf(entries[n], deltas));
        ElementsSnoc(MatchIds(rest), entries[n].id);
      }
    }
  }

  /** The matches are exactly the entries that have a reason, each with all its reasons. */
  lemma {:induction false} MatchesMean(entries: seq<Entry>, deltas: seq<Delta>, m: RunbookMatch)
    ensures m in MatchesOf(entries, deltas) <==> exists e :: e in entries && m == MatchOf(e, deltas) && m.reasons != []
  {
    if entries != [] {
      var n := |entries| - 1;
      MatchesMean(entries[..n], deltas, m);
      assert entries == entries[..n] + [entries[n]];
    }
  }

  lemma {:induction false} MappedMeans(matches: seq<RunbookMatch>, id: string)
    ensures id in MappedIds(matches) <==> exists m, r :: m in matches && r in m.reasons && r.checkId == id
  {
    if matches != [] {
      var n := |matches| - 1;
      var last := matches[n];
      MappedMeans(matches[..n], id);
      assert matches == matches[..n] + [last];
      if id in ReasonIds(last.reasons) {
        var k :| 0 <= k < |last.reasons| && ReasonIds(last.reasons)[k] == id;
        assert last.reasons[k] in last.reasons && last in matches;
      }
      if r :| r in last.reasons && r.checkId == id {
        var k :| 0 <= k < |last.reasons| && last.reasons[k] == r;
        assert ReasonIds(last.reasons)[k] == id;
      }
    }
  }

  lemma SameDelta(deltas: seq<Delta>, d: Delta, e: Delta)
    requires Ascending(DeltaIds(deltas)) && d in deltas && e in deltas && d.id == e.id
    ensures d == e
  {
    var i :| 0 <= i < |deltas| && deltas[i] == d;
    var j :| 0 <= j < |deltas| && deltas[j] == e;
    AscendingInjective(DeltaIds(deltas), i, j);
  }

  /** A delta is mapped exactly when some entry of the catalog selects it. */
  lemma MappedWhenSelected(c: Comparison, catalog: Catalog, d: Delta)
    requires Ascending(DeltaIds(c.deltas)) && d in c.deltas
    ensures d.id in MappedIds(Map(c, catalog).matches) <==> exists e :: e in catalog.entries && Selects(e, d)
  {
    var matches := MatchesOf(catalog.entries, c.deltas);
    MappedMeans(matches, d.id);
    if d.id in MappedIds(matches) {
      var m, r :| m in matches && r in m.reasons && r.checkId == d.id;
      MatchesMean(catalog.entries, c.deltas, m);
      var e :| e in catalog.entries && m == MatchOf(e, c.deltas);
      ReasonsMean(e, c.deltas, r);
      var source :| source in c.deltas && IsReasonFor(r, e, source);
      SameDelta(c.deltas, d, source);
    }
    if e :| e in catalog.entries && Selects(e, d) {
      assert IsReasonFor(ReasonOf(d), e, d);
      ReasonsMean(e, c.deltas, ReasonOf(d));
      MatchesMean(catalog.entries, c.deltas, MatchOf(e, c.deltas));
    }
  }

  /** Mapped and unmapped identifiers partition the deltas. */
  lemma MappingPartitions(c: Comparison, catalog: Catalog)
    requires Ascending(DeltaIds(c.deltas))
    ensures var m := Map(c, catalog);
      && MappedIds(m.matches) + Elements(m.unmapped) == Elements(DeltaIds(c.deltas))
      && MappedIds(m.matches) !! Elements(m.unmapped)
      && |MappedIds(m.matches)| + |m.unmapped| == m.totalDeltas == |c.deltas|
  {
    var m := Map(c, catalog);
    var mapped, ids := MappedIds(m.matches), Elements(DeltaIds(c.deltas));
    UnmappedAscend(c.deltas, mapped);
    forall id | id in mapped ensures id in ids {
      MappedMeans(m.matches, id);
      var section, r :| section in m.matches && r in section.reasons && r.checkId == id;
      MatchesMean(catalog.entries, c.deltas, section);
      var e :| e in catalog.entries && section == MatchOf(e, c.deltas);
      ReasonsMean(e, c.deltas, r);
      var d :| d in c.deltas && IsReasonFor(r, e, d);
      IdInDeltas(c.deltas, d);
    }
    AscendingSize(m.unmapped);
    AscendingSize(DeltaIds(c.deltas));
    assert ids == mapped + Elements(m.unmapped);
  }
}
