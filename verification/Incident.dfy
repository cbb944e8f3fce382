/** The incident brief over the deltas: how the window is classified, and when a mapping belongs to a comparison. */
module Incident {
  import opened Wrappers
  import opened Lexicographic
  import opened Evidence
  import opened EvidenceComparison
  import opened RunbookMapping

  datatype IncidentState = STABLE | CHANGED | DEGRADED | INCOMPLETE | RECOVERED

  datatype Fact = Fact(id: string, kind: DeltaKind, before: Option<Status>, after: Option<Status>)

  datatype Brief = Brief(beforeAt: int, afterAt: int, state: IncidentState, facts: seq<Fact>,
                         runbooks: seq<RunbookMatch>,
                         unmapped: seq<string>, uncertainties: seq<string>)

  // ----- Classification -----

  predicate IsUnclear(f: Fact) {
    f.after.None? || f.after.value == UNKNOWN
  }

  predicate IsFailing(f: Fact) {
    f.after.Some? && (f.after.value == WARN || f.after.value == FAIL)
  }

  predicate IsRecovery(f: Fact) {
    f.kind == STATUS_CHANGED && f.before.Some? && f.before.value != PASS && f.after == Some(PASS)
  }

  function FactOf(d: Delta): Fact {
    Fact(d.id, d.kind, d.before, d.after)
  }

  function Facts(deltas: seq<Delta>): seq<Fact> {
    seq(|deltas|, k requires 0 <= k < |deltas| => FactOf(deltas[k]))
  }

  function Classify(deltas: seq<Delta>): IncidentState {
    if deltas == [] then STABLE
    else if exists d :: d in deltas && IsUnclear(FactOf(d)) then INCOMPLETE
    else if exists d :: d in deltas && IsFailing(FactOf(d)) then DEGRADED
    else if forall d :: d in deltas ==> IsRecovery(FactOf(d)) then RECOVERED
    else CHANGED
  }

  function Noted(facts: bool, state: IncidentState, unmapped: bool): seq<string> {
    var always := ["point-in-time-only"];
    var cause := if facts then always + ["cause-not-established"] else always;
    var evidence := if state == INCOMPLETE then cause + ["evidence-incomplete"] else cause;
    if unmapped then evidence + ["mapping-incomplete"] else evidence
  }

  function Uncertainties(facts: bool, state: IncidentState, unmapped: bool): seq<string> {
    SortUnique(Noted(facts, state, unmapped))
  }

  /** Which uncertainties a brief discloses, each once and in order. */
  lemma UncertaintiesMean(facts: bool, state: IncidentState, unmapped: bool, x: string)
    ensures Ascending(Uncertainties(facts, state, unmapped))
    ensures x in Uncertainties(facts, state, unmapped) <==>
      || x == "point-in-time-only"
      || (facts && x == "cause-not-established")
      || (state == INCOMPLETE && x == "evidence-incomplete")
      || (unmapped && x == "mapping-incomplete")
  {
    var noted := Noted(facts, state, unmapped);
    SortUniqueMeans(noted);
    assert x in SortUnique(noted) <==> x in Elements(SortUnique(noted));
    assert x in noted <==> x in Elements(noted);
  }

  // ----- Linkage -----

  /** Python's {delta.check_id: delta for delta in deltas}. */
  function Table(deltas: seq<Delta>): map<string, Delta> {
    if deltas == [] then map[]
    else Table(deltas[..|deltas| - 1])[deltas[|deltas| - 1].id := deltas[|deltas| - 1]]
  }

  predicate Agrees(r: Reason, table: map<string, Delta>) {
    r.checkId in table && table[r.checkId].kind == r.kind && table[r.checkId].after == Some(r.after)
  }

  ghost predicate ReasonsAgree(matches: seq<RunbookMatch>, table: map<string, Delta>) {
    forall m, r :: m in matches && r in m.reasons ==> Agrees(r, table)
  }

  ghost predicate IsLinked(c: Comparison, m: Mapping) {
    && m.beforeAt == c.beforeAt && m.afterAt == c.afterAt && m.totalDeltas == |c.deltas|
    && ReasonsAgree(m.matches, Table(c.deltas))
    && Elements(m.unmapped) == Elements(DeltaIds(c.deltas)) - MappedIds(m.matches)
  }

  method CheckReasons(reasons: seq<Reason>, table: map<string, Delta>) returns (agree: bool)
    ensures agree <==> forall r :: r in reasons ==> Agrees(r, table)
  {
    for i := 0 to |reasons|
      invariant forall k :: 0 <= k < i ==> Agrees(reasons[k], table)
    {
      var reason := reasons[i];
      if reason.checkId !in table || table[reason.checkId].kind != reason.kind ||
          table[reason.checkId].after != Some(reason.after) {
        assert reason in reasons && !Agrees(reason, table);
        return false;
      }
    }
    return true;
  }

  method CheckMatchReasons(matches: seq<RunbookMatch>, table: map<string, Delta>)
    returns (agree: bool, mappedIds: set<string>)
    ensures agree <==> ReasonsAgree(matches, table)
    ensures agree ==> mappedIds == MappedIds(matches)
  {
    mappedIds := {};
    assert matches[..0] == [] && matches[..|matches|] == matches;
    for i := 0 to |matches|
      invariant ReasonsAgree(matches[..i], table)
      invariant mappedIds == MappedIds(matches[..i])
    {
      var section := matches[i];
      assert matches[..i + 1] == matches[..i] + [section] && matches[..i + 1][..i] == matches[..i];
      agree := CheckReasons(section.reasons, table);
      if !agree {
        assert section in matches;
        return;
      }
      mappedIds := mappedIds + Elements(ReasonIds(section.reasons));
    }
    agree := true;
  }

  method ValidateMappingLinkage(c: Comparison, m: Mapping) returns (linked: bool)
    ensures linked <==> IsLinked(c, m)
  {
    if m.beforeAt != c.beforeAt || m.afterAt != c.afterAt || m.totalDeltas != |c.deltas| {
      return false;
    }
    var table := Table(c.deltas);
    var agree, mappedIds := CheckMatchReasons(m.matches, table);
    if !agree {
      return false;
    }
    TableKeys(c.deltas);
    return Elements(m.unmapped) == table.Keys - mappedIds;
  }

  // ----- Building -----

  function BriefFor(c: Comparison, m: Mapping): Brief {
    var state := Classify(c.deltas);
    Brief(c.beforeAt, c.afterAt, state, Facts(c.deltas), m.matches, m.unmapped,
          Uncertainties(c.deltas != [], state, m.unmapped != []))
  }

  method BuildIncidentBrief(c: Comparison, m: Mapping) returns (r: Result<Brief>)
    ensures r == if IsLinked(c, m) then Accepted(BriefFor(c, m)) else Rejected
  {
    var linked := ValidateMappingLinkage(c, m);
    if !linked {
      return Rejected;
    }
    var state := Classify(c.deltas);
    var uncertainties := ["point-in-time-only"];
    if c.deltas != [] {
      uncertainties := uncertainties + ["cause-not-established"];
    }
    if state == INCOMPLETE {
      uncertainties := uncertainties + ["evidence-incomplete"];
    }
    if m.unmapped != [] {
      uncertainties := uncertainties + ["mapping-incomplete"];
    }
    return Accepted(Brief(c.beforeAt, c.afterAt, state, Facts(c.deltas), m.matches, m.unmapped,
                          SortUnique(uncertainties)));
  }

  // ----- Tables -----

  lemma {:induction false} TableKeys(deltas: seq<Delta>)
    ensures Table(deltas).Keys == Elements(DeltaIds(deltas))
  {
    if deltas != [] {
      var n := |deltas| - 1;
      TableKeys(deltas[..n]);
      assert DeltaIds(deltas) == DeltaIds(deltas[..n]) + [deltas[n].id];
    }
  }

  lemma {:induction false} TableLookup(deltas: seq<Delta>, k: nat)
    requires Ascending(DeltaIds(deltas)) && k < |deltas|
    ensures deltas[k].id in Table(deltas) && Table(deltas)[deltas[k].id] == deltas[k]
  {
    var n := |deltas| - 1;
    if k < n {
      LastDelta(deltas);
      TableLookup(deltas[..n], k);
      LessIsTotal(DeltaIds(deltas)[k], DeltaIds(deltas)[n]);
    }
  }

  /** The same deltas, up to the fields that changed. */
  ghost predicate Alike(xs: seq<Delta>, ys: seq<Delta>) {
    |xs| == |ys| && forall k :: 0 <= k < |xs| ==> FactOf(xs[k]) == FactOf(ys[k])
  }

  lemma {:induction false} AlikeTables(xs: seq<Delta>, ys: seq<Delta>, r: Reason)
    requires Alike(xs, ys)
    ensures Agrees(r, Table(xs)) <==> Agrees(r, Table(ys))
  {
    if xs != [] {
      var n := |xs| - 1;
      AlikeTables(xs[..n], ys[..n], r);
      assert FactOf(xs[n]) == FactOf(ys[n]);
    }
  }

  lemma AlikeSome(xs: seq<Delta>, ys: seq<Delta>, p: Fact -> bool)
    requires Alike(xs, ys) && exists x :: x in xs && p(FactOf(x))
    ensures exists y :: y in ys && p(FactOf(y))
  {
    var k :| 0 <= k < |xs| && p(FactOf(xs[k]));
    assert ys[k] in ys && FactOf(ys[k]) == FactOf(xs[k]);
  }

  lemma AlikeAny(xs: seq<Delta>, ys: seq<Delta>, p: Fact -> bool)
    requires Alike(xs, ys)
    ensures (exists x :: x in xs && p(FactOf(x))) <==> (exists y :: y in ys && p(FactOf(y)))
  {
    if exists x :: x in xs && p(FactOf(x)) {
      AlikeSome(xs, ys, p);
    }
    if exists y :: y in ys && p(FactOf(y)) {
      AlikeSome(ys, xs, p);
    }
  }

  /** The state follows from what the facts say, not from which fields changed. */
  lemma AlikeStates(xs: seq<Delta>, ys: seq<Delta>)
    requires Alike(xs, ys)
    ensures Classify(xs) == Classify(ys)
  {
    AlikeAny(xs, ys, IsUnclear);
    AlikeAny(xs, ys, IsFailing);
    AlikeAny(xs, ys, f => !IsRecovery(f));
  }

  /** The mapper's own output always belongs to the comparison it was made from. */
  lemma MapIsLinked(c: Comparison, catalog: Runbooks.Catalog)
    requires Ascending(DeltaIds(c.deltas))
    ensures IsLinked(c, Map(c, catalog))
  {
    var m := Map(c, catalog);
    forall section, r | section in m.matches && r in section.reasons ensures Agrees(r, Table(c.deltas)) {
      MatchesMean(catalog.entries, c.deltas, section);
      var e :| e in catalog.entries && section == MatchOf(e, c.deltas);
      ReasonsMean(e, c.deltas, r);
      var d :| d in c.deltas && IsReasonFor(r, e, d);
      var k :| 0 <= k < |c.deltas| && c.deltas[k] == d;
      TableLookup(c.deltas, k);
    }
    UnmappedAscend(c.deltas, MappedIds(m.matches));
  }
}
