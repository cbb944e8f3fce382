/** What acceptance of a brief with snapshot context says about the two snapshots. */
module BriefMeaning {
  import opened Wrappers
  import opened Lexicographic
  import opened Evidence
  import opened EvidenceComparison
  import opened Incident
  import opened IncidentContract
  import opened SnapshotContext
  import opened SnapshotBriefs

  // ----- The facts are a patch -----

  function ApplyFact(statuses: map<string, Status>, f: Fact): map<string, Status> {
    match f.after
    case Some(status) => statuses[f.id := status]
    case None => statuses - {f.id}
  }

  function ApplyFacts(statuses: map<string, Status>, facts: seq<Fact>): map<string, Status> {
    if facts == [] then statuses
    else ApplyFact(ApplyFacts(statuses, facts[..|facts| - 1]), facts[|facts| - 1])
  }

  /** The same fact read backwards in time. */
  function Undo(f: Fact): Fact {
    Fact(f.id, match f.kind case ADDED => REMOVED case REMOVED => ADDED case kind => kind, f.after, f.before)
  }

  function UndoAll(facts: seq<Fact>): seq<Fact> {
    seq(|facts|, k requires 0 <= k < |facts| => Undo(facts[k]))
  }

  lemma {:induction false} ApplyFactsAt(statuses: map<string, Status>, facts: seq<Fact>, target: map<string, Status>,
                                        id: string)
    requires forall k :: 0 <= k < |facts| ==> facts[k].after == StatusAt(target, facts[k].id)
    ensures StatusAt(ApplyFacts(statuses, facts), id) ==
      if id in FactIds(facts) then StatusAt(target, id) else StatusAt(statuses, id)
  {
    if facts != [] {
      var n := |facts| - 1;
      ApplyFactsAt(statuses, facts[..n], target, id);
      assert FactIds(facts) == FactIds(facts[..n]) + [facts[n].id];
    }
  }

  lemma StatusesDetermine(x: map<string, Status>, y: map<string, Status>)
    requires forall id :: StatusAt(x, id) == StatusAt(y, id)
    ensures x == y
  {
    assert forall id :: id in x <==> StatusAt(x, id).Some?;
    assert forall id :: id in y <==> StatusAt(y, id).Some?;
  }

  /** Applied to the before statuses the facts give exactly the after statuses, and undone they lead back. */
  lemma FactsArePatch(facts: seq<Fact>, before: map<string, Status>, after: map<string, Status>)
    requires FactsMatch(facts, before, after)
    ensures ApplyFacts(before, facts) == after && ApplyFacts(after, UndoAll(facts)) == before
  {
    assert FactIds(UndoAll(facts)) == FactIds(facts);
    forall id ensures StatusAt(ApplyFacts(before, facts), id) == StatusAt(after, id) {
      ApplyFactsAt(before, facts, after, id);
    }
    StatusesDetermine(ApplyFacts(before, facts), after);
    forall id ensures StatusAt(ApplyFacts(after, UndoAll(facts)), id) == StatusAt(before, id) {
      ApplyFactsAt(after, UndoAll(facts), before, id);
    }
    StatusesDetermine(ApplyFacts(after, UndoAll(facts)), before);
  }

  lemma AcceptedFactsArePatch(d: SnapshotBriefDocument)
    requires IsAcceptableSnapshotBrief(d)
    ensures var facts, b, a := d.deltaBrief.facts, StatusMap(d.before.checks), StatusMap(d.after.checks);
      ApplyFacts(b, facts) == a && ApplyFacts(a, UndoAll(facts)) == b
  {
    FactsArePatch(d.deltaBrief.facts, StatusMap(d.before.checks), StatusMap(d.after.checks));
  }

  lemma FactAt(facts: seq<Fact>, id: string)
    ensures id in FactIds(facts) <==> exists f :: f in facts && f.id == id
  {
    if id in FactIds(facts) {
      var k :| 0 <= k < |facts| && FactIds(facts)[k] == id;
      assert facts[k] in facts;
    }
    if f :| f in facts && f.id == id {
      var k :| 0 <= k < |facts| && facts[k] == f;
      assert FactIds(facts)[k] == id;
    }
  }

  /**
   The facts of any kind but EVIDENCE_CHANGED name exactly the identifiers whose presence or status
   changed; an EVIDENCE_CHANGED fact names one with equal statuses on both sides.
   */
  lemma FactsAreTheChanges(s: SnapshotBrief, id: string)
    requires IsValidSnapshotBrief(s)
    ensures var facts, b, a := s.delta.facts, StatusMap(s.before.checks), StatusMap(s.after.checks);
      && ((exists f :: f in facts && f.id == id && f.kind != EVIDENCE_CHANGED) <==> StatusAt(b, id) != StatusAt(a, id))
      && (forall f :: f in facts && f.id == id ==>
          && (f.kind == ADDED <==> id !in b && id in a)
          && (f.kind == REMOVED <==> id in b && id !in a)
          && (f.kind == STATUS_CHANGED <==> id in b && id in a && b[id] != a[id])
          && (f.kind == EVIDENCE_CHANGED <==> id in b && id in a && b[id] == a[id]))
  {
    var facts, b, a := s.delta.facts, StatusMap(s.before.checks), StatusMap(s.after.checks);
    FactAt(facts, id);
    forall f | f in facts && f.id == id ensures FactMatches(f, b, a) {
      var k :| 0 <= k < |facts| && facts[k] == f;
    }
  }

  // ----- Overall status and state -----

  /** A check that is gone, or of which nothing is known any more. */
  predicate HasNoStatus(f: Fact) {
    f.after == None || f.after == Some(UNKNOWN)
  }

  predicate IsBad(f: Fact) {
    f.after == Some(WARN) || f.after == Some(FAIL)
  }

  predicate CameBack(f: Fact) {
    && f.kind == STATUS_CHANGED && f.after == Some(PASS)
    && (f.before == Some(WARN) || f.before == Some(FAIL) || f.before == Some(UNKNOWN))
  }

  /** The state in terms of the fields of the facts. */
  lemma StateOfFacts(facts: seq<Fact>)
    ensures var state := Classify(DeltasFrom(facts));
      && (state == STABLE <==> facts == [])
      && (state == INCOMPLETE <==> exists f :: f in facts && HasNoStatus(f))
      && (state == DEGRADED <==> (exists f :: f in facts && IsBad(f)) && !exists f :: f in facts && HasNoStatus(f))
      && (state == RECOVERED <==> facts != [] && forall f :: f in facts ==> CameBack(f))
  {
    var deltas := DeltasFrom(facts);
    forall f | f in facts ensures exists d :: d in deltas && FactOf(d) == f {
      var k :| 0 <= k < |facts| && facts[k] == f;
      assert deltas[k] in deltas && FactOf(deltas[k]) == f;
    }
    forall d | d in deltas ensures FactOf(d) in facts {
      var k :| 0 <= k < |deltas| && deltas[k] == d;
      assert FactOf(deltas[k]) == facts[k];
    }
    if facts != [] {
      assert facts[0] in facts;
    }
  }

  ghost predicate IsGone(id: string, before: map<string, Status>, after: map<string, Status>) {
    id in before && id !in after
  }

  ghost predicate Says(id: string, statuses: map<string, Status>, status: Status) {
    id in statuses && statuses[id] == status
  }

  lemma ListedFact(s: SnapshotBrief, id: string) returns (f: Fact)
    requires IsValidSnapshotBrief(s) && id in FactIds(s.delta.facts)
    ensures f in s.delta.facts && f.id == id
    ensures FactMatches(f, StatusMap(s.before.checks), StatusMap(s.after.checks))
  {
    FactAt(s.delta.facts, id);
    f :| f in s.delta.facts && f.id == id;
    var k :| 0 <= k < |s.delta.facts| && s.delta.facts[k] == f;
  }

  /** The same fact, found by itself. */
  lemma FactIsListed(s: SnapshotBrief, f: Fact)
    requires IsValidSnapshotBrief(s) && f in s.delta.facts
    ensures f.id in FactIds(s.delta.facts)
    ensures FactMatches(f, StatusMap(s.before.checks), StatusMap(s.after.checks))
  {
    FactAt(s.delta.facts, f.id);
    var k :| 0 <= k < |s.delta.facts| && s.delta.facts[k] == f;
  }

  /** An accepted brief is INCOMPLETE exactly when a check is gone, or a listed one is UNKNOWN now. */
  lemma IncompleteMeans(s: SnapshotBrief)
    requires IsValidSnapshotBrief(s)
    ensures var ids, b, a := FactIds(s.delta.facts), StatusMap(s.before.checks), StatusMap(s.after.checks);
      s.delta.state == INCOMPLETE <==> exists id :: IsGone(id, b, a) || (id in ids && Says(id, a, UNKNOWN))
  {
    var ids, b, a := FactIds(s.delta.facts), StatusMap(s.before.checks), StatusMap(s.after.checks);
    StateOfFacts(s.delta.facts);
    if s.delta.state == INCOMPLETE {
      var f :| f in s.delta.facts && HasNoStatus(f);
      FactIsListed(s, f);
      assert IsGone(f.id, b, a) || Says(f.id, a, UNKNOWN);
    }
    if id :| IsGone(id, b, a) || (id in ids && Says(id, a, UNKNOWN)) {
      assert IsGone(id, b, a) ==> StatusAt(b, id) != StatusAt(a, id);
      var f := ListedFact(s, id);
      assert HasNoStatus(f);
    }
  }

  /** Otherwise it is DEGRADED exactly when a listed check fails or warns now. */
  lemma DegradedMeans(s: SnapshotBrief)
    requires IsValidSnapshotBrief(s)
    ensures var ids, a := FactIds(s.delta.facts), StatusMap(s.after.checks);
      s.delta.state == DEGRADED <==>
        s.delta.state != INCOMPLETE && exists id :: id in ids && (Says(id, a, WARN) || Says(id, a, FAIL))
  {
    var ids, a := FactIds(s.delta.facts), StatusMap(s.after.checks);
    StateOfFacts(s.delta.facts);
    if s.delta.state == DEGRADED {
      var f :| f in s.delta.facts && IsBad(f);
      FactIsListed(s, f);
      assert Says(f.id, a, WARN) || Says(f.id, a, FAIL);
    }
    if id :| id in ids && (Says(id, a, WARN) || Says(id, a, FAIL)) {
      var f := ListedFact(s, id);
      assert IsBad(f);
    }
  }

  /** It is RECOVERED exactly when every listed check, and there is one, did not pass before and passes now. */
  lemma RecoveredMeans(s: SnapshotBrief)
    requires IsValidSnapshotBrief(s)
    ensures var ids, b, a := FactIds(s.delta.facts), StatusMap(s.before.checks), StatusMap(s.after.checks);
      s.delta.state == RECOVERED <==>
        ids != [] && forall id :: id in ids ==> id in b && b[id] != PASS && Says(id, a, PASS)
  {
    var ids, b, a := FactIds(s.delta.facts), StatusMap(s.before.checks), StatusMap(s.after.checks);
    StateOfFacts(s.delta.facts);
    if s.delta.state == RECOVERED {
      forall id | id in ids ensures id in b && b[id] != PASS && Says(id, a, PASS) {
        var f := ListedFact(s, id);
        assert CameBack(f);
      }
    } else if ids != [] {
      var f :| f in s.delta.facts && !CameBack(f);
      FactIsListed(s, f);
      assert f.id in b && Says(f.id, a, PASS) ==> b[f.id] == PASS;
    }
  }

  /**
   What one check forces: one that is gone or newly UNKNOWN makes the brief INCOMPLETE, and one that newly
   fails or warns makes it DEGRADED unless it is INCOMPLETE.
   */
  lemma OneCheckForces(s: SnapshotBrief, id: string)
    requires IsValidSnapshotBrief(s)
    ensures var b, a := StatusMap(s.before.checks), StatusMap(s.after.checks);
      && (IsGone(id, b, a) || (Says(id, a, UNKNOWN) && !Says(id, b, UNKNOWN)) ==> s.delta.state == INCOMPLETE)
      && ((Says(id, a, WARN) && !Says(id, b, WARN)) || (Says(id, a, FAIL) && !Says(id, b, FAIL)) ==>
          s.delta.state == DEGRADED || s.delta.state == INCOMPLETE)
  {
    var b, a := StatusMap(s.before.checks), StatusMap(s.after.checks);
    IncompleteMeans(s);
    DegradedMeans(s);
    assert StatusAt(b, id) != StatusAt(a, id) ==> id in FactIds(s.delta.facts);
  }

  lemma StatusInContext(checks: seq<SnapshotCheck>, status: Status)
    requires Ascending(ContextIds(checks))
    ensures status in ContextStatuses(checks) <==> exists id :: StatusAt(StatusMap(checks), id) == Some(status)
  {
    if status in ContextStatuses(checks) {
      var k :| 0 <= k < |checks| && ContextStatuses(checks)[k] == status;
      StatusMapLookup(checks, k);
      assert StatusAt(StatusMap(checks), checks[k].id) == Some(status);
    }
    if id :| StatusAt(StatusMap(checks), id) == Some(status) {
      InContext(checks, id);
      var k :| 0 <= k < |checks| && ContextIds(checks)[k] == id;
      StatusMapLookup(checks, k);
      assert ContextStatuses(checks)[k] == status;
    }
  }

  function OverallOf(c: Context): Status {
    OverallStatus(ContextStatuses(c.checks))
  }

  /** A worse overall status comes from a check that was better, or absent, before. */
  lemma WorseCheck(before: Context, after: Context) returns (id: string)
    requires IsValidContext(before) && IsValidContext(after)
    requires Severity(OverallOf(after)) > Severity(OverallOf(before))
    ensures StatusAt(StatusMap(after.checks), id) == Some(OverallOf(after))
    ensures StatusAt(StatusMap(before.checks), id) != Some(OverallOf(after))
  {
    OverallIsWorst(ContextStatuses(before.checks));
    OverallIsWorst(ContextStatuses(after.checks));
    assert ContextStatuses(after.checks) != [];
    StatusInContext(after.checks, OverallOf(after));
    StatusInContext(before.checks, OverallOf(after));
    id :| StatusAt(StatusMap(after.checks), id) == Some(OverallOf(after));
  }

  /** An accepted brief never stays silent about a worse overall status. */
  lemma NoSilentWorsening(s: SnapshotBrief)
    requires IsValidSnapshotBrief(s) && Severity(OverallOf(s.after)) > Severity(OverallOf(s.before))
    ensures s.delta.state == DEGRADED || s.delta.state == INCOMPLETE
  {
    var id := WorseCheck(s.before, s.after);
    OneCheckForces(s, id);
  }

  /** STABLE is said only of equal statuses, and then no recovery is claimed. */
  lemma StableMeansEqual(s: SnapshotBrief)
    requires IsValidSnapshotBrief(s) && s.delta.state == STABLE
    ensures StatusMap(s.before.checks) == StatusMap(s.after.checks)
    ensures AssessmentOf(s.before, s.after).recovery == NONE_ESTABLISHED
  {
    var b, a := StatusMap(s.before.checks), StatusMap(s.after.checks);
    StateOfFacts(s.delta.facts);
    StatusesDetermine(b, a);
    RecoveryMeans(s.before, s.after, b, a);
  }

  lemma AllPassingOverall(c: Context)
    requires IsValidContext(c) && forall id :: id in StatusMap(c.checks) ==> StatusMap(c.checks)[id] == PASS
    ensures OverallOf(c) == PASS
  {
    StatusInContext(c.checks, WARN);
    StatusInContext(c.checks, FAIL);
    StatusInContext(c.checks, UNKNOWN);
  }

  /** Complete recovery is claimed only for equal check sets that all pass now, and never beside a worse state. */
  lemma CompleteRecoveryMeans(s: SnapshotBrief)
    requires IsValidSnapshotBrief(s)
    requires AssessmentOf(s.before, s.after).recovery == COMPLETE_FOR_SUPPLIED_CHECKS
    ensures OverallOf(s.after) == PASS && StatusMap(s.before.checks).Keys == StatusMap(s.after.checks).Keys
    ensures s.delta.state == RECOVERED || s.delta.state == CHANGED
  {
    var b, a := StatusMap(s.before.checks), StatusMap(s.after.checks);
    RecoveryMeans(s.before, s.after, b, a);
    AllPassingOverall(s.after);
    IncompleteMeans(s);
    DegradedMeans(s);
    if s.delta.state == STABLE {
      StableMeansEqual(s);
    }
  }
}
