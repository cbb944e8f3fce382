/** The comparison of two validated snapshots: which checks appeared, disappeared or changed, and how. */
module EvidenceComparison {
  import opened Wrappers
  import CanonicalOrder
  import opened Lexicographic
  import opened Evidence

  datatype DeltaKind = ADDED | REMOVED | STATUS_CHANGED | EVIDENCE_CHANGED

  datatype Field = StatusField | ObservationField | SourceField | ExpectedField | ObservedField | ErrorCategoryField

  datatype Delta = Delta(id: string, kind: DeltaKind, before: Option<Status>, after: Option<Status>,
                         changed: seq<Field>)

  datatype Comparison = Comparison(schema: string, beforeAt: int, afterAt: int, beforeOverall: Status,
                                   afterOverall: Status, totalChecks: int, unchangedChecks: int, deltas: seq<Delta>)

  // ----- Changed fields -----

  /** The order of the contract. */
  const FIELDS := [StatusField, ObservationField, SourceField, ExpectedField, ObservedField, ErrorCategoryField]

  function Pick(p: Field -> bool): seq<Field> {
    CanonicalOrder.Filter(FIELDS, p)
  }

  predicate Differs(before: Check, after: Check, field: Field) {
    match field
    case StatusField => before.status != after.status
    case ObservationField => before.observation != after.observation
    case SourceField => before.source != after.source
    case ExpectedField => before.expected != after.expected
    case ObservedField => before.observed != after.observed
    case ErrorCategoryField => before.errorCategory != after.errorCategory
  }

  function ChangedFields(before: Check, after: Check): seq<Field> {
    Pick(field => Differs(before, after, field))
  }

  function Rank(field: Field): nat {
    match field
    case StatusField => 0
    case ObservationField => 1
    case SourceField => 2
    case ExpectedField => 3
    case ObservedField => 4
    case ErrorCategoryField => 5
  }

  /** Without repetition, and in the order of the contract. */
  predicate InOrder(fields: seq<Field>) {
    CanonicalOrder.InOrder(fields, Rank)
  }

  lemma EveryField(field: Field)
    ensures field in FIELDS
  {
    assert field == FIELDS[Rank(field)];
  }

  lemma PickMeans(p: Field -> bool)
    ensures InOrder(Pick(p))
    ensures forall field :: field in Pick(p) <==> p(field)
  {
    var fields := FIELDS;
    assert InOrder(fields);
    CanonicalOrder.FilterMeans(fields, p, Rank);
    forall field: Field ensures field in fields {
      EveryField(field);
    }
  }

  lemma FieldsInOrder(fields: seq<Field>)
    ensures CanonicalOrder.IsCanonical(fields, FIELDS) <==> InOrder(fields)
  {
    var allowed := FIELDS;
    assert InOrder(allowed);
    forall field: Field ensures field in allowed {
      EveryField(field);
    }
    CanonicalOrder.CanonicalMeansInOrder(fields, allowed, Rank);
  }

  // ----- compare_evidence -----

  function Ids(checks: seq<Check>): seq<string> {
    seq(|checks|, k requires 0 <= k < |checks| => checks[k].id)
  }

  /** Python's {check.check_id: check for check in checks}. */
  function ById(checks: seq<Check>): map<string, Check> {
    if checks == [] then map[]
    else ById(checks[..|checks| - 1])[checks[|checks| - 1].id := checks[|checks| - 1]]
  }

  lemma {:induction false} ByIdKeys(checks: seq<Check>)
    ensures ById(checks).Keys == Elements(Ids(checks))
  {
    if checks != [] {
      var n := |checks| - 1;
      ByIdKeys(checks[..n]);
      assert Ids(checks) == Ids(checks[..n]) + [checks[n].id];
    }
  }

  lemma {:induction false} ByIdLookup(checks: seq<Check>)
    requires UniqueIds(checks)
    ensures forall k :: 0 <= k < |checks| ==> checks[k].id in ById(checks) && ById(checks)[checks[k].id] == checks[k]
  {
    if checks != [] {
      ByIdLookup(checks[..|checks| - 1]);
    }
  }

  lemma ByIdMeans(checks: seq<Check>)
    requires UniqueIds(checks)
    ensures ById(checks).Keys == Elements(Ids(checks))
    ensures forall k :: 0 <= k < |checks| ==> checks[k].id in ById(checks) && ById(checks)[checks[k].id] == checks[k]
    ensures forall id :: id in ById(checks) ==> ById(checks)[id] in checks && ById(checks)[id].id == id
  {
    ByIdKeys(checks);
    ByIdLookup(checks);
    forall id | id in ById(checks) ensures ById(checks)[id] in checks && ById(checks)[id].id == id {
      assert id in Elements(Ids(checks));
      var k :| 0 <= k < |Ids(checks)| && Ids(checks)[k] == id;
      assert checks[k].id == id;
    }
  }

  /** What became of one identifier: nothing, or a delta. */
  function DeltaOf(id: string, before: map<string, Check>, after: map<string, Check>): Option<Delta>
    requires id in before || id in after
  {
    if id !in before then Some(Delta(id, ADDED, None, Some(after[id].status), []))
    else if id !in after then Some(Delta(id, REMOVED, Some(before[id].status), None, []))
    else
      var fields := ChangedFields(before[id], after[id]);
      if fields == [] then None
      else Some(Delta(id, if before[id].status != after[id].status then STATUS_CHANGED else EVIDENCE_CHANGED,
                      Some(before[id].status), Some(after[id].status), fields))
  }

  function Present(options: seq<Option<Delta>>): seq<Delta> {
    if options == [] then []
    else
      var rest := Present(options[..|options| - 1]);
      match options[|options| - 1]
      case None => rest
      case Some(delta) => rest + [delta]
  }

  function Options(ids: seq<string>, before: map<string, Check>, after: map<string, Check>): seq<Option<Delta>>
    requires forall id :: id in ids ==> id in before || id in after
  {
    seq(|ids|, k requires 0 <= k < |ids| => DeltaOf(ids[k], before, after))
  }

  function DeltasOf(ids: seq<string>, before: map<string, Check>, after: map<string, Check>): seq<Delta>
    requires forall id :: id in ids ==> id in before || id in after
  {
    Present(Options(ids, before, after))
  }

  function AllIds(before: Snapshot, after: Snapshot): seq<string> {
    SortUnique(Ids(before.checks) + Ids(after.checks))
  }

  lemma AllIdsMeans(before: Snapshot, after: Snapshot)
    requires UniqueIds(before.checks) && UniqueIds(after.checks)
    ensures Ascending(AllIds(before, after))
    ensures Elements(AllIds(before, after)) == ById(before.checks).Keys + ById(after.checks).Keys
    ensures forall id :: id in AllIds(before, after) <==> id in ById(before.checks) || id in ById(after.checks)
  {
    SortUniqueMeans(Ids(before.checks) + Ids(after.checks));
    ByIdMeans(before.checks);
    ByIdMeans(after.checks);
    assert forall id :: id in AllIds(before, after) <==> id in Elements(AllIds(before, after));
    assert forall id ::
      id in Ids(before.checks) + Ids(after.checks) <==> id in Ids(before.checks) || id in Ids(after.checks);
    assert Elements(Ids(before.checks) + Ids(after.checks)) ==
      Elements(Ids(before.checks)) + Elements(Ids(after.checks));
  }

  ghost function Compare(before: Snapshot, after: Snapshot): Comparison
    requires UniqueIds(before.checks) && UniqueIds(after.checks)
  {
    AllIdsMeans(before, after);
    var ids := AllIds(before, after);
    var deltas := DeltasOf(ids, ById(before.checks), ById(after.checks));
    Comparison(before.schema, before.collectedAt, after.collectedAt, OverallStatus(Statuses(before.checks)),
               OverallStatus(Statuses(after.checks)), |ids|, |ids| - |deltas|, deltas)
  }

  lemma DeltasStep(ids: seq<string>, i: nat, before: map<string, Check>, after: map<string, Check>)
    requires i < |ids| && forall id :: id in ids ==> id in before || id in after
    ensures DeltasOf(ids[..i + 1], before, after) == DeltasOf(ids[..i], before, after) +
      (match DeltaOf(ids[i], before, after) case None => [] case Some(delta) => [delta])
  {
    assert Options(ids[..i + 1], before, after)[..i] == Options(ids[..i], before, after);
  }

  method CompareEvidence(before: Snapshot, after: Snapshot) returns (r: Result<Comparison>)
    requires UniqueIds(before.checks) && UniqueIds(after.checks)
    ensures r == if after.collectedAt < before.collectedAt then Rejected else Accepted(Compare(before, after))
  {
    if after.collectedAt < before.collectedAt {
      return Rejected;
    }
    AllIdsMeans(before, after);
    var beforeChecks, afterChecks := ById(before.checks), ById(after.checks);
    var ids := AllIds(before, after);
    var deltas, same := CompareChecks(ids, beforeChecks, afterChecks);
    return Accepted(Comparison(before.schema, before.collectedAt, after.collectedAt,
                               OverallStatus(Statuses(before.checks)), OverallStatus(Statuses(after.checks)),
                               |ids|, same, deltas));
  }

  method CompareChecks(ids: seq<string>, beforeChecks: map<string, Check>, afterChecks: map<string, Check>)
    returns (deltas: seq<Delta>, same: int)
    requires forall id :: id in ids ==> id in beforeChecks || id in afterChecks
    ensures deltas == DeltasOf(ids, beforeChecks, afterChecks) && same == |ids| - |deltas|
  {
    deltas, same := [], 0;
    for i := 0 to |ids|
      invariant deltas == DeltasOf(ids[..i], beforeChecks, afterChecks)
      invariant same == i - |deltas|
    {
      DeltasStep(ids, i, beforeChecks, afterChecks);
      var id := ids[i];
      if id !in beforeChecks {
        deltas := deltas + [Delta(id, ADDED, None, Some(afterChecks[id].status), [])];
      } else if id !in afterChecks {
        deltas := deltas + [Delta(id, REMOVED, Some(beforeChecks[id].status), None, [])];
      } else {
        var fields := ChangedFields(beforeChecks[id], afterChecks[id]);
        if fields == [] {
          same := same + 1;
        } else {
          var kind := if beforeChecks[id].status != afterChecks[id].status then STATUS_CHANGED else EVIDENCE_CHANGED;
          deltas := deltas + [Delta(id, kind, Some(beforeChecks[id].status), Some(afterChecks[id].status), fields)];
        }
      }
    }
    assert ids[..|ids|] == ids;
  }

  // ----- What a comparison says -----

  function DeltaIds(deltas: seq<Delta>): seq<string> {
    seq(|deltas|, k requires 0 <= k < |deltas| => deltas[k].id)
  }

  predicate ShapeFits(d: Delta) {
    match d.kind
    case ADDED => d.before.None? && d.after.Some? && d.changed == []
    case REMOVED => d.before.Some? && d.after.None? && d.changed == []
    case STATUS_CHANGED => d.before.Some? && d.after.Some? && d.before != d.after && StatusField in d.changed
    case EVIDENCE_CHANGED => d.before.Some? && d.before == d.after && d.changed != [] && StatusField !in d.changed
  }

  lemma ChangedFieldsMean(before: Check, after: Check)
    ensures var fields := ChangedFields(before, after);
      && InOrder(fields)
      && (fields == [] <==> forall field :: !Differs(before, after, field))
      && (StatusField in fields <==> before.status != after.status)
  {
    PickMeans(field => Differs(before, after, field));
    if ChangedFields(before, after) != [] {
      assert ChangedFields(before, after)[0] in ChangedFields(before, after);
    }
  }

  ghost predicate Untouched(id: string, before: map<string, Check>, after: map<string, Check>) {
    id in before && id in after && forall field :: !Differs(before[id], after[id], field)
  }

  function CheckedStatus(checks: map<string, Check>, id: string): Option<Status> {
    if id in checks then Some(checks[id].status) else None
  }

  lemma DeltaOfMeans(id: string, before: map<string, Check>, after: map<string, Check>)
    requires id in before || id in after
    ensures DeltaOf(id, before, after).None? <==> Untouched(id, before, after)
    ensures DeltaOf(id, before, after).Some? ==>
      var d := DeltaOf(id, before, after).value;
      && d.id == id && ShapeFits(d) && InOrder(d.changed)
      && d.before == CheckedStatus(before, id) && d.after == CheckedStatus(after, id)
  {
    if id in before && id in after {
      ChangedFieldsMean(before[id], after[id]);
    }
  }

  lemma {:induction false} PresentAre(options: seq<Option<Delta>>, d: Delta)
    ensures d in Present(options) <==> Some(d) in options
  {
    if options != [] {
      var n := |options| - 1;
      PresentAre(options[..n], d);
      assert options == options[..n] + [options[n]];
    }
  }

  lemma {:induction false} PresentAscend(ids: seq<string>, options: seq<Option<Delta>>)
    requires Ascending(ids) && |ids| == |options|
    requires forall k :: 0 <= k < |ids| && options[k].Some? ==> options[k].value.id == ids[k]
    ensures Ascending(DeltaIds(Present(options))) && |Present(options)| <= |options|
  {
    if options != [] {
      var n := |options| - 1;
      PresentAscend(ids[..n], options[..n]);
      var rest := Present(options[..n]);
      if options[n].Some? {
        assert DeltaIds(rest + [options[n].value]) == DeltaIds(rest) + [ids[n]];
        forall k | 0 <= k < |rest| ensures Less(DeltaIds(rest)[k], ids[n]) {
          assert rest[k] in rest;
          PresentAre(options[..n], rest[k]);
          var j :| 0 <= j < n && options[j] == Some(rest[k]);
          assert Less(ids[j], ids[n]);
        }
      }
    }
  }

  /** The deltas are, in order of identifier, the delta of every identifier that has one. */
  lemma DeltasOfMeans(ids: seq<string>, before: map<string, Check>, after: map<string, Check>)
    requires Ascending(ids) && forall id :: id in ids ==> id in before || id in after
    ensures var deltas := DeltasOf(ids, before, after);
      && Ascending(DeltaIds(deltas)) && |deltas| <= |ids|
      && (forall d :: d in deltas ==> d.id in ids && DeltaOf(d.id, before, after) == Some(d))
      && (forall id :: id in ids && DeltaOf(id, before, after).Some? ==> DeltaOf(id, before, after).value in deltas)
  {
    var options := Options(ids, before, after);
    forall k | 0 <= k < |ids| && options[k].Some? ensures options[k].value.id == ids[k] {
      DeltaOfMeans(ids[k], before, after);
    }
    PresentAscend(ids, options);
    forall d | d in Present(options) ensures d.id in ids && DeltaOf(d.id, before, after) == Some(d) {
      PresentAre(options, d);
      var k :| 0 <= k < |ids| && options[k] == Some(d);
      assert options[k].value.id == ids[k];
    }
    forall id | id in ids && DeltaOf(id, before, after).Some?
      ensures DeltaOf(id, before, after).value in Present(options)
    {
      var k :| 0 <= k < |ids| && ids[k] == id;
      assert options[k] == DeltaOf(id, before, after);
      PresentAre(options, options[k].value);
    }
  }

  /** d is the right delta for its identifier, and there is something to report. */
  ghost predicate IsDeltaBetween(d: Delta, before: map<string, Check>, after: map<string, Check>) {
    && (d.id in before || d.id in after) && !Untouched(d.id, before, after)
    && ShapeFits(d) && InOrder(d.changed)
    && d.before == CheckedStatus(before, d.id) && d.after == CheckedStatus(after, d.id)
  }

  lemma IdInDeltas(deltas: seq<Delta>, d: Delta)
    requires d in deltas
    ensures d.id in DeltaIds(deltas)
  {
    var k :| 0 <= k < |deltas| && deltas[k] == d;
    assert DeltaIds(deltas)[k] == d.id;
  }

  /** Soundness and completeness of the comparer. */
  lemma CompareDeltas(before: Snapshot, after: Snapshot)
    requires UniqueIds(before.checks) && UniqueIds(after.checks)
    ensures var deltas, b, a := Compare(before, after).deltas, ById(before.checks), ById(after.checks);
      && Ascending(DeltaIds(deltas)) && |deltas| <= Compare(before, after).totalChecks
      && (forall d :: d in deltas ==> IsDeltaBetween(d, b, a))
      && (forall id :: (id in b || id in a) && !Untouched(id, b, a) ==> id in DeltaIds(deltas))
  {
    var b, a, ids := ById(before.checks), ById(after.checks), AllIds(before, after);
    var deltas := Compare(before, after).deltas;
    AllIdsMeans(before, after);
    DeltasOfMeans(ids, b, a);
    forall d | d in deltas ensures IsDeltaBetween(d, b, a) {
      DeltaOfMeans(d.id, b, a);
    }
    forall id | (id in b || id in a) && !Untouched(id, b, a) ensures id in DeltaIds(deltas) {
      DeltaOfMeans(id, b, a);
      IdInDeltas(deltas, DeltaOf(id, b, a).value);
    }
  }

  /** The comparer reports an identifier exactly when its two checks differ in more than their times. */
  lemma ReportedWhenDifferent(before: Snapshot, after: Snapshot, id: string)
    requires UniqueIds(before.checks) && UniqueIds(after.checks)
    ensures var b, a := ById(before.checks), ById(after.checks);
      id in DeltaIds(Compare(before, after).deltas) <==>
        (id in b && id !in a) || (id !in b && id in a) ||
        (id in b && id in a && b[id].(collectedAt := a[id].collectedAt) != a[id])
  {
    var b, a, deltas := ById(before.checks), ById(after.checks), Compare(before, after).deltas;
    CompareDeltas(before, after);
    ByIdMeans(before.checks);
    ByIdMeans(after.checks);
    if id in b && id in a {
      SameButForTime(b[id], a[id]);
    }
    if id in DeltaIds(deltas) {
      var k :| 0 <= k < |deltas| && DeltaIds(deltas)[k] == id;
      assert deltas[k] in deltas;
    }
  }

  lemma SameButForTime(before: Check, after: Check)
    ensures (forall field :: !Differs(before, after, field)) && before.id == after.id <==>
      before.(collectedAt := after.collectedAt) == after
  {
    if forall field :: !Differs(before, after, field) {
      assert !Differs(before, after, StatusField) && !Differs(before, after, ObservationField);
      assert !Differs(before, after, SourceField) && !Differs(before, after, ExpectedField);
      assert !Differs(before, after, ObservedField) && !Differs(before, after, ErrorCategoryField);
    }
  }

  lemma FieldListed(before: Check, after: Check, field: Field)
    ensures field in ChangedFields(before, after) <==> Differs(before, after, field)
  {
    PickMeans(x => Differs(before, after, x));
  }

  /** The changed fields it lists are the components that differ, each under its own name. */
  lemma ChangedFieldsAre(before: Check, after: Check)
    ensures var fields := ChangedFields(before, after);
      && (StatusField in fields <==> before.status != after.status)
      && (ObservationField in fields <==> before.observation != after.observation)
      && (SourceField in fields <==> before.source != after.source)
      && (ExpectedField in fields <==> before.expected != after.expected)
      && (ObservedField in fields <==> before.observed != after.observed)
      && (ErrorCategoryField in fields <==> before.errorCategory != after.errorCategory)
  {
    FieldListed(before, after, StatusField);
    FieldListed(before, after, ObservationField);
    FieldListed(before, after, SourceField);
    FieldListed(before, after, ExpectedField);
    FieldListed(before, after, ObservedField);
    FieldListed(before, after, ErrorCategoryField);
  }

  /** And a delta of kind STATUS_CHANGED or EVIDENCE_CHANGED carries exactly those. */
  lemma DeltaFields(before: Snapshot, after: Snapshot, d: Delta)
    requires UniqueIds(before.checks) && UniqueIds(after.checks) && d in Compare(before, after).deltas
    ensures var b, a := ById(before.checks), ById(after.checks);
      && (d.kind == ADDED <==> d.id !in b && d.id in a) && (d.kind == REMOVED <==> d.id in b && d.id !in a)
      && (d.kind == STATUS_CHANGED <==> d.id in b && d.id in a && b[d.id].status != a[d.id].status)
      && (d.id in b && d.id in a ==> d.changed == ChangedFields(b[d.id], a[d.id]))
  {
    var b, a := ById(before.checks), ById(after.checks);
    AllIdsMeans(before, after);
    DeltasOfMeans(AllIds(before, after), b, a);
  }
}
