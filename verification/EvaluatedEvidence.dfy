/** An evaluated snapshot as an artifact: exactly when the strict loader takes back what was written. */
module EvaluatedEvidence {
  import opened Wrappers
  import opened Evidence
  import opened Evaluation
  import opened Verdict
  import opened VerdictMeaning
  import opened ReportIdentifiers
  import opened CheckTexts
  import opened ReportTexts

  function Written(checks: seq<CheckResult>, details: seq<Detail>, collectedAt: int): seq<Check> {
    if checks == [] || details == [] then []
    else
      var c, d := checks[0], details[0];
      [Check(c.id, c.status, d.observation, d.source, collectedAt, d.expected, d.observed, d.errorCategory)]
      + Written(checks[1..], details[1..], collectedAt)
  }

  /** render_json */
  function DocumentOf(context: string, collectedAt: int, written: seq<Check>): EvidenceDocument {
    EvidenceDocument(SNAPSHOT_SCHEMA, collectedAt, context, Supported, Supported, SummaryOf(Statuses(written)), written,
                     Supported)
  }

  /** What an evaluation writes. */
  function ReportOf(s: RawSnapshot, scope: Scope, show: Show, collectedAt: int): seq<Check> {
    Written(ChecksOf(s, scope, show), DetailsOf(s, scope, show), collectedAt)
  }

  lemma {:induction false} WrittenAt(checks: seq<CheckResult>, details: seq<Detail>, collectedAt: int)
    requires |checks| == |details|
    ensures var written := Written(checks, details, collectedAt);
      && |written| == |checks|
      && forall k :: 0 <= k < |checks| ==>
        && written[k].id == checks[k].id && written[k].status == checks[k].status
        && (CheckIsWellFormed(written[k], collectedAt) <==> checks[k].id != "" && IsWritten(details[k]))
  {
    if checks != [] {
      WrittenAt(checks[1..], details[1..], collectedAt);
    }
  }

  /** The written checks are well-formed, under distinct identifiers, exactly when the two parts are. */
  lemma WrittenMeans(checks: seq<CheckResult>, details: seq<Detail>, collectedAt: int)
    requires |checks| == |details|
    ensures var written := Written(checks, details, collectedAt);
      && Statuses(written) == ResultStatuses(checks)
      && (UniqueIds(written) <==> Distinct(Ids(checks)))
      && ((forall k :: 0 <= k < |written| ==> CheckIsWellFormed(written[k], collectedAt)) <==>
        "" !in Ids(checks) && AllWritten(details))
  {
    var written, ids := Written(checks, details, collectedAt), Ids(checks);
    WrittenAt(checks, details, collectedAt);
    ApplyMeans(checks, IdOf);
    assert forall k :: 0 <= k < |checks| ==> written[k].id == ids[k];
    if forall k :: 0 <= k < |written| ==> CheckIsWellFormed(written[k], collectedAt) {
      forall k | 0 <= k < |checks| ensures ids[k] != "" && IsWritten(details[k]) {
        assert CheckIsWellFormed(written[k], collectedAt);
      }
    }
    if "" !in ids && AllWritten(details) {
      forall k | 0 <= k < |written| ensures CheckIsWellFormed(written[k], collectedAt) {
        assert ids[k] in ids && IsWritten(details[k]);
      }
    }
  }

  lemma DocumentIsAcceptableIff(context: string, collectedAt: int, checks: seq<CheckResult>, details: seq<Detail>)
    requires |checks| == |details| > 0 && "" !in Ids(checks)
    ensures IsAcceptable(DocumentOf(context, collectedAt, Written(checks, details, collectedAt))) <==>
      context == EXPECTED_CONTEXT && AllWritten(details) && Distinct(Ids(checks))
  {
    WrittenMeans(checks, details, collectedAt);
    WrittenAt(checks, details, collectedAt);
  }

  /** What a caller can check of the raw snapshot. */
  predicate IsPublishable(s: RawSnapshot, scope: Scope, show: Show) {
    && s.context == EXPECTED_CONTEXT && TextsGiven(s, scope)
    && (!ContextMatches(s) || NamesDiffer(s, scope, show))
  }

  lemma ChecksAndDetails(s: RawSnapshot, scope: Scope, show: Show)
      returns (checks: seq<CheckResult>, details: seq<Detail>)
    ensures checks == ChecksOf(s, scope, show) && details == DetailsOf(s, scope, show)
    ensures |checks| == |details| > 0 && "" !in Ids(checks)
    ensures AllWritten(details) <==> TextsGiven(s, scope)
  {
    checks, details := ChecksOf(s, scope, show), DetailsOf(s, scope, show);
    TextsWrittenIff(s, scope, show);
    IdentifiersNamed(s, scope, show);
  }

  /**
   What an evaluation writes is accepted exactly when every item consulted has a source and names its
   error, and the names in the evidence differ.
   */
  lemma ReportIsAcceptedIff(s: RawSnapshot, scope: Scope, show: Show, collectedAt: int)
    requires HasDistinctTargets(scope)
    ensures IsAcceptable(DocumentOf(s.context, collectedAt, ReportOf(s, scope, show, collectedAt))) <==>
      IsPublishable(s, scope, show)
  {
    var checks, details := ChecksAndDetails(s, scope, show);
    DocumentIsAcceptableIff(s.context, collectedAt, checks, details);
    IdentifiersDistinctIff(s, scope, show);
  }

  lemma ReportedExitCode(s: RawSnapshot, scope: Scope, show: Show, collectedAt: int)
    ensures ExitCode(Statuses(ReportOf(s, scope, show, collectedAt))) == 0 <==> IsHealthy(s, scope)
    ensures ExitCode(Statuses(ReportOf(s, scope, show, collectedAt))) == 2 <==> IsUnclear(s, scope)
  {
    var checks, details := ChecksAndDetails(s, scope, show);
    WrittenMeans(checks, details, collectedAt);
    ExitCodes(s, scope, show);
  }

  method Reload(s: RawSnapshot, scope: Scope, show: Show, collectedAt: int, checks: seq<CheckResult>)
    returns (r: Result<Snapshot>)
    requires checks == ChecksOf(s, scope, show)
    ensures r.Accepted? <==> IsAcceptable(DocumentOf(s.context, collectedAt, ReportOf(s, scope, show, collectedAt)))
    ensures r.Accepted? ==>
      IsValidated(r.value) && r.value.collectedAt == collectedAt
      && r.value.checks == ReportOf(s, scope, show, collectedAt)
  {
    var written := Written(checks, DetailsOf(s, scope, show), collectedAt);
    r := ParseEvidence(DocumentOf(s.context, collectedAt, written));
  }

  /** Evaluate, write and load again. */
  method Publish(s: RawSnapshot, scope: Scope, show: Show, collectedAt: int) returns (r: Result<Snapshot>)
    requires HasDistinctTargets(scope)
    ensures r.Accepted? <==> !Raises(s, scope) && IsPublishable(s, scope, show)
    ensures r.Accepted? ==>
      && IsValidated(r.value) && r.value.collectedAt == collectedAt
      && r.value.checks == ReportOf(s, scope, show, collectedAt)
      && (ExitCode(Statuses(r.value.checks)) == 0 <==> IsHealthy(s, scope))
      && (ExitCode(Statuses(r.value.checks)) == 2 <==> IsUnclear(s, scope))
  {
    var checks := Evaluate(s, scope, show);
    if checks.Rejected? {
      return Rejected;
    }
    ReportIsAcceptedIff(s, scope, show, collectedAt);
    ReportedExitCode(s, scope, show, collectedAt);
    r := Reload(s, scope, show, collectedAt, checks.value);
  }

  // ----- SignalForge, and inputs at which it goes wrong -----

  lemma SignalForgeNodes()
    ensures Distinct(SIGNALFORGE.nodes)
  {
    var ns := SIGNALFORGE.nodes;
    assert ns[0][6] == 'h' && ns[1][6] == ns[2][6] == ns[3][6] == 'n';
    assert ns[1][12] == '1' && ns[2][12] == '2' && ns[3][12] == '3';
  }

  lemma NamespacesWithoutDots()
    ensures '.' !in "forge-restaurant" && '.' !in "forge-observability"
    ensures '.' !in "forge-tools" && '.' !in "kube-system"
  {
  }

  lemma SignalForgeNamespaces()
    ensures forall k :: 0 <= k < |SIGNALFORGE.workloads| ==> '.' !in SIGNALFORGE.workloads[k].namespace
    ensures forall k :: 0 <= k < |SIGNALFORGE.services| ==> '.' !in SIGNALFORGE.services[k].namespace
  {
    NamespacesWithoutDots();
  }

  lemma SignalForgeLengths()
    ensures var ws, ss := SIGNALFORGE.workloads, SIGNALFORGE.services;
      && |ws| == 5 && |ws[0].deployment| == 14 && |ws[1].deployment| == 10 && |ws[2].deployment| == 7
      && |ws[3].deployment| == 20 && |ws[4].namespace| == 11 && |ws[0].namespace| == 16
      && |ss| == 4 && |ss[0].name| == 14 && |ss[1].name| == 10 && |ss[2].name| == 7 && |ss[3].name| == 20
  {
  }

  lemma SignalForgeTargets()
    ensures HasDistinctTargets(SIGNALFORGE)
  {
    SignalForgeNodes();
    SignalForgeNamespaces();
    SignalForgeLengths();
  }

  /** Nothing is known but the context and the Pods of the restaurant. */
  function RestaurantSnapshot(pods: seq<Json>): RawSnapshot {
    RawSnapshot(EXPECTED_CONTEXT,
                [Item("context", "kubectl", Str(EXPECTED_CONTEXT), None),
                 Item(PodsId(SIGNALFORGE.workloads[0]), "kubectl", Object(map["items" := List(pods)]), None)])
  }

  function PodNamed(name: Json): Json {
    Object(map["metadata" := Object(map["name" := name])])
  }

  lemma RestaurantFound(pods: seq<Json>)
    ensures var s := RestaurantSnapshot(pods);
      && ContextMatches(s) && PodsListed(Find(s.evidence, PodsId(SIGNALFORGE.workloads[0])))
      && Field(Find(s.evidence, PodsId(SIGNALFORGE.workloads[0])).value, "items").items == pods
  {
    var evidence := RestaurantSnapshot(pods).evidence;
    assert PodsId(SIGNALFORGE.workloads[0])[0] == 'p';
    assert Find(evidence, "context") == Find(evidence[..1], "context") == evidence[0];
  }

  lemma NamelessReport(pods: seq<Json>, show: Json -> string)
    requires |pods| == 2 && !IsTruthy(PodName(pods[0])) && !IsTruthy(PodName(pods[1]))
    ensures !Distinct(Ids(ChecksOf(RestaurantSnapshot(pods), SIGNALFORGE, show)))
  {
    RestaurantFound(pods);
    SignalForgeTargets();
    NamelessPodsCollide(RestaurantSnapshot(pods), SIGNALFORGE, show, 0, 0, 1);
  }

  /** The evaluation looks for no Pods but the restaurant's in these snapshots. */
  lemma OtherPodsAbsent(pods: seq<Json>, w: nat)
    requires 0 < w < |SIGNALFORGE.workloads|
    ensures !PodsListed(Find(RestaurantSnapshot(pods).evidence, PodsId(SIGNALFORGE.workloads[w])))
  {
    var evidence, ws, id := RestaurantSnapshot(pods).evidence, SIGNALFORGE.workloads, PodsId(SIGNALFORGE.workloads[w]);
    SignalForgeLengths();
    SignalForgeTargets();
    if id == PodsId(ws[0]) {
      DotSplitsAfter("pods.", ws[0].namespace, ws[0].deployment, ws[w].namespace, ws[w].deployment);
    }
    assert id[0] == 'p';
    assert evidence[..1][..0] == [];
    assert Find(evidence, id) == Find(evidence[..1], id) == Find(evidence[..1][..0], id);
  }

  lemma RestaurantRaises(pods: seq<Json>)
    ensures Raises(RestaurantSnapshot(pods), SIGNALFORGE) <==>
      !IdentitiesValid(pods) && exists k :: 0 <= k < |pods| && !IsHashable(PodName(pods[k]))
  {
    var s := RestaurantSnapshot(pods);
    var raises := PodsRaiseIn(s.evidence);
    RestaurantFound(pods);
    forall w | 0 < w < |SIGNALFORGE.workloads| ensures !raises(SIGNALFORGE.workloads[w]) {
      OtherPodsAbsent(pods, w);
    }
    assert raises(SIGNALFORGE.workloads[0]) <==> PodsRaise(Find(s.evidence, PodsId(SIGNALFORGE.workloads[0])));
    AnyOfMeans(SIGNALFORGE.workloads, raises);
  }

  lemma NamelessReturns(pods: seq<Json>)
    requires forall k :: 0 <= k < |pods| ==> PodName(pods[k]) == Null
    ensures !Raises(RestaurantSnapshot(pods), SIGNALFORGE)
  {
    RestaurantRaises(pods);
  }

  lemma CollisionIsRefused(s: RawSnapshot, scope: Scope, show: Show, collectedAt: int)
    requires !Distinct(Ids(ChecksOf(s, scope, show)))
    ensures !IsAcceptable(DocumentOf(s.context, collectedAt, ReportOf(s, scope, show, collectedAt)))
  {
    var checks, details := ChecksAndDetails(s, scope, show);
    DocumentIsAcceptableIff(s.context, collectedAt, checks, details);
  }

  lemma TwoNameless() returns (pods: seq<Json>)
    ensures pods == [PodNamed(Null), PodNamed(Null)] && PodName(pods[0]) == PodName(pods[1]) == Null
  {
    pods := [PodNamed(Null), PodNamed(Null)];
  }

  lemma NamelessId(pod: Json, namespace: string, show: Json -> string)
    requires PodName(pod) == Null
    ensures PodId(pod, namespace, show) == "pod." + namespace + ".unknown"
  {
    assert "pod." + namespace + "." + "unknown" == "pod." + namespace + ".unknown";
  }

  /** Two Pods without a name: the evaluation returns, and what it writes cannot be loaded. */
  lemma NamelessPods(show: Show, collectedAt: int)
    ensures var s := RestaurantSnapshot([PodNamed(Null), PodNamed(Null)]);
      && !Raises(s, SIGNALFORGE)
      && !IsAcceptable(DocumentOf(s.context, collectedAt, ReportOf(s, SIGNALFORGE, show, collectedAt)))
    ensures PodId(PodNamed(Null), "forge-restaurant", show) == "pod." + "forge-restaurant" + ".unknown"
  {
    var pods := TwoNameless();
    NamelessReturns(pods);
    NamelessReport(pods, show);
    CollisionIsRefused(RestaurantSnapshot(pods), SIGNALFORGE, show, collectedAt);
    NamelessId(pods[0], "forge-restaurant", show);
  }

  /** A Pod whose name is a list, or an object: the evaluation does not return. */
  lemma UncountableName(name: Json)
    requires name.List? || name.Object?
    ensures Raises(RestaurantSnapshot([PodNamed(name)]), SIGNALFORGE)
  {
    var pods := [PodNamed(name)];
    assert PodName(pods[0]) == name;
    RestaurantRaises(pods);
    assert !IdentityKnown(pods[0]) && !IsHashable(PodName(pods[0]));
  }
}
