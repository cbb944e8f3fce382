/** The texts of a whole report, in the order of its checks, and exactly when none of them is empty. */
module ReportTexts {
  import opened Evidence
  import opened Evaluation
  import opened StableSort
  import opened Verdict
  import opened CheckTexts

  function Details<T>(xs: seq<T>, detail: T -> Detail): seq<Detail> {
    if xs == [] then [] else Details(xs[..|xs| - 1], detail) + [detail(xs[|xs| - 1])]
  }

  function DeploymentDetailIn(evidence: seq<Item>, show: Show): Workload -> Detail {
    (t: Workload) =>
      DeploymentDetail(Find(evidence, DeploymentId(t)), DeploymentSource(evidence, t), t, show)
  }

  function DeploymentSource(evidence: seq<Item>, t: Workload): string {
    SourceOf(evidence, DeploymentId(t), "Deployment " + t.namespace + "/" + t.deployment)
  }

  function PodsSource(evidence: seq<Item>, t: Workload): string {
    SourceOf(evidence, PodsId(t), "Pods for " + t.namespace + "/" + t.deployment)
  }

  function PodDetails(e: Item, source: string, t: Workload, show: Show): seq<Detail> {
    [PodsDetail(e, source, t, show)]
    + if !PodsListed(e) then []
      else Details(SortBy(Field(e.value, "items").items, PodKey(show)), PodDetail(source, t.image, show))
  }

  function PodDetailsIn(evidence: seq<Item>, show: Show): Workload -> seq<Detail> {
    (t: Workload) => PodDetails(Find(evidence, PodsId(t)), PodsSource(evidence, t), t, show)
  }

  function AllPodDetails(workloads: seq<Workload>, detailsOf: Workload -> seq<Detail>): seq<Detail> {
    if workloads == [] then []
    else AllPodDetails(workloads[..|workloads| - 1], detailsOf) + detailsOf(workloads[|workloads| - 1])
  }

  function RoutingSource(evidence: seq<Item>, t: Service): string {
    SourceOf(evidence, RoutingId(t), "EndpointSlices for " + t.namespace + "/" + t.name)
  }

  function RoutingDetailIn(evidence: seq<Item>, show: Show): Service -> Detail {
    (t: Service) => RoutingDetail(Find(evidence, RoutingId(t)), RoutingSource(evidence, t), t, show)
  }

  function HttpDetails(evidence: seq<Item>, show: Show): seq<Detail> {
    if evidence == [] then []
    else
      var rest, last := HttpDetails(evidence[..|evidence| - 1], show), evidence[|evidence| - 1];
      if IsHttp(last) then rest + [HttpDetail(last, show)] else rest
  }

  function ContextSource(evidence: seq<Item>): string {
    SourceOf(evidence, "context", "kubectl config current-context")
  }

  function VersionSource(evidence: seq<Item>): string {
    SourceOf(evidence, "kubernetes.version", "kubectl version -o json")
  }

  function NodesSource(evidence: seq<Item>): string {
    SourceOf(evidence, "nodes", "kubectl get nodes -o json")
  }

  function MetricsSource(evidence: seq<Item>): string {
    SourceOf(evidence, "metrics-api-service", "APIService v1beta1.metrics.k8s.io")
  }

  function ContextText(s: RawSnapshot, show: Show): Detail {
    ContextDetail(Find(s.evidence, "context"), ContextSource(s.evidence), s.context, show)
  }

  function FirstDetails(s: RawSnapshot, scope: Scope, show: Show): seq<Detail> {
    [ContextText(s, show), VersionDetail(Find(s.evidence, "kubernetes.version"), VersionSource(s.evidence), show)]
    + Details(scope.nodes, NodeDetail(Find(s.evidence, "nodes"), NodesSource(s.evidence), show))
    + Details(scope.workloads, DeploymentDetailIn(s.evidence, show))
  }

  function LastDetails(s: RawSnapshot, scope: Scope, show: Show): seq<Detail> {
    Details(SortServices(scope.services), RoutingDetailIn(s.evidence, show))
    + [MetricsDetail(Find(s.evidence, "metrics-api-service"), MetricsSource(s.evidence), show)]
    + HttpDetails(s.evidence, show)
  }

  /** The texts of everything that is reported, in order. */
  function DetailsOf(s: RawSnapshot, scope: Scope, show: Show): seq<Detail> {
    if !ContextMatches(s) then [ContextText(s, show)]
    else
      FirstDetails(s, scope, show) + AllPodDetails(scope.workloads, PodDetailsIn(s.evidence, show))
      + LastDetails(s, scope, show)
  }

  // ----- What has to be given -----

  function NodesGivenIn(evidence: seq<Item>): string -> bool {
    (name: string) => IsGiven(Find(evidence, "nodes"), NodesSource(evidence))
  }

  function DeploymentGivenIn(evidence: seq<Item>): Workload -> bool {
    (t: Workload) => IsGiven(Find(evidence, DeploymentId(t)), DeploymentSource(evidence, t))
  }

  function PodsGivenIn(evidence: seq<Item>): Workload -> bool {
    (t: Workload) => IsGiven(Find(evidence, PodsId(t)), PodsSource(evidence, t))
  }

  function RoutingGivenIn(evidence: seq<Item>): Service -> bool {
    (t: Service) => IsGiven(Find(evidence, RoutingId(t)), RoutingSource(evidence, t))
  }

  predicate HttpGiven(e: Item) {
    IsHttp(e) ==> IsGiven(e, e.source)
  }

  predicate FirstGiven(s: RawSnapshot, scope: Scope) {
    && IsGiven(Find(s.evidence, "kubernetes.version"), VersionSource(s.evidence))
    && AllOf(scope.nodes, NodesGivenIn(s.evidence)) && AllOf(scope.workloads, DeploymentGivenIn(s.evidence))
  }

  predicate LastGiven(s: RawSnapshot, scope: Scope) {
    && AllOf(scope.services, RoutingGivenIn(s.evidence))
    && IsGiven(Find(s.evidence, "metrics-api-service"), MetricsSource(s.evidence)) && AllOf(s.evidence, HttpGiven)
  }

  /** Every item that is consulted has a source and, if its collection failed, the category of the failure. */
  predicate TextsGiven(s: RawSnapshot, scope: Scope) {
    && s.context != "" && IsGiven(Find(s.evidence, "context"), ContextSource(s.evidence))
    && (ContextMatches(s) ==>
      && FirstGiven(s, scope) && AllOf(scope.workloads, PodsGivenIn(s.evidence)) && LastGiven(s, scope))
  }

  // ----- The texts belong to the checks -----

  predicate AllWritten(details: seq<Detail>) {
    forall k :: 0 <= k < |details| ==> IsWritten(details[k])
  }

  /** One text for each check, with a category exactly where the check settles nothing. */
  predicate Explain(details: seq<Detail>, checks: seq<CheckResult>) {
    |details| == |checks| && forall k :: 0 <= k < |details| ==> Explains(details[k], checks[k].status)
  }

  lemma JoinWritten(a: seq<Detail>, b: seq<Detail>)
    ensures AllWritten(a + b) <==> AllWritten(a) && AllWritten(b)
  {
    if AllWritten(a + b) {
      forall k | 0 <= k < |a| ensures IsWritten(a[k]) {
        assert (a + b)[k] == a[k];
      }
      forall k | 0 <= k < |b| ensures IsWritten(b[k]) {
        assert (a + b)[|a| + k] == b[k];
      }
    }
  }

  lemma JoinTexts(a: seq<Detail>, b: seq<Detail>, checksA: seq<CheckResult>, checksB: seq<CheckResult>)
    requires Explain(a, checksA) && Explain(b, checksB)
    ensures Explain(a + b, checksA + checksB)
    ensures AllWritten(a + b) <==> AllWritten(a) && AllWritten(b)
  {
    JoinWritten(a, b);
    forall k | 0 <= k < |a + b| ensures Explains((a + b)[k], (checksA + checksB)[k].status) {
      if k < |a| {
        assert (a + b)[k] == a[k] && (checksA + checksB)[k] == checksA[k];
      } else {
        assert (a + b)[k] == b[k - |a|] && (checksA + checksB)[k] == checksB[k - |a|];
      }
    }
  }

  lemma JoinThree(a: seq<Detail>, b: seq<Detail>, c: seq<Detail>, checksA: seq<CheckResult>, checksB: seq<CheckResult>,
                  checksC: seq<CheckResult>)
    requires Explain(a, checksA) && Explain(b, checksB) && Explain(c, checksC)
    ensures Explain(a + b + c, checksA + checksB + checksC)
    ensures AllWritten(a + b + c) <==> AllWritten(a) && AllWritten(b) && AllWritten(c)
  {
    JoinTexts(a, b, checksA, checksB);
    JoinTexts(a + b, c, checksA + checksB, checksC);
  }

  lemma AddText(details: seq<Detail>, checks: seq<CheckResult>, d: Detail, check: CheckResult)
    requires Explain(details, checks) && Explains(d, check.status)
    ensures Explain(details + [d], checks + [check])
    ensures AllWritten(details + [d]) <==> AllWritten(details) && IsWritten(d)
  {
    JoinTexts(details, [d], checks, [check]);
    assert [d][0] == d;
  }

  lemma {:induction false} EachText<T(!new)>(xs: seq<T>, check: T -> CheckResult, detail: T -> Detail, given: T -> bool)
    requires forall x :: (IsWritten(detail(x)) <==> given(x)) && Explains(detail(x), check(x).status)
    ensures Explain(Details(xs, detail), Each(xs, check))
    ensures AllWritten(Details(xs, detail)) <==> AllOf(xs, given)
  {
    if xs != [] {
      var n := |xs| - 1;
      EachText(xs[..n], check, detail, given);
      AddText(Details(xs[..n], detail), Each(xs[..n], check), detail(xs[n]), check(xs[n]));
    }
  }

  lemma NodeTexts(s: RawSnapshot, nodes: seq<string>, show: Show) returns (details: seq<Detail>)
    ensures details == Details(nodes, NodeDetail(Find(s.evidence, "nodes"), NodesSource(s.evidence), show))
    ensures Explain(details, Each(nodes, NodeCheck(s.evidence)))
    ensures AllWritten(details) <==> AllOf(nodes, NodesGivenIn(s.evidence))
  {
    var e, source := Find(s.evidence, "nodes"), NodesSource(s.evidence);
    forall name: string
      ensures IsWritten(NodeDetail(e, source, show)(name)) <==> NodesGivenIn(s.evidence)(name)
      ensures Explains(NodeDetail(e, source, show)(name), NodeCheck(s.evidence)(name).status)
    {
      NodeWritten(e, source, name, show);
    }
    EachText(nodes, NodeCheck(s.evidence), NodeDetail(e, source, show), NodesGivenIn(s.evidence));
    details := Details(nodes, NodeDetail(e, source, show));
  }

  lemma DeploymentTexts(evidence: seq<Item>, workloads: seq<Workload>, show: Show) returns (details: seq<Detail>)
    ensures details == Details(workloads, DeploymentDetailIn(evidence, show))
    ensures Explain(details, Each(workloads, DeploymentCheck(evidence)))
    ensures AllWritten(details) <==> AllOf(workloads, DeploymentGivenIn(evidence))
  {
    forall t: Workload
      ensures IsWritten(DeploymentDetailIn(evidence, show)(t)) <==> DeploymentGivenIn(evidence)(t)
      ensures Explains(DeploymentDetailIn(evidence, show)(t), DeploymentCheck(evidence)(t).status)
    {
      DeploymentWritten(Find(evidence, DeploymentId(t)), DeploymentSource(evidence, t), t, show);
    }
    EachText(workloads, DeploymentCheck(evidence), DeploymentDetailIn(evidence, show), DeploymentGivenIn(evidence));
    details := Details(workloads, DeploymentDetailIn(evidence, show));
  }

  lemma RoutingTexts(evidence: seq<Item>, services: seq<Service>, show: Show) returns (details: seq<Detail>)
    ensures details == Details(services, RoutingDetailIn(evidence, show))
    ensures Explain(details, Each(services, RoutingCheck(evidence)))
    ensures AllWritten(details) <==> AllOf(services, RoutingGivenIn(evidence))
  {
    forall t: Service
      ensures IsWritten(RoutingDetailIn(evidence, show)(t)) <==> RoutingGivenIn(evidence)(t)
      ensures Explains(RoutingDetailIn(evidence, show)(t), RoutingCheck(evidence)(t).status)
    {
      RoutingWritten(Find(evidence, RoutingId(t)), RoutingSource(evidence, t), t, show);
    }
    EachText(services, RoutingCheck(evidence), RoutingDetailIn(evidence, show), RoutingGivenIn(evidence));
    details := Details(services, RoutingDetailIn(evidence, show));
  }

  lemma {:induction false} AllOfConstant<T>(xs: seq<T>, holds: bool)
    ensures AllOf(xs, (x: T) => holds) <==> xs == [] || holds
  {
    if xs != [] {
      AllOfConstant(xs[..|xs| - 1], holds);
    }
  }

  lemma EachPodText(pods: seq<Json>, source: string, t: Workload, show: Show) returns (details: seq<Detail>)
    ensures details == Details(pods, PodDetail(source, t.image, show))
    ensures Explain(details, Each(pods, PodCheck(t, show)))
    ensures source != "" ==> AllWritten(details)
  {
    var given := (pod: Json) => source != "";
    forall pod: Json
      ensures IsWritten(PodDetail(source, t.image, show)(pod)) <==> given(pod)
      ensures Explains(PodDetail(source, t.image, show)(pod), PodCheck(t, show)(pod).status)
    {
      PodWritten(source, t.image, show, pod);
    }
    EachText(pods, PodCheck(t, show), PodDetail(source, t.image, show), given);
    AllOfConstant(pods, source != "");
    details := Details(pods, PodDetail(source, t.image, show));
  }

  lemma PodTexts(e: Item, source: string, t: Workload, show: Show)
    ensures Explain(PodDetails(e, source, t, show), PodChecks(e, t, show))
    ensures AllWritten(PodDetails(e, source, t, show)) <==> IsGiven(e, source)
  {
    var first := PodsDetail(e, source, t, show);
    PodsWritten(e, source, t, show);
    if PodsListed(e) {
      var pods := Field(e.value, "items").items;
      var sorted := SortBy(pods, PodKey(show));
      var details := EachPodText(sorted, source, t, show);
      JoinTexts([first], details, [CheckResult(PodsId(t), CountVerdict(pods, t))], Each(sorted, PodCheck(t, show)));
      assert AllWritten([first]) <==> IsWritten([first][0]);
    } else {
      assert PodDetails(e, source, t, show) == [first];
      assert AllWritten([first]) <==> IsWritten([first][0]);
    }
  }

  lemma {:induction false} AllPodTexts(workloads: seq<Workload>, evidence: seq<Item>, show: Show)
    ensures Explain(AllPodDetails(workloads, PodDetailsIn(evidence, show)),
                    AllPodChecks(workloads, PodsOf(evidence, show)))
    ensures AllWritten(AllPodDetails(workloads, PodDetailsIn(evidence, show))) <==>
      AllOf(workloads, PodsGivenIn(evidence))
  {
    if workloads != [] {
      var n := |workloads| - 1;
      var t := workloads[n];
      AllPodTexts(workloads[..n], evidence, show);
      PodTexts(Find(evidence, PodsId(t)), PodsSource(evidence, t), t, show);
      JoinTexts(AllPodDetails(workloads[..n], PodDetailsIn(evidence, show)), PodDetailsIn(evidence, show)(t),
                AllPodChecks(workloads[..n], PodsOf(evidence, show)), PodsOf(evidence, show)(t));
    }
  }

  lemma {:induction false} HttpTexts(evidence: seq<Item>, show: Show)
    ensures Explain(HttpDetails(evidence, show), HttpChecks(evidence))
    ensures AllWritten(HttpDetails(evidence, show)) <==> AllOf(evidence, HttpGiven)
  {
    if evidence != [] {
      var n := |evidence| - 1;
      HttpTexts(evidence[..n], show);
      HttpWritten(evidence[n], show);
      AddText(HttpDetails(evidence[..n], show), HttpChecks(evidence[..n]), HttpDetail(evidence[n], show),
              CheckResult(evidence[n].id, HttpVerdict(evidence[n])));
    }
  }

  lemma ContextTexts(s: RawSnapshot, show: Show)
    ensures IsWritten(ContextText(s, show)) <==>
      s.context != "" && IsGiven(Find(s.evidence, "context"), ContextSource(s.evidence))
    ensures Explains(ContextText(s, show), if ContextMatches(s) then PASS else UNKNOWN)
  {
    ContextWritten(Find(s.evidence, "context"), ContextSource(s.evidence), s.context, show);
  }

  lemma TwoTexts(a: Detail, b: Detail, checkA: CheckResult, checkB: CheckResult)
    requires Explains(a, checkA.status) && Explains(b, checkB.status)
    ensures Explain([a, b], [checkA, checkB])
    ensures AllWritten([a, b]) <==> IsWritten(a) && IsWritten(b)
  {
    assert [a, b][0] == a && [a, b][1] == b;
  }

  lemma FirstTexts(s: RawSnapshot, scope: Scope, show: Show)
    requires ContextMatches(s)
    ensures Explain(FirstDetails(s, scope, show), FirstChecks(s, scope))
    ensures AllWritten(FirstDetails(s, scope, show)) <==> IsWritten(ContextText(s, show)) && FirstGiven(s, scope)
  {
    var context, version := CheckResult("context", PASS),
      CheckResult("kubernetes.version", VersionVerdict(Find(s.evidence, "kubernetes.version")));
    var a, b := ContextText(s, show),
      VersionDetail(Find(s.evidence, "kubernetes.version"), VersionSource(s.evidence), show);
    ContextTexts(s, show);
    VersionWritten(Find(s.evidence, "kubernetes.version"), VersionSource(s.evidence), show);
    TwoTexts(a, b, context, version);
    var nodes := NodeTexts(s, scope.nodes, show);
    var deployments := DeploymentTexts(s.evidence, scope.workloads, show);
    JoinThree([a, b], nodes, deployments, [context, version], Each(scope.nodes, NodeCheck(s.evidence)),
              Each(scope.workloads, DeploymentCheck(s.evidence)));
  }

  lemma SortedServicesGiven(services: seq<Service>, p: Service -> bool)
    ensures AllOf(SortServices(services), p) <==> AllOf(services, p)
  {
    var sorted := SortServices(services);
    forall t ensures t in sorted <==> t in services {
      SortByElements(services, (t: Service) => t.name, t);
      SortByElements(SortBy(services, (t: Service) => t.name), (t: Service) => t.namespace, t);
    }
    AllOfMeans(sorted, p);
    AllOfMeans(services, p);
    assert (forall k :: 0 <= k < |sorted| ==> p(sorted[k])) <==> forall t :: t in sorted ==> p(t);
    assert (forall k :: 0 <= k < |services| ==> p(services[k])) <==> forall t :: t in services ==> p(t);
  }

  lemma LastTexts(s: RawSnapshot, scope: Scope, show: Show)
    ensures Explain(LastDetails(s, scope, show), LastChecks(s, scope))
    ensures AllWritten(LastDetails(s, scope, show)) <==> LastGiven(s, scope)
  {
    var sorted, e := SortServices(scope.services), Find(s.evidence, "metrics-api-service");
    var routes := RoutingTexts(s.evidence, sorted, show);
    var d, check := MetricsDetail(e, MetricsSource(s.evidence), show),
      CheckResult("metrics-api-service", ConditionVerdict(MetricsStatus(e)));
    SortedServicesGiven(scope.services, RoutingGivenIn(s.evidence));
    MetricsWritten(e, MetricsSource(s.evidence), show);
    HttpTexts(s.evidence, show);
    AddText(routes, Each(sorted, RoutingCheck(s.evidence)), d, check);
    JoinTexts(routes + [d], HttpDetails(s.evidence, show), Each(sorted, RoutingCheck(s.evidence)) + [check],
              HttpChecks(s.evidence));
  }

  /**
   Every check of a report has its text, and says why exactly when it settles nothing. None of the
   texts is empty exactly when every item consulted has a source and names its error.
   */
  lemma TextsWrittenIff(s: RawSnapshot, scope: Scope, show: Show)
    ensures Explain(DetailsOf(s, scope, show), ChecksOf(s, scope, show))
    ensures AllWritten(DetailsOf(s, scope, show)) <==> TextsGiven(s, scope)
  {
    ContextTexts(s, show);
    if ContextMatches(s) {
      var pods, podChecks := AllPodDetails(scope.workloads, PodDetailsIn(s.evidence, show)),
        AllPodChecks(scope.workloads, PodsOf(s.evidence, show));
      FirstTexts(s, scope, show);
      AllPodTexts(scope.workloads, s.evidence, show);
      LastTexts(s, scope, show);
      JoinThree(FirstDetails(s, scope, show), pods, LastDetails(s, scope, show), FirstChecks(s, scope), podChecks,
                LastChecks(s, scope));
    } else {
      assert AllWritten([ContextText(s, show)]) <==> IsWritten([ContextText(s, show)][0]);
    }
  }
}
