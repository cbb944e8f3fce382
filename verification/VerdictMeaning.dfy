/** What the verdict says: when the exit code is 0, 1 or 2, for every snapshot and scope. */
module VerdictMeaning {
  import opened Wrappers
  import opened Evidence
  import opened Evaluation
  import opened StableSort
  import opened Verdict

  // ----- Checks that pass, and checks that settle nothing -----

  predicate Passes(checks: seq<CheckResult>) {
    forall k :: 0 <= k < |checks| ==> checks[k].status == PASS
  }

  predicate HasUnknown(checks: seq<CheckResult>) {
    exists k :: 0 <= k < |checks| && checks[k].status == UNKNOWN
  }

  function ResultStatuses(checks: seq<CheckResult>): seq<Status> {
    seq(|checks|, k requires 0 <= k < |checks| => checks[k].status)
  }

  lemma ExitCodeMeans(checks: seq<CheckResult>)
    ensures ExitCode(ResultStatuses(checks)) == 0 <==> Passes(checks)
    ensures ExitCode(ResultStatuses(checks)) == 2 <==> HasUnknown(checks)
  {
    var statuses := ResultStatuses(checks);
    assert forall k :: 0 <= k < |checks| ==> statuses[k] == checks[k].status;
    if !Passes(checks) {
      var k :| 0 <= k < |checks| && checks[k].status != PASS;
      assert statuses[k] in statuses;
    }
  }

  lemma ConcatChecks(a: seq<CheckResult>, b: seq<CheckResult>)
    ensures Passes(a + b) <==> Passes(a) && Passes(b)
    ensures HasUnknown(a + b) <==> HasUnknown(a) || HasUnknown(b)
  {
    var checks := a + b;
    assert forall k :: 0 <= k < |a| ==> checks[k] == a[k];
    assert forall k :: 0 <= k < |b| ==> checks[|a| + k] == b[k];
  }

  lemma AddCheck(checks: seq<CheckResult>, check: CheckResult)
    ensures Passes(checks + [check]) <==> Passes(checks) && check.status == PASS
    ensures HasUnknown(checks + [check]) <==> HasUnknown(checks) || check.status == UNKNOWN
  {
    ConcatChecks(checks, [check]);
    assert [check][0] == check;
  }

  lemma {:induction false} EachPasses<T(!new)>(xs: seq<T>, check: T -> CheckResult, passes: T -> bool)
    requires forall x :: passes(x) <==> check(x).status == PASS
    ensures Passes(Each(xs, check)) <==> AllOf(xs, passes)
  {
    if xs != [] {
      EachPasses(xs[..|xs| - 1], check, passes);
      AddCheck(Each(xs[..|xs| - 1], check), check(xs[|xs| - 1]));
    }
  }

  lemma {:induction false} EachUnknown<T(!new)>(xs: seq<T>, check: T -> CheckResult, unclear: T -> bool)
    requires forall x :: unclear(x) <==> check(x).status == UNKNOWN
    ensures HasUnknown(Each(xs, check)) <==> AnyOf(xs, unclear)
  {
    if xs != [] {
      EachUnknown(xs[..|xs| - 1], check, unclear);
      AddCheck(Each(xs[..|xs| - 1], check), check(xs[|xs| - 1]));
    }
  }

  lemma SameMembers<T>(xs: seq<T>, ys: seq<T>, p: T -> bool)
    requires forall x :: x in xs <==> x in ys
    ensures AllOf(xs, p) <==> AllOf(ys, p)
    ensures AnyOf(xs, p) <==> AnyOf(ys, p)
  {
    AllOfMeans(xs, p);
    AllOfMeans(ys, p);
    AnyOfMeans(xs, p);
    AnyOfMeans(ys, p);
    assert (forall k :: 0 <= k < |xs| ==> p(xs[k])) <==> forall x :: x in xs ==> p(x);
    assert (forall k :: 0 <= k < |ys| ==> p(ys[k])) <==> forall y :: y in ys ==> p(y);
    assert (exists k :: 0 <= k < |xs| && p(xs[k])) <==> exists x :: x in xs && p(x);
    assert (exists k :: 0 <= k < |ys| && p(ys[k])) <==> exists y :: y in ys && p(y);
  }

  // ----- Healthy and unclear -----

  predicate PodsKnown(e: Item) {
    PodsListed(e) && IdentitiesValid(Field(e.value, "items").items) && AllOf(Field(e.value, "items").items, PodKnown)
  }

  function PassesWith(image: string): Json -> bool {
    (pod: Json) => PodRuns(pod, image) && NeverRestarted(StatusesOf(pod).items)
  }

  predicate PodsHealthy(e: Item, t: Workload) {
    && PodsListed(e)
    && var pods := Field(e.value, "items").items;
       IdentitiesValid(pods) && |pods| == t.replicas && AllOf(pods, PassesWith(t.image))
  }

  function NodeReadyIn(evidence: seq<Item>): string -> bool {
    (name: string) => NodeStatus(Find(evidence, "nodes"), name) == Str("True")
  }

  function NodeUnclearIn(evidence: seq<Item>): string -> bool {
    (name: string) => !IsDefinite(NodeStatus(Find(evidence, "nodes"), name))
  }

  function DeploymentHealthyIn(evidence: seq<Item>): Workload -> bool {
    (t: Workload) => DeploymentHealthy(Find(evidence, DeploymentId(t)), t)
  }

  function DeploymentUnclearIn(evidence: seq<Item>): Workload -> bool {
    (t: Workload) => !DeploymentKnown(Find(evidence, DeploymentId(t)), t)
  }

  function PodsHealthyIn(evidence: seq<Item>): Workload -> bool {
    (t: Workload) => PodsHealthy(Find(evidence, PodsId(t)), t)
  }

  function PodsUnclearIn(evidence: seq<Item>): Workload -> bool {
    (t: Workload) => !PodsKnown(Find(evidence, PodsId(t)))
  }

  function RoutingHealthyIn(evidence: seq<Item>): Service -> bool {
    (t: Service) => RoutingHealthy(Find(evidence, RoutingId(t)), t)
  }

  function RoutingUnclearIn(evidence: seq<Item>): Service -> bool {
    (t: Service) => !RoutingKnown(Find(evidence, RoutingId(t)))
  }

  predicate HttpFits(e: Item) {
    IsHttp(e) ==> HttpHealthy(e, ExpectedFields(e.id))
  }

  predicate HttpUnclear(e: Item) {
    IsHttp(e) && !HttpKnown(e)
  }

  /** What has to be true for exit code 0. */
  predicate IsHealthy(s: RawSnapshot, scope: Scope) {
    && ContextMatches(s) && VersionKnown(Find(s.evidence, "kubernetes.version"))
    && AllOf(scope.nodes, NodeReadyIn(s.evidence))
    && AllOf(scope.workloads, DeploymentHealthyIn(s.evidence))
    && AllOf(scope.workloads, PodsHealthyIn(s.evidence))
    && AllOf(scope.services, RoutingHealthyIn(s.evidence))
    && MetricsStatus(Find(s.evidence, "metrics-api-service")) == Str("True")
    && AllOf(s.evidence, HttpFits)
  }

  /** What leads to exit code 2: evidence that settles nothing. */
  predicate IsUnclear(s: RawSnapshot, scope: Scope) {
    || !ContextMatches(s) || !VersionKnown(Find(s.evidence, "kubernetes.version"))
    || AnyOf(scope.nodes, NodeUnclearIn(s.evidence))
    || AnyOf(scope.workloads, DeploymentUnclearIn(s.evidence))
    || AnyOf(scope.workloads, PodsUnclearIn(s.evidence))
    || AnyOf(scope.services, RoutingUnclearIn(s.evidence))
    || !IsDefinite(MetricsStatus(Find(s.evidence, "metrics-api-service")))
    || AnyOf(s.evidence, HttpUnclear)
  }

  // ----- The parts of the report -----

  lemma SortedPods(pods: seq<Json>, key: Json -> string, p: Json -> bool)
    ensures AllOf(SortBy(pods, key), p) <==> AllOf(pods, p)
    ensures AnyOf(SortBy(pods, key), p) <==> AnyOf(pods, p)
  {
    forall pod ensures pod in SortBy(pods, key) <==> pod in pods {
      SortByElements(pods, key, pod);
    }
    SameMembers(SortBy(pods, key), pods, p);
  }

  lemma {:induction false} NotAll<T(!new)>(xs: seq<T>, p: T -> bool, q: T -> bool)
    requires forall x :: q(x) <==> !p(x)
    ensures AnyOf(xs, q) <==> !AllOf(xs, p)
  {
    if xs != [] {
      NotAll(xs[..|xs| - 1], p, q);
    }
  }

  lemma EachPodMeans(pods: seq<Json>, t: Workload, show: Json -> string)
    ensures var checks := Each(SortBy(pods, PodKey(show)), PodCheck(t, show));
      && (Passes(checks) <==> AllOf(pods, PassesWith(t.image)))
      && (HasUnknown(checks) <==> !AllOf(pods, PodKnown))
  {
    var sorted, passes, unclear := SortBy(pods, PodKey(show)), PassesWith(t.image), (pod: Json) => !PodKnown(pod);
    EachPasses(sorted, PodCheck(t, show), passes);
    EachUnknown(sorted, PodCheck(t, show), unclear);
    SortedPods(pods, PodKey(show), passes);
    SortedPods(pods, PodKey(show), unclear);
    NotAll(pods, PodKnown, unclear);
  }

  lemma PodChecksMean(e: Item, t: Workload, show: Json -> string)
    ensures Passes(PodChecks(e, t, show)) <==> PodsHealthy(e, t)
    ensures HasUnknown(PodChecks(e, t, show)) <==> !PodsKnown(e)
  {
    if !PodsListed(e) {
      AddCheck([], CheckResult(PodsId(t), UNKNOWN));
      assert PodChecks(e, t, show) == [] + [CheckResult(PodsId(t), UNKNOWN)];
    } else {
      var pods := Field(e.value, "items").items;
      var first := CheckResult(PodsId(t), CountVerdict(pods, t));
      var each := Each(SortBy(pods, PodKey(show)), PodCheck(t, show));
      EachPodMeans(pods, t, show);
      AddCheck([], first);
      ConcatChecks([first], each);
      assert [] + [first] == [first];
    }
  }

  lemma {:induction false} AllPodsMean(workloads: seq<Workload>, evidence: seq<Item>, show: Json -> string)
    ensures var checks := AllPodChecks(workloads, PodsOf(evidence, show));
      && (Passes(checks) <==> AllOf(workloads, PodsHealthyIn(evidence)))
      && (HasUnknown(checks) <==> AnyOf(workloads, PodsUnclearIn(evidence)))
  {
    if workloads != [] {
      var n := |workloads| - 1;
      AllPodsMean(workloads[..n], evidence, show);
      PodChecksMean(Find(evidence, PodsId(workloads[n])), workloads[n], show);
      ConcatChecks(AllPodChecks(workloads[..n], PodsOf(evidence, show)), PodsOf(evidence, show)(workloads[n]));
    }
  }

  lemma NodesMean(nodes: seq<string>, evidence: seq<Item>)
    ensures Passes(Each(nodes, NodeCheck(evidence))) <==> AllOf(nodes, NodeReadyIn(evidence))
    ensures HasUnknown(Each(nodes, NodeCheck(evidence))) <==> AnyOf(nodes, NodeUnclearIn(evidence))
  {
    EachPasses(nodes, NodeCheck(evidence), NodeReadyIn(evidence));
    EachUnknown(nodes, NodeCheck(evidence), NodeUnclearIn(evidence));
  }

  lemma DeploymentsMean(workloads: seq<Workload>, evidence: seq<Item>)
    ensures Passes(Each(workloads, DeploymentCheck(evidence))) <==> AllOf(workloads, DeploymentHealthyIn(evidence))
    ensures HasUnknown(Each(workloads, DeploymentCheck(evidence))) <==> AnyOf(workloads, DeploymentUnclearIn(evidence))
  {
    EachPasses(workloads, DeploymentCheck(evidence), DeploymentHealthyIn(evidence));
    EachUnknown(workloads, DeploymentCheck(evidence), DeploymentUnclearIn(evidence));
  }

  lemma RoutesMean(services: seq<Service>, evidence: seq<Item>)
    ensures Passes(Each(SortServices(services), RoutingCheck(evidence))) <==>
      AllOf(services, RoutingHealthyIn(evidence))
    ensures HasUnknown(Each(SortServices(services), RoutingCheck(evidence))) <==>
      AnyOf(services, RoutingUnclearIn(evidence))
  {
    var sorted := SortServices(services);
    EachPasses(sorted, RoutingCheck(evidence), RoutingHealthyIn(evidence));
    EachUnknown(sorted, RoutingCheck(evidence), RoutingUnclearIn(evidence));
    forall t ensures t in sorted <==> t in services {
      SortByElements(services, (t: Service) => t.name, t);
      SortByElements(SortBy(services, (t: Service) => t.name), (t: Service) => t.namespace, t);
    }
    SameMembers(sorted, services, RoutingHealthyIn(evidence));
    SameMembers(sorted, services, RoutingUnclearIn(evidence));
  }

  lemma {:induction false} HttpsMean(evidence: seq<Item>)
    ensures Passes(HttpChecks(evidence)) <==> AllOf(evidence, HttpFits)
    ensures HasUnknown(HttpChecks(evidence)) <==> AnyOf(evidence, HttpUnclear)
  {
    if evidence != [] {
      var n := |evidence| - 1;
      HttpsMean(evidence[..n]);
      AddCheck(HttpChecks(evidence[..n]), CheckResult(evidence[n].id, HttpVerdict(evidence[n])));
    }
  }

  lemma FirstMean(s: RawSnapshot, scope: Scope)
    ensures Passes(FirstChecks(s, scope)) <==>
      && VersionKnown(Find(s.evidence, "kubernetes.version"))
      && AllOf(scope.nodes, NodeReadyIn(s.evidence)) && AllOf(scope.workloads, DeploymentHealthyIn(s.evidence))
    ensures HasUnknown(FirstChecks(s, scope)) <==>
      || !VersionKnown(Find(s.evidence, "kubernetes.version"))
      || AnyOf(scope.nodes, NodeUnclearIn(s.evidence)) || AnyOf(scope.workloads, DeploymentUnclearIn(s.evidence))
  {
    var context := CheckResult("context", PASS);
    var version := CheckResult("kubernetes.version", VersionVerdict(Find(s.evidence, "kubernetes.version")));
    var nodes := Each(scope.nodes, NodeCheck(s.evidence));
    var deployments := Each(scope.workloads, DeploymentCheck(s.evidence));
    AddCheck([], context);
    AddCheck([context], version);
    assert [] + [context] == [context] && [context] + [version] == [context, version];
    NodesMean(scope.nodes, s.evidence);
    DeploymentsMean(scope.workloads, s.evidence);
    ConcatChecks([context, version], nodes);
    ConcatChecks([context, version] + nodes, deployments);
  }

  lemma LastMean(s: RawSnapshot, scope: Scope)
    ensures Passes(LastChecks(s, scope)) <==>
      && AllOf(scope.services, RoutingHealthyIn(s.evidence))
      && MetricsStatus(Find(s.evidence, "metrics-api-service")) == Str("True") && AllOf(s.evidence, HttpFits)
    ensures HasUnknown(LastChecks(s, scope)) <==>
      || AnyOf(scope.services, RoutingUnclearIn(s.evidence))
      || !IsDefinite(MetricsStatus(Find(s.evidence, "metrics-api-service"))) || AnyOf(s.evidence, HttpUnclear)
  {
    var routes := Each(SortServices(scope.services), RoutingCheck(s.evidence));
    var metrics := CheckResult("metrics-api-service",
                               ConditionVerdict(MetricsStatus(Find(s.evidence, "metrics-api-service"))));
    RoutesMean(scope.services, s.evidence);
    HttpsMean(s.evidence);
    AddCheck(routes, metrics);
    ConcatChecks(routes + [metrics], HttpChecks(s.evidence));
  }

  /**
   The verdict. Exit code 0 means that everything in scope is healthy and nothing less; exit code 2
   means that some evidence settles nothing, and nothing else; 1 is what remains.
   */
  lemma ExitCodes(s: RawSnapshot, scope: Scope, show: Json -> string)
    ensures ExitCode(ResultStatuses(ChecksOf(s, scope, show))) == 0 <==> IsHealthy(s, scope)
    ensures ExitCode(ResultStatuses(ChecksOf(s, scope, show))) == 2 <==> IsUnclear(s, scope)
  {
    ExitCodeMeans(ChecksOf(s, scope, show));
    if !ContextMatches(s) {
      AddCheck([], CheckResult("context", UNKNOWN));
      assert ChecksOf(s, scope, show) == [] + [CheckResult("context", UNKNOWN)];
    } else {
      var first, pods := FirstChecks(s, scope), AllPodChecks(scope.workloads, PodsOf(s.evidence, show));
      FirstMean(s, scope);
      AllPodsMean(scope.workloads, s.evidence, show);
      LastMean(s, scope);
      ConcatChecks(first, pods);
      ConcatChecks(first + pods, LastChecks(s, scope));
    }
  }

  // ----- The closed scope, errors and workloads -----

  /** The closed scope: SignalForge's nodes, workloads and services. */
  const SIGNALFORGE := Scope(
    ["forge-head", "forge-node-01", "forge-node-02", "forge-node-03"],
    [Workload("forge-restaurant", "restaurant-api", 3, "wmstipes/signalforge-restaurant-api:0.7.0"),
     Workload("forge-observability", "prometheus", 1, "prom/prometheus:v3.13.2"),
     Workload("forge-observability", "grafana", 1, "grafana/grafana:13.2.1" + "@sha256:" +
              "f772d434e8fab0049deb2b1b30abd43342bcfca1537614aa8d36080232cf4283"),
     Workload("forge-tools", "forge-yaml-workbench", 1, "wmstipes/signalforge-yaml-workbench:0.10.0" + "@sha256:" +
              "2afd73f4da3aa9862aabd0f532194da92bf37dbd196b03d9abfa1079f86e0206"),
     Workload("kube-system", "metrics-server", 1, "registry.k8s.io/metrics-server/metrics-server:v0.9.0")],
    [Service("forge-restaurant", "restaurant-api", 3), Service("forge-observability", "prometheus", 1),
     Service("forge-observability", "grafana", 1), Service("forge-tools", "forge-yaml-workbench", 1)])

  predicate IsSingle(id: string) {
    id == "context" || id == "kubernetes.version" || id == "nodes" || id == "metrics-api-service"
  }

  ghost predicate IsOfWorkload(id: string, workloads: seq<Workload>) {
    exists k :: 0 <= k < |workloads| && (id == DeploymentId(workloads[k]) || id == PodsId(workloads[k]))
  }

  ghost predicate IsOfService(id: string, services: seq<Service>) {
    exists k :: 0 <= k < |services| && id == RoutingId(services[k])
  }

  /** The evidence that every evaluation consults by name. */
  ghost predicate IsConsulted(id: string, scope: Scope) {
    IsSingle(id) || IsOfWorkload(id, scope.workloads) || IsOfService(id, scope.services)
  }

  lemma {:induction false} FindUnique(evidence: seq<Item>, k: nat)
    requires k < |evidence| && forall i, j :: 0 <= i < j < |evidence| ==> evidence[i].id != evidence[j].id
    ensures Find(evidence, evidence[k].id) == evidence[k]
  {
    if k < |evidence| - 1 {
      FindUnique(evidence[..|evidence| - 1], k);
    }
  }

  lemma AnyWitness<T>(xs: seq<T>, p: T -> bool, k: nat)
    requires k < |xs| && p(xs[k])
    ensures AnyOf(xs, p)
  {
    AnyOfMeans(xs, p);
  }

  lemma SingleErrorIsUnclear(s: RawSnapshot, scope: Scope, id: string)
    requires IsSingle(id) && scope.nodes != [] && Find(s.evidence, id).error.Some?
    ensures IsUnclear(s, scope)
  {
    if id == "nodes" {
      AnyWitness(scope.nodes, NodeUnclearIn(s.evidence), 0);
    }
  }

  lemma WorkloadErrorIsUnclear(s: RawSnapshot, scope: Scope, id: string)
    requires IsOfWorkload(id, scope.workloads) && Find(s.evidence, id).error.Some?
    ensures IsUnclear(s, scope)
  {
    var k :| 0 <= k < |scope.workloads| && (id == DeploymentId(scope.workloads[k]) || id == PodsId(scope.workloads[k]));
    if id == DeploymentId(scope.workloads[k]) {
      AnyWitness(scope.workloads, DeploymentUnclearIn(s.evidence), k);
    } else {
      AnyWitness(scope.workloads, PodsUnclearIn(s.evidence), k);
    }
  }

  lemma ServiceErrorIsUnclear(s: RawSnapshot, scope: Scope, id: string)
    requires IsOfService(id, scope.services) && Find(s.evidence, id).error.Some?
    ensures IsUnclear(s, scope)
  {
    var k :| 0 <= k < |scope.services| && id == RoutingId(scope.services[k]);
    AnyWitness(scope.services, RoutingUnclearIn(s.evidence), k);
  }

  /** No error is overlooked: one in the consulted set, or in any HTTP item, leaves the verdict unclear. */
  lemma ErrorsAreUnclear(s: RawSnapshot, scope: Scope, k: nat)
    requires forall i, j :: 0 <= i < j < |s.evidence| ==> s.evidence[i].id != s.evidence[j].id
    requires k < |s.evidence| && s.evidence[k].error.Some? && scope.nodes != []
    requires IsConsulted(s.evidence[k].id, scope) || IsHttp(s.evidence[k])
    ensures IsUnclear(s, scope)
  {
    if IsHttp(s.evidence[k]) {
      AnyWitness(s.evidence, HttpUnclear, k);
    } else {
      FindUnique(s.evidence, k);
      if IsSingle(s.evidence[k].id) {
        SingleErrorIsUnclear(s, scope, s.evidence[k].id);
      } else if IsOfWorkload(s.evidence[k].id, scope.workloads) {
        WorkloadErrorIsUnclear(s, scope, s.evidence[k].id);
      } else {
        ServiceErrorIsUnclear(s, scope, s.evidence[k].id);
      }
    }
  }

  /** In SignalForge's scope an error of any fixed item, or of any HTTP item, forces exit code 2. */
  lemma SignalForgeErrors(s: RawSnapshot, show: Json -> string, k: nat)
    requires forall i, j :: 0 <= i < j < |s.evidence| ==> s.evidence[i].id != s.evidence[j].id
    requires k < |s.evidence| && s.evidence[k].error.Some?
    requires IsConsulted(s.evidence[k].id, SIGNALFORGE) || IsHttp(s.evidence[k])
    ensures ExitCode(ResultStatuses(ChecksOf(s, SIGNALFORGE, show))) == 2
  {
    ErrorsAreUnclear(s, SIGNALFORGE, k);
    ExitCodes(s, SIGNALFORGE, show);
  }

  // ----- Routing -----

  predicate IsDeclared(ready: Json) {
    ready.Bool? || ready.Null?
  }

  lemma {:induction false} CountAll(endpoints: seq<Json>, state: Json)
    ensures CountState(endpoints, state) <= |endpoints|
    ensures CountState(endpoints, state) == |endpoints| <==>
      forall k :: 0 <= k < |endpoints| ==> EndpointReady(endpoints[k]) == state
  {
    if endpoints != [] {
      CountAll(endpoints[..|endpoints| - 1], state);
    }
  }

  /**
   A Service whose routing passes has only ready endpoints exactly when each of them declares its
   readiness as a boolean or not at all, and exactly when there are no more of them than expected.
   */
  lemma RoutingPassMeans(e: Item, t: Service)
    requires RoutingHealthy(e, t)
    ensures var endpoints := Endpoints(Field(e.value, "items").items);
      var allReady := forall k :: 0 <= k < |endpoints| ==> EndpointReady(endpoints[k]) == Bool(true);
      && (allReady <==> forall k :: 0 <= k < |endpoints| ==> IsDeclared(EndpointReady(endpoints[k])))
      && (allReady <==> |endpoints| == t.readyEndpoints)
  {
    var endpoints := Endpoints(Field(e.value, "items").items);
    CountAll(endpoints, Bool(true));
    forall k | 0 <= k < |endpoints| && IsDeclared(EndpointReady(endpoints[k]))
      ensures EndpointReady(endpoints[k]) == Bool(true)
    {
      assert EndpointReady(endpoints[k]) != Bool(false) && EndpointReady(endpoints[k]) != Null;
    }
  }

  function EndpointSaying(ready: Json): Json {
    Object(map["conditions" := Object(map["ready" := ready])])
  }

  function SliceOfTwo(a: Json, b: Json): Json {
    Object(map["items" := List([Object(map["endpoints" := List([a, b])])])])
  }

  /** One endpoint is ready, another says so in a text: the routing of a Service with one endpoint passes. */
  lemma OddReadinessPasses(t: Service)
    requires t.readyEndpoints == 1
    ensures var ready, odd := EndpointSaying(Bool(true)), EndpointSaying(Str("false"));
      var e := Item(RoutingId(t), "EndpointSlices", SliceOfTwo(ready, odd), None);
      && RoutingHealthy(e, t) && Endpoints(Field(e.value, "items").items) == [ready, odd]
      && EndpointReady(odd) != Bool(true)
  {
    var ready, odd := EndpointSaying(Bool(true)), EndpointSaying(Str("false"));
    var slice := Object(map["endpoints" := List([ready, odd])]);
    assert ListIn(Field(slice, "endpoints")) == [ready, odd];
    assert Endpoints([slice]) == [] + [ready, odd] by {
      assert [slice][..0] == [];
    }
    assert EndpointReady(ready) == Bool(true) && EndpointReady(odd) == Str("false");
    assert [ready, odd][..1] == [ready] && [ready][..0] == [];
    assert CountState([ready], Bool(true)) == CountState([], Bool(true)) + 1;
  }

  lemma HealthyPods(e: Item, t: Workload)
    requires PodsHealthy(e, t)
    ensures var pods := Field(e.value, "items");
      && pods.List? && |pods.items| == t.replicas && IdentitiesValid(pods.items)
      && forall p :: 0 <= p < |pods.items| ==>
        PodRuns(pods.items[p], t.image) && NeverRestarted(StatusesOf(pods.items[p]).items)
  {
    var pods, passes := Field(e.value, "items").items, PassesWith(t.image);
    AllOfMeans(pods, passes);
    forall p | 0 <= p < |pods| ensures PodRuns(pods[p], t.image) && NeverRestarted(StatusesOf(pods[p]).items) {
      assert passes(pods[p]);
    }
  }

  /** What a healthy verdict says of each workload and each of its Pods. */
  lemma HealthyWorkload(s: RawSnapshot, scope: Scope, w: nat)
    requires IsHealthy(s, scope) && w < |scope.workloads|
    ensures var t := scope.workloads[w];
      var pods := Field(Find(s.evidence, PodsId(t)).value, "items");
      && DeploymentHealthy(Find(s.evidence, DeploymentId(t)), t)
      && pods.List? && |pods.items| == t.replicas && IdentitiesValid(pods.items)
      && forall p :: 0 <= p < |pods.items| ==>
        PodRuns(pods.items[p], t.image) && NeverRestarted(StatusesOf(pods.items[p]).items)
  {
    AllOfMeans(scope.workloads, DeploymentHealthyIn(s.evidence));
    AllOfMeans(scope.workloads, PodsHealthyIn(s.evidence));
    assert DeploymentHealthyIn(s.evidence)(scope.workloads[w]) && PodsHealthyIn(s.evidence)(scope.workloads[w]);
    HealthyPods(Find(s.evidence, PodsId(scope.workloads[w])), scope.workloads[w]);
  }
}
