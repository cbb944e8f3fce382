/** The whole evaluation: which checks it reports, in which order, and when it does not return. */
module Verdict {
  import opened Evidence
  import opened Evaluation
  import opened StableSort

  // ----- Python's all and any, and one check for each member of a list -----

  predicate AllOf<T>(xs: seq<T>, p: T -> bool) {
    xs == [] || (AllOf(xs[..|xs| - 1], p) && p(xs[|xs| - 1]))
  }

  predicate AnyOf<T>(xs: seq<T>, p: T -> bool) {
    xs != [] && (AnyOf(xs[..|xs| - 1], p) || p(xs[|xs| - 1]))
  }

  lemma {:induction false} AllOfMeans<T>(xs: seq<T>, p: T -> bool)
    ensures AllOf(xs, p) <==> forall k :: 0 <= k < |xs| ==> p(xs[k])
  {
    if xs != [] {
      AllOfMeans(xs[..|xs| - 1], p);
    }
  }

  lemma {:induction false} AnyOfMeans<T>(xs: seq<T>, p: T -> bool)
    ensures AnyOf(xs, p) <==> exists k :: 0 <= k < |xs| && p(xs[k])
  {
    if xs != [] {
      AnyOfMeans(xs[..|xs| - 1], p);
      if AnyOf(xs, p) && !p(xs[|xs| - 1]) {
        var k :| 0 <= k < |xs| - 1 && p(xs[..|xs| - 1][k]);
        assert p(xs[k]);
      }
    }
  }

  lemma OneMore<T>(xs: seq<T>, i: nat, p: T -> bool)
    requires i < |xs|
    ensures AllOf(xs[..i + 1], p) <==> AllOf(xs[..i], p) && p(xs[i])
    ensures AnyOf(xs[..i + 1], p) <==> AnyOf(xs[..i], p) || p(xs[i])
  {
    assert xs[..i + 1][..i] == xs[..i];
  }

  function Each<T>(xs: seq<T>, check: T -> CheckResult): seq<CheckResult> {
    if xs == [] then [] else Each(xs[..|xs| - 1], check) + [check(xs[|xs| - 1])]
  }

  lemma NextCheck<T>(xs: seq<T>, i: nat, check: T -> CheckResult)
    requires i < |xs|
    ensures Each(xs[..i + 1], check) == Each(xs[..i], check) + [check(xs[i])]
  {
    assert xs[..i + 1][..i] == xs[..i];
  }

  // ----- The Pods of a workload -----

  predicate IdentityKnown(pod: Json) {
    PodName(pod).Str? && PodName(pod).text != ""
  }

  predicate IdentitiesValid(pods: seq<Json>) {
    && (forall k :: 0 <= k < |pods| ==> IdentityKnown(pods[k]))
    && forall i, j :: 0 <= i < j < |pods| ==> PodName(pods[i]) != PodName(pods[j])
  }

  /** Lists and objects cannot be members of a Python set. */
  predicate IsHashable(v: Json) {
    !v.List? && !v.Object?
  }

  predicate PodsListed(e: Item) {
    e.error.None? && Field(e.value, "items").List?
  }

  /** Counting distinct identities fails on one that is itself a list or an object. */
  predicate PodsRaise(e: Item) {
    && PodsListed(e)
    && var pods := Field(e.value, "items").items;
       !IdentitiesValid(pods) && exists k :: 0 <= k < |pods| && !IsHashable(PodName(pods[k]))
  }

  function PodsId(t: Workload): string {
    "pods." + t.namespace + "." + t.deployment
  }

  /** str(value); show is Python's str for anything that is not a text already. */
  function Shown(v: Json, show: Json -> string): string {
    if v.Str? then v.text else show(v)
  }

  /** Pods are reported by name; an absent name sorts as the empty text. */
  function PodKey(show: Json -> string): Json -> string {
    (pod: Json) =>
      var metadata := Field(pod, "metadata");
      if metadata.Object? && "name" in metadata.fields then Shown(metadata.fields["name"], show) else ""
  }

  function PodVerdict(pod: Json, image: string): Status {
    if !PodKnown(pod) then UNKNOWN
    else if !PodRuns(pod, image) then FAIL
    else if NeverRestarted(StatusesOf(pod).items) then PASS
    else WARN
  }

  function PodId(pod: Json, namespace: string, show: Json -> string): string {
    "pod." + namespace + "." + if IsTruthy(PodName(pod)) then Shown(PodName(pod), show) else "unknown"
  }

  function PodCheck(t: Workload, show: Json -> string): Json -> CheckResult {
    (pod: Json) => CheckResult(PodId(pod, t.namespace, show), PodVerdict(pod, t.image))
  }

  function CountVerdict(pods: seq<Json>, t: Workload): Status {
    if !IdentitiesValid(pods) then UNKNOWN else if |pods| == t.replicas then PASS else FAIL
  }

  function PodChecks(e: Item, t: Workload, show: Json -> string): seq<CheckResult> {
    if !PodsListed(e) then [CheckResult(PodsId(t), UNKNOWN)]
    else
      var pods := Field(e.value, "items").items;
      [CheckResult(PodsId(t), CountVerdict(pods, t))] + Each(SortBy(pods, PodKey(show)), PodCheck(t, show))
  }

  lemma IdentitiesStep(pods: seq<Json>, i: nat)
    requires i < |pods|
    ensures IdentitiesValid(pods[..i + 1]) <==>
      && IdentitiesValid(pods[..i]) && IdentityKnown(pods[i])
      && forall k :: 0 <= k < i ==> PodName(pods[k]) != PodName(pods[i])
  {
    var more := pods[..i + 1];
    assert forall k :: 0 <= k < i ==> pods[..i][k] == more[k] == pods[k];
    if IdentitiesValid(more) {
      assert IdentityKnown(more[i]);
    }
  }

  method CheckIdentities(pods: seq<Json>) returns (valid: bool, hashable: bool)
    ensures valid <==> IdentitiesValid(pods)
    ensures hashable <==> forall k :: 0 <= k < |pods| ==> IsHashable(PodName(pods[k]))
  {
    var names := {};
    valid, hashable := true, true;
    for i := 0 to |pods|
      invariant hashable <==> forall k :: 0 <= k < i ==> IsHashable(PodName(pods[k]))
      invariant valid <==> IdentitiesValid(pods[..i])
      invariant names == set k | 0 <= k < i :: PodName(pods[k])
    {
      IdentitiesStep(pods, i);
      var name := PodName(pods[i]);
      assert name in names <==> exists k :: 0 <= k < i && PodName(pods[k]) == name;
      hashable := hashable && IsHashable(name);
      valid := valid && name.Str? && name.text != "" && name !in names;
      names := names + {name};
    }
    assert pods[..|pods|] == pods;
  }

  method CheckEachPod(pods: seq<Json>, t: Workload, show: Json -> string) returns (checks: seq<CheckResult>)
    ensures checks == Each(pods, PodCheck(t, show))
  {
    checks := [];
    ghost var podCheck := PodCheck(t, show);
    for i := 0 to |pods|
      invariant checks == Each(pods[..i], podCheck)
    {
      var check := CheckPod(pods[i], t, show);
      NextCheck(pods, i, podCheck);
      checks := checks + [check];
    }
    assert pods[..|pods|] == pods;
  }

  method CheckPods(e: Item, t: Workload, show: Json -> string) returns (r: Result<seq<CheckResult>>)
    ensures r == if PodsRaise(e) then Rejected else Accepted(PodChecks(e, t, show))
  {
    var items := Field(e.value, "items");
    if e.error.Some? || !items.List? {
      return Accepted([CheckResult(PodsId(t), UNKNOWN)]);
    }
    var valid, hashable := CheckIdentities(items.items);
    if !valid && !hashable {
      return Rejected;
    }
    var status := if !valid then UNKNOWN else if |items.items| == t.replicas then PASS else FAIL;
    var each := CheckEachPod(SortBy(items.items, PodKey(show)), t, show);
    return Accepted([CheckResult(PodsId(t), status)] + each);
  }

  // ----- Routing -----

  function EndpointReady(endpoint: Json): Json {
    Field(Field(endpoint, "conditions"), "ready")
  }

  predicate RoutingKnown(e: Item) {
    && PodsListed(e)
    && var slices := Field(e.value, "items").items;
       forall k :: 0 <= k < |slices| ==> Field(slices[k], "endpoints").List?
  }

  /** All endpoints of all slices. */
  function Endpoints(slices: seq<Json>): seq<Json> {
    if slices == [] then []
    else Endpoints(slices[..|slices| - 1]) + ListIn(Field(slices[|slices| - 1], "endpoints"))
  }

  function CountState(endpoints: seq<Json>, state: Json): nat {
    if endpoints == [] then 0
    else CountState(endpoints[..|endpoints| - 1], state)
         + (if EndpointReady(endpoints[|endpoints| - 1]) == state then 1 else 0)
  }

  /**
   The right number of endpoints that say true, and none that says false or nothing. What else an
   endpoint may say is not counted anywhere.
   */
  predicate RoutingHealthy(e: Item, t: Service) {
    && RoutingKnown(e)
    && var slices := Field(e.value, "items").items;
       && slices != [] && CountState(Endpoints(slices), Bool(true)) == t.readyEndpoints
       && forall k :: 0 <= k < |Endpoints(slices)| ==>
         EndpointReady(Endpoints(slices)[k]) != Bool(false) && EndpointReady(Endpoints(slices)[k]) != Null
  }

  function RoutingId(t: Service): string {
    "routing." + t.namespace + "." + t.name
  }

  lemma {:induction false} CountZero(endpoints: seq<Json>, state: Json)
    ensures CountState(endpoints, state) == 0 <==>
      forall k :: 0 <= k < |endpoints| ==> EndpointReady(endpoints[k]) != state
  {
    if endpoints != [] {
      CountZero(endpoints[..|endpoints| - 1], state);
    }
  }

  method CheckRouting(e: Item, t: Service) returns (check: CheckResult)
    ensures check.id == RoutingId(t)
    ensures check.status == UNKNOWN <==> !RoutingKnown(e)
    ensures check.status == PASS <==> RoutingHealthy(e, t)
    ensures check.status != WARN
  {
    var items := Field(e.value, "items");
    if e.error.Some? || !items.List? {
      return CheckResult(RoutingId(t), UNKNOWN);
    }
    var endpoints := [];
    for i := 0 to |items.items|
      invariant endpoints == Endpoints(items.items[..i])
      invariant forall k :: 0 <= k < i ==> Field(items.items[k], "endpoints").List?
    {
      var listed := Field(items.items[i], "endpoints");
      if !listed.List? {
        return CheckResult(RoutingId(t), UNKNOWN);
      }
      assert items.items[..i + 1][..i] == items.items[..i];
      endpoints := endpoints + listed.items;
    }
    assert items.items[..|items.items|] == items.items;
    var readyCount, notReady, unclear := CountState(endpoints, Bool(true)), CountState(endpoints, Bool(false)),
      CountState(endpoints, Null);
    CountZero(endpoints, Bool(false));
    CountZero(endpoints, Null);
    var healthy := |items.items| > 0 && readyCount == t.readyEndpoints && notReady == 0 && unclear == 0;
    return CheckResult(RoutingId(t), if healthy then PASS else FAIL);
  }

  // ----- The metrics service -----

  function MetricsStatus(e: Item): Json {
    if e.error.Some? then Null else ConditionStatus(Field(Field(e.value, "status"), "conditions"), "Available")
  }

  method CheckMetrics(e: Item) returns (check: CheckResult)
    ensures check == CheckResult("metrics-api-service", ConditionVerdict(MetricsStatus(e)))
  {
    if e.error.Some? {
      return CheckResult("metrics-api-service", UNKNOWN);
    }
    var observed := ReadCondition(Field(Field(e.value, "status"), "conditions"), "Available");
    return CheckResult("metrics-api-service", ConditionVerdict(observed));
  }

  // ----- HTTP endpoints -----

  const HTTP_PREFIX := "http."

  predicate IsHttp(e: Item) {
    HTTP_PREFIX <= e.id
  }

  datatype Expectation = Expectation(key: string, value: Json)

  function ExpectedFields(id: string): seq<Expectation> {
    if EndsWith(id, "/version") then
      [Expectation("app", Str("restaurant-api")), Expectation("version", Str("0.7.0"))]
    else if EndsWith(id, "/health") then [Expectation("status", Str("healthy"))]
    else if EndsWith(id, "/ready") then
      [Expectation("status", Str("ready")), Expectation("service", Str("restaurant-api"))]
    else if EndsWith(id, "/status") then
      [Expectation("status", Str("open")), Expectation("district", Str("SignalForge Restaurant District")),
       Expectation("version", Str("0.7.0")), Expectation("analyze_enabled", Bool(true))]
    else [Expectation("body", Str("ok"))]
  }

  predicate HttpKnown(e: Item) {
    && e.error.None? && e.value.Object?
    && var selected := Field(e.value, "selected"); selected.Object? && selected.fields != map[]
  }

  predicate FieldsMatch(selected: Json, expected: seq<Expectation>) {
    forall k :: 0 <= k < |expected| ==> Equals(Field(selected, expected[k].key), expected[k].value)
  }

  predicate HttpHealthy(e: Item, expected: seq<Expectation>) {
    HttpKnown(e) && Equals(Field(e.value, "status_code"), Int(200)) && FieldsMatch(Field(e.value, "selected"), expected)
  }

  method CheckHttp(e: Item, expected: seq<Expectation>) returns (check: CheckResult)
    ensures check.id == e.id
    ensures check.status == UNKNOWN <==> !HttpKnown(e)
    ensures check.status == PASS <==> HttpHealthy(e, expected)
    ensures check.status != WARN
  {
    var selected := Field(e.value, "selected");
    if e.error.Some? || !e.value.Object? || e.value.fields == map[] || !selected.Object? || selected.fields == map[] {
      return CheckResult(e.id, UNKNOWN);
    }
    var healthy := Equals(Field(e.value, "status_code"), Int(200)) && FieldsMatch(selected, expected);
    return CheckResult(e.id, if healthy then PASS else FAIL);
  }

  // ----- Everything together -----

  function DeploymentVerdict(e: Item, t: Workload): Status {
    if !DeploymentKnown(e, t) then UNKNOWN else if DeploymentHealthy(e, t) then PASS else FAIL
  }

  function RoutingVerdict(e: Item, t: Service): Status {
    if !RoutingKnown(e) then UNKNOWN else if RoutingHealthy(e, t) then PASS else FAIL
  }

  function HttpVerdict(e: Item): Status {
    if !HttpKnown(e) then UNKNOWN else if HttpHealthy(e, ExpectedFields(e.id)) then PASS else FAIL
  }

  function NodeCheck(evidence: seq<Item>): string -> CheckResult {
    (name: string) => CheckResult("node." + name, ConditionVerdict(NodeStatus(Find(evidence, "nodes"), name)))
  }

  function DeploymentCheck(evidence: seq<Item>): Workload -> CheckResult {
    (t: Workload) => CheckResult(DeploymentId(t), DeploymentVerdict(Find(evidence, DeploymentId(t)), t))
  }

  function RoutingCheck(evidence: seq<Item>): Service -> CheckResult {
    (t: Service) => CheckResult(RoutingId(t), RoutingVerdict(Find(evidence, RoutingId(t)), t))
  }

  function PodsRaiseIn(evidence: seq<Item>): Workload -> bool {
    (t: Workload) => PodsRaise(Find(evidence, PodsId(t)))
  }

  function PodsOf(evidence: seq<Item>, show: Json -> string): Workload -> seq<CheckResult> {
    (t: Workload) => PodChecks(Find(evidence, PodsId(t)), t, show)
  }

  function AllPodChecks(workloads: seq<Workload>, podsOf: Workload -> seq<CheckResult>): seq<CheckResult> {
    if workloads == [] then []
    else AllPodChecks(workloads[..|workloads| - 1], podsOf) + podsOf(workloads[|workloads| - 1])
  }

  function HttpChecks(evidence: seq<Item>): seq<CheckResult> {
    if evidence == [] then []
    else
      var rest, last := HttpChecks(evidence[..|evidence| - 1]), evidence[|evidence| - 1];
      if IsHttp(last) then rest + [CheckResult(last.id, HttpVerdict(last))] else rest
  }

  /** sorted(services, key=(namespace, name)): by name first, then stably by namespace. */
  function SortServices(services: seq<Service>): seq<Service> {
    SortBy(SortBy(services, (t: Service) => t.name), (t: Service) => t.namespace)
  }

  predicate ContextMatches(s: RawSnapshot) {
    var context := Find(s.evidence, "context");
    context.error.None? && context.value == Str(s.context)
  }

  function VersionVerdict(e: Item): Status {
    if VersionKnown(e) then PASS else UNKNOWN
  }

  function FirstChecks(s: RawSnapshot, scope: Scope): seq<CheckResult> {
    [CheckResult("context", PASS),
     CheckResult("kubernetes.version", VersionVerdict(Find(s.evidence, "kubernetes.version")))]
    + Each(scope.nodes, NodeCheck(s.evidence)) + Each(scope.workloads, DeploymentCheck(s.evidence))
  }

  function LastChecks(s: RawSnapshot, scope: Scope): seq<CheckResult> {
    Each(SortServices(scope.services), RoutingCheck(s.evidence))
    + [CheckResult("metrics-api-service", ConditionVerdict(MetricsStatus(Find(s.evidence, "metrics-api-service"))))]
    + HttpChecks(s.evidence)
  }

  /** Everything that is reported, in order. */
  function ChecksOf(s: RawSnapshot, scope: Scope, show: Json -> string): seq<CheckResult> {
    if !ContextMatches(s) then [CheckResult("context", UNKNOWN)]
    else FirstChecks(s, scope) + AllPodChecks(scope.workloads, PodsOf(s.evidence, show)) + LastChecks(s, scope)
  }

  /** The evaluation fails on an identity that cannot be counted, and on nothing else. */
  predicate Raises(s: RawSnapshot, scope: Scope) {
    ContextMatches(s) && AnyOf(scope.workloads, PodsRaiseIn(s.evidence))
  }

  method CheckNodes(evidence: seq<Item>, nodes: seq<string>) returns (checks: seq<CheckResult>)
    ensures checks == Each(nodes, NodeCheck(evidence))
  {
    checks := [];
    var e := Find(evidence, "nodes");
    ghost var nodeCheck := NodeCheck(evidence);
    for i := 0 to |nodes|
      invariant checks == Each(nodes[..i], nodeCheck)
    {
      var check := CheckNode(e, nodes[i]);
      NextCheck(nodes, i, nodeCheck);
      checks := checks + [check];
    }
    assert nodes[..|nodes|] == nodes;
  }

  method CheckDeployments(evidence: seq<Item>, workloads: seq<Workload>) returns (checks: seq<CheckResult>)
    ensures checks == Each(workloads, DeploymentCheck(evidence))
  {
    checks := [];
    ghost var deploymentCheck := DeploymentCheck(evidence);
    for i := 0 to |workloads|
      invariant checks == Each(workloads[..i], deploymentCheck)
    {
      var check := CheckDeployment(Find(evidence, DeploymentId(workloads[i])), workloads[i]);
      NextCheck(workloads, i, deploymentCheck);
      checks := checks + [check];
    }
    assert workloads[..|workloads|] == workloads;
  }

  lemma NextPods(workloads: seq<Workload>, i: nat, podsOf: Workload -> seq<CheckResult>)
    requires i < |workloads|
    ensures AllPodChecks(workloads[..i + 1], podsOf) == AllPodChecks(workloads[..i], podsOf) + podsOf(workloads[i])
  {
    assert workloads[..i + 1][..i] == workloads[..i];
  }

  method CheckAllPods(evidence: seq<Item>, workloads: seq<Workload>, show: Json -> string)
    returns (r: Result<seq<CheckResult>>)
    ensures r.Rejected? <==> AnyOf(workloads, PodsRaiseIn(evidence))
    ensures r.Accepted? ==> r.value == AllPodChecks(workloads, PodsOf(evidence, show))
  {
    var checks := [];
    ghost var raises, podsOf := PodsRaiseIn(evidence), PodsOf(evidence, show);
    for i := 0 to |workloads|
      invariant !AnyOf(workloads[..i], raises)
      invariant checks == AllPodChecks(workloads[..i], podsOf)
    {
      OneMore(workloads, i, raises);
      NextPods(workloads, i, podsOf);
      var each := CheckPods(Find(evidence, PodsId(workloads[i])), workloads[i], show);
      if each.Rejected? {
        AnyOfMeans(workloads, raises);
        return Rejected;
      }
      checks := checks + each.value;
    }
    assert workloads[..|workloads|] == workloads;
    return Accepted(checks);
  }

  method CheckRoutes(evidence: seq<Item>, services: seq<Service>) returns (checks: seq<CheckResult>)
    ensures checks == Each(services, RoutingCheck(evidence))
  {
    checks := [];
    ghost var routingCheck := RoutingCheck(evidence);
    for i := 0 to |services|
      invariant checks == Each(services[..i], routingCheck)
    {
      var check := CheckRouting(Find(evidence, RoutingId(services[i])), services[i]);
      NextCheck(services, i, routingCheck);
      checks := checks + [check];
    }
    assert services[..|services|] == services;
  }

  method CheckHttps(evidence: seq<Item>) returns (checks: seq<CheckResult>)
    ensures checks == HttpChecks(evidence)
  {
    checks := [];
    for i := 0 to |evidence|
      invariant checks == HttpChecks(evidence[..i])
    {
      assert evidence[..i + 1][..i] == evidence[..i];
      if IsHttp(evidence[i]) {
        var check := CheckHttp(evidence[i], ExpectedFields(evidence[i].id));
        checks := checks + [check];
      }
    }
    assert evidence[..|evidence|] == evidence;
  }

  method Evaluate(s: RawSnapshot, scope: Scope, show: Json -> string) returns (r: Result<seq<CheckResult>>)
    ensures r.Rejected? <==> Raises(s, scope)
    ensures r.Accepted? ==> r.value == ChecksOf(s, scope, show)
  {
    var context := Find(s.evidence, "context");
    if context.error.Some? || context.value != Str(s.context) {
      return Accepted([CheckResult("context", UNKNOWN)]);
    }
    var version := CheckVersion(Find(s.evidence, "kubernetes.version"));
    var nodes := CheckNodes(s.evidence, scope.nodes);
    var deployments := CheckDeployments(s.evidence, scope.workloads);
    var checks := [CheckResult("context", PASS), version] + nodes + deployments;
    var pods := CheckAllPods(s.evidence, scope.workloads, show);
    if pods.Rejected? {
      return Rejected;
    }
    var routes := CheckRoutes(s.evidence, SortServices(scope.services));
    var metrics := CheckMetrics(Find(s.evidence, "metrics-api-service"));
    var https := CheckHttps(s.evidence);
    return Accepted(checks + pods.value + (routes + [metrics] + https));
  }
}
