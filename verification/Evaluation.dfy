/** The verdict over collected evidence: one check after another, each UNKNOWN when its evidence is not conclusive. */
module Evaluation {
  import opened Wrappers
  import opened Evidence

  /** What a JSON reader returns; Null also stands for Python's None where a key is absent. */
  datatype Json =
    | Null
    | Bool(flag: bool)
    | Int(n: int)
    | Float(r: real)
    | Str(text: string)
    | List(items: seq<Json>)
    | Object(fields: map<string, Json>)

  /** error is the category of a failed collection. */
  datatype Item = Item(id: string, source: string, value: Json, error: Option<string>)

  datatype RawSnapshot = RawSnapshot(context: string, evidence: seq<Item>)

  datatype Workload = Workload(namespace: string, deployment: string, replicas: int, image: string)

  datatype Service = Service(namespace: string, name: string, readyEndpoints: int)

  datatype Scope = Scope(nodes: seq<string>, workloads: seq<Workload>, services: seq<Service>)

  datatype CheckResult = CheckResult(id: string, status: Status)

  // ----- Python's view of a value -----

  function Field(v: Json, key: string): Json {
    if v.Object? && key in v.fields then v.fields[key] else Null
  }

  /** value.get(key, 0) */
  function Defaulted(v: Json, key: string): Json {
    if v.Object? && key in v.fields then v.fields[key] else Int(0)
  }

  predicate IsTruthy(v: Json) {
    match v
    case Null => false
    case Bool(flag) => flag
    case Int(n) => n != 0
    case Float(r) => r != 0.0
    case Str(text) => text != ""
    case List(items) => items != []
    case Object(fields) => fields != map[]
  }

  /** Python compares booleans and floats with integers by value. */
  function Numeric(v: Json): Option<real> {
    match v
    case Bool(flag) => Some(if flag then 1.0 else 0.0)
    case Int(n) => Some(n as real)
    case Float(r) => Some(r)
    case _ => None
  }

  predicate Equals(v: Json, expected: Json) {
    if Numeric(v).Some? && Numeric(expected).Some? then Numeric(v) == Numeric(expected) else v == expected
  }

  /** isinstance(v, int), which lets booleans through. */
  function IntValue(v: Json): Option<int> {
    match v
    case Int(n) => Some(n)
    case Bool(flag) => Some(if flag then 1 else 0)
    case _ => None
  }

  /** type(v) is int and v >= least */
  predicate IsCount(v: Json, least: int) {
    v.Int? && v.n >= least
  }

  /** The evidence under an identifier: the last of that name, and an empty one when there is none. */
  function Find(evidence: seq<Item>, id: string): Item {
    if evidence == [] then Item(id, "", Null, None)
    else if evidence[|evidence| - 1].id == id then evidence[|evidence| - 1]
    else Find(evidence[..|evidence| - 1], id)
  }

  // ----- Versions -----

  predicate VersionKnown(e: Item) {
    && e.error.None?
    && IsTruthy(Field(Field(e.value, "clientVersion"), "gitVersion"))
    && IsTruthy(Field(Field(e.value, "serverVersion"), "gitVersion"))
  }

  method CheckVersion(e: Item) returns (check: CheckResult)
    ensures check.id == "kubernetes.version"
    ensures check.status == if VersionKnown(e) then PASS else UNKNOWN
  {
    var client := if IsTruthy(e.value) && e.value.Object? then Field(e.value, "clientVersion") else Null;
    var server := if IsTruthy(e.value) && e.value.Object? then Field(e.value, "serverVersion") else Null;
    if e.error.Some? || !client.Object? || client.fields == map[] || !server.Object? || server.fields == map[] ||
        !IsTruthy(Field(client, "gitVersion")) || !IsTruthy(Field(server, "gitVersion")) {
      return CheckResult("kubernetes.version", UNKNOWN);
    }
    return CheckResult("kubernetes.version", PASS);
  }

  // ----- Conditions, as nodes, Pods and the metrics service report them -----

  function ListIn(v: Json): seq<Json> {
    if v.List? then v.items else []
  }

  /** [c for c in conditions if c.get("type") == kind] */
  function OfType(conditions: seq<Json>, kind: string): seq<Json> {
    if conditions == [] then []
    else (if Field(conditions[0], "type") == Str(kind) then [conditions[0]] else []) + OfType(conditions[1..], kind)
  }

  /** The one member, Null when there is none or more than one. */
  function Sole(vs: seq<Json>): Json {
    if |vs| == 1 then vs[0] else Null
  }

  /** What the one condition of the kind says. */
  function ConditionStatus(conditions: Json, kind: string): Json {
    Field(Sole(OfType(ListIn(conditions), kind)), "status")
  }

  predicate IsDefinite(status: Json) {
    status == Str("True") || status == Str("False")
  }

  function ConditionVerdict(status: Json): Status {
    if status == Str("True") then PASS else if status == Str("False") then FAIL else UNKNOWN
  }

  method ReadCondition(conditions: Json, kind: string) returns (status: Json)
    ensures status == ConditionStatus(conditions, kind)
  {
    var matching := [];
    if conditions.List? {
      matching := OfType(conditions.items, kind);
    }
    if |matching| != 1 {
      return Null;
    }
    return Field(matching[0], "status");
  }

  // ----- Nodes -----

  /** [item for item in items if item["metadata"].get("name") == name] */
  function Named(items: seq<Json>, name: string): seq<Json> {
    if items == [] then []
    else (if Field(Field(items[0], "metadata"), "name") == Str(name) then [items[0]] else []) + Named(items[1..], name)
  }

  /** What the one Ready condition of the one node of that name says. */
  function NodeStatus(e: Item, name: string): Json {
    if e.error.Some? then Null
    else
      var node := Sole(Named(ListIn(Field(e.value, "items")), name));
      ConditionStatus(Field(Field(node, "status"), "conditions"), "Ready")
  }

  method CheckNode(e: Item, name: string) returns (check: CheckResult)
    ensures check == CheckResult("node." + name, ConditionVerdict(NodeStatus(e, name)))
  {
    var id := "node." + name;
    var items := Field(e.value, "items");
    if e.error.Some? || !items.List? {
      return CheckResult(id, UNKNOWN);
    }
    var matches := Named(items.items, name);
    if |matches| != 1 {
      return CheckResult(id, UNKNOWN);
    }
    var observed := ReadCondition(Field(Field(matches[0], "status"), "conditions"), "Ready");
    return CheckResult(id, ConditionVerdict(observed));
  }

  // ----- Deployments -----

  function DeploymentId(t: Workload): string {
    "deployment." + t.namespace + "." + t.deployment
  }

  function Spec(e: Item): Json {
    Field(e.value, "spec")
  }

  function State(e: Item): Json {
    Field(e.value, "status")
  }

  /** The right object, its counts well-formed, and its status up to date with its specification. */
  predicate DeploymentKnown(e: Item, t: Workload) {
    var metadata := Field(e.value, "metadata");
    && e.error.None? && Field(metadata, "name") == Str(t.deployment) && Field(metadata, "namespace") == Str(t.namespace)
    && IsCount(Field(Spec(e), "replicas"), 0) && IsCount(Defaulted(State(e), "updatedReplicas"), 0)
    && IsCount(Defaulted(State(e), "readyReplicas"), 0) && IsCount(Defaulted(State(e), "availableReplicas"), 0)
    && IsCount(Field(metadata, "generation"), 1)
    && Field(State(e), "observedGeneration") == Field(metadata, "generation")
  }

  predicate DeploymentHealthy(e: Item, t: Workload) {
    && DeploymentKnown(e, t)
    && Field(Spec(e), "replicas") == Int(t.replicas) && Defaulted(State(e), "updatedReplicas") == Int(t.replicas)
    && Defaulted(State(e), "readyReplicas") == Int(t.replicas)
    && Defaulted(State(e), "availableReplicas") == Int(t.replicas)
    && Field(Spec(e), "images") == List([Str(t.image)])
  }

  method CheckDeployment(e: Item, t: Workload) returns (check: CheckResult)
    ensures check.id == DeploymentId(t)
    ensures check.status == PASS <==> DeploymentHealthy(e, t)
    ensures check.status == UNKNOWN <==> !DeploymentKnown(e, t)
    ensures check.status != WARN
  {
    var metadata, spec, state := Field(e.value, "metadata"), Spec(e), State(e);
    var hasSpec, hasState := spec.Object? && spec.fields != map[], state.Object? && state.fields != map[];
    var replicas := if hasSpec then Field(spec, "replicas") else Null;
    var updated := if hasState then Defaulted(state, "updatedReplicas") else Null;
    var ready := if hasState then Defaulted(state, "readyReplicas") else Null;
    var available := if hasState then Defaulted(state, "availableReplicas") else Null;
    var generation := Field(metadata, "generation");
    var observedGeneration := if hasState then Field(state, "observedGeneration") else Null;
    var identityOk := Field(metadata, "name") == Str(t.deployment) && Field(metadata, "namespace") == Str(t.namespace);
    if e.error.Some? || !identityOk || !IsCount(replicas, 0) || !IsCount(updated, 0) || !IsCount(ready, 0) ||
        !IsCount(available, 0) || !IsCount(generation, 1) || !IsCount(observedGeneration, 0) {
      return CheckResult(DeploymentId(t), UNKNOWN);
    }
    if observedGeneration != generation {
      return CheckResult(DeploymentId(t), UNKNOWN);
    }
    var images := if spec.Object? && "images" in spec.fields then spec.fields["images"] else List([]);
    var healthy := replicas == updated == ready == available == Int(t.replicas) && images == List([Str(t.image)]);
    return CheckResult(DeploymentId(t), if healthy then PASS else FAIL);
  }

  // ----- Pods -----

  function PodName(pod: Json): Json {
    Field(Field(pod, "metadata"), "name")
  }

  function StatusesOf(pod: Json): Json {
    Field(Field(pod, "status"), "containerStatuses")
  }

  function ContainersOf(pod: Json): Json {
    Field(Field(pod, "spec"), "containers")
  }

  predicate ContainerStatusKnown(status: Json) {
    && Field(status, "ready").Bool? && Field(status, "imageID").Str?
    && IntValue(Field(status, "restartCount")).Some? && IntValue(Field(status, "restartCount")).value >= 0
  }

  predicate AllKnown(statuses: seq<Json>) {
    forall k :: 0 <= k < |statuses| ==> ContainerStatusKnown(statuses[k])
  }

  predicate AllImages(containers: seq<Json>) {
    forall k :: 0 <= k < |containers| ==> Field(containers[k], "image").Str?
  }

  function PodReadiness(pod: Json): Json {
    ConditionStatus(Field(Field(pod, "status"), "conditions"), "Ready")
  }

  /** The evidence about a Pod is complete and well-formed. */
  predicate PodKnown(pod: Json) {
    && IsTruthy(PodName(pod))
    && StatusesOf(pod).List? && StatusesOf(pod).items != [] && AllKnown(StatusesOf(pod).items)
    && ContainersOf(pod).List? && ContainersOf(pod).items != [] && AllImages(ContainersOf(pod).items)
    && IsDefinite(PodReadiness(pod))
  }

  predicate Contains(text: string, part: string) {
    part <= text || (text != "" && Contains(text[1..], part))
  }

  /** image.split("@", 1)[1] */
  function AfterAt(text: string): string {
    if text == "" then "" else if text[0] == '@' then text[1..] else AfterAt(text[1..])
  }

  predicate EndsWith(text: string, part: string) {
    |part| <= |text| && text[|text| - |part|..] == part
  }

  predicate HasDigest(imageId: Json, digest: string) {
    imageId.Str? && EndsWith(imageId.text, digest)
  }

  const DIGEST_MARK := "@sha256:"

  /** A pinned image runs under its digest. */
  predicate DigestMatches(image: string, statuses: seq<Json>) {
    Contains(image, DIGEST_MARK) ==>
      exists k :: 0 <= k < |statuses| && HasDigest(Field(statuses[k], "imageID"), AfterAt(image))
  }

  /** Running, ready in every container, and made from the one configured image. */
  predicate PodRuns(pod: Json, image: string) {
    && PodKnown(pod) && Field(Field(pod, "status"), "phase") == Str("Running") && PodReadiness(pod) == Str("True")
    && (forall k :: 0 <= k < |StatusesOf(pod).items| ==> Field(StatusesOf(pod).items[k], "ready") == Bool(true))
    && |ContainersOf(pod).items| == 1 && Field(ContainersOf(pod).items[0], "image") == Str(image)
    && DigestMatches(image, StatusesOf(pod).items)
  }

  predicate NeverRestarted(statuses: seq<Json>) {
    forall k :: 0 <= k < |statuses| ==> IntValue(Field(statuses[k], "restartCount")) == Some(0)
  }

  method AddContainers(statuses: seq<Json>) returns (ready: bool, restarts: int)
    requires AllKnown(statuses)
    ensures ready <==> forall k :: 0 <= k < |statuses| ==> Field(statuses[k], "ready") == Bool(true)
    ensures restarts >= 0 && (restarts == 0 <==> NeverRestarted(statuses))
  {
    ready, restarts := true, 0;
    for i := 0 to |statuses|
      invariant ready <==> forall k :: 0 <= k < i ==> Field(statuses[k], "ready") == Bool(true)
      invariant restarts >= 0 && (restarts == 0 <==> NeverRestarted(statuses[..i]))
    {
      ready := ready && Field(statuses[i], "ready").flag;
      restarts := restarts + IntValue(Field(statuses[i], "restartCount")).value;
      assert statuses[..i + 1] == statuses[..i] + [statuses[i]];
    }
    assert statuses[..|statuses|] == statuses;
  }

  method MatchImages(containers: seq<Json>, statuses: seq<Json>, image: string)
    returns (configuredMatch: bool, digestMatch: bool)
    requires AllImages(containers) && AllKnown(statuses)
    ensures configuredMatch <==> |containers| == 1 && Field(containers[0], "image") == Str(image)
    ensures configuredMatch ==> (digestMatch <==> DigestMatches(image, statuses))
  {
    configuredMatch := |containers| == 1 && Field(containers[0], "image").text == image;
    digestMatch := true;
    for i := 0 to |containers|
      invariant digestMatch <==> forall k :: 0 <= k < i ==> DigestMatches(Field(containers[k], "image").text, statuses)
    {
      var configured := Field(containers[i], "image").text;
      if Contains(configured, DIGEST_MARK) {
        var digest := AfterAt(configured);
        digestMatch := digestMatch &&
          exists k :: 0 <= k < |statuses| && HasDigest(Field(statuses[k], "imageID"), digest);
      }
    }
  }

  method CheckPod(pod: Json, t: Workload, show: Json -> string) returns (check: CheckResult)
    ensures check.status == UNKNOWN <==> !PodKnown(pod)
    ensures check.status == PASS <==> PodRuns(pod, t.image) && NeverRestarted(StatusesOf(pod).items)
    ensures check.status == WARN <==> PodRuns(pod, t.image) && !NeverRestarted(StatusesOf(pod).items)
    ensures check.id == "pod." + t.namespace + "." +
      if !IsTruthy(PodName(pod)) then "unknown" else if PodName(pod).Str? then PodName(pod).text else show(PodName(pod))
  {
    var name := PodName(pod);
    var shown := if !IsTruthy(name) then "unknown" else if name.Str? then name.text else show(name);
    var id := "pod." + t.namespace + "." + shown;
    var statuses, containers := StatusesOf(pod), ContainersOf(pod);
    if !IsTruthy(name) || !statuses.List? || statuses.items == [] || !containers.List? || containers.items == [] {
      return CheckResult(id, UNKNOWN);
    }
    if !AllKnown(statuses.items) || !AllImages(containers.items) {
      return CheckResult(id, UNKNOWN);
    }
    var podReady := ReadCondition(Field(Field(pod, "status"), "conditions"), "Ready");
    if podReady != Str("True") && podReady != Str("False") {
      return CheckResult(id, UNKNOWN);
    }
    var ready, restarts := AddContainers(statuses.items);
    var configuredMatch, digestMatch := MatchImages(containers.items, statuses.items, t.image);
    if Field(Field(pod, "status"), "phase") != Str("Running") || podReady != Str("True") || !ready ||
        !configuredMatch || !digestMatch {
      return CheckResult(id, FAIL);
    }
    return CheckResult(id, if restarts > 0 then WARN else PASS);
  }
}
