/** What the checks of an evaluation say beside their identifiers and statuses, and when none of it is empty. */
module CheckTexts {
  import opened Wrappers
  import opened Evidence
  import opened Evaluation
  import opened Verdict

  datatype Detail = Detail(observation: string, source: string, expected: Option<string>, observed: Option<string>,
                           errorCategory: Option<string>)

  /** Python's str of anything but a text: never empty. */
  type Show = show: Json -> string | forall v: Json :: show(v) != "" witness (_ => "None")

  /** The source of the evidence under an identifier, or what the evaluator puts where there is none. */
  function SourceOf(evidence: seq<Item>, id: string, fallback: string): string {
    if evidence == [] then fallback
    else if evidence[|evidence| - 1].id == id then evidence[|evidence| - 1].source
    else SourceOf(evidence[..|evidence| - 1], id, fallback)
  }

  // ----- Pieces of text -----

  /** label=value, label=value */
  function Labelled(pairs: seq<(string, string)>): (text: string)
    ensures pairs != [] ==> text != ""
  {
    if pairs == [] then ""
    else pairs[0].0 + "=" + pairs[0].1 + (if |pairs| > 1 then ", " + Labelled(pairs[1..]) else "")
  }

  function Slashed(parts: seq<string>): string {
    if parts == [] then "" else parts[0] + (if |parts| > 1 then "/" + Slashed(parts[1..]) else "")
  }

  function Number(n: int, show: Show): string {
    show(Int(n))
  }

  function Lower(flag: bool): string {
    if flag then "true" else "false"
  }

  function Category(e: Item, otherwise: string): Option<string> {
    Some(if e.error.Some? then e.error.value else otherwise)
  }

  /** What is said of a condition that may not be definite. */
  function ConditionDetail(observations: (string, string, string), source: string, kind: string, status: Json,
                           show: Show): Detail {
    var observed := Labelled([(kind, Shown(status, show))]);
    if status == Str("True") then Detail(observations.0, source, Some(Labelled([(kind, "True")])), Some(observed), None)
    else if status == Str("False") then
      Detail(observations.1, source, Some(Labelled([(kind, "True")])), Some(observed), None)
    else
      Detail(observations.2, source, Some(Labelled([(kind, "True")])), Some(observed), ConditionCategory(status))
  }

  function ConditionCategory(status: Json): Option<string> {
    Some(if status == Str("Unknown") then "condition-unknown" else "unexpected-shape")
  }

  // ----- One check after another -----

  function ContextDetail(e: Item, source: string, context: string, show: Show): Detail {
    if e.error.Some? || e.value != Str(context) then
      Detail("Exact context validation failed", source, Some(context),
             Some(if IsTruthy(e.value) then Shown(e.value, show) else "unavailable"), Category(e, "context-mismatch"))
    else Detail("Exact Kubernetes context matched", source, Some(context), Some(Shown(e.value, show)), None)
  }

  function VersionDetail(e: Item, source: string, show: Show): Detail {
    if VersionKnown(e) then
      var client := Field(Field(e.value, "clientVersion"), "gitVersion");
      var server := Field(Field(e.value, "serverVersion"), "gitVersion");
      Detail("Kubernetes versions collected", source, None,
             Some(Labelled([("client", Shown(client, show)), ("server", Shown(server, show))])), None)
    else Detail("Kubernetes versions are unavailable", source, None, None, Category(e, "unexpected-shape"))
  }

  function NodeDetail(e: Item, source: string, show: Show): string -> Detail {
    (name: string) =>
      if NodesListed(e) then NodeStateDetail(Named(Field(e.value, "items").items, name), source, show)
      else NodesUnlistedDetail(e, source)
  }

  predicate NodesListed(e: Item) {
    e.error.None? && Field(e.value, "items").List?
  }

  function NodesUnlistedDetail(e: Item, source: string): Detail {
    Detail("Node evidence is unavailable", source, Some("one identity with Ready=True"), None,
           Category(e, "unexpected-shape"))
  }

  function NodeStateDetail(matches: seq<Json>, source: string, show: Show): Detail {
    var ready := OfType(ListIn(Field(Field(Sole(matches), "status"), "conditions")), "Ready");
    if |matches| != 1 || |ready| != 1 then
      Detail("Node identity or Ready condition is incomplete", source, Some("one identity with one Ready condition"),
             Some(Labelled([("identities", Number(|matches|, show)), ("readyConditions", Number(|ready|, show))])),
             Some("incomplete-evidence"))
    else
      ConditionDetail(("Node is Ready", "Node is not Ready", "Node Ready condition is unknown or malformed"), source,
                      "Ready", Field(ready[0], "status"), show)
  }

  /** The right object with well-formed counts, whether or not its status is up to date. */
  predicate DeploymentReadable(e: Item, t: Workload) {
    var metadata := Field(e.value, "metadata");
    && e.error.None? && Field(metadata, "name") == Str(t.deployment) && Field(metadata, "namespace") == Str(t.namespace)
    && IsCount(Field(Spec(e), "replicas"), 0) && IsCount(Defaulted(State(e), "updatedReplicas"), 0)
    && IsCount(Defaulted(State(e), "readyReplicas"), 0) && IsCount(Defaulted(State(e), "availableReplicas"), 0)
    && IsCount(Field(metadata, "generation"), 1) && IsCount(Field(State(e), "observedGeneration"), 0)
  }

  function Generation(e: Item): Json {
    Field(Field(e.value, "metadata"), "generation")
  }

  function Generations(e: Item, show: Show): seq<(string, string)> {
    [("generation", show(Generation(e))), ("observedGeneration", show(Field(State(e), "observedGeneration")))]
  }

  function ImagesOf(e: Item): Json {
    if Spec(e).Object? && "images" in Spec(e).fields then Spec(e).fields["images"] else List([])
  }

  function DeploymentExpected(t: Workload, show: Show): (text: string)
    ensures text != ""
  {
    var target := Number(t.replicas, show);
    Slashed([target, target, target, target]) + ", "
    + Labelled([("images", show(List([Str(t.image)]))), ("observedGeneration", "generation")])
  }

  function DeploymentObserved(e: Item, show: Show): (text: string)
    ensures text != ""
  {
    Slashed([show(Field(Spec(e), "replicas")), show(Defaulted(State(e), "updatedReplicas")),
             show(Defaulted(State(e), "readyReplicas")), show(Defaulted(State(e), "availableReplicas"))]) + ", "
    + Labelled([("images", Shown(ImagesOf(e), show))] + Generations(e, show))
  }

  function StaleDetail(e: Item, source: string, isStale: bool, show: Show): Detail {
    Detail(if isStale then "Deployment status has not observed the desired generation"
           else "Deployment observed generation is ahead of the desired generation",
           source, Some("observedGeneration=generation"), Some(Labelled(Generations(e, show))),
           Some(if isStale then "stale-generation" else "inconsistent-generation"))
  }

  function UnreadableDetail(e: Item, source: string, t: Workload, show: Show): Detail {
    Detail("Deployment evidence is unavailable or malformed", source,
           Some(Number(t.replicas, show) + " desired/updated/ready/available"), None, Category(e, "unexpected-shape"))
  }

  function ReplicasDetail(e: Item, source: string, t: Workload, isHealthy: bool, show: Show): Detail {
    Detail(if isHealthy then "Deployment replica state matches" else "Deployment replica state does not match",
           source, Some(DeploymentExpected(t, show)), Some(DeploymentObserved(e, show)), None)
  }

  function DeploymentDetail(e: Item, source: string, t: Workload, show: Show): Detail {
    DeploymentDetailFor(e, source, t, DeploymentVerdict(e, t), DeploymentReadable(e, t), show)
  }

  function DeploymentDetailFor(e: Item, source: string, t: Workload, verdict: Status, isReadable: bool, show: Show)
    : Detail
  {
    if verdict != UNKNOWN then ReplicasDetail(e, source, t, verdict == PASS, show)
    else if isReadable then StaleDetail(e, source, IsStale(e), show)
    else UnreadableDetail(e, source, t, show)
  }

  /** observed_generation < generation, of two counts */
  predicate IsStale(e: Item) {
    var observed := Field(State(e), "observedGeneration");
    observed.Int? && Generation(e).Int? && observed.n < Generation(e).n
  }

  /** len(set(names)), over the Pods that are objects with some content. */
  function DistinctNames(pods: seq<Json>): nat {
    if pods == [] then 0
    else
      var last := pods[|pods| - 1];
      DistinctNames(pods[..|pods| - 1]) + if IsNew(pods[..|pods| - 1], last) then 1 else 0
  }

  predicate IsNew(pods: seq<Json>, pod: Json) {
    && pod.Object? && pod.fields != map[]
    && forall k :: 0 <= k < |pods| && pods[k].Object? && pods[k].fields != map[] ==>
      !Equals(PodName(pods[k]), PodName(pod))
  }

  function PodsDetail(e: Item, source: string, t: Workload, show: Show): Detail {
    if !PodsListed(e) then
      Detail("Pod evidence is unavailable", source, None, None, Category(e, "unexpected-shape"))
    else
      var pods := Field(e.value, "items").items;
      if !IdentitiesValid(pods) then
        Detail("Pod identities are incomplete or duplicated", source,
               Some(Number(t.replicas, show) + " unique Pod identities"),
               Some(Labelled([("identities", Number(DistinctNames(pods), show))])), Some("incomplete-evidence"))
      else
        Detail(if |pods| == t.replicas then "Selected Pod count matches" else "Selected Pod count does not match",
               source, Some(Number(t.replicas, show)), Some(Number(|pods|, show)), None)
  }

  function Restarts(statuses: seq<Json>): int {
    if statuses == [] then 0
    else
      var count := IntValue(Field(statuses[|statuses| - 1], "restartCount"));
      Restarts(statuses[..|statuses| - 1]) + if count.Some? then count.value else 0
  }

  function FieldOfEach(vs: seq<Json>, key: string): seq<Json> {
    seq(|vs|, k requires 0 <= k < |vs| => Field(vs[k], key))
  }

  predicate AllReady(statuses: seq<Json>) {
    forall k :: 0 <= k < |statuses| ==> Field(statuses[k], "ready") == Bool(true)
  }

  predicate AllDigestsMatch(containers: seq<Json>, statuses: seq<Json>) {
    forall k :: 0 <= k < |containers| ==>
      var image := Field(containers[k], "image");
      image.Str? ==> DigestMatches(image.text, statuses)
  }

  function PodObservation(pod: Json, image: string): (text: string)
    ensures text != ""
  {
    match PodVerdict(pod, image)
    case PASS => "Pod is Running, ready, and has not restarted"
    case WARN => "Pod is ready but has restarted"
    case _ => "Pod runtime state does not match expectations"
  }

  function PodExpected(image: string, show: Show): (text: string)
    ensures text != ""
  {
    Labelled([("phase", "Running"), ("podReady", "True"), ("ready", "true"), ("restarts", "0"),
              ("configuredImages", show(List([Str(image)])))]) + ", pinned digest matched when present"
  }

  function PodObserved(pod: Json, image: string, show: Show): seq<(string, string)> {
    var statuses, containers := ListIn(StatusesOf(pod)), ListIn(ContainersOf(pod));
    var configured := FieldOfEach(containers, "image");
    [("phase", Shown(Field(Field(pod, "status"), "phase"), show)), ("podReady", Shown(PodReadiness(pod), show)),
     ("ready", Lower(AllReady(statuses))), ("restarts", Number(Restarts(statuses), show)),
     ("configuredImages", show(List(configured))),
     ("runtimeImageIDs", show(List(FieldOfEach(statuses, "imageID")))),
     ("configuredMatched", Lower(configured == [Str(image)])),
     ("digestMatched", Lower(AllDigestsMatch(containers, statuses)))]
  }

  /** What is said of a Pod whose evidence is complete. */
  function PodStateDetail(pod: Json, source: string, image: string, show: Show): Detail {
    Detail(PodObservation(pod, image), source, Some(PodExpected(image, show)),
           Some(Labelled(PodObserved(pod, image, show))), None)
  }

  /** state.get("conditions", []) */
  function ConditionsOf(pod: Json): Json {
    var state := Field(pod, "status");
    if state.Object? && "conditions" in state.fields then state.fields["conditions"] else List([])
  }

  predicate ContainersGiven(pod: Json) {
    && IsTruthy(PodName(pod)) && StatusesOf(pod).List? && StatusesOf(pod).items != []
    && ContainersOf(pod).List? && ContainersOf(pod).items != []
  }

  function PodUnknownDetail(pod: Json, source: string): Detail {
    if !ContainersGiven(pod) then Detail("Pod evidence is incomplete", source, None, None, Some("unexpected-shape"))
    else if !AllKnown(StatusesOf(pod).items) || !AllImages(ContainersOf(pod).items) then
      Detail("Pod container evidence is malformed", source, None, None, Some("unexpected-shape"))
    else if |OfType(ListIn(ConditionsOf(pod)), "Ready")| != 1 then
      Detail("Pod Ready condition is missing, duplicated, or malformed", source, None, None,
             Some(if ConditionsOf(pod).List? then "incomplete-evidence" else "unexpected-shape"))
    else
      Detail("Pod Ready condition is unknown or malformed", source, None, None, ConditionCategory(PodReadiness(pod)))
  }

  function PodDetail(source: string, image: string, show: Show): Json -> Detail {
    (pod: Json) => PodDetailOf(pod, source, image, show)
  }

  function PodDetailOf(pod: Json, source: string, image: string, show: Show): Detail {
    if PodKnown(pod) then PodStateDetail(pod, source, image, show) else PodUnknownDetail(pod, source)
  }

  function RoutingDetail(e: Item, source: string, t: Service, show: Show): Detail {
    if e.error.Some? || !Field(e.value, "items").List? then
      Detail("EndpointSlice evidence is unavailable", source, None, None, Category(e, "unexpected-shape"))
    else if !RoutingKnown(e) then
      Detail("EndpointSlice evidence is malformed", source, None, None, Some("unexpected-shape"))
    else
      Detail(if RoutingHealthy(e, t) then "Service routing matches" else "Service routing does not match", source,
             Some(Labelled([("ready", Number(t.readyEndpoints, show)), ("notReady", "0"), ("unknown", "0")])),
             Some(Labelled(RoutingObserved(Field(e.value, "items").items, show))), None)
  }

  function RoutingObserved(slices: seq<Json>, show: Show): seq<(string, string)> {
    var endpoints := Endpoints(slices);
    [("slices", Number(|slices|, show)), ("ready", Number(CountState(endpoints, Bool(true)), show)),
     ("notReady", Number(CountState(endpoints, Bool(false)), show)),
     ("unknown", Number(CountState(endpoints, Null), show))]
  }

  function MetricsDetail(e: Item, source: string, show: Show): Detail {
    var available := OfType(ListIn(Field(Field(e.value, "status"), "conditions")), "Available");
    if e.error.Some? || |available| != 1 then
      Detail("Metrics APIService evidence is incomplete", source, None, None, Category(e, "incomplete-evidence"))
    else
      ConditionDetail(("Metrics APIService is available", "Metrics APIService is unavailable",
                       "Metrics APIService Available condition is unknown or malformed"),
                      source, "Available", Field(available[0], "status"), show)
  }

  function FieldsOf(expected: seq<Expectation>): map<string, Json> {
    if expected == [] then map[]
    else FieldsOf(expected[..|expected| - 1])[expected[|expected| - 1].key := expected[|expected| - 1].value]
  }

  function HttpDetail(e: Item, show: Show): Detail {
    if !HttpKnown(e) then
      Detail("HTTP evidence is unavailable", e.source, None, None, Category(e, "unexpected-shape"))
    else
      var expected := ExpectedFields(e.id);
      Detail(if HttpHealthy(e, expected) then "HTTP endpoint matched" else "HTTP endpoint did not match", e.source,
             Some(Labelled([("status", "200"), ("fields", show(Object(FieldsOf(expected))))])),
             Some(Labelled([("status", Shown(Field(e.value, "status_code"), show)),
                            ("fields", show(Field(e.value, "selected")))])),
             None)
  }

  // ----- When a text is empty, and when there is a category -----

  predicate IsWritten(d: Detail) {
    && d.observation != "" && d.source != ""
    && PresentIsNonEmpty(d.expected) && PresentIsNonEmpty(d.observed) && PresentIsNonEmpty(d.errorCategory)
  }

  /** A category is given exactly for checks that settle nothing. */
  predicate Explains(d: Detail, status: Status) {
    d.errorCategory.Some? <==> status == UNKNOWN
  }

  /** The evidence comes with a source, and with a category if its collection failed. */
  predicate IsGiven(e: Item, source: string) {
    source != "" && (e.error.Some? ==> e.error.value != "")
  }

  lemma ContextWritten(e: Item, source: string, context: string, show: Show)
    ensures IsWritten(ContextDetail(e, source, context, show)) <==> IsGiven(e, source) && context != ""
  {
  }

  lemma VersionWritten(e: Item, source: string, show: Show)
    ensures IsWritten(VersionDetail(e, source, show)) <==> IsGiven(e, source)
    ensures Explains(VersionDetail(e, source, show), VersionVerdict(e))
  {
  }

  lemma ConditionWritten(observations: (string, string, string), source: string, kind: string, status: Json, show: Show)
    requires observations.0 != "" && observations.1 != "" && observations.2 != ""
    ensures var d := ConditionDetail(observations, source, kind, status, show);
      (IsWritten(d) <==> source != "") && Explains(d, ConditionVerdict(status))
  {
  }

  lemma NodeStateWritten(matches: seq<Json>, source: string, show: Show)
    ensures var d := NodeStateDetail(matches, source, show);
      && (IsWritten(d) <==> source != "")
      && Explains(d, ConditionVerdict(ConditionStatus(Field(Field(Sole(matches), "status"), "conditions"), "Ready")))
  {
    var ready := OfType(ListIn(Field(Field(Sole(matches), "status"), "conditions")), "Ready");
    if |matches| == 1 && |ready| == 1 {
      ConditionWritten(("Node is Ready", "Node is not Ready", "Node Ready condition is unknown or malformed"), source,
                       "Ready", Field(ready[0], "status"), show);
    } else {
      assert Sole(ready) == Null;
    }
  }

  lemma NodesUnlisted(e: Item, source: string, name: string)
    requires !NodesListed(e)
    ensures var d := NodesUnlistedDetail(e, source);
      (IsWritten(d) <==> IsGiven(e, source)) && Explains(d, ConditionVerdict(NodeStatus(e, name)))
  {
    if e.error.None? {
      assert Named(ListIn(Field(e.value, "items")), name) == [];
    }
  }

  lemma NodeWritten(e: Item, source: string, name: string, show: Show)
    ensures IsWritten(NodeDetail(e, source, show)(name)) <==> IsGiven(e, source)
    ensures Explains(NodeDetail(e, source, show)(name), ConditionVerdict(NodeStatus(e, name)))
  {
    if NodesListed(e) {
      NodeStateWritten(Named(Field(e.value, "items").items, name), source, show);
    } else {
      NodesUnlisted(e, source, name);
    }
  }

  lemma ReplicasWritten(e: Item, source: string, t: Workload, isHealthy: bool, show: Show)
    ensures IsWritten(ReplicasDetail(e, source, t, isHealthy, show)) <==> source != ""
    ensures ReplicasDetail(e, source, t, isHealthy, show).errorCategory.None?
  {
  }

  lemma StaleWritten(e: Item, source: string, isStale: bool, show: Show)
    ensures IsWritten(StaleDetail(e, source, isStale, show)) <==> source != ""
    ensures StaleDetail(e, source, isStale, show).errorCategory.Some?
  {
  }

  lemma UnreadableWritten(e: Item, source: string, t: Workload, show: Show)
    ensures IsWritten(UnreadableDetail(e, source, t, show)) <==> IsGiven(e, source)
    ensures UnreadableDetail(e, source, t, show).errorCategory.Some?
  {
  }

  lemma DeploymentForWritten(e: Item, source: string, t: Workload, verdict: Status, isReadable: bool, show: Show)
    requires verdict != UNKNOWN || isReadable ==> e.error.None?
    ensures var d := DeploymentDetailFor(e, source, t, verdict, isReadable, show);
      (IsWritten(d) <==> IsGiven(e, source)) && Explains(d, verdict)
  {
    if verdict != UNKNOWN {
      ReplicasWritten(e, source, t, verdict == PASS, show);
    } else if isReadable {
      StaleWritten(e, source, IsStale(e), show);
    } else {
      UnreadableWritten(e, source, t, show);
    }
  }

  lemma DeploymentWritten(e: Item, source: string, t: Workload, show: Show)
    ensures IsWritten(DeploymentDetail(e, source, t, show)) <==> IsGiven(e, source)
    ensures Explains(DeploymentDetail(e, source, t, show), DeploymentVerdict(e, t))
  {
    DeploymentForWritten(e, source, t, DeploymentVerdict(e, t), DeploymentReadable(e, t), show);
  }

  lemma PodsWritten(e: Item, source: string, t: Workload, show: Show)
    ensures IsWritten(PodsDetail(e, source, t, show)) <==> IsGiven(e, source)
    ensures Explains(PodsDetail(e, source, t, show),
                     if PodsListed(e) then CountVerdict(Field(e.value, "items").items, t) else UNKNOWN)
  {
  }

  lemma PodStateWritten(pod: Json, source: string, image: string, show: Show)
    ensures IsWritten(PodStateDetail(pod, source, image, show)) <==> source != ""
    ensures PodStateDetail(pod, source, image, show).errorCategory.None?
  {
  }

  lemma PodUnknownWritten(pod: Json, source: string)
    ensures IsWritten(PodUnknownDetail(pod, source)) <==> source != ""
    ensures PodUnknownDetail(pod, source).errorCategory.Some?
  {
  }

  lemma PodWritten(source: string, image: string, show: Show, pod: Json)
    ensures IsWritten(PodDetail(source, image, show)(pod)) <==> source != ""
    ensures Explains(PodDetail(source, image, show)(pod), PodVerdict(pod, image))
  {
    if PodKnown(pod) {
      PodStateWritten(pod, source, image, show);
    } else {
      PodUnknownWritten(pod, source);
    }
  }

  lemma RoutingWritten(e: Item, source: string, t: Service, show: Show)
    ensures IsWritten(RoutingDetail(e, source, t, show)) <==> IsGiven(e, source)
    ensures Explains(RoutingDetail(e, source, t, show), RoutingVerdict(e, t))
  {
  }

  lemma MetricsWritten(e: Item, source: string, show: Show)
    ensures IsWritten(MetricsDetail(e, source, show)) <==> IsGiven(e, source)
    ensures Explains(MetricsDetail(e, source, show), ConditionVerdict(MetricsStatus(e)))
  {
    var available := OfType(ListIn(Field(Field(e.value, "status"), "conditions")), "Available");
    if |available| == 1 {
      ConditionWritten(("Metrics APIService is available", "Metrics APIService is unavailable",
                        "Metrics APIService Available condition is unknown or malformed"),
                       source, "Available", Field(available[0], "status"), show);
    }
  }

  lemma HttpWritten(e: Item, show: Show)
    ensures IsWritten(HttpDetail(e, show)) <==> IsGiven(e, e.source)
    ensures Explains(HttpDetail(e, show), HttpVerdict(e))
  {
  }

  // ----- Which category -----

  /** What could not be collected is reported by every check over it under its own category. */
  lemma ErrorsAreNamed(e: Item, source: string, name: string, show: Show)
    requires e.error.Some?
    ensures ContextDetail(e, source, name, show).errorCategory == e.error
    ensures VersionDetail(e, source, show).errorCategory == e.error
    ensures NodeDetail(e, source, show)(name).errorCategory == e.error
    ensures MetricsDetail(e, source, show).errorCategory == e.error && HttpDetail(e, show).errorCategory == e.error
  {
  }

  lemma WorkloadErrorsAreNamed(e: Item, source: string, t: Workload, s: Service, show: Show)
    requires e.error.Some?
    ensures DeploymentDetail(e, source, t, show).errorCategory == e.error
    ensures PodsDetail(e, source, t, show).errorCategory == e.error
    ensures RoutingDetail(e, source, s, show).errorCategory == e.error
  {
  }

  /** A condition is of unknown state exactly when it says so, and otherwise of unexpected shape. */
  lemma ConditionCategories(observations: (string, string, string), source: string, kind: string, status: Json,
                            show: Show)
    ensures var category := ConditionDetail(observations, source, kind, status, show).errorCategory;
      && (category == Some("condition-unknown") <==> status == Str("Unknown"))
      && (category == Some("unexpected-shape") <==>
            status != Str("True") && status != Str("False") && status != Str("Unknown"))
  {
    assert "condition-unknown"[0] != "unexpected-shape"[0];
    assert "Unknown"[0] != "True"[0] && "Unknown"[0] != "False"[0];
  }

  /** Counts in order but generations apart: stale when the status lags behind, inconsistent when it is ahead. */
  lemma GenerationsApart(e: Item, source: string, t: Workload, show: Show, generation: int, observed: int)
    requires DeploymentReadable(e, t) && Generation(e) == Int(generation)
    requires Field(State(e), "observedGeneration") == Int(observed)
    ensures var category := DeploymentDetail(e, source, t, show).errorCategory;
      && (observed == generation <==> category == None)
      && (observed < generation <==> category == Some("stale-generation"))
      && (observed > generation <==> category == Some("inconsistent-generation"))
  {
    assert "stale-generation"[0] != "inconsistent-generation"[0];
  }
}
