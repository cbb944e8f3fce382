/**
 What each check reads from the collected JSON: which keys, on which path, and what they must hold for the
 check to pass. Everything is said of the JSON values themselves.
 */
module EvidenceReading {
  import opened Wrappers
  import opened Evidence
  import opened Evaluation
  import opened Verdict

  // ----- Keys, paths and lists -----

  /** v is an object that holds w under the key. */
  predicate Has(v: Json, key: string, w: Json) {
    v.Object? && key in v.fields && v.fields[key] == w
  }

  /** Two keys in a row. */
  ghost predicate HasIn(v: Json, key: string, inner: string, w: Json) {
    exists u :: Has(v, key, u) && Has(u, inner, w)
  }

  lemma FieldIs(v: Json, key: string, w: Json)
    requires w != Null
    ensures Field(v, key) == w <==> Has(v, key, w)
  {
  }

  lemma FieldsAre(v: Json, key: string, inner: string, w: Json)
    requires w != Null
    ensures Field(Field(v, key), inner) == w <==> HasIn(v, key, inner, w)
  {
    if Field(Field(v, key), inner) == w {
      assert Has(v, key, Field(v, key)) && Has(Field(v, key), inner, w);
    }
  }

  /** k is the one position at which p holds. */
  ghost predicate IsOnly(items: seq<Json>, p: Json -> bool, k: int) {
    && 0 <= k < |items| && p(items[k])
    && forall j :: 0 <= j < |items| && p(items[j]) ==> j == k
  }

  function Where(items: seq<Json>, p: Json -> bool): seq<Json> {
    if items == [] then [] else (if p(items[0]) then [items[0]] else []) + Where(items[1..], p)
  }

  lemma {:induction false} WhereNone(items: seq<Json>, p: Json -> bool)
    ensures Where(items, p) == [] <==> forall k :: 0 <= k < |items| ==> !p(items[k])
  {
    if items != [] {
      WhereNone(items[1..], p);
      assert forall k :: 1 <= k < |items| ==> items[k] == items[1..][k - 1];
    }
  }

  /** The filtered list has one member exactly when the list has one such position, and that is the member. */
  lemma {:induction false} WhereOne(items: seq<Json>, p: Json -> bool)
    ensures |Where(items, p)| == 1 <==> exists k :: IsOnly(items, p, k)
    ensures forall k :: IsOnly(items, p, k) ==> Where(items, p) == [items[k]]
  {
    if items != [] {
      WhereOne(items[1..], p);
      WhereNone(items[1..], p);
      if p(items[0]) {
        assert IsOnly(items, p, 0) <==> Where(items[1..], p) == [];
      } else {
        forall k ensures IsOnly(items, p, k) <==> IsOnly(items[1..], p, k - 1) {
          OnlyInTail(items, p, k);
        }
        if k :| IsOnly(items[1..], p, k) {
          assert IsOnly(items, p, k + 1);
        }
      }
    }
  }

  lemma OnlyInTail(items: seq<Json>, p: Json -> bool, k: int)
    requires items != [] && !p(items[0])
    ensures IsOnly(items, p, k) <==> IsOnly(items[1..], p, k - 1)
  {
    var tail := items[1..];
    assert forall j :: 0 <= j < |tail| ==> tail[j] == items[j + 1];
    if IsOnly(tail, p, k - 1) {
      forall j | 0 <= j < |items| && p(items[j]) ensures j == k {
        assert j > 0 && p(tail[j - 1]);
      }
    }
  }

  function IsOfType(kind: string): Json -> bool {
    (c: Json) => Has(c, "type", Str(kind))
  }

  lemma {:induction false} OfTypeIsWhere(conditions: seq<Json>, kind: string)
    ensures OfType(conditions, kind) == Where(conditions, IsOfType(kind))
  {
    if conditions != [] {
      OfTypeIsWhere(conditions[1..], kind);
    }
  }

  /** The list has one condition of the kind, and that one says the status. */
  ghost predicate Says(conditions: Json, kind: string, status: string) {
    && conditions.List?
    && exists k :: IsOnly(conditions.items, IsOfType(kind), k) && Has(conditions.items[k], "status", Str(status))
  }

  lemma ConditionSays(conditions: Json, kind: string, status: string)
    ensures ConditionStatus(conditions, kind) == Str(status) <==> Says(conditions, kind, status)
  {
    if conditions.List? {
      OfTypeIsWhere(conditions.items, kind);
      WhereOne(conditions.items, IsOfType(kind));
      if k :| IsOnly(conditions.items, IsOfType(kind), k) {
        assert OfType(conditions.items, kind) == [conditions.items[k]];
        forall j | IsOnly(conditions.items, IsOfType(kind), j) ensures j == k {
        }
      }
    }
  }

  /** Such a list under two keys. */
  ghost predicate SaysIn(v: Json, kind: string, status: string) {
    exists conditions :: HasIn(v, "status", "conditions", conditions) && Says(conditions, kind, status)
  }

  lemma ConditionSaysIn(v: Json, kind: string, status: string)
    ensures ConditionStatus(Field(Field(v, "status"), "conditions"), kind) == Str(status) <==> SaysIn(v, kind, status)
  {
    var conditions := Field(Field(v, "status"), "conditions");
    ConditionSays(conditions, kind, status);
    if conditions != Null {
      FieldsAre(v, "status", "conditions", conditions);
    }
    if c :| HasIn(v, "status", "conditions", c) && Says(c, kind, status) {
      FieldsAre(v, "status", "conditions", c);
    }
  }

  // ----- Nodes and metrics -----

  predicate CarriesName(item: Json, name: string) {
    Field(Field(item, "metadata"), "name") == Str(name)
  }

  lemma CarriesNameMeans(item: Json, name: string)
    ensures CarriesName(item, name) <==> HasIn(item, "metadata", "name", Str(name))
  {
    FieldsAre(item, "metadata", "name", Str(name));
  }

  function IsNamed(name: string): Json -> bool {
    (item: Json) => CarriesName(item, name)
  }

  lemma NamedFirst(items: seq<Json>, name: string)
    requires items != []
    ensures Named(items, name) == (if CarriesName(items[0], name) then [items[0]] else []) + Named(items[1..], name)
  {
  }

  lemma {:induction false} NamedIsWhere(items: seq<Json>, name: string)
    ensures Named(items, name) == Where(items, IsNamed(name))
  {
    if items != [] {
      NamedFirst(items, name);
      NamedIsWhere(items[1..], name);
    }
  }

  /** k is the one item whose metadata carries the name. */
  ghost predicate IsOnlyNamed(items: seq<Json>, name: string, k: int) {
    && 0 <= k < |items| && HasIn(items[k], "metadata", "name", Str(name))
    && forall j :: 0 <= j < |items| && HasIn(items[j], "metadata", "name", Str(name)) ==> j == k
  }

  lemma OnlyNamed(items: seq<Json>, name: string, k: int)
    ensures IsOnly(items, IsNamed(name), k) <==> IsOnlyNamed(items, name, k)
  {
    forall j | 0 <= j < |items|
      ensures IsNamed(name)(items[j]) <==> HasIn(items[j], "metadata", "name", Str(name))
    {
      CarriesNameMeans(items[j], name);
    }
  }

  /** One item of that name, and its one Ready condition says the status. */
  ghost predicate NodeSays(e: Item, name: string, status: string) {
    && e.error.None?
    && exists items, k :: Has(e.value, "items", List(items)) && IsOnlyNamed(items, name, k) &&
        SaysIn(items[k], "Ready", status)
  }

  lemma NodeReads(e: Item, name: string, status: string)
    ensures NodeStatus(e, name) == Str(status) <==> NodeSays(e, name, status)
  {
    var items := ListIn(Field(e.value, "items"));
    var node := Sole(Named(items, name));
    NamedIsWhere(items, name);
    WhereOne(items, IsNamed(name));
    ConditionSaysIn(node, "Ready", status);
    forall k ensures IsOnly(items, IsNamed(name), k) <==> IsOnlyNamed(items, name, k) {
      OnlyNamed(items, name, k);
    }
    if NodeStatus(e, name) == Str(status) {
      var k :| IsOnly(items, IsNamed(name), k);
      assert Has(e.value, "items", List(items)) && IsOnlyNamed(items, name, k) && node == items[k];
    }
  }

  /** A node's check passes exactly when its condition says True, and fails exactly when it says False. */
  lemma NodeCheckMeans(e: Item, name: string)
    ensures ConditionVerdict(NodeStatus(e, name)) == PASS <==> NodeSays(e, name, "True")
    ensures ConditionVerdict(NodeStatus(e, name)) == FAIL <==> NodeSays(e, name, "False")
    ensures ConditionVerdict(NodeStatus(e, name)) != WARN
  {
    NodeReads(e, name, "True");
    NodeReads(e, name, "False");
  }

  ghost predicate MetricsSay(e: Item, status: string) {
    e.error.None? && SaysIn(e.value, "Available", status)
  }

  lemma MetricsCheckMeans(e: Item)
    ensures ConditionVerdict(MetricsStatus(e)) == PASS <==> MetricsSay(e, "True")
    ensures ConditionVerdict(MetricsStatus(e)) == FAIL <==> MetricsSay(e, "False")
    ensures ConditionVerdict(MetricsStatus(e)) != WARN
  {
    ConditionSaysIn(e.value, "Available", "True");
    ConditionSaysIn(e.value, "Available", "False");
  }

  // ----- Values -----

  /** What Python takes for false. */
  lemma TruthyMeans(v: Json)
    ensures IsTruthy(v) <==>
      !(v in [Null, Bool(false), Int(0), Float(0.0), Str(""), List([]), Object(map[])])
  {
  }

  lemma EqualsMeans(v: Json, text: string, n: int)
    ensures Equals(v, Str(text)) <==> v == Str(text)
    ensures Equals(v, Int(n)) <==>
      v == Int(n) || v == Float(n as real) || (n == 1 && v == Bool(true)) || (n == 0 && v == Bool(false))
    ensures Equals(v, Bool(true)) <==> v == Bool(true) || v == Int(1) || v == Float(1.0)
  {
  }

  predicate IsLastNamed(evidence: seq<Item>, id: string, k: int) {
    && 0 <= k < |evidence| && evidence[k].id == id
    && forall j :: k < j < |evidence| ==> evidence[j].id != id
  }

  /** The evidence under an identifier is the last of that name, or an item without any. */
  lemma {:induction false} FindMeans(evidence: seq<Item>, id: string)
    ensures forall k :: IsLastNamed(evidence, id, k) ==> Find(evidence, id) == evidence[k]
    ensures (forall k :: !IsLastNamed(evidence, id, k)) ==> Find(evidence, id) == Item(id, "", Null, None)
  {
    if evidence != [] {
      var n := |evidence| - 1;
      if evidence[n].id == id {
        assert IsLastNamed(evidence, id, n);
      } else {
        FindMeans(evidence[..n], id);
        forall k ensures IsLastNamed(evidence, id, k) <==> IsLastNamed(evidence[..n], id, k) {
          if IsLastNamed(evidence[..n], id, k) {
            assert forall j :: k < j < n ==> evidence[j].id == evidence[..n][j].id;
          }
        }
      }
    }
  }

  // ----- Versions -----

  ghost predicate NamesVersion(v: Json, key: string) {
    exists w :: HasIn(v, key, "gitVersion", w) && IsTruthy(w)
  }

  lemma VersionReads(v: Json, key: string)
    ensures IsTruthy(Field(Field(v, key), "gitVersion")) <==> NamesVersion(v, key)
  {
    var w := Field(Field(v, key), "gitVersion");
    if IsTruthy(w) {
      FieldsAre(v, key, "gitVersion", w);
    }
    if u :| HasIn(v, key, "gitVersion", u) && IsTruthy(u) {
      FieldsAre(v, key, "gitVersion", u);
    }
  }

  lemma VersionCheckMeans(e: Item)
    ensures VersionVerdict(e) == (if e.error.None? && NamesVersion(e.value, "clientVersion") &&
                                     NamesVersion(e.value, "serverVersion") then PASS else UNKNOWN)
  {
    VersionReads(e.value, "clientVersion");
    VersionReads(e.value, "serverVersion");
  }

  // ----- Pods -----

  /** Complete, whatever it says. Python lets a boolean pass for a number of restarts. */
  ghost predicate StatusReadable(s: Json) {
    && (exists flag :: Has(s, "ready", Bool(flag))) && (exists text :: Has(s, "imageID", Str(text)))
    && ((exists n :: Has(s, "restartCount", Int(n)) && n >= 0) || exists flag :: Has(s, "restartCount", Bool(flag)))
  }

  lemma StatusReads(s: Json)
    ensures ContainerStatusKnown(s) <==> StatusReadable(s)
    ensures StatusReadable(s) ==> (IntValue(Field(s, "restartCount")) == Some(0) <==>
      Has(s, "restartCount", Int(0)) || Has(s, "restartCount", Bool(false)))
    ensures Field(s, "ready") == Bool(true) <==> Has(s, "ready", Bool(true))
  {
    if ContainerStatusKnown(s) {
      assert Has(s, "ready", Bool(Field(s, "ready").flag)) && Has(s, "imageID", Str(Field(s, "imageID").text));
      assert Has(s, "restartCount", Field(s, "restartCount"));
    }
  }

  ghost predicate StatusesAre(pod: Json, statuses: seq<Json>) {
    HasIn(pod, "status", "containerStatuses", List(statuses))
  }

  ghost predicate ContainersAre(pod: Json, containers: seq<Json>) {
    HasIn(pod, "spec", "containers", List(containers))
  }

  lemma PodLists(pod: Json, items: seq<Json>)
    ensures StatusesOf(pod) == List(items) <==> StatusesAre(pod, items)
    ensures ContainersOf(pod) == List(items) <==> ContainersAre(pod, items)
  {
    FieldsAre(pod, "status", "containerStatuses", List(items));
    FieldsAre(pod, "spec", "containers", List(items));
  }

  ghost predicate StatusesReadable(pod: Json) {
    exists statuses :: StatusesAre(pod, statuses) && statuses != [] &&
      forall k :: 0 <= k < |statuses| ==> StatusReadable(statuses[k])
  }

  lemma StatusesRead(pod: Json)
    ensures StatusesOf(pod).List? && StatusesOf(pod).items != [] && AllKnown(StatusesOf(pod).items) <==>
      StatusesReadable(pod)
  {
    if StatusesOf(pod).List? {
      var statuses := StatusesOf(pod).items;
      PodLists(pod, statuses);
      forall k | 0 <= k < |statuses| ensures ContainerStatusKnown(statuses[k]) <==> StatusReadable(statuses[k]) {
        StatusReads(statuses[k]);
      }
    }
    forall statuses | StatusesAre(pod, statuses) ensures StatusesOf(pod) == List(statuses) {
      PodLists(pod, statuses);
    }
  }

  ghost predicate ContainersReadable(pod: Json) {
    exists containers :: ContainersAre(pod, containers) && containers != [] &&
      forall k :: 0 <= k < |containers| ==> NamesImage(containers[k])
  }

  ghost predicate NamesImage(container: Json) {
    exists image :: Has(container, "image", Str(image))
  }

  lemma ImageReads(container: Json)
    ensures Field(container, "image").Str? <==> NamesImage(container)
  {
    if Field(container, "image").Str? {
      assert Has(container, "image", Str(Field(container, "image").text));
    }
  }

  lemma ContainersRead(pod: Json)
    ensures ContainersOf(pod).List? && ContainersOf(pod).items != [] && AllImages(ContainersOf(pod).items) <==>
      ContainersReadable(pod)
  {
    if ContainersOf(pod).List? {
      var containers := ContainersOf(pod).items;
      PodLists(pod, containers);
      forall k | 0 <= k < |containers|
        ensures Field(containers[k], "image").Str? <==> NamesImage(containers[k])
      {
        ImageReads(containers[k]);
      }
    }
    forall containers | ContainersAre(pod, containers) ensures ContainersOf(pod) == List(containers) {
      PodLists(pod, containers);
    }
  }

  ghost predicate IsIdentified(pod: Json) {
    exists name :: HasIn(pod, "metadata", "name", name) && IsTruthy(name)
  }

  lemma NameReads(pod: Json)
    ensures IsTruthy(PodName(pod)) <==> IsIdentified(pod)
  {
    if IsTruthy(PodName(pod)) {
      FieldsAre(pod, "metadata", "name", PodName(pod));
    }
    if name :| HasIn(pod, "metadata", "name", name) && IsTruthy(name) {
      FieldsAre(pod, "metadata", "name", name);
    }
  }

  /** The evidence about a Pod is complete: a name, container statuses, images, and a Ready condition. */
  ghost predicate PodReadable(pod: Json) {
    && IsIdentified(pod) && StatusesReadable(pod) && ContainersReadable(pod)
    && (SaysIn(pod, "Ready", "True") || SaysIn(pod, "Ready", "False"))
  }

  lemma PodReads(pod: Json)
    ensures PodKnown(pod) <==> PodReadable(pod)
  {
    NameReads(pod);
    StatusesRead(pod);
    ContainersRead(pod);
    ConditionSaysIn(pod, "Ready", "True");
    ConditionSaysIn(pod, "Ready", "False");
  }

  /** Every container is ready, and there is one container, of this image. */
  ghost predicate AllReady(pod: Json) {
    exists statuses :: StatusesAre(pod, statuses) &&
      forall k :: 0 <= k < |statuses| ==> Has(statuses[k], "ready", Bool(true))
  }

  ghost predicate OneImage(pod: Json, image: string) {
    exists container :: ContainersAre(pod, [container]) && Has(container, "image", Str(image))
  }

  ghost predicate NoRestart(pod: Json) {
    exists statuses :: StatusesAre(pod, statuses) &&
      forall k :: 0 <= k < |statuses| ==>
        Has(statuses[k], "restartCount", Int(0)) || Has(statuses[k], "restartCount", Bool(false))
  }

  lemma AllReadyReads(pod: Json)
    requires StatusesOf(pod).List?
    ensures AllReady(pod) <==>
      forall k :: 0 <= k < |StatusesOf(pod).items| ==> Field(StatusesOf(pod).items[k], "ready") == Bool(true)
  {
    var statuses := StatusesOf(pod).items;
    PodLists(pod, statuses);
    forall k | 0 <= k < |statuses|
      ensures Field(statuses[k], "ready") == Bool(true) <==> Has(statuses[k], "ready", Bool(true))
    {
      FieldIs(statuses[k], "ready", Bool(true));
    }
    forall others | StatusesAre(pod, others) ensures others == statuses {
      PodLists(pod, others);
    }
  }

  lemma NoRestartReads(pod: Json)
    requires StatusesOf(pod).List? && AllKnown(StatusesOf(pod).items)
    ensures NeverRestarted(StatusesOf(pod).items) <==> NoRestart(pod)
  {
    var statuses := StatusesOf(pod).items;
    PodLists(pod, statuses);
    forall k | 0 <= k < |statuses|
      ensures IntValue(Field(statuses[k], "restartCount")) == Some(0) <==>
        Has(statuses[k], "restartCount", Int(0)) || Has(statuses[k], "restartCount", Bool(false))
    {
      StatusReads(statuses[k]);
    }
    forall others | StatusesAre(pod, others) ensures others == statuses {
      PodLists(pod, others);
    }
  }

  lemma OneImageReads(pod: Json, image: string)
    requires ContainersOf(pod).List?
    ensures |ContainersOf(pod).items| == 1 && Field(ContainersOf(pod).items[0], "image") == Str(image) <==>
      OneImage(pod, image)
  {
    var containers := ContainersOf(pod).items;
    PodLists(pod, containers);
    if |containers| == 1 {
      assert containers == [containers[0]];
      FieldIs(containers[0], "image", Str(image));
    }
    forall container | ContainersAre(pod, [container]) ensures containers == [container] {
      PodLists(pod, [container]);
    }
  }

  /** Running and ready, from the one configured image. */
  ghost predicate RunsAsConfigured(pod: Json, image: string) {
    && PodReadable(pod) && HasIn(pod, "status", "phase", Str("Running")) && SaysIn(pod, "Ready", "True")
    && AllReady(pod) && OneImage(pod, image)
  }

  lemma PodRunsReads(pod: Json, image: string)
    ensures PodRuns(pod, image) <==> RunsAsConfigured(pod, image) && DigestMatches(image, StatusesOf(pod).items)
  {
    PodReads(pod);
    if PodKnown(pod) {
      FieldsAre(pod, "status", "phase", Str("Running"));
      ConditionSaysIn(pod, "Ready", "True");
      AllReadyReads(pod);
      OneImageReads(pod, image);
    }
  }

  /** A Pod's check, in terms of what the Pod's JSON holds; the digest is what pinned images are about. */
  lemma PodCheckMeans(pod: Json, image: string)
    ensures var runs := RunsAsConfigured(pod, image) && DigestMatches(image, StatusesOf(pod).items);
      PodVerdict(pod, image) ==
        if !PodReadable(pod) then UNKNOWN else if !runs then FAIL else if NoRestart(pod) then PASS else WARN
  {
    PodReads(pod);
    PodRunsReads(pod, image);
    if PodKnown(pod) {
      NoRestartReads(pod);
    }
  }

  // ----- Deployments -----

  /** The status holds this count under the key, or none and the count is zero. */
  ghost predicate CountIs(e: Item, key: string, n: int) {
    HasIn(e.value, "status", key, Int(n)) || (n == 0 && !exists w :: HasIn(e.value, "status", key, w))
  }

  lemma CountReads(e: Item, key: string, n: int)
    ensures Defaulted(State(e), key) == Int(n) <==> CountIs(e, key, n)
  {
    FieldsAre(e.value, "status", key, Int(n));
    if State(e).Object? && key in State(e).fields {
      assert HasIn(e.value, "status", key, State(e).fields[key]) by {
        assert Has(e.value, "status", State(e)) && Has(State(e), key, State(e).fields[key]);
      }
    }
  }

  /** The object asked for, with well-formed counts, its status up to date with its specification. */
  ghost predicate DeploymentReadable(e: Item, t: Workload) {
    && e.error.None? && IsTheDeployment(e, t)
    && (exists n :: n >= 0 && HasIn(e.value, "spec", "replicas", Int(n)))
    && HasCount(e, "updatedReplicas") && HasCount(e, "readyReplicas") && HasCount(e, "availableReplicas")
    && IsUpToDate(e)
  }

  ghost predicate IsTheDeployment(e: Item, t: Workload) {
    && HasIn(e.value, "metadata", "name", Str(t.deployment))
    && HasIn(e.value, "metadata", "namespace", Str(t.namespace))
  }

  ghost predicate HasCount(e: Item, key: string) {
    exists n :: n >= 0 && CountIs(e, key, n)
  }

  ghost predicate IsUpToDate(e: Item) {
    exists g :: g >= 1 && HasIn(e.value, "metadata", "generation", Int(g)) &&
      HasIn(e.value, "status", "observedGeneration", Int(g))
  }

  lemma HasCountReads(e: Item, key: string)
    ensures IsCount(Defaulted(State(e), key), 0) <==> HasCount(e, key)
  {
    if IsCount(Defaulted(State(e), key), 0) {
      CountReads(e, key, Defaulted(State(e), key).n);
    }
    if n :| n >= 0 && CountIs(e, key, n) {
      CountReads(e, key, n);
    }
  }

  lemma ReplicasRead(e: Item)
    ensures IsCount(Field(Spec(e), "replicas"), 0) <==>
      exists n :: n >= 0 && HasIn(e.value, "spec", "replicas", Int(n))
  {
    if IsCount(Field(Spec(e), "replicas"), 0) {
      FieldsAre(e.value, "spec", "replicas", Int(Field(Spec(e), "replicas").n));
    }
    if n :| n >= 0 && HasIn(e.value, "spec", "replicas", Int(n)) {
      FieldsAre(e.value, "spec", "replicas", Int(n));
    }
  }

  lemma GenerationReads(e: Item)
    ensures IsUpToDate(e) <==>
      && IsCount(Field(Field(e.value, "metadata"), "generation"), 1)
      && Field(State(e), "observedGeneration") == Field(Field(e.value, "metadata"), "generation")
  {
    var generation := Field(Field(e.value, "metadata"), "generation");
    if IsCount(generation, 1) {
      FieldsAre(e.value, "metadata", "generation", generation);
      FieldsAre(e.value, "status", "observedGeneration", generation);
    }
    if g :| g >= 1 && HasIn(e.value, "metadata", "generation", Int(g)) &&
            HasIn(e.value, "status", "observedGeneration", Int(g))
    {
      FieldsAre(e.value, "metadata", "generation", Int(g));
      FieldsAre(e.value, "status", "observedGeneration", Int(g));
    }
  }

  lemma IdentityReads(e: Item, t: Workload)
    ensures IsTheDeployment(e, t) <==>
      && Field(Field(e.value, "metadata"), "name") == Str(t.deployment)
      && Field(Field(e.value, "metadata"), "namespace") == Str(t.namespace)
  {
    FieldsAre(e.value, "metadata", "name", Str(t.deployment));
    FieldsAre(e.value, "metadata", "namespace", Str(t.namespace));
  }

  lemma DeploymentReads(e: Item, t: Workload)
    ensures DeploymentKnown(e, t) <==> DeploymentReadable(e, t)
  {
    IdentityReads(e, t);
    ReplicasRead(e);
    HasCountReads(e, "updatedReplicas");
    HasCountReads(e, "readyReplicas");
    HasCountReads(e, "availableReplicas");
    GenerationReads(e);
  }

  /** As many replicas as the scope asks for, on every count, and the one image. */
  ghost predicate FitsScope(e: Item, t: Workload) {
    && HasIn(e.value, "spec", "replicas", Int(t.replicas)) && CountIs(e, "updatedReplicas", t.replicas)
    && CountIs(e, "readyReplicas", t.replicas) && CountIs(e, "availableReplicas", t.replicas)
    && HasIn(e.value, "spec", "images", List([Str(t.image)]))
  }

  lemma DeploymentCheckMeans(e: Item, t: Workload)
    ensures DeploymentVerdict(e, t) ==
      if !DeploymentReadable(e, t) then UNKNOWN else if FitsScope(e, t) then PASS else FAIL
  {
    DeploymentReads(e, t);
    FieldsAre(e.value, "spec", "replicas", Int(t.replicas));
    CountReads(e, "updatedReplicas", t.replicas);
    CountReads(e, "readyReplicas", t.replicas);
    CountReads(e, "availableReplicas", t.replicas);
    FieldsAre(e.value, "spec", "images", List([Str(t.image)]));
  }

  // ----- Routing -----

  /** The endpoints of a list of slices are those of its parts, one after the other. */
  lemma {:induction false} EndpointsOfParts(a: seq<Json>, b: seq<Json>)
    ensures Endpoints(a + b) == Endpoints(a) + Endpoints(b)
  {
    if b == [] {
      assert a + b == a;
    } else {
      var last := ListIn(Field(b[|b| - 1], "endpoints"));
      EndpointsOfParts(a, b[..|b| - 1]);
      assert (a + b)[..|a + b| - 1] == a + b[..|b| - 1];
      RegroupEndpoints(Endpoints(a), Endpoints(b[..|b| - 1]), last);
    }
  }

  lemma RegroupEndpoints(a: seq<Json>, b: seq<Json>, c: seq<Json>)
    ensures (a + b) + c == a + (b + c)
  {
  }

  lemma EndpointsOfOne(slice: Json, endpoints: seq<Json>)
    requires Has(slice, "endpoints", List(endpoints))
    ensures Endpoints([slice]) == endpoints
  {
    assert [slice][..0] == [];
  }

  ghost predicate SaysReady(endpoint: Json, ready: bool) {
    HasIn(endpoint, "conditions", "ready", Bool(ready))
  }

  /** The positions of the endpoints that say so. */
  ghost function Saying(endpoints: seq<Json>, ready: bool): set<int> {
    set k | 0 <= k < |endpoints| && SaysReady(endpoints[k], ready)
  }

  lemma EndpointReads(endpoint: Json, ready: bool)
    ensures EndpointReady(endpoint) == Bool(ready) <==> SaysReady(endpoint, ready)
  {
    FieldsAre(endpoint, "conditions", "ready", Bool(ready));
  }

  lemma SayingMore(endpoints: seq<Json>, ready: bool)
    requires endpoints != []
    ensures var n := |endpoints| - 1;
      Saying(endpoints, ready) == Saying(endpoints[..n], ready) + if SaysReady(endpoints[n], ready) then {n} else {}
  {
    var n := |endpoints| - 1;
    assert forall k :: 0 <= k < n ==> endpoints[..n][k] == endpoints[k];
  }

  lemma {:induction false} CountStateMeans(endpoints: seq<Json>, ready: bool)
    ensures CountState(endpoints, Bool(ready)) == |Saying(endpoints, ready)|
  {
    if endpoints == [] {
      assert Saying(endpoints, ready) == {};
    } else {
      var n := |endpoints| - 1;
      CountStateMeans(endpoints[..n], ready);
      EndpointReads(endpoints[n], ready);
      SayingMore(endpoints, ready);
    }
  }

  /** Something is said, and it is not that the endpoint is not ready. */
  ghost predicate SpeaksWell(endpoint: Json) {
    exists w :: HasIn(endpoint, "conditions", "ready", w) && w != Null && w != Bool(false)
  }

  lemma SpeaksWellReads(endpoint: Json)
    ensures EndpointReady(endpoint) != Bool(false) && EndpointReady(endpoint) != Null <==> SpeaksWell(endpoint)
  {
    if EndpointReady(endpoint) != Null {
      FieldsAre(endpoint, "conditions", "ready", EndpointReady(endpoint));
    }
    forall w | HasIn(endpoint, "conditions", "ready", w) && w != Null ensures EndpointReady(endpoint) == w {
      FieldsAre(endpoint, "conditions", "ready", w);
    }
  }

  ghost predicate ListsEndpoints(slice: Json) {
    exists endpoints :: Has(slice, "endpoints", List(endpoints))
  }

  lemma ListsEndpointsReads(slice: Json)
    ensures Field(slice, "endpoints").List? <==> ListsEndpoints(slice)
  {
    if Field(slice, "endpoints").List? {
      assert Has(slice, "endpoints", List(Field(slice, "endpoints").items));
    }
  }

  /** The slices of the evidence, each with its list of endpoints. */
  ghost predicate SlicesAre(e: Item, slices: seq<Json>) {
    && e.error.None? && Has(e.value, "items", List(slices))
    && forall k :: 0 <= k < |slices| ==> ListsEndpoints(slices[k])
  }

  lemma SlicesRead(e: Item)
    ensures RoutingKnown(e) ==> SlicesAre(e, Field(e.value, "items").items)
    ensures forall slices :: SlicesAre(e, slices) ==> RoutingKnown(e) && Field(e.value, "items") == List(slices)
  {
    if PodsListed(e) {
      var slices := Field(e.value, "items").items;
      forall k | 0 <= k < |slices| ensures Field(slices[k], "endpoints").List? <==> ListsEndpoints(slices[k]) {
        ListsEndpointsReads(slices[k]);
      }
    }
  }

  /** Every endpoint says something other than not ready, and as many as expected say ready. */
  ghost predicate RoutesTo(slices: seq<Json>, t: Service) {
    var endpoints := Endpoints(slices);
    && slices != [] && (forall k :: 0 <= k < |endpoints| ==> SpeaksWell(endpoints[k]))
    && |Saying(endpoints, true)| == t.readyEndpoints
  }

  lemma RoutesToReads(e: Item, t: Service)
    requires RoutingKnown(e)
    ensures RoutingHealthy(e, t) <==> RoutesTo(Field(e.value, "items").items, t)
  {
    var endpoints := Endpoints(Field(e.value, "items").items);
    CountStateMeans(endpoints, true);
    forall k | 0 <= k < |endpoints|
      ensures EndpointReady(endpoints[k]) != Bool(false) && EndpointReady(endpoints[k]) != Null <==>
        SpeaksWell(endpoints[k])
    {
      SpeaksWellReads(endpoints[k]);
    }
  }

  lemma RoutingCheckMeans(e: Item, t: Service)
    ensures RoutingVerdict(e, t) == UNKNOWN <==> !exists slices :: SlicesAre(e, slices)
    ensures RoutingVerdict(e, t) == PASS <==> exists slices :: SlicesAre(e, slices) && RoutesTo(slices, t)
    ensures RoutingVerdict(e, t) != WARN
  {
    SlicesRead(e);
    if RoutingKnown(e) {
      RoutesToReads(e, t);
    }
  }

  // ----- HTTP endpoints -----

  ghost predicate IsTrue(v: Json, key: string) {
    Has(v, key, Bool(true)) || Has(v, key, Int(1)) || Has(v, key, Float(1.0))
  }

  /** What each endpoint must answer, by the end of its name. */
  ghost predicate AnswersAsExpected(id: string, v: Json) {
    if EndsWith(id, "/version") then Has(v, "app", Str("restaurant-api")) && Has(v, "version", Str("0.7.0"))
    else if EndsWith(id, "/health") then Has(v, "status", Str("healthy"))
    else if EndsWith(id, "/ready") then Has(v, "status", Str("ready")) && Has(v, "service", Str("restaurant-api"))
    else if EndsWith(id, "/status") then
      && Has(v, "status", Str("open")) && Has(v, "district", Str("SignalForge Restaurant District"))
      && Has(v, "version", Str("0.7.0")) && IsTrue(v, "analyze_enabled")
    else Has(v, "body", Str("ok"))
  }

  lemma TrueExpected(v: Json, key: string)
    ensures Equals(Field(v, key), Bool(true)) <==> IsTrue(v, key)
  {
  }

  lemma OneExpected(v: Json, a: Expectation)
    ensures FieldsMatch(v, [a]) <==> Equals(Field(v, a.key), a.value)
  {
    assert [a][0] == a;
  }

  lemma TwoExpected(v: Json, a: Expectation, b: Expectation)
    ensures FieldsMatch(v, [a, b]) <==> Equals(Field(v, a.key), a.value) && Equals(Field(v, b.key), b.value)
  {
    assert [a, b][0] == a && [a, b][1] == b;
  }

  lemma FourExpected(v: Json, a: Expectation, b: Expectation, c: Expectation, d: Expectation)
    ensures FieldsMatch(v, [a, b, c, d]) <==>
      && Equals(Field(v, a.key), a.value) && Equals(Field(v, b.key), b.value)
      && Equals(Field(v, c.key), c.value) && Equals(Field(v, d.key), d.value)
  {
    assert [a, b, c, d][0] == a && [a, b, c, d][1] == b && [a, b, c, d][2] == c && [a, b, c, d][3] == d;
  }

  lemma ExpectedReads(id: string, v: Json)
    ensures FieldsMatch(v, ExpectedFields(id)) <==> AnswersAsExpected(id, v)
  {
    if EndsWith(id, "/version") {
      TwoExpected(v, Expectation("app", Str("restaurant-api")), Expectation("version", Str("0.7.0")));
    } else if EndsWith(id, "/health") {
      OneExpected(v, Expectation("status", Str("healthy")));
    } else if EndsWith(id, "/ready") {
      TwoExpected(v, Expectation("status", Str("ready")), Expectation("service", Str("restaurant-api")));
    } else if EndsWith(id, "/status") {
      FourExpected(v, Expectation("status", Str("open")),
                   Expectation("district", Str("SignalForge Restaurant District")),
                   Expectation("version", Str("0.7.0")), Expectation("analyze_enabled", Bool(true)));
      TrueExpected(v, "analyze_enabled");
    } else {
      OneExpected(v, Expectation("body", Str("ok")));
    }
  }

  /** The selected part of an answer, which is never empty. */
  ghost predicate HasAnswer(e: Item, v: Json) {
    e.error.None? && Has(e.value, "selected", v) && v.Object? && v.fields != map[]
  }

  predicate IsOk(e: Item) {
    Has(e.value, "status_code", Int(200)) || Has(e.value, "status_code", Float(200.0))
  }

  lemma StatusReads200(e: Item)
    ensures Equals(Field(e.value, "status_code"), Int(200)) <==> IsOk(e)
  {
    EqualsMeans(Field(e.value, "status_code"), "", 200);
  }

  lemma HttpCheckMeans(e: Item)
    ensures HttpVerdict(e) == UNKNOWN <==> !exists v :: HasAnswer(e, v)
    ensures HttpVerdict(e) == PASS <==> IsOk(e) && exists v :: HasAnswer(e, v) && AnswersAsExpected(e.id, v)
    ensures HttpVerdict(e) != WARN
  {
    var selected := Field(e.value, "selected");
    assert HttpKnown(e) ==> HasAnswer(e, selected);
    assert forall v :: HasAnswer(e, v) ==> v == selected && HttpKnown(e);
    ExpectedReads(e.id, selected);
    StatusReads200(e);
  }

  /** Which items are HTTP evidence. */
  lemma HttpItems(e: Item)
    ensures IsHttp(e) <==> exists rest :: e.id == "http." + rest
  {
    if IsHttp(e) {
      assert e.id == "http." + e.id[5..];
    }
  }
}
