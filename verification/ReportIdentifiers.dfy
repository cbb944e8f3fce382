/** The identifiers under which an evaluation reports its checks, and exactly when no two are equal. */
module ReportIdentifiers {
  import opened Evidence
  import opened Evaluation
  import opened StableSort
  import opened Verdict

  // ----- Sequences without duplicates -----

  predicate Distinct<T(==)>(xs: seq<T>) {
    forall i, j :: 0 <= i < j < |xs| ==> xs[i] != xs[j]
  }

  lemma DistinctConcat<T>(a: seq<T>, b: seq<T>)
    ensures Distinct(a + b) <==> Distinct(a) && Distinct(b) && forall x :: x in a ==> x !in b
  {
    var ab := a + b;
    if Distinct(ab) {
      forall i, j | 0 <= i < j < |a| ensures a[i] != a[j] {
        assert ab[i] == a[i] && ab[j] == a[j];
      }
      forall i, j | 0 <= i < j < |b| ensures b[i] != b[j] {
        assert ab[|a| + i] == b[i] && ab[|a| + j] == b[j];
      }
      forall i, j | 0 <= i < |a| && 0 <= j < |b| ensures a[i] != b[j] {
        assert ab[i] == a[i] && ab[|a| + j] == b[j];
      }
    }
    if Distinct(a) && Distinct(b) && forall x :: x in a ==> x !in b {
      forall i, j | 0 <= i < j < |ab| ensures ab[i] != ab[j] {
        if i < |a| <= j {
          assert ab[i] in a && ab[j] == b[j - |a|];
        }
      }
    }
  }

  lemma {:induction false} DistinctCounts<T(!new)>(xs: seq<T>)
    ensures Distinct(xs) <==> forall x :: multiset(xs)[x] <= 1
  {
    if xs != [] {
      var n := |xs| - 1;
      var init, last := xs[..n], xs[n];
      assert xs == init + [last];
      DistinctCounts(init);
      DistinctConcat(init, [last]);
      assert forall x :: multiset(xs)[x] == multiset(init)[x] + if x == last then 1 else 0;
      if last in init {
        assert multiset(init)[last] >= 1;
        assert multiset(xs)[last] > 1;
      }
    }
  }

  lemma SameDistinct<T(!new)>(xs: seq<T>, ys: seq<T>)
    requires multiset(xs) == multiset(ys)
    ensures Distinct(xs) <==> Distinct(ys)
  {
    DistinctCounts(xs);
    DistinctCounts(ys);
  }

  function Apply<T>(xs: seq<T>, f: T -> string): seq<string> {
    if xs == [] then [] else Apply(xs[..|xs| - 1], f) + [f(xs[|xs| - 1])]
  }

  lemma {:induction false} ApplyMeans<T>(xs: seq<T>, f: T -> string)
    ensures |Apply(xs, f)| == |xs| && forall k :: 0 <= k < |xs| ==> Apply(xs, f)[k] == f(xs[k])
  {
    if xs != [] {
      ApplyMeans(xs[..|xs| - 1], f);
    }
  }

  lemma ApplyDistinct<T>(xs: seq<T>, f: T -> string)
    requires forall i, j :: 0 <= i < j < |xs| ==> (f(xs[i]) == f(xs[j]) <==> xs[i] == xs[j])
    ensures Distinct(Apply(xs, f)) <==> Distinct(xs)
  {
    ApplyMeans(xs, f);
    var ys := Apply(xs, f);
    if !Distinct(xs) {
      var i, j :| 0 <= i < j < |xs| && xs[i] == xs[j];
      assert ys[i] == ys[j];
    }
  }

  lemma ApplySnoc<T>(xs: seq<T>, x: T, f: T -> string)
    ensures Apply(xs + [x], f) == Apply(xs, f) + [f(x)]
  {
    assert (xs + [x])[..|xs|] == xs;
  }

  lemma ConcatSnoc<T>(xs: seq<T>, ys: seq<T>)
    requires ys != []
    ensures xs + ys == (xs + ys[..|ys| - 1]) + [ys[|ys| - 1]]
  {
  }

  lemma {:induction false} ApplyConcat<T>(xs: seq<T>, ys: seq<T>, f: T -> string)
    ensures Apply(xs + ys, f) == Apply(xs, f) + Apply(ys, f)
  {
    if ys == [] {
      assert xs + ys == xs;
    } else {
      var n := |ys| - 1;
      ApplyConcat(xs, ys[..n], f);
      ConcatSnoc(xs, ys);
      ApplySnoc(xs + ys[..n], ys[n], f);
    }
  }

  lemma {:induction false} InsertApplied<T>(x: T, sorted: seq<T>, key: T -> string, f: T -> string)
    ensures multiset(Apply(Insert(x, sorted, key), f)) == multiset(Apply(sorted, f)) + multiset{f(x)}
  {
    var n := |sorted| - 1;
    if sorted != [] && Lexicographic.Less(key(x), key(sorted[n])) {
      InsertApplied(x, sorted[..n], key, f);
      ApplySnoc(Insert(x, sorted[..n], key), sorted[n], f);
    } else {
      ApplySnoc(sorted, x, f);
    }
  }

  lemma {:induction false} SortApplied<T>(xs: seq<T>, key: T -> string, f: T -> string)
    ensures multiset(Apply(SortBy(xs, key), f)) == multiset(Apply(xs, f))
  {
    if xs != [] {
      SortApplied(xs[..|xs| - 1], key, f);
      InsertApplied(xs[|xs| - 1], SortBy(xs[..|xs| - 1], key), key, f);
    }
  }

  // ----- The identifiers of a report -----

  function IdOf(check: CheckResult): string {
    check.id
  }

  function Ids(checks: seq<CheckResult>): seq<string> {
    Apply(checks, IdOf)
  }

  lemma {:induction false} EachIds<T(!new)>(xs: seq<T>, check: T -> CheckResult, id: T -> string)
    requires forall x :: check(x).id == id(x)
    ensures Ids(Each(xs, check)) == Apply(xs, id)
  {
    if xs != [] {
      EachIds(xs[..|xs| - 1], check, id);
      ApplySnoc(Each(xs[..|xs| - 1], check), check(xs[|xs| - 1]), IdOf);
    }
  }

  function NodeId(name: string): string {
    "node." + name
  }

  /** A Pod as a report names it: its namespace and the name that is shown for it. */
  type ShownPod = (string, string)

  function ShownId(shown: ShownPod): string {
    "pod." + shown.0 + "." + shown.1
  }

  function ShownName(pod: Json, show: Json -> string): string {
    if IsTruthy(PodName(pod)) then Shown(PodName(pod), show) else "unknown"
  }

  function ShownIn(pods: seq<Json>, namespace: string, show: Json -> string): seq<ShownPod> {
    seq(|pods|, k requires 0 <= k < |pods| => (namespace, ShownName(pods[k], show)))
  }

  function Listed(e: Item): seq<Json> {
    if PodsListed(e) then Field(e.value, "items").items else []
  }

  /** All Pods that the evidence lists for the workloads, as they are shown. */
  function AllShown(workloads: seq<Workload>, evidence: seq<Item>, show: Json -> string): seq<ShownPod> {
    if workloads == [] then []
    else
      var t := workloads[|workloads| - 1];
      AllShown(workloads[..|workloads| - 1], evidence, show)
      + ShownIn(Listed(Find(evidence, PodsId(t))), t.namespace, show)
  }

  function HttpIds(evidence: seq<Item>): seq<string> {
    if evidence == [] then []
    else
      var rest, last := HttpIds(evidence[..|evidence| - 1]), evidence[|evidence| - 1];
      if IsHttp(last) then rest + [last.id] else rest
  }

  // ----- Which identifiers there are, up to order -----

  function PodIdIn(namespace: string, show: Json -> string): Json -> string {
    (pod: Json) => PodId(pod, namespace, show)
  }

  lemma {:induction false} ShownApplied(pods: seq<Json>, namespace: string, show: Json -> string)
    ensures Apply(ShownIn(pods, namespace, show), ShownId) == Apply(pods, PodIdIn(namespace, show))
  {
    if pods != [] {
      var n := |pods| - 1;
      ShownApplied(pods[..n], namespace, show);
      assert ShownIn(pods, namespace, show)[..n] == ShownIn(pods[..n], namespace, show);
    }
  }

  lemma PodsIds(e: Item, t: Workload, show: Json -> string)
    ensures multiset(Ids(PodChecks(e, t, show))) ==
      multiset{PodsId(t)} + multiset(Apply(ShownIn(Listed(e), t.namespace, show), ShownId))
  {
    if !PodsListed(e) {
      ApplySnoc([], CheckResult(PodsId(t), UNKNOWN), IdOf);
      assert PodChecks(e, t, show) == [] + [CheckResult(PodsId(t), UNKNOWN)];
    } else {
      var pods := Field(e.value, "items").items;
      var first := CheckResult(PodsId(t), CountVerdict(pods, t));
      var each := Each(SortBy(pods, PodKey(show)), PodCheck(t, show));
      ApplySnoc([], first, IdOf);
      assert [] + [first] == [first];
      ApplyConcat([first], each, IdOf);
      EachIds(SortBy(pods, PodKey(show)), PodCheck(t, show), PodIdIn(t.namespace, show));
      SortApplied(pods, PodKey(show), PodIdIn(t.namespace, show));
      ShownApplied(pods, t.namespace, show);
    }
  }

  lemma {:induction false} AllPodsIds(workloads: seq<Workload>, evidence: seq<Item>, show: Json -> string)
    ensures multiset(Ids(AllPodChecks(workloads, PodsOf(evidence, show)))) ==
      multiset(Apply(workloads, PodsId)) + multiset(Apply(AllShown(workloads, evidence, show), ShownId))
  {
    if workloads != [] {
      var n := |workloads| - 1;
      var t := workloads[n];
      AllPodsIds(workloads[..n], evidence, show);
      PodsIds(Find(evidence, PodsId(t)), t, show);
      ApplyConcat(AllPodChecks(workloads[..n], PodsOf(evidence, show)), PodsOf(evidence, show)(t), IdOf);
      ApplyConcat(AllShown(workloads[..n], evidence, show),
                  ShownIn(Listed(Find(evidence, PodsId(t))), t.namespace, show), ShownId);
    }
  }

  lemma {:induction false} HttpsIds(evidence: seq<Item>)
    ensures Ids(HttpChecks(evidence)) == HttpIds(evidence)
  {
    if evidence != [] {
      var n := |evidence| - 1;
      HttpsIds(evidence[..n]);
      ApplySnoc(HttpChecks(evidence[..n]), CheckResult(evidence[n].id, HttpVerdict(evidence[n])), IdOf);
    }
  }

  /** The parts of a report, each of its own kind; kind 6 holds the Pods, kind 8 the HTTP items. */
  function Fixed(): seq<string> {
    ["context", "kubernetes.version", "metrics-api-service"]
  }

  function Part(s: RawSnapshot, scope: Scope, show: Json -> string, kind: nat): seq<string> {
    match kind
    case 2 => Fixed()
    case 3 => Apply(scope.nodes, NodeId)
    case 4 => Apply(scope.workloads, DeploymentId)
    case 5 => Apply(scope.workloads, PodsId)
    case 6 => Apply(AllShown(scope.workloads, s.evidence, show), ShownId)
    case 7 => Apply(scope.services, RoutingId)
    case 8 => HttpIds(s.evidence)
    case _ => []
  }

  function PartsTo(s: RawSnapshot, scope: Scope, show: Json -> string, kind: nat): seq<string> {
    if kind == 0 then [] else PartsTo(s, scope, show, kind - 1) + Part(s, scope, show, kind)
  }

  lemma PairIds(a: CheckResult, b: CheckResult)
    ensures Ids([a, b]) == [a.id, b.id]
  {
    ApplySnoc([], a, IdOf);
    ApplySnoc([a], b, IdOf);
    assert [] + [a] == [a] && [a] + [b] == [a, b];
  }

  lemma HeadIds(a: CheckResult, b: CheckResult, nodes: seq<CheckResult>, deployments: seq<CheckResult>)
    ensures Ids([a, b] + nodes + deployments) == [a.id, b.id] + Ids(nodes) + Ids(deployments)
  {
    var head := [a, b];
    PairIds(a, b);
    ApplyConcat(head, nodes, IdOf);
    ApplyConcat(head + nodes, deployments, IdOf);
  }

  lemma FirstIds(s: RawSnapshot, scope: Scope)
    ensures Ids(FirstChecks(s, scope)) ==
      ["context", "kubernetes.version"] + Apply(scope.nodes, NodeId) + Apply(scope.workloads, DeploymentId)
  {
    EachIds(scope.nodes, NodeCheck(s.evidence), NodeId);
    EachIds(scope.workloads, DeploymentCheck(s.evidence), DeploymentId);
    HeadIds(CheckResult("context", PASS),
            CheckResult("kubernetes.version", VersionVerdict(Find(s.evidence, "kubernetes.version"))),
            Each(scope.nodes, NodeCheck(s.evidence)), Each(scope.workloads, DeploymentCheck(s.evidence)));
  }

  lemma LastIds(s: RawSnapshot, scope: Scope)
    ensures multiset(Ids(LastChecks(s, scope))) ==
      multiset(Apply(scope.services, RoutingId)) + multiset{"metrics-api-service"} + multiset(HttpIds(s.evidence))
  {
    var routes := Each(SortServices(scope.services), RoutingCheck(s.evidence));
    var metrics := CheckResult("metrics-api-service",
                               ConditionVerdict(MetricsStatus(Find(s.evidence, "metrics-api-service"))));
    EachIds(SortServices(scope.services), RoutingCheck(s.evidence), RoutingId);
    SortApplied(scope.services, (t: Service) => t.name, RoutingId);
    SortApplied(SortBy(scope.services, (t: Service) => t.name), (t: Service) => t.namespace, RoutingId);
    HttpsIds(s.evidence);
    ApplySnoc(routes, metrics, IdOf);
    ApplyConcat(routes + [metrics], HttpChecks(s.evidence), IdOf);
  }

  lemma NextPart(s: RawSnapshot, scope: Scope, show: Json -> string, kind: nat, part: seq<string>)
    requires kind > 0 && part == Part(s, scope, show, kind)
    ensures multiset(PartsTo(s, scope, show, kind)) == multiset(PartsTo(s, scope, show, kind - 1)) + multiset(part)
  {
  }

  lemma PartsUnfold(s: RawSnapshot, scope: Scope, show: Json -> string)
    ensures multiset(PartsTo(s, scope, show, 8)) ==
      multiset(Fixed()) + multiset(Apply(scope.nodes, NodeId)) + multiset(Apply(scope.workloads, DeploymentId))
      + multiset(Apply(scope.workloads, PodsId)) + multiset(Apply(AllShown(scope.workloads, s.evidence, show), ShownId))
      + multiset(Apply(scope.services, RoutingId)) + multiset(HttpIds(s.evidence))
  {
    NextPart(s, scope, show, 1, []);
    NextPart(s, scope, show, 2, Fixed());
    NextPart(s, scope, show, 3, Apply(scope.nodes, NodeId));
    NextPart(s, scope, show, 4, Apply(scope.workloads, DeploymentId));
    NextPart(s, scope, show, 5, Apply(scope.workloads, PodsId));
    NextPart(s, scope, show, 6, Apply(AllShown(scope.workloads, s.evidence, show), ShownId));
    NextPart(s, scope, show, 7, Apply(scope.services, RoutingId));
    NextPart(s, scope, show, 8, HttpIds(s.evidence));
  }

  lemma ThreeIds(first: seq<CheckResult>, pods: seq<CheckResult>, last: seq<CheckResult>)
    ensures multiset(Ids(first + pods + last)) == multiset(Ids(first)) + multiset(Ids(pods)) + multiset(Ids(last))
  {
    ApplyConcat(first, pods, IdOf);
    ApplyConcat(first + pods, last, IdOf);
  }

  lemma ReportIds(s: RawSnapshot, scope: Scope, show: Json -> string)
    requires ContextMatches(s)
    ensures multiset(Ids(ChecksOf(s, scope, show))) ==
      multiset(Ids(FirstChecks(s, scope))) + multiset(Ids(AllPodChecks(scope.workloads, PodsOf(s.evidence, show))))
      + multiset(Ids(LastChecks(s, scope)))
  {
    ThreeIds(FirstChecks(s, scope), AllPodChecks(scope.workloads, PodsOf(s.evidence, show)), LastChecks(s, scope));
  }

  lemma FirstCounts(s: RawSnapshot, scope: Scope)
    ensures multiset(Ids(FirstChecks(s, scope))) + multiset{"metrics-api-service"} ==
      multiset(Fixed()) + multiset(Apply(scope.nodes, NodeId)) + multiset(Apply(scope.workloads, DeploymentId))
  {
    FirstIds(s, scope);
  }

  /** A report holds exactly the identifiers of its parts, in some order. */
  lemma ReportParts(s: RawSnapshot, scope: Scope, show: Json -> string)
    requires ContextMatches(s)
    ensures multiset(Ids(ChecksOf(s, scope, show))) == multiset(PartsTo(s, scope, show, 8))
  {
    ReportIds(s, scope, show);
    FirstCounts(s, scope);
    AllPodsIds(scope.workloads, s.evidence, show);
    LastIds(s, scope);
    PartsUnfold(s, scope, show);
  }

  // ----- Identifiers of different kinds differ -----

  function Kind(id: string): nat {
    if id == "context" || id == "kubernetes.version" || id == "metrics-api-service" then 2
    else if "node." <= id then 3
    else if "deployment." <= id then 4
    else if "pods." <= id then 5
    else if "pod." <= id then 6
    else if "routing." <= id then 7
    else if HTTP_PREFIX <= id then 8
    else 0
  }

  lemma KindsOf(rest: string)
    ensures Kind("node." + rest) == 3 && Kind("deployment." + rest) == 4
    ensures Kind("routing." + rest) == 7 && Kind("http." + rest) == 8
  {
    assert ("node." + rest)[0] == 'n' && ("deployment." + rest)[0] == 'd';
    assert ("routing." + rest)[0] == 'r' && ("http." + rest)[0] == 'h';
  }

  lemma PodKindsOf(rest: string)
    ensures Kind("pods." + rest) == 5 && Kind("pod." + rest) == 6
  {
    assert ("pods." + rest)[0] == 'p' && ("pod." + rest)[0] == 'p';
    assert ("pods." + rest)[3] == 's' && ("pod." + rest)[3] == '.';
  }

  predicate AllOfKind(ids: seq<string>, kind: nat) {
    forall k :: 0 <= k < |ids| ==> Kind(ids[k]) == kind
  }

  lemma ApplyKind<T>(xs: seq<T>, f: T -> string, kind: nat)
    requires forall k :: 0 <= k < |xs| ==> Kind(f(xs[k])) == kind
    ensures AllOfKind(Apply(xs, f), kind)
  {
    ApplyMeans(xs, f);
  }

  lemma {:induction false} HttpKind(evidence: seq<Item>)
    ensures AllOfKind(HttpIds(evidence), 8)
  {
    if evidence != [] {
      var last := evidence[|evidence| - 1];
      HttpKind(evidence[..|evidence| - 1]);
      if IsHttp(last) {
        assert last.id == "http." + last.id[5..];
        KindsOf(last.id[5..]);
      }
    }
  }

  lemma ShownKind(x: ShownPod)
    ensures Kind(ShownId(x)) == 6
  {
    PodKindsOf(x.0 + "." + x.1);
    assert ShownId(x) == "pod." + (x.0 + "." + x.1);
  }

  lemma TargetKinds(namespace: string, name: string)
    ensures Kind("deployment." + namespace + "." + name) == 4 && Kind("pods." + namespace + "." + name) == 5
    ensures Kind("routing." + namespace + "." + name) == 7
  {
    KindsOf(namespace + "." + name);
    PodKindsOf(namespace + "." + name);
    assert "deployment." + namespace + "." + name == "deployment." + (namespace + "." + name);
    assert "pods." + namespace + "." + name == "pods." + (namespace + "." + name);
    assert "routing." + namespace + "." + name == "routing." + (namespace + "." + name);
  }

  lemma PartsHaveKinds(s: RawSnapshot, scope: Scope, show: Json -> string, kind: nat)
    ensures AllOfKind(Part(s, scope, show, kind), kind)
  {
    match kind
    case 2 =>
    case 3 =>
      forall k | 0 <= k < |scope.nodes| ensures Kind(NodeId(scope.nodes[k])) == 3 {
        KindsOf(scope.nodes[k]);
      }
      ApplyKind(scope.nodes, NodeId, 3);
    case 4 =>
      forall k | 0 <= k < |scope.workloads| ensures Kind(DeploymentId(scope.workloads[k])) == 4 {
        TargetKinds(scope.workloads[k].namespace, scope.workloads[k].deployment);
      }
      ApplyKind(scope.workloads, DeploymentId, 4);
    case 5 =>
      forall k | 0 <= k < |scope.workloads| ensures Kind(PodsId(scope.workloads[k])) == 5 {
        TargetKinds(scope.workloads[k].namespace, scope.workloads[k].deployment);
      }
      ApplyKind(scope.workloads, PodsId, 5);
    case 6 =>
      var shown := AllShown(scope.workloads, s.evidence, show);
      forall k | 0 <= k < |shown| ensures Kind(ShownId(shown[k])) == 6 {
        ShownKind(shown[k]);
      }
      ApplyKind(shown, ShownId, 6);
    case 7 =>
      forall k | 0 <= k < |scope.services| ensures Kind(RoutingId(scope.services[k])) == 7 {
        TargetKinds(scope.services[k].namespace, scope.services[k].name);
      }
      ApplyKind(scope.services, RoutingId, 7);
    case 8 => HttpKind(s.evidence);
    case _ =>
  }

  predicate KindsUpTo(ids: seq<string>, kind: nat) {
    forall k :: 0 <= k < |ids| ==> Kind(ids[k]) <= kind
  }

  lemma AddPart(ids: seq<string>, more: seq<string>, kind: nat)
    requires kind > 0 && KindsUpTo(ids, kind - 1) && AllOfKind(more, kind)
    ensures KindsUpTo(ids + more, kind)
    ensures Distinct(ids + more) <==> Distinct(ids) && Distinct(more)
  {
    DistinctConcat(ids, more);
  }

  lemma OneMorePart(s: RawSnapshot, scope: Scope, show: Json -> string, kind: nat)
    requires kind > 0 && KindsUpTo(PartsTo(s, scope, show, kind - 1), kind - 1)
    ensures KindsUpTo(PartsTo(s, scope, show, kind), kind)
    ensures Distinct(PartsTo(s, scope, show, kind)) <==>
      Distinct(PartsTo(s, scope, show, kind - 1)) && Distinct(Part(s, scope, show, kind))
  {
    PartsHaveKinds(s, scope, show, kind);
    AddPart(PartsTo(s, scope, show, kind - 1), Part(s, scope, show, kind), kind);
  }

  predicate EachPartDistinct(s: RawSnapshot, scope: Scope, show: Json -> string, kind: nat) {
    kind == 0 || (EachPartDistinct(s, scope, show, kind - 1) && Distinct(Part(s, scope, show, kind)))
  }

  lemma {:induction false} PartsDistinct(s: RawSnapshot, scope: Scope, show: Json -> string, kind: nat)
    ensures KindsUpTo(PartsTo(s, scope, show, kind), kind)
    ensures Distinct(PartsTo(s, scope, show, kind)) <==> EachPartDistinct(s, scope, show, kind)
  {
    if kind > 0 {
      PartsDistinct(s, scope, show, kind - 1);
      OneMorePart(s, scope, show, kind);
    }
  }

  // ----- When the parts are free of duplicates -----

  lemma {:induction false} DotSplits(a: string, x: string, b: string, y: string)
    requires '.' !in a && '.' !in b && a + "." + x == b + "." + y
    ensures a == b && x == y
    decreases |a|
  {
    var left, right := a + "." + x, b + "." + y;
    assert left[0] == right[0] && left[1..] == right[1..];
    if a == "" || b == "" {
      assert left[0] == '.';
    } else {
      assert left[1..] == a[1..] + "." + x && right[1..] == b[1..] + "." + y;
      DotSplits(a[1..], x, b[1..], y);
      assert a == [a[0]] + a[1..] && b == [b[0]] + b[1..];
    }
  }

  lemma DotSplitsAfter(prefix: string, a: string, x: string, b: string, y: string)
    requires '.' !in a && '.' !in b && prefix + a + "." + x == prefix + b + "." + y
    ensures a == b && x == y
  {
    var left, right := prefix + a + "." + x, prefix + b + "." + y;
    assert left[|prefix|..] == a + "." + x && right[|prefix|..] == b + "." + y;
    DotSplits(a, x, b, y);
  }

  /** Nodes, workloads and services are listed once, under namespaces without a dot, as Kubernetes names them. */
  predicate HasDistinctTargets(scope: Scope) {
    && Distinct(scope.nodes)
    && (forall k :: 0 <= k < |scope.workloads| ==> '.' !in scope.workloads[k].namespace)
    && (forall k :: 0 <= k < |scope.services| ==> '.' !in scope.services[k].namespace)
    && (forall i, j :: 0 <= i < j < |scope.workloads| ==>
      scope.workloads[i].namespace != scope.workloads[j].namespace
      || scope.workloads[i].deployment != scope.workloads[j].deployment)
    && (forall i, j :: 0 <= i < j < |scope.services| ==>
      scope.services[i].namespace != scope.services[j].namespace || scope.services[i].name != scope.services[j].name)
  }

  /** The supplied HTTP items, and the Pods that are listed in one namespace, have different names. */
  predicate NamesDiffer(s: RawSnapshot, scope: Scope, show: Json -> string) {
    Distinct(HttpIds(s.evidence)) && Distinct(AllShown(scope.workloads, s.evidence, show))
  }

  lemma NodesDistinct(nodes: seq<string>)
    requires Distinct(nodes)
    ensures Distinct(Apply(nodes, NodeId))
  {
    forall i, j | 0 <= i < j < |nodes| ensures NodeId(nodes[i]) == NodeId(nodes[j]) <==> nodes[i] == nodes[j] {
      assert NodeId(nodes[i])[5..] == nodes[i] && NodeId(nodes[j])[5..] == nodes[j];
    }
    ApplyDistinct(nodes, NodeId);
  }

  lemma WorkloadsDistinct(scope: Scope)
    requires HasDistinctTargets(scope)
    ensures Distinct(Apply(scope.workloads, DeploymentId)) && Distinct(Apply(scope.workloads, PodsId))
  {
    var ts := scope.workloads;
    forall i, j | 0 <= i < j < |ts|
      ensures DeploymentId(ts[i]) != DeploymentId(ts[j]) && PodsId(ts[i]) != PodsId(ts[j])
    {
      if DeploymentId(ts[i]) == DeploymentId(ts[j]) {
        DotSplitsAfter("deployment.", ts[i].namespace, ts[i].deployment, ts[j].namespace, ts[j].deployment);
      }
      if PodsId(ts[i]) == PodsId(ts[j]) {
        DotSplitsAfter("pods.", ts[i].namespace, ts[i].deployment, ts[j].namespace, ts[j].deployment);
      }
    }
    ApplyMeans(ts, DeploymentId);
    ApplyMeans(ts, PodsId);
  }

  lemma ServicesDistinct(scope: Scope)
    requires HasDistinctTargets(scope)
    ensures Distinct(Apply(scope.services, RoutingId))
  {
    var ts := scope.services;
    forall i, j | 0 <= i < j < |ts| ensures RoutingId(ts[i]) != RoutingId(ts[j]) {
      if RoutingId(ts[i]) == RoutingId(ts[j]) {
        DotSplitsAfter("routing.", ts[i].namespace, ts[i].name, ts[j].namespace, ts[j].name);
      }
    }
    ApplyMeans(ts, RoutingId);
  }

  lemma {:induction false} ShownNamespaces(workloads: seq<Workload>, evidence: seq<Item>, show: Json -> string)
    requires forall k :: 0 <= k < |workloads| ==> '.' !in workloads[k].namespace
    ensures forall k :: 0 <= k < |AllShown(workloads, evidence, show)| ==>
      '.' !in AllShown(workloads, evidence, show)[k].0
  {
    if workloads != [] {
      ShownNamespaces(workloads[..|workloads| - 1], evidence, show);
    }
  }

  lemma ShownDistinct(shown: seq<ShownPod>)
    requires forall k :: 0 <= k < |shown| ==> '.' !in shown[k].0
    ensures Distinct(Apply(shown, ShownId)) <==> Distinct(shown)
  {
    forall i, j | 0 <= i < j < |shown| ensures ShownId(shown[i]) == ShownId(shown[j]) <==> shown[i] == shown[j] {
      if ShownId(shown[i]) == ShownId(shown[j]) {
        DotSplitsAfter("pod.", shown[i].0, shown[i].1, shown[j].0, shown[j].1);
      }
    }
    ApplyDistinct(shown, ShownId);
  }

  /**
   For a scope with distinct targets no identifier is reported twice exactly when the names that the
   evidence supplies differ. No supplied name ever collides with a fixed one.
   */
  lemma IdentifiersDistinctIff(s: RawSnapshot, scope: Scope, show: Json -> string)
    requires HasDistinctTargets(scope)
    ensures Distinct(Ids(ChecksOf(s, scope, show))) <==> !ContextMatches(s) || NamesDiffer(s, scope, show)
  {
    if ContextMatches(s) {
      ReportParts(s, scope, show);
      SameDistinct(Ids(ChecksOf(s, scope, show)), PartsTo(s, scope, show, 8));
      PartsDistinct(s, scope, show, 8);
      PartsOfTargets(s, scope, show);
    } else {
      ApplyMeans(ChecksOf(s, scope, show), IdOf);
    }
  }

  lemma TargetPartsDistinct(s: RawSnapshot, scope: Scope, show: Json -> string)
    requires HasDistinctTargets(scope)
    ensures EachPartDistinct(s, scope, show, 5) && Distinct(Part(s, scope, show, 7))
  {
    NodesDistinct(scope.nodes);
    WorkloadsDistinct(scope);
    ServicesDistinct(scope);
    assert EachPartDistinct(s, scope, show, 0);
    assert Part(s, scope, show, 1) == [];
    assert EachPartDistinct(s, scope, show, 1);
    assert EachPartDistinct(s, scope, show, 2);
    assert EachPartDistinct(s, scope, show, 3);
    assert EachPartDistinct(s, scope, show, 4);
  }

  lemma PartsOfTargets(s: RawSnapshot, scope: Scope, show: Json -> string)
    requires HasDistinctTargets(scope)
    ensures EachPartDistinct(s, scope, show, 8) <==> NamesDiffer(s, scope, show)
  {
    TargetPartsDistinct(s, scope, show);
    ShownNamespaces(scope.workloads, s.evidence, show);
    ShownDistinct(AllShown(scope.workloads, s.evidence, show));
    assert EachPartDistinct(s, scope, show, 6) <==> Distinct(Part(s, scope, show, 6));
  }

  lemma {:induction false} PartsNamed(s: RawSnapshot, scope: Scope, show: Json -> string, kind: nat)
    ensures "" !in PartsTo(s, scope, show, kind)
  {
    if kind > 0 {
      PartsNamed(s, scope, show, kind - 1);
      PartsHaveKinds(s, scope, show, kind);
      assert Kind("") == 0;
    }
  }

  /** Every check has an identifier. */
  lemma IdentifiersNamed(s: RawSnapshot, scope: Scope, show: Json -> string)
    ensures "" !in Ids(ChecksOf(s, scope, show))
  {
    if ContextMatches(s) {
      ReportParts(s, scope, show);
      PartsNamed(s, scope, show, 8);
      assert "" !in multiset(PartsTo(s, scope, show, 8));
    } else {
      ApplyMeans(ChecksOf(s, scope, show), IdOf);
    }
  }

  // ----- Nameless Pods -----

  lemma {:induction false} ListShown(workloads: seq<Workload>, evidence: seq<Item>, show: Json -> string, w: nat)
    requires w < |workloads| && Distinct(AllShown(workloads, evidence, show))
    ensures Distinct(ShownIn(Listed(Find(evidence, PodsId(workloads[w]))), workloads[w].namespace, show))
  {
    var n := |workloads| - 1;
    DistinctConcat(AllShown(workloads[..n], evidence, show),
                   ShownIn(Listed(Find(evidence, PodsId(workloads[n]))), workloads[n].namespace, show));
    if w < n {
      ListShown(workloads[..n], evidence, show, w);
    }
  }

  lemma NamelessShown(pods: seq<Json>, namespace: string, show: Json -> string, i: nat, j: nat)
    requires i < j < |pods| && !IsTruthy(PodName(pods[i])) && !IsTruthy(PodName(pods[j]))
    ensures !Distinct(ShownIn(pods, namespace, show))
  {
    var shown := ShownIn(pods, namespace, show);
    assert shown[i] == (namespace, "unknown") == shown[j];
  }

  /** Two nameless Pods of one list are reported under one identifier. */
  lemma NamelessPodsCollide(s: RawSnapshot, scope: Scope, show: Json -> string, w: nat, i: nat, j: nat)
    requires HasDistinctTargets(scope) && ContextMatches(s) && w < |scope.workloads|
    requires var pods := Listed(Find(s.evidence, PodsId(scope.workloads[w])));
      i < j < |pods| && !IsTruthy(PodName(pods[i])) && !IsTruthy(PodName(pods[j]))
    ensures !Distinct(Ids(ChecksOf(s, scope, show)))
  {
    var t := scope.workloads[w];
    IdentifiersDistinctIff(s, scope, show);
    NamelessShown(Listed(Find(s.evidence, PodsId(t))), t.namespace, show, i, j);
    if NamesDiffer(s, scope, show) {
      ListShown(scope.workloads, s.evidence, show, w);
    }
  }
}
