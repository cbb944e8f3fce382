/** Which references the Console's records hold: one for each matching object, in the order of the list calls. */
module ListMeaning {
  import opened ResourceLists

  predicate Increasing(at: seq<nat>) {
    forall i, j :: 0 <= i < j < |at| ==> at[i] < at[j]
  }

  function Shown<T>(items: seq<T>, keep: T -> bool, show: T -> Reference): seq<Reference> {
    if items == [] then [] else (if keep(items[0]) then [show(items[0])] else []) + Shown(items[1..], keep, show)
  }

  /** From position i on. */
  ghost predicate IsPositionsFrom<T>(at: seq<nat>, items: seq<T>, i: nat, keep: T -> bool) {
    && Increasing(at)
    && (forall k: nat :: k in at <==> i <= k < |items| && keep(items[k]))
  }

  lemma {:induction false} ShownFrom<T>(items: seq<T>, i: nat, keep: T -> bool, show: T -> Reference)
    returns (at: seq<nat>)
    requires i <= |items|
    ensures IsPositionsFrom(at, items, i, keep) && |at| == |Shown(items[i..], keep, show)|
    ensures forall a :: 0 <= a < |at| ==> at[a] < |items| && Shown(items[i..], keep, show)[a] == show(items[at[a]])
    decreases |items| - i
  {
    if i == |items| {
      at := [];
    } else {
      var rest := ShownFrom(items, i + 1, keep, show);
      assert items[i..][1..] == items[i + 1..];
      at := (if keep(items[i]) then [i] else []) + rest;
      forall a | 0 <= a < |rest| ensures i < rest[a] < |items| {
        assert rest[a] in rest;
      }
      forall k: nat ensures k in at <==> i <= k < |items| && keep(items[k]) {
        assert k in at <==> (k == i && keep(items[i])) || k in rest;
      }
    }
  }

  lemma {:induction false} SelectedIsShown(pods: seq<Pod>, selector: Selector, show: Pod -> Reference)
    requires selector.Usable? && forall pod: Pod :: show(pod) == Reference("Pod", pod.name, "selects")
    ensures Selected(pods, selector) == Shown(pods, selector.matches, show)
  {
    if pods != [] {
      SelectedIsShown(pods[1..], selector, show);
    }
  }

  /** A workload or Service relates to exactly the Pods its selector matches, and to none without a selector. */
  lemma SelectedMeans(pods: seq<Pod>, selector: Selector) returns (at: seq<nat>)
    ensures Increasing(at) && forall k: nat :: k in at <==> k < |pods| && selector.Usable? && selector.matches(pods[k])
    ensures |Selected(pods, selector)| == |at|
    ensures forall i :: 0 <= i < |at| ==>
      at[i] < |pods| && Selected(pods, selector)[i] == Reference("Pod", pods[at[i]].name, "selects")
  {
    if selector.Unusable? {
      at := [];
    } else {
      var show := (pod: Pod) => Reference("Pod", pod.name, "selects");
      at := ShownFrom(pods, 0, selector.matches, show);
      SelectedIsShown(pods, selector, show);
      assert pods[0..] == pods;
    }
  }

  lemma {:induction false} RoutingIsShown(slices: seq<EndpointSlice>, service: string,
                                          keep: EndpointSlice -> bool, show: EndpointSlice -> Reference)
    requires forall slice: EndpointSlice :: keep(slice) <==> slice.service == service
    requires forall slice: EndpointSlice :: show(slice) == Reference("EndpointSlice", slice.name, "routes-via")
    ensures Routing(slices, service) == Shown(slices, keep, show)
  {
    if slices != [] {
      RoutingIsShown(slices[1..], service, keep, show);
    }
  }

  /** A Service is routed via exactly the slices that name it. */
  lemma RoutingMeans(slices: seq<EndpointSlice>, service: string) returns (at: seq<nat>)
    ensures Increasing(at) && forall k: nat :: k in at <==> k < |slices| && slices[k].service == service
    ensures |Routing(slices, service)| == |at|
    ensures forall i :: 0 <= i < |at| ==>
      at[i] < |slices| && Routing(slices, service)[i] == Reference("EndpointSlice", slices[at[i]].name, "routes-via")
  {
    var keep := (slice: EndpointSlice) => slice.service == service;
    var show := (slice: EndpointSlice) => Reference("EndpointSlice", slice.name, "routes-via");
    at := ShownFrom(slices, 0, keep, show);
    RoutingIsShown(slices, service, keep, show);
    assert slices[0..] == slices;
  }

  lemma {:induction false} TargetsAreShown(targets: seq<Target>, keep: Target -> bool, show: Target -> Reference)
    requires forall target: Target :: keep(target) <==> target.PodTarget?
    requires forall target: Target :: target.PodTarget? ==>
      show(target) == Reference("Pod", target.podName, "endpoint-target")
    ensures Targets(targets) == Shown(targets, keep, show)
  {
    if targets != [] {
      TargetsAreShown(targets[1..], keep, show);
    }
  }

  /** An EndpointSlice points to exactly the Pods that its endpoints reference. */
  lemma TargetsMean(targets: seq<Target>) returns (at: seq<nat>)
    ensures Increasing(at) && forall k: nat :: k in at <==> k < |targets| && targets[k].PodTarget?
    ensures |Targets(targets)| == |at|
    ensures forall i :: 0 <= i < |at| ==>
      at[i] < |targets| && targets[at[i]].PodTarget? &&
      Targets(targets)[i] == Reference("Pod", targets[at[i]].podName, "endpoint-target")
  {
    var keep := (target: Target) => target.PodTarget?;
    var show := (target: Target) =>
      if target.PodTarget? then Reference("Pod", target.podName, "endpoint-target") else Reference("", "", "");
    at := ShownFrom(targets, 0, keep, show);
    TargetsAreShown(targets, keep, show);
    assert targets[0..] == targets;
    forall i | 0 <= i < |at| ensures targets[at[i]].PodTarget? {
      assert at[i] in at;
    }
  }

  /** A slice's record leads with the Service it is labelled for, if any, and goes on with its targets. */
  lemma ServedFirst(slice: EndpointSlice)
    ensures var related := ShownSlice(slice).related;
      if slice.service == "" then related == Targets(CutTargets(slice.targets))
      else related == [Reference("Service", slice.service, "serves")] + Targets(CutTargets(slice.targets))
    ensures CutTargets(slice.targets) == slice.targets[..if |slice.targets| < 200 then |slice.targets| else 200]
  {
    assert slice.service == "" ==> [] + Targets(CutTargets(slice.targets)) == Targets(CutTargets(slice.targets));
  }
}
