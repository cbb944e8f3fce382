/**
 The bounded resource lists of the Console and their truncation flag. Kubernetes objects are reduced
 to what decides the flag: names, which Pods a selector picks, which EndpointSlices name a Service.
 */
module ResourceLists {
  import opened Lexicographic

  const MAX_OBJECTS := 200

  datatype Reference = Reference(kind: string, name: string, relation: string)

  datatype Record = Record(kind: string, name: string, related: seq<Reference>)

  /** One page of a list call; more says that the server holds a continuation token. */
  datatype Page<T> = Page(items: seq<T>, more: bool)

  /** labels stands for whatever the label selectors look at; service is the Service-name label. */
  datatype Pod = Pod(name: string, labels: map<string, string>)
  datatype EndpointSlice = EndpointSlice(name: string, service: string, targets: seq<Target>)

  /** Where one endpoint points: podName only when it is a usable reference to a Pod of this namespace. */
  datatype Target = PodTarget(podName: string) | NoPod

  /** A parsed label selector; Unusable covers the parse error and the empty selector. */
  datatype Selector = Usable(matches: Pod -> bool) | Unusable

  // ----- What a record should relate to -----

  function Selected(pods: seq<Pod>, selector: Selector): seq<Reference> {
    if pods == [] || selector.Unusable? then []
    else (if selector.matches(pods[0]) then [Reference("Pod", pods[0].name, "selects")] else [])
         + Selected(pods[1..], selector)
  }

  function Routing(slices: seq<EndpointSlice>, service: string): seq<Reference> {
    if slices == [] then []
    else (if slices[0].service == service then [Reference("EndpointSlice", slices[0].name, "routes-via")] else [])
         + Routing(slices[1..], service)
  }

  function Served(slice: EndpointSlice): seq<Reference> {
    if slice.service != "" then [Reference("Service", slice.service, "serves")] else []
  }

  function Targets(targets: seq<Target>): seq<Reference> {
    if targets == [] then []
    else (if targets[0].PodTarget? then [Reference("Pod", targets[0].podName, "endpoint-target")] else [])
         + Targets(targets[1..])
  }

  function Cut(references: seq<Reference>, limit: nat): seq<Reference> {
    if |references| > limit then references[..limit] else references
  }

  // ----- The projections, which stop early -----

  method SelectedPods(selector: Selector, pods: seq<Pod>) returns (result: seq<Reference>)
    ensures result == Cut(Selected(pods, selector), MAX_OBJECTS + 1)
  {
    if selector.Unusable? {
      return [];
    }
    result := [];
    for i := 0 to |pods|
      invariant |result| <= MAX_OBJECTS
      invariant result + Selected(pods[i..], selector) == Selected(pods, selector)
    {
      ghost var rest := Selected(pods[i + 1..], selector);
      assert pods[i..][1..] == pods[i + 1..];
      if selector.matches(pods[i]) {
        assert (result + [Reference("Pod", pods[i].name, "selects")]) + rest == result + Selected(pods[i..], selector);
        result := result + [Reference("Pod", pods[i].name, "selects")];
      } else {
        assert Selected(pods[i..], selector) == rest;
      }
      if |result| == MAX_OBJECTS + 1 {
        assert result + rest == Selected(pods, selector);
        return;
      }
    }
    assert result + [] == result;
  }

  method ProjectService(name: string, selector: Selector, pods: seq<Pod>, slices: seq<EndpointSlice>)
    returns (record: Record)
    ensures record == Record("Service", name, Cut(Selected(pods, selector) + Routing(slices, name), MAX_OBJECTS + 1))
  {
    var related := [];
    if selector.Usable? {
      for i := 0 to |pods|
        invariant related + Selected(pods[i..], selector) == Selected(pods, selector)
      {
        assert pods[i..][1..] == pods[i + 1..];
        if selector.matches(pods[i]) {
          related := related + [Reference("Pod", pods[i].name, "selects")];
        }
      }
    }
    assert related + [] == related == Selected(pods, selector);
    ghost var picked := related;
    for i := 0 to |slices|
      invariant related + Routing(slices[i..], name) == picked + Routing(slices, name)
    {
      assert slices[i..][1..] == slices[i + 1..];
      if slices[i].service == name {
        related := related + [Reference("EndpointSlice", slices[i].name, "routes-via")];
      }
    }
    assert related + [] == related;
    if |related| > MAX_OBJECTS + 1 {
      related := related[..MAX_OBJECTS + 1];
    }
    record := Record("Service", name, related);
  }

  function CutTargets(targets: seq<Target>): seq<Target> {
    if |targets| > MAX_OBJECTS then targets[..MAX_OBJECTS] else targets
  }

  /** Only the first MAX_OBJECTS endpoints are looked at; clipped reports that there were more. */
  method ProjectEndpointSlice(slice: EndpointSlice) returns (record: Record, clipped: bool)
    ensures clipped <==> |slice.targets| > MAX_OBJECTS
    ensures record == Record("EndpointSlice", slice.name, Served(slice) + Targets(CutTargets(slice.targets)))
  {
    var related := Served(slice);
    ghost var shown := CutTargets(slice.targets);
    for i := 0 to |slice.targets|
      invariant i <= |shown| ==>
        |related| <= i + |Served(slice)| && related + Targets(shown[i..]) == Served(slice) + Targets(shown)
      invariant i >= |shown| ==> related == Served(slice) + Targets(shown)
    {
      if i < |shown| {
        assert shown[i..][1..] == shown[i + 1..];
      }
      if i < MAX_OBJECTS && slice.targets[i].PodTarget? {
        if |related| < MAX_OBJECTS + 1 {
          related := related + [Reference("Pod", slice.targets[i].podName, "endpoint-target")];
        }
      }
      if i + 1 == |shown| {
        assert related + [] == related;
      }
    }
    return Record("EndpointSlice", slice.name, related), |slice.targets| > MAX_OBJECTS;
  }

  // ----- trim -----

  predicate NoLater(x: Record, y: Record) {
    !Less(y.name, x.name)
  }

  ghost predicate SortedByName(records: seq<Record>) {
    forall i, j :: 0 <= i < j < |records| ==> NoLater(records[i], records[j])
  }

  function InsertByName(r: Record, records: seq<Record>): seq<Record> {
    if records == [] || NoLater(r, records[0]) then [r] + records
    else [records[0]] + InsertByName(r, records[1..])
  }

  function SortRecords(records: seq<Record>): seq<Record> {
    if records == [] then [] else InsertByName(records[0], SortRecords(records[1..]))
  }

  lemma SortedCons(r: Record, records: seq<Record>)
    requires SortedByName(records) && (records != [] ==> NoLater(r, records[0]))
    ensures SortedByName([r] + records)
  {
    forall j | 0 <= j < |records| ensures NoLater(r, records[j]) {
      LessIsTotal(r.name, records[0].name);
      LessIsTotal(records[0].name, records[j].name);
      if Less(records[j].name, r.name) {
        if r.name != records[0].name { LessIsTransitive(records[j].name, r.name, records[0].name); }
      }
    }
  }

  lemma {:induction false} InsertByNameMeans(r: Record, records: seq<Record>)
    requires SortedByName(records)
    ensures SortedByName(InsertByName(r, records))
    ensures multiset(InsertByName(r, records)) == multiset(records) + multiset{r}
    ensures InsertByName(r, records)[0] == r || (records != [] && InsertByName(r, records)[0] == records[0])
  {
    if records == [] || NoLater(r, records[0]) {
      SortedCons(r, records);
    } else {
      InsertByNameMeans(r, records[1..]);
      LessIsTotal(records[0].name, r.name);
      SortedCons(records[0], InsertByName(r, records[1..]));
      assert records == [records[0]] + records[1..];
    }
  }

  lemma {:induction false} SortRecordsMeans(records: seq<Record>)
    ensures SortedByName(SortRecords(records)) && multiset(SortRecords(records)) == multiset(records)
  {
    if records != [] {
      SortRecordsMeans(records[1..]);
      InsertByNameMeans(records[0], SortRecords(records[1..]));
      assert records == [records[0]] + records[1..];
    }
  }

  /** The library sort: callers know that it orders by name and permutes, not how it breaks ties. */
  method SortByName(records: array<Record>)
    modifies records
    ensures SortedByName(records[..]) && multiset(records[..]) == multiset(old(records[..]))
  {
    var sorted := SortRecords(records[..]);
    SortRecordsMeans(records[..]);
    assert |sorted| == |multiset(sorted)| == |multiset(records[..])| == records.Length;
    forall i | 0 <= i < records.Length {
      records[i] := sorted[i];
    }
    assert records[..] == sorted;
  }

  function ClipRecord(r: Record): Record {
    r.(related := Cut(r.related, MAX_OBJECTS))
  }

  function Clipped(records: seq<Record>): seq<Record> {
    seq(|records|, k requires 0 <= k < |records| => ClipRecord(records[k]))
  }

  predicate AnyOverfull(records: seq<Record>) {
    exists k :: 0 <= k < |records| && |records[k].related| > MAX_OBJECTS
  }

  /** What trim may return: the clipped records in some name order, and whether anything was left out. */
  ghost predicate Trimmed(records: seq<Record>, incomplete: bool, items: seq<Record>, truncated: bool) {
    && (exists sorted ::
          && SortedByName(sorted) && multiset(sorted) == multiset(Clipped(records))
          && items == if |sorted| > MAX_OBJECTS then sorted[..MAX_OBJECTS] else sorted)
    && (truncated <==> incomplete || AnyOverfull(records) || |records| > MAX_OBJECTS)
  }

  method Trim(records: array<Record>, incomplete: bool) returns (items: seq<Record>, truncated: bool)
    modifies records
    ensures Trimmed(old(records[..]), incomplete, items, truncated)
  {
    truncated := incomplete;
    ghost var given := records[..];
    for i := 0 to records.Length
      invariant forall k :: 0 <= k < i ==> records[k] == ClipRecord(given[k])
      invariant forall k :: i <= k < records.Length ==> records[k] == given[k]
      invariant truncated <==> incomplete || AnyOverfull(given[..i])
    {
      if |records[i].related| > MAX_OBJECTS {
        records[i] := records[i].(related := records[i].related[..MAX_OBJECTS]);
        truncated := true;
        assert |given[..i + 1][i].related| > MAX_OBJECTS;
      }
      assert given[..i + 1] == given[..i] + [given[i]];
      assert AnyOverfull(given[..i + 1]) <==> AnyOverfull(given[..i]) || |given[i].related| > MAX_OBJECTS by {
        if k :| 0 <= k < i && |given[..i][k].related| > MAX_OBJECTS {
          assert |given[..i + 1][k].related| > MAX_OBJECTS;
        }
      }
    }
    assert given[..records.Length] == given;
    assert records[..] == Clipped(given);
    SortByName(records);
    var sorted := records[..];
    if |sorted| > MAX_OBJECTS {
      return sorted[..MAX_OBJECTS], true;
    }
    items := sorted;
  }

  // ----- The lists -----

  datatype Workload = Workload(name: string, selector: Selector)

  lemma CutTwice(references: seq<Reference>)
    ensures Cut(Cut(references, MAX_OBJECTS + 1), MAX_OBJECTS) == Cut(references, MAX_OBJECTS)
  {
    if |references| > MAX_OBJECTS + 1 {
      assert references[..MAX_OBJECTS + 1][..MAX_OBJECTS] == references[..MAX_OBJECTS];
    }
  }

  /** Capping references above the limit changes nothing that trim returns. */
  lemma CappedRecords(full: seq<Record>, capped: seq<Record>, cut: bool, items: seq<Record>, truncated: bool)
    requires |full| == |capped|
    requires forall k :: 0 <= k < |full| ==> capped[k] == full[k].(related := Cut(full[k].related, MAX_OBJECTS + 1))
    requires Trimmed(capped, cut, items, truncated)
    ensures Trimmed(full, cut, items, truncated)
  {
    assert AnyOverfull(full) <==> AnyOverfull(capped) by {
      if k :| 0 <= k < |full| && |full[k].related| > MAX_OBJECTS {
        assert |capped[k].related| > MAX_OBJECTS;
      }
    }
    forall k | 0 <= k < |full| ensures ClipRecord(capped[k]) == ClipRecord(full[k]) {
      CutTwice(full[k].related);
    }
    assert Clipped(capped) == Clipped(full);
  }

  /**
   The flag is honest. A list not flagged is the name-sorted list of everything the calls returned,
   each record with every reference it should have; and it is flagged only for a reason.
   */
  lemma TruncationIsHonest(full: seq<Record>, cut: bool, items: seq<Record>, truncated: bool)
    requires Trimmed(full, cut, items, truncated)
    ensures !truncated <==>
      !cut && |full| <= 200 && forall k :: 0 <= k < |full| ==> |full[k].related| <= 200
    ensures !truncated ==> SortedByName(items) && multiset(items) == multiset(full)
    ensures SortedByName(items) && |items| <= 200 && forall k :: 0 <= k < |items| ==> |items[k].related| <= 200
  {
    var sorted :| SortedByName(sorted) && multiset(sorted) == multiset(Clipped(full)) &&
      items == if |sorted| > MAX_OBJECTS then sorted[..MAX_OBJECTS] else sorted;
    assert |sorted| == |multiset(sorted)| == |multiset(Clipped(full))| == |full|;
    if !AnyOverfull(full) {
      assert Clipped(full) == full;
    }
    forall k | 0 <= k < |items| ensures |items[k].related| <= MAX_OBJECTS {
      assert items[k] in multiset(sorted);
      assert items[k] in Clipped(full);
    }
  }

  function FullWorkloads(kind: string, items: seq<Workload>, pods: seq<Pod>): seq<Record> {
    seq(|items|, k requires 0 <= k < |items| => Record(kind, items[k].name, Selected(pods, items[k].selector)))
  }

  /** Deployments and ReplicaSets, with the Pods their selectors pick. */
  method ListWorkloads(kind: string, list: Page<Workload>, pods: Page<Pod>)
    returns (items: seq<Record>, truncated: bool)
    ensures Trimmed(FullWorkloads(kind, list.items, pods.items),
                    list.more || pods.more || |pods.items| > MAX_OBJECTS, items, truncated)
  {
    ghost var full := FullWorkloads(kind, list.items, pods.items);
    var records := new Record[|list.items|](_ => Record("", "", []));
    for i := 0 to |list.items|
      invariant forall k :: 0 <= k < i ==> records[k] == full[k].(related := Cut(full[k].related, MAX_OBJECTS + 1))
    {
      var related := SelectedPods(list.items[i].selector, pods.items);
      records[i] := Record(kind, list.items[i].name, related);
    }
    ghost var capped := records[..];
    items, truncated := Trim(records, list.more || pods.more || |pods.items| > MAX_OBJECTS);
    CappedRecords(full, capped, list.more || pods.more || |pods.items| > MAX_OBJECTS, items, truncated);
  }

  function FullServices(items: seq<Workload>, pods: seq<Pod>, slices: seq<EndpointSlice>): seq<Record> {
    seq(|items|, k requires 0 <= k < |items| =>
      Record("Service", items[k].name, Selected(pods, items[k].selector) + Routing(slices, items[k].name)))
  }

  method ListServices(list: Page<Workload>, pods: Page<Pod>, slices: Page<EndpointSlice>)
    returns (items: seq<Record>, truncated: bool)
    ensures Trimmed(FullServices(list.items, pods.items, slices.items),
      list.more || pods.more || slices.more || |pods.items| > MAX_OBJECTS || |slices.items| > MAX_OBJECTS,
      items, truncated)
  {
    ghost var full := FullServices(list.items, pods.items, slices.items);
    var cut := list.more || pods.more || slices.more || |pods.items| > MAX_OBJECTS || |slices.items| > MAX_OBJECTS;
    var records := new Record[|list.items|](_ => Record("", "", []));
    for i := 0 to |list.items|
      invariant forall k :: 0 <= k < i ==> records[k] == full[k].(related := Cut(full[k].related, MAX_OBJECTS + 1))
    {
      records[i] := ProjectService(list.items[i].name, list.items[i].selector, pods.items, slices.items);
    }
    ghost var capped := records[..];
    items, truncated := Trim(records, cut);
    CappedRecords(full, capped, cut, items, truncated);
  }

  function ShownSlice(slice: EndpointSlice): Record {
    Record("EndpointSlice", slice.name, Served(slice) + Targets(CutTargets(slice.targets)))
  }

  function ShownSlices(items: seq<EndpointSlice>): seq<Record> {
    seq(|items|, k requires 0 <= k < |items| => ShownSlice(items[k]))
  }

  predicate AnyLongSlice(items: seq<EndpointSlice>) {
    exists k :: 0 <= k < |items| && |items[k].targets| > MAX_OBJECTS
  }

  lemma AnyLongSliceStep(items: seq<EndpointSlice>, i: nat)
    requires i < |items|
    ensures AnyLongSlice(items[..i + 1]) <==> AnyLongSlice(items[..i]) || |items[i].targets| > MAX_OBJECTS
  {
    if k :| 0 <= k < i && |items[..i][k].targets| > MAX_OBJECTS {
      assert |items[..i + 1][k].targets| > MAX_OBJECTS;
    }
    if |items[i].targets| > MAX_OBJECTS {
      assert |items[..i + 1][i].targets| > MAX_OBJECTS;
    }
  }

  method ListEndpointSlices(list: Page<EndpointSlice>) returns (items: seq<Record>, truncated: bool)
    ensures Trimmed(ShownSlices(list.items), list.more || AnyLongSlice(list.items), items, truncated)
  {
    ghost var shown := ShownSlices(list.items);
    var records := new Record[|list.items|](_ => Record("", "", []));
    var incomplete := list.more;
    for i := 0 to |list.items|
      invariant incomplete <==> list.more || AnyLongSlice(list.items[..i])
      invariant forall k :: 0 <= k < i ==> records[k] == shown[k]
    {
      AnyLongSliceStep(list.items, i);
      var record, clipped := ProjectEndpointSlice(list.items[i]);
      records[i] := record;
      incomplete := incomplete || clipped;
    }
    assert list.items[..|list.items|] == list.items;
    assert records[..] == shown;
    items, truncated := Trim(records, incomplete);
  }

  /** A slice list that is not flagged shows every target of every slice. */
  lemma UnflaggedSlicesAreWhole(slices: seq<EndpointSlice>, more: bool, items: seq<Record>, truncated: bool)
    requires Trimmed(ShownSlices(slices), more || AnyLongSlice(slices), items, truncated) && !truncated
    ensures multiset(items) == multiset(seq(|slices|, k requires 0 <= k < |slices| =>
      Record("EndpointSlice", slices[k].name, Served(slices[k]) + Targets(slices[k].targets))))
  {
    TruncationIsHonest(ShownSlices(slices), more || AnyLongSlice(slices), items, truncated);
    assert ShownSlices(slices) == seq(|slices|, k requires 0 <= k < |slices| =>
      Record("EndpointSlice", slices[k].name, Served(slices[k]) + Targets(slices[k].targets)));
  }

  /** Namespaces, Nodes and Pods: records without references. */
  method ListNames(kind: string, list: Page<string>) returns (items: seq<Record>, truncated: bool)
    ensures Trimmed(FullNames(kind, list.items), list.more, items, truncated)
  {
    ghost var full := FullNames(kind, list.items);
    var records := new Record[|list.items|](_ => Record("", "", []));
    for i := 0 to |list.items|
      invariant forall k :: 0 <= k < i ==> records[k] == full[k]
    {
      records[i] := Record(kind, list.items[i], []);
    }
    assert records[..] == full;
    items, truncated := Trim(records, list.more);
    CappedRecords(full, full, list.more, items, truncated);
  }

  function FullNames(kind: string, names: seq<string>): seq<Record> {
    seq(|names|, k requires 0 <= k < |names| => Record(kind, names[k], []))
  }
}
