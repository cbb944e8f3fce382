/** Identifiers name nodes: one record for every node, no identifier twice, ancestors exact and earlier. */
module TreeIdentity {
  import opened YamlPaths
  import opened TreeIndex

  // ----- The index holds exactly the nodes -----

  /** The node lies at or below v, which itself lies at base. */
  ghost predicate Reaches(v: Value, base: seq<Step>, n: Node) {
    base <= n.steps && Leads(v, n.steps[|base|..], n.value)
  }

  ghost predicate ReachesBelow(v: Value, base: seq<Step>, k: nat, n: Node) {
    exists j :: k <= j < Children(v) && Reaches(Child(v, j), base + [ChildStep(v, j)], n)
  }

  lemma ReachesStep(v: Value, base: seq<Step>, n: Node)
    ensures Reaches(v, base, n) <==> n == Node(base, v) || ReachesBelow(v, base, 0, n)
  {
    if Reaches(v, base, n) && n.steps[|base|..] != [] {
      var tail := n.steps[|base|..];
      var j :| 0 <= j < Children(v) && ChildStep(v, j) == tail[0] && Leads(Child(v, j), tail[1..], n.value);
      var deeper := base + [ChildStep(v, j)];
      assert n.steps[|deeper|..] == tail[1..];
      assert Reaches(Child(v, j), deeper, n);
    }
    if ReachesBelow(v, base, 0, n) {
      var j :| 0 <= j < Children(v) && Reaches(Child(v, j), base + [ChildStep(v, j)], n);
      var tail := n.steps[|base|..];
      assert n.steps[|base| + 1..] == tail[1..] && tail[0] == ChildStep(v, j);
    }
    if Reaches(v, base, n) && n.steps[|base|..] == [] {
      assert n.steps == base;
    }
  }

  lemma {:induction false} NodesReach(v: Value, base: seq<Step>, n: Node)
    ensures n in Nodes(v, base) <==> Reaches(v, base, n)
    decreases v, Children(v) + 1
  {
    NodesFromReach(v, base, 0, n);
    ReachesStep(v, base, n);
  }

  lemma {:induction false} NodesFromReach(v: Value, base: seq<Step>, k: nat, n: Node)
    requires k <= Children(v)
    ensures n in NodesFrom(v, base, k) <==> ReachesBelow(v, base, k, n)
    decreases v, Children(v) - k
  {
    if k < Children(v) {
      NodesReach(Child(v, k), base + [ChildStep(v, k)], n);
      NodesFromReach(v, base, k + 1, n);
      assert ReachesBelow(v, base, k, n) <==>
        Reaches(Child(v, k), base + [ChildStep(v, k)], n) || ReachesBelow(v, base, k + 1, n);
    }
  }

  /** A document's nodes are exactly what its root leads to. */
  lemma NodesAreComplete(v: Value, n: Node)
    ensures n in Nodes(v, []) <==> Leads(v, n.steps, n.value)
  {
    NodesReach(v, [], n);
    assert n.steps[0..] == n.steps;
  }

  // ----- No node twice -----

  ghost predicate DistinctSteps(nodes: seq<Node>) {
    forall i, j :: 0 <= i < j < |nodes| ==> nodes[i].steps != nodes[j].steps
  }

  lemma DistinctConcat(a: seq<Node>, b: seq<Node>)
    requires DistinctSteps(a) && DistinctSteps(b)
    requires forall m, n :: m in a && n in b ==> m.steps != n.steps
    ensures DistinctSteps(a + b)
  {
  }

  lemma {:induction false} NodesDistinct(v: Value, base: seq<Step>)
    requires HasDistinctKeys(v)
    ensures DistinctSteps(Nodes(v, base))
    decreases v, Children(v) + 1
  {
    NodesFromDistinct(v, base, 0);
    forall n | n in NodesFrom(v, base, 0) ensures n.steps != base {
      NodesFromReach(v, base, 0, n);
    }
    DistinctConcat([Node(base, v)], NodesFrom(v, base, 0));
  }

  lemma {:induction false} NodesFromDistinct(v: Value, base: seq<Step>, k: nat)
    requires HasDistinctKeys(v) && k <= Children(v)
    ensures DistinctSteps(NodesFrom(v, base, k))
    decreases v, Children(v) - k
  {
    if k < Children(v) {
      var a, b := Nodes(Child(v, k), base + [ChildStep(v, k)]), NodesFrom(v, base, k + 1);
      NodesDistinct(Child(v, k), base + [ChildStep(v, k)]);
      NodesFromDistinct(v, base, k + 1);
      forall m, n | m in a && n in b ensures m.steps != n.steps {
        NodesReach(Child(v, k), base + [ChildStep(v, k)], m);
        NodesFromReach(v, base, k + 1, n);
        SiblingsDiffer(v, base, k, m, n);
      }
      DistinctConcat(a, b);
    }
  }

  lemma SiblingsDiffer(v: Value, base: seq<Step>, k: nat, m: Node, n: Node)
    requires HasDistinctKeys(v) && k < Children(v)
    requires Reaches(Child(v, k), base + [ChildStep(v, k)], m) && ReachesBelow(v, base, k + 1, n)
    ensures m.steps[|base|] != n.steps[|base|]
  {
    var j :| k + 1 <= j < Children(v) && Reaches(Child(v, j), base + [ChildStep(v, j)], n);
    assert m.steps[|base|] == (base + [ChildStep(v, k)])[|base|];
    assert n.steps[|base|] == (base + [ChildStep(v, j)])[|base|];
  }

  // ----- Identifiers -----

  lemma PathIdSplits(documentIndex: nat, path: Text)
    ensures var rest := PathId(documentIndex, path)[|DOCUMENT_PREFIX|..];
      var n := Span(rest, IsDigit);
      rest[..n] == Decimal(documentIndex) && rest[n..] == [COLON] + path
  {
    DecimalReadsBack(documentIndex);
    var rest := PathId(documentIndex, path)[|DOCUMENT_PREFIX|..];
    assert rest == Decimal(documentIndex) + ([COLON] + path);
    SpanIs(Decimal(documentIndex), [COLON] + path, IsDigit);
  }

  /** An identifier determines its document and its node. */
  lemma NodeIdIsInjective(d: nat, s: seq<Step>, e: nat, t: seq<Step>)
    ensures NodeId(d, s) == NodeId(e, t) <==> d == e && s == t
  {
    if NodeId(d, s) == NodeId(e, t) {
      PathIdSplits(d, PathText(s));
      PathIdSplits(e, PathText(t));
      DecimalReadsBack(d);
      DecimalReadsBack(e);
      assert ([COLON] + PathText(s))[1..] == PathText(s) && ([COLON] + PathText(t))[1..] == PathText(t);
      PathReadsBack(s);
      PathReadsBack(t);
    }
  }

  lemma {:induction false} EachAt(nodes: seq<Node>, record: Node -> Record, k: nat)
    requires k < |nodes|
    ensures |Each(nodes, record)| == |nodes| && Each(nodes, record)[k] == record(nodes[k])
  {
    var n := |nodes| - 1;
    if n > 0 {
      EachAt(nodes[..n], record, if k < n then k else 0);
    } else {
      assert nodes[..0] == [];
    }
  }

  lemma RecordAt(d: nat, nodes: seq<Node>, k: nat)
    requires k < |nodes|
    ensures |RecordsOf(d, nodes)| == |nodes| && RecordsOf(d, nodes)[k] == RecordOf(d, nodes[k])
  {
    EachAt(nodes, node => RecordOf(d, node), k);
  }

  lemma RecordsCount(d: nat, nodes: seq<Node>)
    ensures |RecordsOf(d, nodes)| == |nodes|
  {
    if nodes != [] {
      RecordAt(d, nodes, 0);
    }
  }

  ghost predicate DistinctIds(records: seq<Record>) {
    forall i, j :: 0 <= i < j < |records| ==> records[i].id != records[j].id
  }

  lemma DocumentIdsDistinct(d: nat, v: Value)
    requires HasDistinctKeys(v)
    ensures DistinctIds(RecordsOf(d, Nodes(v, [])))
  {
    var nodes := Nodes(v, []);
    RecordsCount(d, nodes);
    NodesDistinct(v, []);
    forall i, j | 0 <= i < j < |nodes| ensures RecordsOf(d, nodes)[i].id != RecordsOf(d, nodes)[j].id {
      RecordAt(d, nodes, i);
      RecordAt(d, nodes, j);
      NodeIdIsInjective(d, nodes[i].steps, d, nodes[j].steps);
    }
  }

  /** The record is that of the node, and the node is in the document. */
  ghost predicate IsRecordOf(r: Record, document: Document, n: Node) {
    Leads(document.raw, n.steps, n.value) && r == RecordOf(document.index, n)
  }

  ghost predicate IsRecordIn(r: Record, document: Document) {
    exists n :: IsRecordOf(r, document, n)
  }

  lemma RecordsComplete(document: Document, r: Record)
    ensures r in RecordsOf(document.index, Nodes(document.raw, [])) <==> IsRecordIn(r, document)
  {
    var nodes := Nodes(document.raw, []);
    var records := RecordsOf(document.index, nodes);
    RecordsCount(document.index, nodes);
    if r in records {
      var k :| 0 <= k < |records| && records[k] == r;
      RecordAt(document.index, nodes, k);
      NodesAreComplete(document.raw, nodes[k]);
      assert nodes[k] in nodes && IsRecordOf(r, document, nodes[k]);
    }
    if n :| IsRecordOf(r, document, n) {
      NodesAreComplete(document.raw, n);
      var k :| 0 <= k < |nodes| && nodes[k] == n;
      RecordAt(document.index, nodes, k);
    }
  }

  lemma InFullIndex(documents: seq<Document>, r: Record)
    requires documents != []
    ensures var m := |documents| - 1;
      r in FullIndex(documents) <==> r in FullIndex(documents[..m]) || IsRecordIn(r, documents[m])
  {
    RecordsComplete(documents[|documents| - 1], r);
  }

  /** The index holds exactly one kind of thing: the records of the documents' nodes, and all of them. */
  lemma {:induction false} IndexIsComplete(documents: seq<Document>, r: Record)
    ensures r in FullIndex(documents) <==> exists document :: document in documents && IsRecordIn(r, document)
  {
    if documents != [] {
      var m := |documents| - 1;
      IndexIsComplete(documents[..m], r);
      InFullIndex(documents, r);
      if document :| document in documents && IsRecordIn(r, document) {
        assert document in documents[..m] || document == documents[m];
      }
    }
  }

  /** As the caller numbers them: no two documents share an index. */
  ghost predicate DistinctDocuments(documents: seq<Document>) {
    && (forall i, j :: 0 <= i < j < |documents| ==> documents[i].index != documents[j].index)
    && forall k :: 0 <= k < |documents| ==> HasDistinctKeys(documents[k].raw)
  }

  /** No identifier occurs twice in an index, across all documents. */
  lemma {:induction false} IdsAreUnique(documents: seq<Document>)
    requires DistinctDocuments(documents)
    ensures DistinctIds(FullIndex(documents))
  {
    if documents != [] {
      var m := |documents| - 1;
      var a := FullIndex(documents[..m]);
      var b := RecordsOf(documents[m].index, Nodes(documents[m].raw, []));
      IdsAreUnique(documents[..m]);
      DocumentIdsDistinct(documents[m].index, documents[m].raw);
      forall x, y | x in a && y in b ensures x.id != y.id {
        OtherDocumentsDiffer(documents, x, y);
      }
    }
  }

  lemma OtherDocumentsDiffer(documents: seq<Document>, x: Record, y: Record)
    requires documents != [] && DistinctDocuments(documents)
    requires x in FullIndex(documents[..|documents| - 1])
    requires y in RecordsOf(documents[|documents| - 1].index, Nodes(documents[|documents| - 1].raw, []))
    ensures x.id != y.id
  {
    var m := |documents| - 1;
    IndexIsComplete(documents[..m], x);
    RecordsComplete(documents[m], y);
    var document :| document in documents[..m] && IsRecordIn(x, document);
    var s :| IsRecordOf(x, document, s);
    var t :| IsRecordOf(y, documents[m], t);
    var k :| 0 <= k < m && documents[k] == document;
    NodeIdIsInjective(document.index, s.steps, documents[m].index, t.steps);
  }

  // ----- Ancestors -----

  lemma {:induction false} EachPrefixAt(steps: seq<Step>, id: seq<Step> -> Text, j: nat)
    requires j < |steps|
    ensures |EachPrefix(steps, id)| == |steps| && EachPrefix(steps, id)[j] == id(steps[..j])
  {
    var parent := steps[..|steps| - 1];
    if parent != [] {
      EachPrefixAt(parent, id, if j < |parent| then j else 0);
      assert j < |parent| ==> parent[..j] == steps[..j];
    }
  }

  /** One identifier for every proper ancestor, the root's first and the parent's last. */
  lemma AncestorIdsMean(d: nat, steps: seq<Step>, j: nat)
    requires j < |steps|
    ensures |AncestorIds(d, steps)| == |steps| && AncestorIds(d, steps)[j] == NodeId(d, steps[..j])
  {
    EachPrefixAt(steps, prefix => NodeId(d, prefix), j);
  }

  ghost predicate HasBefore(nodes: seq<Node>, i: nat, steps: seq<Step>) {
    exists e :: 0 <= e < i && e < |nodes| && nodes[e].steps == steps
  }

  /** Every node stands after all its ancestors of at least the given depth. */
  ghost predicate AncestorsBefore(nodes: seq<Node>, depth: nat) {
    forall i, m :: 0 <= i < |nodes| && depth <= m < |nodes[i].steps| ==> HasBefore(nodes, i, nodes[i].steps[..m])
  }

  lemma AncestorsConcat(a: seq<Node>, b: seq<Node>, depth: nat)
    requires AncestorsBefore(a, depth) && AncestorsBefore(b, depth)
    ensures AncestorsBefore(a + b, depth)
  {
    forall i, m | 0 <= i < |a + b| && depth <= m < |(a + b)[i].steps|
      ensures HasBefore(a + b, i, (a + b)[i].steps[..m])
    {
      if i < |a| {
        assert HasBefore(a, i, a[i].steps[..m]);
        var e :| 0 <= e < i && a[e].steps == a[i].steps[..m];
        assert (a + b)[e] == a[e];
      } else {
        assert HasBefore(b, i - |a|, b[i - |a|].steps[..m]);
        var e :| 0 <= e < i - |a| && b[e].steps == b[i - |a|].steps[..m];
        assert (a + b)[|a| + e] == b[e];
      }
    }
  }

  lemma {:induction false} NodesAfterAncestors(v: Value, base: seq<Step>)
    ensures AncestorsBefore(Nodes(v, base), |base|)
    decreases v, Children(v) + 1
  {
    var below := NodesFrom(v, base, 0);
    NodesFromAfterAncestors(v, base, 0);
    var nodes := [Node(base, v)] + below;
    forall i, m | 0 <= i < |nodes| && |base| <= m < |nodes[i].steps| ensures HasBefore(nodes, i, nodes[i].steps[..m]) {
      if m == |base| {
        assert nodes[i] in Nodes(v, base);
        NodesReach(v, base, nodes[i]);
        assert nodes[0].steps == nodes[i].steps[..m];
      } else {
        assert HasBefore(below, i - 1, below[i - 1].steps[..m]);
        var e :| 0 <= e < i - 1 && below[e].steps == below[i - 1].steps[..m];
        assert nodes[e + 1] == below[e];
      }
    }
  }

  lemma {:induction false} NodesFromAfterAncestors(v: Value, base: seq<Step>, k: nat)
    requires k <= Children(v)
    ensures AncestorsBefore(NodesFrom(v, base, k), |base| + 1)
    decreases v, Children(v) - k
  {
    if k < Children(v) {
      NodesAfterAncestors(Child(v, k), base + [ChildStep(v, k)]);
      NodesFromAfterAncestors(v, base, k + 1);
      AncestorsConcat(Nodes(Child(v, k), base + [ChildStep(v, k)]), NodesFrom(v, base, k + 1), |base| + 1);
    }
  }

  ghost predicate IdBefore(records: seq<Record>, i: nat, id: Text) {
    exists e :: 0 <= e < i && e < |records| && records[e].id == id
  }

  /** Every identifier in a record's ancestor list is that of an earlier record. */
  ghost predicate AncestorIdsBefore(records: seq<Record>) {
    forall i, id :: 0 <= i < |records| && id in records[i].ancestorIds ==> IdBefore(records, i, id)
  }

  lemma DocumentAncestorsBefore(d: nat, v: Value)
    ensures AncestorIdsBefore(RecordsOf(d, Nodes(v, [])))
  {
    var nodes := Nodes(v, []);
    var records := RecordsOf(d, nodes);
    RecordsCount(d, nodes);
    NodesAfterAncestors(v, []);
    forall i, id | 0 <= i < |records| && id in records[i].ancestorIds ensures IdBefore(records, i, id) {
      RecordAt(d, nodes, i);
      var steps := nodes[i].steps;
      if steps != [] {
        AncestorIdsMean(d, steps, 0);
      }
      var m :| 0 <= m < |AncestorIds(d, steps)| && AncestorIds(d, steps)[m] == id;
      AncestorIdsMean(d, steps, m);
      assert HasBefore(nodes, i, steps[..m]);
      var e :| 0 <= e < i && nodes[e].steps == steps[..m];
      RecordAt(d, nodes, e);
      assert records[e].id == id;
    }
  }

  lemma IdsBeforeConcat(a: seq<Record>, b: seq<Record>)
    requires AncestorIdsBefore(a) && AncestorIdsBefore(b)
    ensures AncestorIdsBefore(a + b)
  {
    var records := a + b;
    forall i, id | 0 <= i < |records| && id in records[i].ancestorIds ensures IdBefore(records, i, id) {
      if i < |a| {
        assert IdBefore(a, i, id);
        var e :| 0 <= e < i && a[e].id == id;
        assert records[e] == a[e];
      } else {
        assert IdBefore(b, i - |a|, id);
        var e :| 0 <= e < i - |a| && b[e].id == id;
        assert records[|a| + e] == b[e];
      }
    }
  }

  lemma {:induction false} AncestorsAreEarlier(documents: seq<Document>)
    ensures AncestorIdsBefore(FullIndex(documents))
  {
    if documents != [] {
      var m := |documents| - 1;
      var a := FullIndex(documents[..m]);
      var b := RecordsOf(documents[m].index, Nodes(documents[m].raw, []));
      AncestorsAreEarlier(documents[..m]);
      DocumentAncestorsBefore(documents[m].index, documents[m].raw);
      IdsBeforeConcat(a, b);
    }
  }
}
