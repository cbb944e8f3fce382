/** The searchable index over parsed documents: one record for every node, in the order of a walk from the root. */
module TreeIndex {
  import opened Wrappers
  import opened YamlPaths

  /** Scalars carry the text they are shown as; a mapping's fields come in enumeration order. */
  datatype Value = Scalar(text: Text) | Items(items: seq<Value>) | Fields(fields: seq<Field>)

  datatype Field = Field(key: Text, value: Value)

  datatype Document = Document(index: nat, raw: Value)

  datatype Record = Record(id: Text, documentIndex: nat, name: Text, path: Text, valueText: Option<Text>, scalar: bool,
                           ancestorIds: seq<Text>)

  // ----- The children of a node -----

  function Children(v: Value): nat {
    match v
    case Scalar(_) => 0
    case Items(items) => |items|
    case Fields(fields) => |fields|
  }

  function ChildStep(v: Value, k: nat): Step
    requires k < Children(v)
  {
    match v
    case Items(_) => Index(k)
    case Fields(fields) => Key(fields[k].key)
  }

  function Child(v: Value, k: nat): (child: Value)
    requires k < Children(v)
    ensures child < v
  {
    match v
    case Items(items) => items[k]
    case Fields(fields) => fields[k].value
  }

  /** No mapping holds a key twice, at any depth. */
  ghost predicate HasDistinctKeys(v: Value) {
    && (v.Fields? ==> forall i, j :: 0 <= i < j < |v.fields| ==> v.fields[i].key != v.fields[j].key)
    && forall k :: 0 <= k < Children(v) ==> HasDistinctKeys(Child(v, k))
  }

  /** Following the steps from v leads to target. */
  ghost predicate Leads(v: Value, steps: seq<Step>, target: Value)
    decreases |steps|
  {
    if steps == [] then v == target
    else exists k :: 0 <= k < Children(v) && ChildStep(v, k) == steps[0] && Leads(Child(v, k), steps[1..], target)
  }

  // ----- Records -----

  function Ascii(s: string): Text
    requires forall k :: 0 <= k < |s| ==> s[k] as int < 128
  {
    seq(|s|, k requires 0 <= k < |s| => s[k] as int)
  }

  const DOCUMENT_PREFIX: Text := Ascii("document-")

  function PathId(documentIndex: nat, path: Text): Text {
    DOCUMENT_PREFIX + Decimal(documentIndex) + [COLON] + path
  }

  function NameOf(step: Step): Text {
    match step
    case Key(name) => name
    case Index(position) => Decimal(position)
  }

  function NodeName(steps: seq<Step>): Text {
    if steps == [] then Ascii("root") else NameOf(steps[|steps| - 1])
  }

  function NodeId(documentIndex: nat, steps: seq<Step>): Text {
    PathId(documentIndex, PathText(steps))
  }

  /** Every proper prefix of the steps, shortest first, under id. */
  function EachPrefix(steps: seq<Step>, id: seq<Step> -> Text): seq<Text> {
    if steps == [] then []
    else
      var parent := steps[..|steps| - 1];
      EachPrefix(parent, id) + [id(parent)]
  }

  /** The identifiers of the proper ancestors, from the root down. */
  function AncestorIds(documentIndex: nat, steps: seq<Step>): seq<Text> {
    EachPrefix(steps, prefix => NodeId(documentIndex, prefix))
  }

  datatype Node = Node(steps: seq<Step>, value: Value)

  function RecordOf(documentIndex: nat, node: Node): Record {
    Record(NodeId(documentIndex, node.steps), documentIndex, NodeName(node.steps), PathText(node.steps),
           if node.value.Scalar? then Some(node.value.text) else None, node.value.Scalar?,
           AncestorIds(documentIndex, node.steps))
  }

  /** The node itself, then everything below it. */
  function Nodes(v: Value, steps: seq<Step>): seq<Node>
    decreases v, Children(v) + 1
  {
    [Node(steps, v)] + NodesFrom(v, steps, 0)
  }

  function NodesFrom(v: Value, steps: seq<Step>, k: nat): seq<Node>
    requires k <= Children(v)
    decreases v, Children(v) - k
  {
    if k == Children(v) then []
    else Nodes(Child(v, k), steps + [ChildStep(v, k)]) + NodesFrom(v, steps, k + 1)
  }

  function Each(nodes: seq<Node>, record: Node -> Record): seq<Record> {
    if nodes == [] then [] else Each(nodes[..|nodes| - 1], record) + [record(nodes[|nodes| - 1])]
  }

  function RecordsOf(documentIndex: nat, nodes: seq<Node>): seq<Record> {
    Each(nodes, node => RecordOf(documentIndex, node))
  }

  function FullIndex(documents: seq<Document>): seq<Record> {
    if documents == [] then []
    else
      var last := documents[|documents| - 1];
      FullIndex(documents[..|documents| - 1]) + RecordsOf(last.index, Nodes(last.raw, []))
  }

  lemma {:induction false} EachConcat(a: seq<Node>, b: seq<Node>, record: Node -> Record)
    ensures Each(a + b, record) == Each(a, record) + Each(b, record)
  {
    if b == [] {
      assert a + b == a;
    } else {
      EachConcat(a, b[..|b| - 1], record);
      assert (a + b)[..|a + b| - 1] == a + b[..|b| - 1];
    }
  }

  lemma RecordsConcat(documentIndex: nat, a: seq<Node>, b: seq<Node>)
    ensures RecordsOf(documentIndex, a + b) == RecordsOf(documentIndex, a) + RecordsOf(documentIndex, b)
  {
    EachConcat(a, b, node => RecordOf(documentIndex, node));
  }

  lemma OneRecord(documentIndex: nat, node: Node)
    ensures RecordsOf(documentIndex, [node]) == [RecordOf(documentIndex, node)]
  {
    assert [node][..0] == [] && Each([node][..0], n => RecordOf(documentIndex, n)) == [];
    assert RecordsOf(documentIndex, [node]) == [] + [RecordOf(documentIndex, node)];
  }

  /** What the walk hands to a child is what the child's steps say. */
  lemma Descend(documentIndex: nat, steps: seq<Step>, step: Step)
    ensures NodeName(steps + [step]) == NameOf(step)
    ensures PathText(steps + [step]) == ChildYamlPath(PathText(steps), step)
    ensures AncestorIds(documentIndex, steps + [step]) ==
      AncestorIds(documentIndex, steps) + [PathId(documentIndex, PathText(steps))]
  {
    assert (steps + [step])[..|steps|] == steps;
  }

  /** steps is the specification's name for the node; the walk itself carries its name, path and ancestors. */
  method Visit(value: Value, name: Text, path: Text, documentIndex: nat, ancestorIds: seq<Text>, records: seq<Record>,
               ghost steps: seq<Step>)
    returns (extended: seq<Record>)
    requires name == NodeName(steps) && path == PathText(steps) && ancestorIds == AncestorIds(documentIndex, steps)
    ensures extended == records + RecordsOf(documentIndex, Nodes(value, steps))
    decreases value, 2
  {
    var id := PathId(documentIndex, path);
    extended := records + [Record(id, documentIndex, name, path, if value.Scalar? then Some(value.text) else None,
                                  value.Scalar?, ancestorIds)];
    OneRecord(documentIndex, Node(steps, value));
    RecordsConcat(documentIndex, [Node(steps, value)], NodesFrom(value, steps, 0));
    if !value.Scalar? {
      extended := VisitChildren(value, path, documentIndex, ancestorIds + [id], extended, steps);
    }
  }

  lemma NextChild(documentIndex: nat, value: Value, steps: seq<Step>, k: nat, records: seq<Record>)
    requires k < Children(value)
    ensures records + RecordsOf(documentIndex, NodesFrom(value, steps, k)) ==
      records + RecordsOf(documentIndex, Nodes(Child(value, k), steps + [ChildStep(value, k)]))
      + RecordsOf(documentIndex, NodesFrom(value, steps, k + 1))
  {
    RecordsConcat(documentIndex, Nodes(Child(value, k), steps + [ChildStep(value, k)]), NodesFrom(value, steps, k + 1));
  }

  method VisitChildren(value: Value, path: Text, documentIndex: nat, nextAncestors: seq<Text>, records: seq<Record>,
                       ghost steps: seq<Step>)
    returns (extended: seq<Record>)
    requires path == PathText(steps)
    requires nextAncestors == AncestorIds(documentIndex, steps) + [PathId(documentIndex, path)]
    ensures extended == records + RecordsOf(documentIndex, NodesFrom(value, steps, 0))
    decreases value, 1
  {
    extended := records;
    for k := 0 to Children(value)
      invariant extended + RecordsOf(documentIndex, NodesFrom(value, steps, k)) ==
        records + RecordsOf(documentIndex, NodesFrom(value, steps, 0))
    {
      NextChild(documentIndex, value, steps, k, extended);
      extended := VisitChild(value, k, path, documentIndex, nextAncestors, extended, steps);
    }
  }

  method VisitChild(value: Value, k: nat, path: Text, documentIndex: nat, nextAncestors: seq<Text>,
                    records: seq<Record>, ghost steps: seq<Step>)
    returns (extended: seq<Record>)
    requires k < Children(value) && path == PathText(steps)
    requires nextAncestors == AncestorIds(documentIndex, steps) + [PathId(documentIndex, path)]
    ensures extended ==
      records + RecordsOf(documentIndex, Nodes(Child(value, k), steps + [ChildStep(value, k)]))
    decreases value, 0
  {
    var step := ChildStep(value, k);
    Descend(documentIndex, steps, step);
    extended := Visit(Child(value, k), NameOf(step), ChildYamlPath(path, step), documentIndex, nextAncestors, records,
                      steps + [step]);
  }

  method BuildTreeSearchIndex(documents: seq<Document>) returns (records: seq<Record>)
    ensures records == FullIndex(documents)
  {
    records := [];
    for i := 0 to |documents|
      invariant records == FullIndex(documents[..i])
    {
      assert documents[..i + 1][..i] == documents[..i];
      records := Visit(documents[i].raw, Ascii("root"), ['$' as int], documents[i].index, [], records, []);
    }
    assert documents[..|documents|] == documents;
  }
}
