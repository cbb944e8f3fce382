/** What the records of the tree index say of their nodes, in which order they come, and which a search keeps. */
module TreeRecords {
  import opened Wrappers
  import CanonicalOrder
  import opened YamlPaths
  import opened TreeIndex
  import opened TreeIdentity
  import opened TreeSearch

  // ----- Texts -----

  /** The one way to write a number: digits that read back, and no leading zero. */
  ghost predicate Writes(text: Text, n: nat) {
    && text != [] && (forall k :: 0 <= k < |text| ==> '0' as int <= text[k] <= '9' as int)
    && NumberOf(text) == n && (|text| > 1 ==> text[0] != '0' as int)
  }

  lemma {:induction false} DecimalMeans(n: nat)
    ensures Writes(Decimal(n), n)
  {
    DecimalReadsBack(n);
    if n >= 10 {
      DecimalMeans(n / 10);
      if |Decimal(n / 10)| == 1 {
        assert Decimal(n / 10)[..0] == [];
        assert NumberOf(Decimal(n / 10)) == Decimal(n / 10)[0] - '0' as int;
      }
    }
  }

  /** The word for a step, by which its node is listed. */
  ghost predicate IsNameOf(name: Text, steps: seq<Step>) {
    if steps == [] then name == ['r' as int, 'o' as int, 'o' as int, 't' as int]
    else match steps[|steps| - 1]
      case Key(key) => name == key
      case Index(position) => Writes(name, position)
  }

  lemma NodeNameMeans(steps: seq<Step>)
    ensures IsNameOf(NodeName(steps), steps)
  {
    if steps != [] && steps[|steps| - 1].Index? {
      DecimalMeans(steps[|steps| - 1].position);
    }
  }

  predicate IsLetter(u: Unit) {
    'a' as int <= u <= 'z' as int || 'A' as int <= u <= 'Z' as int || u == '_' as int
  }

  /** Letters, digits and underscores, and no digit in front. */
  predicate NeedsNoQuotes(key: Text) {
    && key != [] && IsLetter(key[0])
    && forall k :: 0 <= k < |key| ==> IsLetter(key[k]) || '0' as int <= key[k] <= '9' as int
  }

  /** Where a path goes on from its parent's: a dot and the key, the quoted key in brackets, or the index in them. */
  lemma PathGoesOn(steps: seq<Step>, step: Step)
    ensures PathText([]) == ['$' as int]
    ensures step.Key? && NeedsNoQuotes(step.name) ==>
      PathText(steps + [step]) == PathText(steps) + (['.' as int] + step.name)
    ensures step.Key? && !NeedsNoQuotes(step.name) ==>
      PathText(steps + [step]) ==
        PathText(steps) + (['[' as int, '"' as int] + Escape(step.name) + ['"' as int, ']' as int])
    ensures step.Index? ==>
      PathText(steps + [step]) == PathText(steps) + (['[' as int] + Decimal(step.position) + [']' as int])
  {
    assert (steps + [step])[..|steps|] == steps;
  }

  /** What a quoted key keeps as it is: anything but quotes, backslashes, controls and halves of pairs. */
  predicate IsPlain(u: Unit) {
    u >= 0x20 && u != '"' as int && u != '\\' as int && !(0xD800 <= u <= 0xDFFF)
  }

  lemma {:induction false} PlainKeysStay(text: Text)
    requires forall k :: 0 <= k < |text| ==> IsPlain(text[k])
    ensures Escape(text) == text
  {
    if text != [] {
      PlainKeysStay(text[1..]);
      assert EscapeUnit(text[0]) == [text[0]];
      assert text == [text[0]] + text[1..];
    }
  }

  /** The rest is written with a backslash, a number in lower-case hexadecimal. */
  lemma OthersAreEscaped(u: Unit)
    requires !IsPlain(u)
    ensures |EscapeUnit(u)| == 2 || |EscapeUnit(u)| == 6
    ensures EscapeUnit(u)[0] == '\\' as int
    ensures |EscapeUnit(u)| == 2 <==>
      u in [8, 9, 10, 12, 13, '"' as int, '\\' as int]
    ensures |EscapeUnit(u)| == 6 ==> EscapeUnit(u)[1] == 'u' as int && forall k :: 2 <= k < 6 ==>
      '0' as int <= EscapeUnit(u)[k] <= '9' as int || 'a' as int <= EscapeUnit(u)[k] <= 'f' as int
  {
  }

  // ----- Records -----

  function IdText(documentIndex: nat, path: Text): Text {
    Ascii("document-") + Decimal(documentIndex) + [':' as int] + path
  }

  /** What the record of a node says. */
  ghost predicate Describes(r: Record, documentIndex: nat, steps: seq<Step>, value: Value) {
    && r.documentIndex == documentIndex && IsNameOf(r.name, steps) && r.path == PathText(steps)
    && r.id == IdText(documentIndex, r.path)
    && (r.scalar <==> value.Scalar?) && r.valueText == (if value.Scalar? then Some(value.text) else None)
    && |r.ancestorIds| == |steps|
    && forall j :: 0 <= j < |steps| ==> r.ancestorIds[j] == IdText(documentIndex, PathText(steps[..j]))
  }

  lemma RecordDescribes(documentIndex: nat, node: Node)
    ensures Describes(RecordOf(documentIndex, node), documentIndex, node.steps, node.value)
  {
    NodeNameMeans(node.steps);
    forall j | 0 <= j < |node.steps|
      ensures |AncestorIds(documentIndex, node.steps)| == |node.steps|
      ensures AncestorIds(documentIndex, node.steps)[j] == IdText(documentIndex, PathText(node.steps[..j]))
    {
      AncestorIdsMean(documentIndex, node.steps, j);
    }
    assert node.steps == [] ==> AncestorIds(documentIndex, node.steps) == [];
    if node.steps != [] {
      AncestorIdsMean(documentIndex, node.steps, 0);
    }
  }

  /** Two records that describe one node are equal: a record says nothing else. */
  lemma DescriptionIsUnique(r: Record, s: Record, documentIndex: nat, steps: seq<Step>, value: Value)
    requires Describes(r, documentIndex, steps, value) && Describes(s, documentIndex, steps, value)
    ensures r == s
  {
    if steps != [] && steps[|steps| - 1].Index? {
      WritingIsUnique(r.name, s.name, steps[|steps| - 1].position);
    }
  }

  lemma {:induction false} WritingIsUnique(x: Text, y: Text, n: nat)
    requires Writes(x, n) && Writes(y, n)
    ensures x == y
    decreases n
  {
    WritingUnfolds(x, n);
    WritingUnfolds(y, n);
    if n >= 10 {
      WritingIsUnique(x[..|x| - 1], y[..|y| - 1], n / 10);
      assert x == x[..|x| - 1] + [x[|x| - 1]] && y == y[..|y| - 1] + [y[|y| - 1]];
    }
  }

  lemma {:induction false} AtLeastOne(x: Text)
    requires x != [] && x[0] != '0' as int && forall k :: 0 <= k < |x| ==> '0' as int <= x[k] <= '9' as int
    ensures NumberOf(x) >= 1
  {
    if |x| > 1 {
      AtLeastOne(x[..|x| - 1]);
    } else {
      assert x[..0] == [];
    }
  }

  lemma WritingUnfolds(x: Text, n: nat)
    requires Writes(x, n)
    ensures x[|x| - 1] == '0' as int + n % 10
    ensures if n < 10 then |x| == 1 else |x| > 1 && Writes(x[..|x| - 1], n / 10)
  {
    var front := x[..|x| - 1];
    if |x| > 1 {
      AtLeastOne(front);
    } else {
      assert front == [];
    }
  }

  /** The index holds exactly the records of the nodes, every one of them fully described. */
  lemma IndexDescribes(documents: seq<Document>, r: Record)
    ensures r in FullIndex(documents) <==>
      exists document, steps, value ::
        document in documents && Leads(document.raw, steps, value) && Describes(r, document.index, steps, value)
  {
    IndexIsComplete(documents, r);
    if r in FullIndex(documents) {
      var document :| document in documents && IsRecordIn(r, document);
      var n :| IsRecordOf(r, document, n);
      RecordDescribes(document.index, n);
      assert document in documents && Leads(document.raw, n.steps, n.value) &&
        Describes(r, document.index, n.steps, n.value);
    }
    if document, steps, value :|
        document in documents && Leads(document.raw, steps, value) && Describes(r, document.index, steps, value)
    {
      var n := Node(steps, value);
      RecordDescribes(document.index, n);
      DescriptionIsUnique(r, RecordOf(document.index, n), document.index, steps, value);
      assert IsRecordOf(r, document, n);
    }
  }

  // ----- Order -----

  /**
   In the walk below a node at depth d: what lies above comes first, and an earlier child with all below
   it before a later one.
   */
  ghost predicate Precedes(v: Value, d: nat, s: seq<Step>, t: seq<Step>)
    decreases |s| - d
  {
    && |t| > d
    && (|s| > d ==>
          exists a, b :: 0 <= a <= b < Children(v) && ChildStep(v, a) == s[d] && ChildStep(v, b) == t[d] &&
            (a < b || Precedes(Child(v, a), d + 1, s, t)))
  }

  ghost predicate InWalkOrder(v: Value, d: nat, nodes: seq<Node>) {
    forall i, j :: 0 <= i < j < |nodes| ==> Precedes(v, d, nodes[i].steps, nodes[j].steps)
  }

  /** All of them at or below child k of a node at depth d. */
  ghost predicate InChild(v: Value, d: nat, k: nat, nodes: seq<Node>)
    requires k < Children(v)
  {
    forall n :: n in nodes ==> |n.steps| > d && n.steps[d] == ChildStep(v, k)
  }

  /** All of them at or below some child from k on. */
  ghost predicate InChildrenFrom(v: Value, d: nat, k: nat, nodes: seq<Node>) {
    forall n :: n in nodes ==> |n.steps| > d && exists j :: k <= j < Children(v) && n.steps[d] == ChildStep(v, j)
  }

  lemma NodesAreInChild(v: Value, base: seq<Step>, k: nat)
    requires k < Children(v)
    ensures InChild(v, |base|, k, Nodes(Child(v, k), base + [ChildStep(v, k)]))
  {
    forall n | n in Nodes(Child(v, k), base + [ChildStep(v, k)])
      ensures |n.steps| > |base| && n.steps[|base|] == ChildStep(v, k)
    {
      NodesReach(Child(v, k), base + [ChildStep(v, k)], n);
      assert n.steps[|base|] == (base + [ChildStep(v, k)])[|base|];
    }
  }

  lemma NodesAreInChildren(v: Value, base: seq<Step>, k: nat)
    requires k <= Children(v)
    ensures InChildrenFrom(v, |base|, k, NodesFrom(v, base, k))
  {
    forall n | n in NodesFrom(v, base, k)
      ensures |n.steps| > |base| && exists j :: k <= j < Children(v) && n.steps[|base|] == ChildStep(v, j)
    {
      NodesFromReach(v, base, k, n);
      var j :| k <= j < Children(v) && Reaches(Child(v, j), base + [ChildStep(v, j)], n);
      assert n.steps[|base|] == (base + [ChildStep(v, j)])[|base|];
    }
  }

  lemma {:induction false} NodesInOrder(v: Value, base: seq<Step>)
    ensures InWalkOrder(v, |base|, Nodes(v, base))
    decreases v, Children(v) + 1
  {
    var below := NodesFrom(v, base, 0);
    NodesFromInOrder(v, base, 0);
    NodesAreInChildren(v, base, 0);
    RootFirst(v, base, below);
  }

  lemma RootFirst(v: Value, base: seq<Step>, below: seq<Node>)
    requires InWalkOrder(v, |base|, below) && forall n :: n in below ==> |n.steps| > |base|
    ensures InWalkOrder(v, |base|, [Node(base, v)] + below)
  {
  }

  lemma EarlierChild(v: Value, d: nat, a: nat, b: nat, s: seq<Step>, t: seq<Step>)
    requires a < b < Children(v) && |s| > d && |t| > d && s[d] == ChildStep(v, a) && t[d] == ChildStep(v, b)
    ensures Precedes(v, d, s, t)
  {
  }

  lemma SameChild(v: Value, d: nat, k: nat, s: seq<Step>, t: seq<Step>)
    requires k < Children(v) && |s| > d && |t| > d && s[d] == t[d] == ChildStep(v, k)
    requires Precedes(Child(v, k), d + 1, s, t)
    ensures Precedes(v, d, s, t)
  {
  }

  lemma WithinChild(v: Value, d: nat, k: nat, nodes: seq<Node>)
    requires k < Children(v) && InChild(v, d, k, nodes) && InWalkOrder(Child(v, k), d + 1, nodes)
    ensures InWalkOrder(v, d, nodes)
  {
    forall i, j | 0 <= i < j < |nodes| ensures Precedes(v, d, nodes[i].steps, nodes[j].steps) {
      SameChild(v, d, k, nodes[i].steps, nodes[j].steps);
    }
  }

  lemma AcrossChildren(v: Value, d: nat, k: nat, a: seq<Node>, b: seq<Node>)
    requires k < Children(v) && InChild(v, d, k, a) && InChildrenFrom(v, d, k + 1, b)
    ensures forall m, n :: m in a && n in b ==> Precedes(v, d, m.steps, n.steps)
  {
    forall m, n | m in a && n in b ensures Precedes(v, d, m.steps, n.steps) {
      var j :| k + 1 <= j < Children(v) && n.steps[d] == ChildStep(v, j);
      EarlierChild(v, d, k, j, m.steps, n.steps);
    }
  }

  lemma {:induction false} NodesFromInOrder(v: Value, base: seq<Step>, k: nat)
    requires k <= Children(v)
    ensures InWalkOrder(v, |base|, NodesFrom(v, base, k))
    decreases v, Children(v) - k
  {
    if k < Children(v) {
      var a, b := Nodes(Child(v, k), base + [ChildStep(v, k)]), NodesFrom(v, base, k + 1);
      NodesInOrder(Child(v, k), base + [ChildStep(v, k)]);
      NodesFromInOrder(v, base, k + 1);
      NodesAreInChild(v, base, k);
      NodesAreInChildren(v, base, k + 1);
      WithinChild(v, |base|, k, a);
      AcrossChildren(v, |base|, k, a, b);
      JoinInOrder(v, |base|, a, b);
    }
  }

  lemma JoinInOrder(v: Value, d: nat, a: seq<Node>, b: seq<Node>)
    requires InWalkOrder(v, d, a) && InWalkOrder(v, d, b)
    requires forall m, n :: m in a && n in b ==> Precedes(v, d, m.steps, n.steps)
    ensures InWalkOrder(v, d, a + b)
  {
  }

  // ----- Search -----

  ghost predicate Holds(text: Text, pattern: Text) {
    exists x, y :: text == x + pattern + y
  }

  lemma FoundIsHeld(text: Text, pattern: Text, at: nat)
    requires Occurs(text, pattern, at)
    ensures Holds(text, pattern)
  {
    assert text == text[..at] + pattern + text[at..][|pattern|..];
  }

  lemma HeldIsFound(x: Text, pattern: Text, y: Text)
    ensures Occurs(x + pattern + y, pattern, |x|)
  {
    assert (x + pattern + y)[|x|..] == pattern + y;
  }

  lemma HoldsMeans(text: Text, pattern: Text)
    requires pattern != []
    ensures IndexOf(text, pattern, 0) != -1 <==> Holds(text, pattern)
  {
    IndexOfMeans(text, pattern, 0);
    if IndexOf(text, pattern, 0) >= 0 {
      FoundIsHeld(text, pattern, IndexOf(text, pattern, 0));
    }
    if x, y :| text == x + pattern + y {
      HeldIsFound(x, pattern, y);
    }
  }

  /** A search keeps a record when the folded name, path or value text holds the folded query, and that is not empty. */
  lemma SearchMeans(records: seq<Record>, query: Text, trim: Text -> Text, lower: Text -> Text, r: Record)
    ensures var pattern := lower(trim(query));
      r in SearchTreeIndex(records, query, trim, lower) <==>
        && r in records && pattern != []
        && (Holds(lower(r.name), pattern) || Holds(lower(r.path), pattern) ||
            (r.valueText.Some? && Holds(lower(r.valueText.value), pattern)))
  {
    var pattern := lower(trim(query));
    if pattern != [] {
      CanonicalOrder.FilterKeeps(records, x => Mentions(x, pattern, lower), r);
      HoldsMeans(lower(r.name), pattern);
      HoldsMeans(lower(r.path), pattern);
      if r.valueText.Some? {
        HoldsMeans(lower(r.valueText.value), pattern);
        assert Texts(r)[1] == r.valueText.value && Texts(r)[2] == r.path;
      }
      assert Texts(r)[0] == r.name && Texts(r)[|Texts(r)| - 1] == r.path;
    }
  }
}
