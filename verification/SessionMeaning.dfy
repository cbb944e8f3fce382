/**
 What each session call does, field by field, and what that makes of a whole run: the current scope and
 the namespaces that may be chosen are those of the last calls that were accepted.
 */
module SessionMeaning {
  import opened Session

  /** When a call has an effect, in terms of the session it meets. */
  predicate IsAccepted(s: Session, operation: Operation) {
    !s.closed &&
    match operation
    case OpSelectContext(name) => name in s.allowedContexts
    case OpAllowNamespaces(generation, names) => generation == s.scope.generation && s.scope.context != ""
    case OpSelectNamespace(name) => name in s.allowedNamespaces
    case OpSelectNamespaceAt(name, generation) =>
      generation == s.scope.generation && generation != 0 && name in s.allowedNamespaces
    case OpClose => true
  }

  predicate SelectsContext(operation: Operation) {
    operation.OpSelectContext?
  }

  predicate SelectsNamespace(operation: Operation) {
    operation.OpSelectNamespace? || operation.OpSelectNamespaceAt?
  }

  predicate ListsNamespaces(operation: Operation) {
    operation.OpAllowNamespaces?
  }

  // ----- One call -----

  /** A context is selected exactly in an open session, for an allowed name, which the new scope then carries. */
  lemma SelectContextMeans(s: Session, name: string)
    ensures var (t, r) := SelectContext(s, name);
      && (r.Ok? <==> !s.closed && name in s.allowedContexts)
      && (r.Ok? ==>
            && r.value == t.scope && t.scope.context == name && t.scope.namespace == ""
            && t.scope.generation == s.scope.generation + 1 && t.allowedNamespaces == {}
            && t.allowedContexts == s.allowedContexts && !t.closed)
      && (r.Err? ==> t == s && r.error == if s.closed then SessionClosed else UnknownContext)
  {
  }

  /** A namespace is selected exactly in an open session, from the current listing, and in the same context. */
  lemma SelectNamespaceMeans(s: Session, name: string)
    ensures var (t, r) := SelectNamespace(s, name);
      && (r.Ok? <==> !s.closed && name in s.allowedNamespaces)
      && (r.Ok? ==>
            && r.value == t.scope && t.scope.namespace == name && t.scope.context == s.scope.context
            && t.scope.generation == s.scope.generation + 1 && t.allowedNamespaces == s.allowedNamespaces
            && t.allowedContexts == s.allowedContexts && !t.closed)
      && (r.Err? ==> t == s && r.error == if s.closed then SessionClosed else UnknownNamespace)
  {
  }

  /** Selecting at a generation does that, for the current generation only. */
  lemma SelectNamespaceAtMeans(s: Session, name: string, generation: nat)
    ensures var current := generation != 0 && generation == s.scope.generation;
      && (current ==> SelectNamespaceAt(s, name, generation) == SelectNamespace(s, name))
      && (!current ==> SelectNamespaceAt(s, name, generation) == (s, Err(StaleScope)))
  {
  }

  /** A listing is taken exactly for the current scope of an open session, and replaces the one before. */
  lemma AllowNamespacesMeans(s: Session, generation: nat, names: seq<string>)
    ensures var (t, accepted) := AllowNamespaces(s, generation, names);
      && (accepted <==> !s.closed && generation == s.scope.generation && s.scope.context != "")
      && (accepted ==>
            && (forall name :: name in t.allowedNamespaces <==> name in names && name != "")
            && t.scope == s.scope && t.allowedContexts == s.allowedContexts && !t.closed)
      && (!accepted ==> t == s)
  {
  }

  lemma CloseMeans(s: Session)
    ensures var t := Close(s);
      && t.closed && (s.closed ==> t == s)
      && (!s.closed ==>
            && t.scope == Scope("", "", s.scope.generation + 1) && t.allowedNamespaces == {}
            && t.allowedContexts == s.allowedContexts)
  {
  }

  lemma RefusedStep(s: Session, operation: Operation)
    requires !IsAccepted(s, operation)
    ensures Apply(s, operation) == s
  {
    match operation
    case OpSelectContext(name) => SelectContextMeans(s, name);
    case OpAllowNamespaces(generation, names) => AllowNamespacesMeans(s, generation, names);
    case OpSelectNamespace(name) => SelectNamespaceMeans(s, name);
    case OpSelectNamespaceAt(name, generation) =>
      SelectNamespaceAtMeans(s, name, generation);
      SelectNamespaceMeans(s, name);
    case OpClose => CloseMeans(s);
  }

  /** An accepted call that leaves the session open changes one of the context, the namespace and the listing. */
  lemma AcceptedStep(s: Session, operation: Operation)
    requires IsAccepted(s, operation) && !Apply(s, operation).closed
    ensures var t := Apply(s, operation);
      && t.scope.context == (if operation.OpSelectContext? then operation.name else s.scope.context)
      && t.scope.namespace == (if operation.OpSelectContext? then "" else
                               if SelectsNamespace(operation) then operation.name else s.scope.namespace)
      && t.allowedNamespaces == (if operation.OpSelectContext? then {} else
                                 if operation.OpAllowNamespaces? then NonEmpty(operation.names)
                                 else s.allowedNamespaces)
      && t.scope.generation == s.scope.generation + if operation.OpAllowNamespaces? then 0 else 1
  {
    match operation
    case OpSelectContext(name) => SelectContextMeans(s, name);
    case OpAllowNamespaces(generation, names) => AllowNamespacesMeans(s, generation, names);
    case OpSelectNamespace(name) => SelectNamespaceMeans(s, name);
    case OpSelectNamespaceAt(name, generation) =>
      SelectNamespaceAtMeans(s, name, generation);
      SelectNamespaceMeans(s, name);
    case OpClose => CloseMeans(s);
  }

  // ----- Runs -----

  lemma {:induction false} ApplyLast(s: Session, operations: seq<Operation>)
    requires operations != []
    ensures var n := |operations| - 1;
      ApplyAll(s, operations) == Apply(ApplyAll(s, operations[..n]), operations[n])
    decreases |operations|
  {
    var n := |operations| - 1;
    if n > 0 {
      ApplyLast(Apply(s, operations[0]), operations[1..]);
      assert operations[1..][..n - 1] == operations[..n][1..];
    } else {
      assert operations[..0] == [] && operations[1..] == [];
    }
  }

  /** The call at position k meets the session that the calls before it have left. */
  predicate AcceptedAt(s: Session, operations: seq<Operation>, k: nat)
    requires k < |operations|
  {
    IsAccepted(ApplyAll(s, operations[..k]), operations[k])
  }

  /** The position of the last accepted call of a kind, or -1 when there is none. */
  ghost predicate IsLast(s: Session, operations: seq<Operation>, kind: Operation -> bool, k: int) {
    && -1 <= k < |operations|
    && (k >= 0 ==> kind(operations[k]) && AcceptedAt(s, operations, k))
    && (forall j :: k < j < |operations| && kind(operations[j]) ==> !AcceptedAt(s, operations, j))
  }

  lemma AcceptedBefore(s: Session, operations: seq<Operation>, n: nat, k: nat)
    requires k < n <= |operations|
    ensures AcceptedAt(s, operations[..n], k) == AcceptedAt(s, operations, k)
  {
    assert operations[..n][..k] == operations[..k];
  }

  lemma LastBefore(s: Session, operations: seq<Operation>, kind: Operation -> bool, k: int)
    requires IsLast(s, operations, kind, k) && k < |operations| - 1
    ensures IsLast(s, operations[..|operations| - 1], kind, k)
  {
    var n := |operations| - 1;
    if k >= 0 {
      AcceptedBefore(s, operations, n, k);
    }
    forall j | k < j < n && kind(operations[..n][j]) ensures !AcceptedAt(s, operations[..n], j) {
      AcceptedBefore(s, operations, n, j);
    }
  }

  /** One last step of a run: what was there before it, and whether it had an effect. */
  lemma LastStep(s: Session, operations: seq<Operation>) returns (t: Session, operation: Operation)
    requires operations != [] && !ApplyAll(s, operations).closed
    ensures var n := |operations| - 1;
      && operation == operations[n] && t == ApplyAll(s, operations[..n]) && !t.closed
      && ApplyAll(s, operations) == Apply(t, operation)
      && (AcceptedAt(s, operations, n) <==> IsAccepted(t, operation))
      && (!IsAccepted(t, operation) ==> Apply(t, operation) == t)
  {
    var n := |operations| - 1;
    ApplyLast(s, operations);
    t, operation := ApplyAll(s, operations[..n]), operations[n];
    if !IsAccepted(t, operation) {
      RefusedStep(t, operation);
    }
  }

  /** While the session is open, its context is the one named by the last accepted selection. */
  lemma {:induction false} ContextIsLastSelected(s: Session, operations: seq<Operation>, k: int)
    requires !ApplyAll(s, operations).closed && IsLast(s, operations, SelectsContext, k)
    ensures ApplyAll(s, operations).scope.context == if k >= 0 then operations[k].name else s.scope.context
    decreases |operations|
  {
    if operations != [] {
      var n := |operations| - 1;
      var t, operation := LastStep(s, operations);
      if IsAccepted(t, operation) {
        AcceptedStep(t, operation);
      }
      if k < n {
        LastBefore(s, operations, SelectsContext, k);
        ContextIsLastSelected(s, operations[..n], k);
      }
    }
  }

  /** Its namespace is the one named by the last accepted selection since then, and empty without one. */
  lemma {:induction false} NamespaceIsLastSelected(s: Session, operations: seq<Operation>, k: int, m: int)
    requires !ApplyAll(s, operations).closed
    requires IsLast(s, operations, SelectsContext, k) && IsLast(s, operations, SelectsNamespace, m)
    ensures ApplyAll(s, operations).scope.namespace ==
      if m > k then operations[m].name else if k >= 0 then "" else s.scope.namespace
    decreases |operations|
  {
    if operations != [] {
      var n := |operations| - 1;
      var t, operation := LastStep(s, operations);
      if IsAccepted(t, operation) {
        AcceptedStep(t, operation);
      }
      if k < n && m < n {
        LastBefore(s, operations, SelectsContext, k);
        LastBefore(s, operations, SelectsNamespace, m);
        NamespaceIsLastSelected(s, operations[..n], k, m);
      }
    }
  }

  /** What may be chosen is exactly the last accepted listing since then, its empty names left out. */
  lemma {:induction false} AllowedIsLastListed(s: Session, operations: seq<Operation>, k: int, m: int, name: string)
    requires !ApplyAll(s, operations).closed
    requires IsLast(s, operations, SelectsContext, k) && IsLast(s, operations, ListsNamespaces, m)
    ensures name in ApplyAll(s, operations).allowedNamespaces <==>
      if m > k then name in operations[m].names && name != "" else k < 0 && name in s.allowedNamespaces
    decreases |operations|
  {
    if operations != [] {
      var n := |operations| - 1;
      var t, operation := LastStep(s, operations);
      if IsAccepted(t, operation) {
        AcceptedStep(t, operation);
      }
      if k < n && m < n {
        LastBefore(s, operations, SelectsContext, k);
        LastBefore(s, operations, ListsNamespaces, m);
        AllowedIsLastListed(s, operations[..n], k, m, name);
      }
    }
  }

  /** How many of the calls opened a new generation. */
  function Selections(s: Session, operations: seq<Operation>): nat {
    if operations == [] then 0
    else
      var n := |operations| - 1;
      Selections(s, operations[..n]) +
      if AcceptedAt(s, operations, n) && !operations[n].OpAllowNamespaces? then 1 else 0
  }

  /** The generation counts the accepted selections. */
  lemma {:induction false} GenerationCountsSelections(s: Session, operations: seq<Operation>)
    requires !ApplyAll(s, operations).closed
    ensures ApplyAll(s, operations).scope.generation == s.scope.generation + Selections(s, operations)
    decreases |operations|
  {
    if operations != [] {
      var t, operation := LastStep(s, operations);
      if IsAccepted(t, operation) {
        AcceptedStep(t, operation);
      }
      GenerationCountsSelections(s, operations[..|operations| - 1]);
    }
  }

  /** A session is closed exactly when Close has been called. */
  lemma {:induction false} ClosedWhenCalled(s: Session, operations: seq<Operation>)
    ensures ApplyAll(s, operations).closed <==> s.closed || OpClose in operations
    decreases |operations|
  {
    if operations != [] {
      var n := |operations| - 1;
      ApplyLast(s, operations);
      ClosedWhenCalled(s, operations[..n]);
      assert operations == operations[..n] + [operations[n]];
      StepCloses(ApplyAll(s, operations[..n]), operations[n]);
    }
  }

  lemma StepCloses(s: Session, operation: Operation)
    ensures Apply(s, operation).closed <==> s.closed || operation == OpClose
  {
    if !IsAccepted(s, operation) {
      RefusedStep(s, operation);
    }
  }
}
