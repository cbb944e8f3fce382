/**
 The Console session: which scope is current, which namespaces may be chosen, and which scope
 contexts have been cancelled. Each State method holds the mutex from start to end, so each is one
 function from session value to session value; class State is proved against these functions.
 */
module Session {

  datatype Scope = Scope(context: string, namespace: string, generation: nat)

  datatype Error = UnknownContext | UnknownNamespace | SessionClosed | StaleScope

  datatype Result<+T> = Ok(value: T) | Err(error: Error)

  const NoScope := Scope("", "", 0)

  /**
   cancelled[g - 1] says whether the scope context opened for generation g has been cancelled.
   The last one is the context that the session would hand to a request.
   */
  datatype Session = Session(closed: bool, allowedContexts: set<string>, allowedNamespaces: set<string>,
                             scope: Scope, cancelled: seq<bool>)

  function CancelLast(cancelled: seq<bool>): seq<bool> {
    if cancelled == [] then [] else cancelled[..|cancelled| - 1] + [true]
  }

  function Advance(s: Session): Session {
    s.(scope := s.scope.(generation := s.scope.generation + 1), cancelled := CancelLast(s.cancelled) + [false])
  }

  function Initial(contexts: set<string>): Session {
    Session(false, contexts, {}, NoScope, [])
  }

  function SelectContext(s: Session, name: string): (Session, Result<Scope>) {
    if s.closed then (s, Err(SessionClosed))
    else if name !in s.allowedContexts then (s, Err(UnknownContext))
    else
      var scope := Scope(name, "", s.scope.generation + 1);
      (Advance(s).(scope := scope, allowedNamespaces := {}), Ok(scope))
  }

  function NonEmpty(names: seq<string>): set<string> {
    set name | name in names && name != ""
  }

  function AllowNamespaces(s: Session, generation: nat, names: seq<string>): (Session, bool) {
    if s.closed || generation != s.scope.generation || s.scope.context == "" then (s, false)
    else (s.(allowedNamespaces := NonEmpty(names)), true)
  }

  function SelectNamespace(s: Session, name: string): (Session, Result<Scope>) {
    if s.closed then (s, Err(SessionClosed))
    else if name !in s.allowedNamespaces then (s, Err(UnknownNamespace))
    else
      var scope := s.scope.(namespace := name, generation := s.scope.generation + 1);
      (Advance(s).(scope := scope), Ok(scope))
  }

  function SelectNamespaceAt(s: Session, name: string, generation: nat): (Session, Result<Scope>) {
    if generation == 0 || generation != s.scope.generation then (s, Err(StaleScope))
    else SelectNamespace(s, name)
  }

  function RequestContext(s: Session, generation: nat): Result<Scope> {
    if s.closed || generation == 0 || generation != s.scope.generation || s.scope.context == "" || s.cancelled == []
    then Err(StaleScope)
    else Ok(s.scope)
  }

  function Close(s: Session): Session {
    if s.closed then s
    else s.(closed := true, cancelled := CancelLast(s.cancelled), allowedNamespaces := {},
            scope := Scope("", "", s.scope.generation + 1))
  }

  /** cancelled[k] belongs to generation k + 1. */
  ghost predicate CancelledExactlyWhenPast(s: Session) {
    forall k :: 0 <= k < |s.cancelled| ==> (s.cancelled[k] <==> k + 1 < s.scope.generation)
  }

  /** What every operation keeps. The scope context of generation g is cancelled exactly when g is past. */
  ghost predicate Valid(s: Session) {
    && s.allowedContexts != {} && "" !in s.allowedContexts && "" !in s.allowedNamespaces
    && |s.cancelled| == (if s.closed then s.scope.generation - 1 else s.scope.generation)
    && CancelledExactlyWhenPast(s)
    && (s.scope.context != "" ==> s.scope.context in s.allowedContexts)
    && (s.scope.context == "" <==> s.closed || s.scope.generation == 0)
    && (s.scope.context == "" ==> s.scope.namespace == "" && s.allowedNamespaces == {})
  }

  datatype Operation =
    | OpSelectContext(name: string)
    | OpAllowNamespaces(generation: nat, names: seq<string>)
    | OpSelectNamespace(name: string)
    | OpSelectNamespaceAt(name: string, generation: nat)
    | OpClose

  /** One critical section of any caller. */
  function Apply(s: Session, operation: Operation): Session {
    match operation
    case OpSelectContext(name) => SelectContext(s, name).0
    case OpAllowNamespaces(generation, names) => AllowNamespaces(s, generation, names).0
    case OpSelectNamespace(name) => SelectNamespace(s, name).0
    case OpSelectNamespaceAt(name, generation) => SelectNamespaceAt(s, name, generation).0
    case OpClose => Close(s)
  }

  function ApplyAll(s: Session, operations: seq<Operation>): Session
    decreases |operations|
  {
    if operations == [] then s else ApplyAll(Apply(s, operations[0]), operations[1..])
  }

  lemma CancelLastKeeps(cancelled: seq<bool>)
    ensures |CancelLast(cancelled)| == |cancelled|
    ensures forall k :: 0 <= k < |cancelled| ==> CancelLast(cancelled)[k] == (k == |cancelled| - 1 || cancelled[k])
  {
  }

  /** A step keeps Valid, and either leaves the scope alone or moves to the next generation. */
  lemma StepKeepsValid(s: Session, operation: Operation)
    requires Valid(s)
    ensures Valid(Apply(s, operation))
    ensures Apply(s, operation).scope == s.scope
         || Apply(s, operation).scope.generation == s.scope.generation + 1
    ensures s.closed ==> Apply(s, operation) == s
    ensures Apply(s, operation).allowedContexts == s.allowedContexts
  {
    CancelLastKeeps(s.cancelled);
  }

  /** Over every run of session calls; after Close nothing that any caller does has an effect. */
  lemma {:induction false} RunKeepsValid(s: Session, operations: seq<Operation>)
    requires Valid(s)
    ensures Valid(ApplyAll(s, operations))
    ensures s.scope.generation <= ApplyAll(s, operations).scope.generation
    ensures s.scope.generation == ApplyAll(s, operations).scope.generation ==> s.scope == ApplyAll(s, operations).scope
    ensures s.closed ==> ApplyAll(s, operations) == s
    decreases |operations|
  {
    if operations != [] {
      StepKeepsValid(s, operations[0]);
      RunKeepsValid(Apply(s, operations[0]), operations[1..]);
    }
  }

  /**
   From a fresh session: a request is admitted exactly at the current generation of an open session
   with a selected context, under exactly the current scope, whose scope context is then the only
   one not cancelled. A closed session admits nothing, whatever was done to it after Close.
   */
  lemma AdmissionAndCancellation(contexts: set<string>, operations: seq<Operation>, generation: nat)
    requires contexts != {} && "" !in contexts
    ensures var s := ApplyAll(Initial(contexts), operations);
      && CancelledExactlyWhenPast(s)
      && (RequestContext(s, generation).Ok? <==> !s.closed && generation == s.scope.generation >= 1)
      && (RequestContext(s, generation).Ok? ==>
            && RequestContext(s, generation).value == s.scope
            && s.scope.context in contexts
            && |s.cancelled| == generation && !s.cancelled[generation - 1])
  {
    RunKeepsValid(Initial(contexts), operations);
    KeepsContexts(Initial(contexts), operations);
  }

  lemma {:induction false} KeepsContexts(s: Session, operations: seq<Operation>)
    ensures ApplyAll(s, operations).allowedContexts == s.allowedContexts
    decreases |operations|
  {
    if operations != [] {
      KeepsContexts(Apply(s, operations[0]), operations[1..]);
    }
  }

  /** Close is idempotent and final. */
  lemma CloseIsFinal(s: Session, operations: seq<Operation>, generation: nat)
    requires Valid(s)
    ensures var closed := Close(s);
      && Close(closed) == closed && ApplyAll(closed, operations) == closed
      && RequestContext(closed, generation).Err?
      && (forall k :: 0 <= k < |closed.cancelled| ==> closed.cancelled[k])
  {
    StepKeepsValid(s, OpClose);
    assert CancelledExactlyWhenPast(Close(s));
    RunKeepsValid(Close(s), operations);
  }
}
