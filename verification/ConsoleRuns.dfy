/**
 Browser requests against a session that changes under them. A request is a process with a program
 counter; a step is one critical section of the session or of the activity log, one slot operation,
 or the end of a read whose outcome the environment chooses. Steps of different processes, and of
 the callers that change the scope, interleave in every order.
 */
module ConsoleRuns {
  import opened Wrappers
  import opened Session
  import opened ActivityLog

  const MAX_RESOURCE_REQUESTS := 4
  const MAX_DIAGNOSTIC_REQUESTS := 2

  // ----- Errors and how each service reports them -----

  datatype Fault =
    | StaleScopeFault | ContextCanceled | DeadlineExceeded | ApiTimeout | ApiForbidden | ApiUnauthorized
    | ApiNotFound | ResponseTooLarge | Coded(code: Code) | OtherFault

  function ResourceCode(fault: Fault): Code {
    match fault
    case StaleScopeFault | ContextCanceled => StaleScopeCode
    case DeadlineExceeded | ApiTimeout => TimeoutCode
    case ApiForbidden => ForbiddenCode
    case ApiUnauthorized => UnauthenticatedCode
    case ApiNotFound => NotFoundCode
    case ResponseTooLarge => TooLargeCode
    case Coded(_) | OtherFault => UnavailableCode
  }

  function DiagnosticCode(fault: Fault): Code {
    match fault
    case Coded(code) => code
    case StaleScopeFault => StaleScopeCode
    case ContextCanceled => CancelledCode
    case DeadlineExceeded | ApiTimeout => TimeoutCode
    case ApiForbidden => ForbiddenCode
    case ApiUnauthorized => UnauthenticatedCode
    case ApiNotFound => NotFoundCode
    case ResponseTooLarge | OtherFault => UnavailableCode
  }

  function CodeOf(service: Service, fault: Fault): Code {
    match service
    case Resources => ResourceCode(fault)
    case Diagnostics => DiagnosticCode(fault)
  }

  // ----- Processes -----

  datatype Body = Payload(items: nat, truncated: bool) | Broken(fault: Fault)

  datatype Outcome = Success(scope: Scope, items: nat, truncated: bool) | Failure(code: Code)

  datatype Stage =
    | Admitted                      // holds a generation, no slot
    | Working                       // holds a slot, reading from the cluster
    | Read(body: Body)              // holds a slot, reads finished
    | Checked(body: Body)           // holds a slot, generation found unchanged
    | Returning(outcome: Outcome)   // holds a slot, nothing logged yet (diagnostics)
    | Logged(outcome: Outcome)      // holds a slot, entry written (resources)
    | Finished(outcome: Outcome)    // slot given back, nothing logged yet (diagnostics)
    | Done(outcome: Outcome)

  /** clusterWide: the query needs no namespace. listsNamespaces: its list refreshes what may be selected. */
  datatype Query = Query(service: Service, clusterWide: bool, listsNamespaces: bool)

  datatype Process = Process(query: Query, scope: Scope, admittedAt: nat, checkedAt: Option<nat>, stage: Stage)

  datatype Action =
    | MissNamespace
    | TakeSlot
    | FailWaiting(waitFault: Fault)
    | AcceptNamespaces(names: seq<string>, cut: bool)
    | Finish(body: Body)
    | Fail(fault: Fault)
    | Recheck
    | Conclude(late: Option<Fault>)
    | Release
    | Log

  predicate HoldsSlot(p: Process) {
    p.stage.Working? || p.stage.Read? || p.stage.Checked? || p.stage.Returning? || p.stage.Logged?
  }

  predicate NeedsNamespace(p: Process) {
    (p.query.service == Diagnostics || !p.query.clusterWide) && p.scope.namespace == ""
  }

  predicate CanAct(p: Process, action: Action) {
    match action
    case MissNamespace => p.stage.Admitted? && NeedsNamespace(p)
    case TakeSlot => p.stage.Admitted? && !NeedsNamespace(p)
    case FailWaiting(_) => p.stage.Admitted? && !NeedsNamespace(p)
    case AcceptNamespaces(_, _) => p.stage.Working? && p.query.service == Resources && p.query.listsNamespaces
    case Finish(body) =>
      && p.stage.Working?
      && (p.query.service == Resources ==> body.Payload? && !p.query.listsNamespaces)
    case Fail(_) => p.stage.Working?
    case Recheck => p.stage.Read?
    case Conclude(_) => p.stage.Checked?
    case Release => p.stage.Returning? || p.stage.Logged?
    case Log => p.stage.Finished?
  }

  /** The process afterwards, and the outcome it logged in this step, if any. */
  function Act(p: Process, action: Action, session: Session, now: nat): (Process, Option<Outcome>)
    requires CanAct(p, action)
  {
    match action
    case MissNamespace =>
      if p.query.service == Resources then (p.(stage := Done(Failure(NamespaceRequiredCode))), None)
      else (p.(stage := Finished(Failure(NamespaceRequiredCode))), None)
    case TakeSlot => (p.(stage := Working), None)
    case FailWaiting(fault) =>
      if p.query.service == Resources then
        var outcome := Failure(ResourceCode(fault));
        (p.(stage := Done(outcome)), Some(outcome))
      else (p.(stage := Finished(Failure(BusyCode))), None)
    case AcceptNamespaces(names, cut) =>
      if AllowNamespaces(session, p.scope.generation, names).1
      then (p.(stage := Read(Payload(|names|, cut))), None)
      else Stop(p, StaleScopeFault)
    case Finish(body) => (p.(stage := Read(body)), None)
    case Fail(fault) => Stop(p, fault)
    case Recheck =>
      if session.scope.generation == p.scope.generation
      then (p.(stage := Checked(p.stage.body), checkedAt := Some(now)), None)
      else Stop(p, StaleScopeFault)
    case Conclude(late) =>
      if late.Some? then Stop(p, late.value)
      else if p.stage.body.Broken? then Stop(p, p.stage.body.fault)
      else Leave(p, Success(p.scope, p.stage.body.items, p.stage.body.truncated))
    case Release =>
      if p.stage.Logged? then (p.(stage := Done(p.stage.outcome)), None)
      else (p.(stage := Finished(p.stage.outcome)), None)
    case Log => (p.(stage := Done(p.stage.outcome)), Some(p.stage.outcome))
  }

  /** The resource service logs before its slot is given back, the diagnostics service after. */
  function Leave(p: Process, outcome: Outcome): (Process, Option<Outcome>) {
    if p.query.service == Resources then (p.(stage := Logged(outcome)), Some(outcome))
    else (p.(stage := Returning(outcome)), None)
  }

  function Stop(p: Process, fault: Fault): (Process, Option<Outcome>) {
    Leave(p, Failure(CodeOf(p.query.service, fault)))
  }

  function EntryFor(p: Process, outcome: Outcome): Activity {
    match outcome
    case Success(_, items, truncated) =>
      Activity(0, p.query.service, p.scope.context, p.scope.namespace, p.scope.generation, Succeeded, items, truncated)
    case Failure(code) =>
      Activity(0, p.query.service, p.scope.context, p.scope.namespace, p.scope.generation, FailedWith(code), 0, false)
  }

  // ----- The whole Console -----

  /** A namespace list that the session accepted: for which context, at which generation. */
  datatype Listing = Listing(context: string, generation: nat, names: set<string>)

  /**
   past holds the scope of every state so far, the present one last; activation is the generation
   at which the present context was last selected. Both, with listings and log, only record.
   */
  datatype World = World(session: Session, processes: map<nat, Process>, resourceSlots: nat, diagnosticSlots: nat,
                         log: seq<(nat, Activity)>, past: seq<Scope>, listings: seq<Listing>, activation: nat)

  datatype Event =
    | Change(operation: Operation)
    | Admit(pid: nat, query: Query, generation: nat)
    | Move(pid: nat, action: Action)

  function Slots(w: World, service: Service): nat {
    match service
    case Resources => w.resourceSlots
    case Diagnostics => w.diagnosticSlots
  }

  function Capacity(service: Service): nat {
    match service
    case Resources => MAX_RESOURCE_REQUESTS
    case Diagnostics => MAX_DIAGNOSTIC_REQUESTS
  }

  predicate Enabled(w: World, e: Event) {
    match e
    case Change(operation) => !operation.OpAllowNamespaces?
    case Admit(pid, query, generation) => pid !in w.processes && RequestContext(w.session, generation).Ok?
    case Move(pid, action) =>
      && pid in w.processes && CanAct(w.processes[pid], action)
      && var service := w.processes[pid].query.service;
         && (action.TakeSlot? ==> Slots(w, service) < Capacity(service))
         && (action.FailWaiting? && service == Diagnostics ==> Slots(w, service) >= Capacity(service))
         && (action.Release? ==> Slots(w, service) > 0)
  }

  function ChangeSession(w: World, operation: Operation): World {
    var session := Apply(w.session, operation);
    w.(session := session,
       activation :=
         if operation.OpSelectContext? && session != w.session then session.scope.generation else w.activation)
  }

  function AdmitProcess(w: World, pid: nat, query: Query, generation: nat): World
    requires RequestContext(w.session, generation).Ok? && w.past != []
  {
    var scope := RequestContext(w.session, generation).value;
    w.(processes := w.processes[pid := Process(query, scope, |w.past| - 1, None, Admitted)])
  }

  function SlotsAfter(w: World, p: Process, action: Action, service: Service): nat
    requires action.Release? ==> Slots(w, p.query.service) > 0
  {
    if service != p.query.service then Slots(w, service)
    else if action.TakeSlot? then Slots(w, service) + 1
    else if action.Release? then Slots(w, service) - 1
    else Slots(w, service)
  }

  predicate Accepts(w: World, p: Process, action: Action) {
    action.AcceptNamespaces? && AllowNamespaces(w.session, p.scope.generation, action.names).1
  }

  function SessionAfter(w: World, p: Process, action: Action): Session {
    if Accepts(w, p, action) then AllowNamespaces(w.session, p.scope.generation, action.names).0 else w.session
  }

  function ListingsAfter(w: World, p: Process, action: Action): seq<Listing> {
    if Accepts(w, p, action)
    then w.listings + [Listing(p.scope.context, p.scope.generation, NonEmpty(action.names))]
    else w.listings
  }

  function LogAfter(w: World, pid: nat, p: Process, logged: Option<Outcome>): seq<(nat, Activity)> {
    match logged
    case None => w.log
    case Some(outcome) => w.log + [(pid, EntryFor(p, outcome).(sequence := |w.log| + 1))]
  }

  function MoveProcess(w: World, pid: nat, action: Action): World
    requires Enabled(w, Move(pid, action)) && w.past != []
  {
    var p := w.processes[pid];
    var (p', logged) := Act(p, action, w.session, |w.past| - 1);
    World(SessionAfter(w, p, action), w.processes[pid := p'],
          SlotsAfter(w, p, action, Resources), SlotsAfter(w, p, action, Diagnostics),
          LogAfter(w, pid, p, logged), w.past, ListingsAfter(w, p, action), w.activation)
  }

  function Effect(w: World, e: Event): World
    requires Enabled(w, e) && w.past != []
  {
    match e
    case Change(operation) => ChangeSession(w, operation)
    case Admit(pid, query, generation) => AdmitProcess(w, pid, query, generation)
    case Move(pid, action) => MoveProcess(w, pid, action)
  }

  function Step(w: World, e: Event): World
    requires Enabled(w, e) && w.past != []
  {
    var after := Effect(w, e);
    after.(past := w.past + [after.session.scope])
  }

  predicate Initially(w: World) {
    && w.session.allowedContexts != {} && "" !in w.session.allowedContexts
    && w == World(Initial(w.session.allowedContexts), map[], 0, 0, [], [NoScope], [], 0)
  }

  ghost predicate Follows(w: World, w': World) {
    exists e :: Enabled(w, e) && w.past != [] && w' == Step(w, e)
  }

  ghost predicate FollowsAt(run: seq<World>, t: nat)
    requires t + 1 < |run|
  {
    Follows(run[t], run[t + 1])
  }

  ghost predicate Run(run: seq<World>) {
    && |run| > 0 && Initially(run[0])
    && forall t :: 0 <= t < |run| - 1 ==> FollowsAt(run, t)
  }
}
