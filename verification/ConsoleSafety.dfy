/** What every run of the Console keeps, whatever the order of its steps. */
module ConsoleSafety {
  import opened Wrappers
  import opened Session
  import opened ActivityLog
  import opened ConsoleRuns

  // ----- Scopes over time -----

  /** Generations never go back, and one generation names one scope for ever. */
  ghost predicate PastOk(past: seq<Scope>, session: Session) {
    && |past| > 0 && past[|past| - 1] == session.scope
    && forall i, j :: 0 <= i <= j < |past| ==>
      past[i].generation <= past[j].generation && (past[i].generation == past[j].generation ==> past[i] == past[j])
  }

  ghost predicate ProcessOk(past: seq<Scope>, p: Process) {
    && p.admittedAt < |past| && past[p.admittedAt] == p.scope
    && p.scope.context != ""
    && (p.checkedAt.Some? ==>
      p.admittedAt <= p.checkedAt.value < |past| && past[p.checkedAt.value].generation == p.scope.generation)
    && (p.stage.Checked? ==> p.checkedAt.Some?)
    && (HasOutcome(p) && p.stage.outcome.Success? ==> p.checkedAt.Some? && p.stage.outcome.scope == p.scope)
    && (p.stage.Logged? ==> p.query.service == Resources)
    && (p.stage.Returning? || p.stage.Finished? ==> p.query.service == Diagnostics)
    && (p.stage.Logged? ==> p.stage.outcome != Failure(NamespaceRequiredCode))
    && (p.stage.Working? || p.stage.Read? || p.stage.Checked? || (HasOutcome(p) && p.stage.outcome.Success?) ==>
          p.scope.namespace != "" || (p.query.service == Resources && p.query.clusterWide))
  }

  ghost predicate ProcessesOk(past: seq<Scope>, processes: map<nat, Process>) {
    forall pid :: pid in processes ==> ProcessOk(past, processes[pid])
  }

  predicate HasOutcome(p: Process) {
    p.stage.Returning? || p.stage.Logged? || p.stage.Finished? || p.stage.Done?
  }

  lemma ExtendPast(past: seq<Scope>, session: Session, session': Session)
    requires PastOk(past, session)
    requires session'.scope == session.scope || session'.scope.generation == session.scope.generation + 1
    ensures PastOk(past + [session'.scope], session')
  {
  }

  lemma ProcessOkLater(past: seq<Scope>, scope: Scope, p: Process)
    requires ProcessOk(past, p)
    ensures ProcessOk(past + [scope], p)
  {
  }

  lemma ActKeepsProcess(p: Process, action: Action, session: Session, past: seq<Scope>)
    requires PastOk(past, session) && ProcessOk(past, p) && CanAct(p, action)
    ensures ProcessOk(past, Act(p, action, session, |past| - 1).0)
  {
  }

  // ----- Slots -----

  function Holders(processes: map<nat, Process>, service: Service): set<nat> {
    set pid | pid in processes && processes[pid].query.service == service && HoldsSlot(processes[pid])
  }

  lemma HoldersUpdate(processes: map<nat, Process>, pid: nat, p: Process, service: Service)
    ensures Holders(processes[pid := p], service)
         == if p.query.service == service && HoldsSlot(p) then Holders(processes, service) + {pid}
            else Holders(processes, service) - {pid}
  {
  }

  ghost predicate SlotsOk(w: World, service: Service) {
    |Holders(w.processes, service)| == Slots(w, service) <= Capacity(service)
  }

  // ----- The activity history -----

  /** Processes that must have written their entry: all that returned, but for one early refusal. */
  predicate HasEntry(p: Process) {
    || p.stage.Logged?
    || (p.stage.Done? && !(p.query.service == Resources && p.stage.outcome == Failure(NamespaceRequiredCode)))
  }

  function Writers(log: seq<(nat, Activity)>): set<nat> {
    set k | 0 <= k < |log| :: log[k].0
  }

  ghost predicate LogOk(processes: map<nat, Process>, log: seq<(nat, Activity)>) {
    && (forall k, l :: 0 <= k < l < |log| ==> log[k].0 != log[l].0)
    && Writers(log) == (set pid | pid in processes && HasEntry(processes[pid]))
    && forall k :: 0 <= k < |log| ==>
      log[k].0 in processes && HasEntry(processes[log[k].0])
      && log[k].1 == EntryFor(processes[log[k].0], processes[log[k].0].stage.outcome).(sequence := k + 1)
  }

  lemma WritersAppend(log: seq<(nat, Activity)>, pid: nat, entry: Activity)
    ensures Writers(log + [(pid, entry)]) == Writers(log) + {pid}
  {
    var longer := log + [(pid, entry)];
    assert longer[|log|] == (pid, entry);
    forall x | x in Writers(log) + {pid} ensures x in Writers(longer) {
      if x in Writers(log) {
        var k :| 0 <= k < |log| && log[k].0 == x;
        assert longer[k].0 == x;
      } else {
        assert longer[|log|].0 == x;
      }
    }
  }

  lemma NotYetWritten(processes: map<nat, Process>, log: seq<(nat, Activity)>, pid: nat)
    requires LogOk(processes, log)
    requires pid in processes ==> !HasEntry(processes[pid])
    ensures forall k :: 0 <= k < |log| ==> log[k].0 != pid
  {
  }

  lemma LogUnwritten(processes: map<nat, Process>, log: seq<(nat, Activity)>, pid: nat, p: Process)
    requires LogOk(processes, log)
    requires pid in processes ==> !HasEntry(processes[pid])
    requires !HasEntry(p)
    ensures LogOk(processes[pid := p], log)
  {
    NotYetWritten(processes, log, pid);
    var processes' := processes[pid := p];
    assert (set x | x in processes' && HasEntry(processes'[x])) == set x | x in processes && HasEntry(processes[x]);
  }

  lemma LogWritten(processes: map<nat, Process>, log: seq<(nat, Activity)>, pid: nat, p: Process)
    requires LogOk(processes, log)
    requires pid in processes ==> !HasEntry(processes[pid])
    requires HasEntry(p)
    ensures LogOk(processes[pid := p], log + [(pid, EntryFor(p, p.stage.outcome).(sequence := |log| + 1))])
  {
    NotYetWritten(processes, log, pid);
    var processes' := processes[pid := p];
    WritersAppend(log, pid, EntryFor(p, p.stage.outcome).(sequence := |log| + 1));
    assert (set x | x in processes' && HasEntry(processes'[x])) ==
      (set x | x in processes && HasEntry(processes[x])) + {pid};
  }

  lemma LogUnchanged(processes: map<nat, Process>, log: seq<(nat, Activity)>, pid: nat, p: Process)
    requires LogOk(processes, log)
    requires pid in processes && HasEntry(processes[pid]) && HasEntry(p)
    requires p.stage.outcome == processes[pid].stage.outcome
    requires p.query == processes[pid].query && p.scope == processes[pid].scope
    ensures LogOk(processes[pid := p], log)
  {
    var processes' := processes[pid := p];
    assert (set x | x in processes' && HasEntry(processes'[x])) == set x | x in processes && HasEntry(processes[x]);
  }

  /** Logging happens exactly in the step after which a process has its entry. */
  lemma ActLogs(p: Process, action: Action, session: Session, past: seq<Scope>)
    requires PastOk(past, session) && ProcessOk(past, p) && CanAct(p, action)
    ensures var (p', logged) := Act(p, action, session, |past| - 1);
      && p'.query == p.query && p'.scope == p.scope
      && (logged.Some? <==> !HasEntry(p) && HasEntry(p'))
      && (logged.Some? ==> logged.value == p'.stage.outcome)
      && (HasEntry(p) ==> HasEntry(p') && p'.stage.outcome == p.stage.outcome)
      && (HoldsSlot(p') <==> action.TakeSlot? || (HoldsSlot(p) && !action.Release?))
      && (action.TakeSlot? ==> !HoldsSlot(p)) && (action.Release? ==> HoldsSlot(p))
  {
  }

  // ----- Where namespaces come from -----

  /** name stands in a list accepted for the present context, at or after its latest activation. */
  ghost predicate Witnessed(listings: seq<Listing>, scope: Scope, activation: nat, name: string) {
    exists k :: 0 <= k < |listings| && listings[k].context == scope.context
      && activation <= listings[k].generation <= scope.generation && name in listings[k].names
  }

  ghost predicate NamespacesOk(w: World) {
    && w.activation <= w.session.scope.generation
    && (forall name :: name in w.session.allowedNamespaces ==>
          Witnessed(w.listings, w.session.scope, w.activation, name))
    && (w.session.scope.namespace != "" ==>
          Witnessed(w.listings, w.session.scope, w.activation, w.session.scope.namespace))
  }

  /** The present context was last selected at activation: no later generation came without a namespace. */
  ghost predicate ActivationOk(past: seq<Scope>, scope: Scope, activation: nat) {
    scope.context != "" ==>
      && (exists j :: 0 <= j < |past| && past[j] == Scope(scope.context, "", activation))
      && (forall j :: 0 <= j < |past| && past[j].generation > activation ==>
            past[j].context == scope.context && past[j].namespace != "")
  }

  lemma SameActivation(past: seq<Scope>, scope: Scope, scope': Scope, activation: nat)
    requires ActivationOk(past, scope, activation)
    requires scope' == scope || (scope'.context == scope.context && scope'.namespace != "")
    requires scope.context != "" ==> activation <= scope.generation
    requires |past| > 0 && past[|past| - 1] == scope
    ensures ActivationOk(past + [scope'], scope', activation)
  {
    if scope'.context != "" {
      var j :| 0 <= j < |past| && past[j] == Scope(scope.context, "", activation);
      assert (past + [scope'])[j] == past[j];
    }
  }

  lemma NewActivation(past: seq<Scope>, session: Session, scope': Scope)
    requires PastOk(past, session) && scope'.namespace == "" && scope'.generation == session.scope.generation + 1
    ensures ActivationOk(past + [scope'], scope', scope'.generation)
  {
    assert (past + [scope'])[|past|] == scope';
  }

  lemma WitnessedLater(listings: seq<Listing>, scope: Scope, scope': Scope, activation: nat, name: string)
    requires Witnessed(listings, scope, activation, name)
    requires scope'.context == scope.context && scope.generation <= scope'.generation
    ensures Witnessed(listings, scope', activation, name)
  {
    var k :| 0 <= k < |listings| && listings[k].context == scope.context
      && activation <= listings[k].generation <= scope.generation && name in listings[k].names;
    assert listings[k].context == scope'.context;
  }

  lemma WitnessedMore(listings: seq<Listing>, listing: Listing, scope: Scope, activation: nat, name: string)
    requires Witnessed(listings, scope, activation, name)
    ensures Witnessed(listings + [listing], scope, activation, name)
  {
    var k :| 0 <= k < |listings| && listings[k].context == scope.context
      && activation <= listings[k].generation <= scope.generation && name in listings[k].names;
    assert (listings + [listing])[k] == listings[k];
  }

  // ----- The invariant -----

  ghost predicate Inv(w: World) {
    && Valid(w.session)
    && PastOk(w.past, w.session)
    && ProcessesOk(w.past, w.processes)
    && SlotsOk(w, Resources) && SlotsOk(w, Diagnostics)
    && LogOk(w.processes, w.log)
    && NamespacesOk(w)
    && ActivationOk(w.past, w.session.scope, w.activation)
  }

  lemma ChangeKeeps(w: World, operation: Operation)
    requires Inv(w) && Enabled(w, Change(operation))
    ensures Inv(Step(w, Change(operation)))
  {
    StepKeepsValid(w.session, operation);
    ExtendPast(w.past, w.session, Apply(w.session, operation));
    ChangeKeepsNamespaces(w, operation);
    ChangeKeepsActivation(w, operation);
    forall x | x in w.processes ensures ProcessOk(w.past + [Apply(w.session, operation).scope], w.processes[x]) {
      ProcessOkLater(w.past, Apply(w.session, operation).scope, w.processes[x]);
    }
  }

  lemma ChangeKeepsActivation(w: World, operation: Operation)
    requires Valid(w.session) && PastOk(w.past, w.session) && !operation.OpAllowNamespaces?
    requires ActivationOk(w.past, w.session.scope, w.activation) && w.activation <= w.session.scope.generation
    ensures var w' := ChangeSession(w, operation);
      ActivationOk(w.past + [w'.session.scope], w'.session.scope, w'.activation)
  {
    var w' := ChangeSession(w, operation);
    if w'.session.scope == w.session.scope || operation.OpSelectNamespace? || operation.OpSelectNamespaceAt? {
      SameActivation(w.past, w.session.scope, w'.session.scope, w.activation);
    } else if operation.OpSelectContext? {
      NewActivation(w.past, w.session, w'.session.scope);
    }
  }

  lemma ChangeKeepsNamespaces(w: World, operation: Operation)
    requires Valid(w.session) && NamespacesOk(w) && !operation.OpAllowNamespaces?
    ensures NamespacesOk(ChangeSession(w, operation))
  {
    var w' := ChangeSession(w, operation);
    if w'.session != w.session && (operation.OpSelectNamespace? || operation.OpSelectNamespaceAt?) {
      forall name | name in w.session.allowedNamespaces
        ensures Witnessed(w'.listings, w'.session.scope, w'.activation, name)
      {
        WitnessedLater(w.listings, w.session.scope, w'.session.scope, w.activation, name);
      }
    }
  }

  lemma AdmitKeepsSlots(w: World, pid: nat, p: Process, service: Service)
    requires SlotsOk(w, service) && pid !in w.processes && !HoldsSlot(p)
    ensures SlotsOk(w.(processes := w.processes[pid := p]), service)
  {
    HoldersUpdate(w.processes, pid, p, service);
    assert Holders(w.processes, service) - {pid} == Holders(w.processes, service);
  }

  lemma UpdateKeepsProcesses(past: seq<Scope>, scope: Scope, processes: map<nat, Process>, pid: nat, p: Process)
    requires ProcessesOk(past, processes) && ProcessOk(past, p)
    ensures ProcessesOk(past + [scope], processes[pid := p])
  {
    var processes' := processes[pid := p];
    forall x | x in processes' ensures ProcessOk(past + [scope], processes'[x]) {
      ProcessOkLater(past, scope, processes'[x]);
    }
  }

  lemma AdmitKeeps(w: World, pid: nat, query: Query, generation: nat)
    requires Inv(w) && Enabled(w, Admit(pid, query, generation))
    ensures Inv(Step(w, Admit(pid, query, generation)))
  {
    var p := Process(query, w.session.scope, |w.past| - 1, None, Admitted);
    assert AdmitProcess(w, pid, query, generation) == w.(processes := w.processes[pid := p]);
    ExtendPast(w.past, w.session, w.session);
    SameActivation(w.past, w.session.scope, w.session.scope, w.activation);
    AdmitKeepsSlots(w, pid, p, Resources);
    AdmitKeepsSlots(w, pid, p, Diagnostics);
    UpdateKeepsProcesses(w.past, w.session.scope, w.processes, pid, p);
    LogUnwritten(w.processes, w.log, pid, p);
  }

  lemma MoveKeepsSession(w: World, pid: nat, action: Action)
    requires Inv(w) && Enabled(w, Move(pid, action))
    ensures var w' := MoveProcess(w, pid, action);
      && Valid(w'.session) && w'.session.scope == w.session.scope && NamespacesOk(w')
      && w'.past == w.past
  {
    var p := w.processes[pid];
    if action.AcceptNamespaces? {
      StepKeepsValid(w.session, OpAllowNamespaces(p.scope.generation, action.names));
      if AllowNamespaces(w.session, p.scope.generation, action.names).1 {
        AcceptedListing(w, pid, action);
      }
    }
  }

  /** A list is accepted only at the generation of its own request, so for the present context. */
  lemma AcceptedListing(w: World, pid: nat, action: Action)
    requires Inv(w) && Enabled(w, Move(pid, action)) && action.AcceptNamespaces?
    requires AllowNamespaces(w.session, w.processes[pid].scope.generation, action.names).1
    ensures NamespacesOk(MoveProcess(w, pid, action))
  {
    var p, w' := w.processes[pid], MoveProcess(w, pid, action);
    var listing := Listing(p.scope.context, p.scope.generation, NonEmpty(action.names));
    assert w.past[p.admittedAt] == w.past[|w.past| - 1] == w.session.scope;
    assert w'.listings[|w.listings|] == listing;
    forall name | name in w'.session.allowedNamespaces
      ensures Witnessed(w'.listings, w'.session.scope, w'.activation, name)
    {
      assert name in w'.listings[|w.listings|].names;
    }
    if w.session.scope.namespace != "" {
      WitnessedMore(w.listings, listing, w.session.scope, w.activation, w.session.scope.namespace);
    }
  }

  lemma CountHolders(holders: set<nat>, pid: nat, after: bool)
    ensures |if after then holders + {pid} else holders - {pid}| ==
      |holders| + (if after && pid !in holders then 1 else if !after && pid in holders then -1 else 0)
  {
    if pid in holders {
      assert holders + {pid} == holders;
    } else {
      assert holders - {pid} == holders;
    }
  }

  lemma MoveKeepsSlots(w: World, pid: nat, action: Action, service: Service)
    requires PastOk(w.past, w.session) && Enabled(w, Move(pid, action)) && ProcessOk(w.past, w.processes[pid])
    requires SlotsOk(w, service)
    ensures SlotsOk(MoveProcess(w, pid, action), service)
  {
    var p := w.processes[pid];
    var p' := Act(p, action, w.session, |w.past| - 1).0;
    ActLogs(p, action, w.session, w.past);
    HoldersUpdate(w.processes, pid, p', service);
    CountHolders(Holders(w.processes, service), pid, p'.query.service == service && HoldsSlot(p'));
    assert Slots(MoveProcess(w, pid, action), service) == SlotsAfter(w, p, action, service);
  }

  lemma MoveKeepsLog(w: World, pid: nat, action: Action)
    requires PastOk(w.past, w.session) && Enabled(w, Move(pid, action)) && ProcessOk(w.past, w.processes[pid])
    requires LogOk(w.processes, w.log)
    ensures var w' := MoveProcess(w, pid, action); LogOk(w'.processes, w'.log)
  {
    var p := w.processes[pid];
    var (p', logged) := Act(p, action, w.session, |w.past| - 1);
    ActLogs(p, action, w.session, w.past);
    match logged
    case Some(outcome) =>
      assert EntryFor(p, outcome) == EntryFor(p', outcome);
      LogWritten(w.processes, w.log, pid, p');
    case None =>
      if HasEntry(p) {
        LogUnchanged(w.processes, w.log, pid, p');
      } else {
        LogUnwritten(w.processes, w.log, pid, p');
      }
  }

  lemma MoveKeepsProcesses(w: World, pid: nat, action: Action)
    requires PastOk(w.past, w.session) && Enabled(w, Move(pid, action)) && ProcessesOk(w.past, w.processes)
    ensures ProcessesOk(w.past + [w.session.scope], MoveProcess(w, pid, action).processes)
  {
    ActKeepsProcess(w.processes[pid], action, w.session, w.past);
    UpdateKeepsProcesses(w.past, w.session.scope, w.processes, pid,
                         Act(w.processes[pid], action, w.session, |w.past| - 1).0);
  }

  lemma MoveKeeps(w: World, pid: nat, action: Action)
    requires Inv(w) && Enabled(w, Move(pid, action))
    ensures Inv(Step(w, Move(pid, action)))
  {
    var w' := MoveProcess(w, pid, action);
    MoveKeepsSession(w, pid, action);
    ExtendPast(w.past, w.session, w'.session);
    SameActivation(w.past, w.session.scope, w.session.scope, w.activation);
    MoveKeepsProcesses(w, pid, action);
    MoveKeepsSlots(w, pid, action, Resources);
    MoveKeepsSlots(w, pid, action, Diagnostics);
    MoveKeepsLog(w, pid, action);
  }

  lemma StepKeeps(w: World, e: Event)
    requires Inv(w) && Enabled(w, e)
    ensures Inv(Step(w, e))
  {
    match e
    case Change(operation) => ChangeKeeps(w, operation);
    case Admit(pid, query, generation) => AdmitKeeps(w, pid, query, generation);
    case Move(pid, action) => MoveKeeps(w, pid, action);
  }

  lemma InitiallyInv(w: World)
    requires Initially(w)
    ensures Inv(w)
  {
    assert Holders(w.processes, Resources) == {} && Holders(w.processes, Diagnostics) == {};
    assert Writers(w.log) == {};
  }

  // ----- Every run -----

  lemma FollowingState(w: World, w': World)
    requires Inv(w) && Follows(w, w')
    ensures Inv(w') && w'.past == w.past + [w'.session.scope]
    ensures w.session.closed ==> w'.session == w.session && w'.processes.Keys == w.processes.Keys
  {
    var e :| Enabled(w, e) && w.past != [] && w' == Step(w, e);
    StepKeeps(w, e);
    if w.session.closed {
      ClosedStep(w, e);
    }
  }

  lemma ClosedStep(w: World, e: Event)
    requires Valid(w.session) && Enabled(w, e) && w.past != [] && w.session.closed
    ensures Step(w, e).session == w.session && Step(w, e).processes.Keys == w.processes.Keys
  {
    match e
    case Change(operation) => StepKeepsValid(w.session, operation);
    case Admit(_, _, _) =>
    case Move(pid, action) => assert Step(w, e).processes.Keys == w.processes.Keys + {pid};
  }

  lemma {:induction false} RunInv(run: seq<World>, t: nat)
    requires Run(run) && t < |run|
    ensures Inv(run[t])
    ensures |run[t].past| == t + 1 && forall j :: 0 <= j <= t ==> run[t].past[j] == run[j].session.scope
  {
    if t == 0 {
      InitiallyInv(run[0]);
    } else {
      RunInv(run, t - 1);
      assert FollowsAt(run, t - 1);
      FollowingState(run[t - 1], run[t]);
    }
  }

  /**
   A result returned by either service carries the scope that was current, in an open session, at
   every state from the request's admission to its recheck of the generation.
   */
  lemma ResultScopeWasCurrent(run: seq<World>, t: nat, pid: nat)
    requires Run(run) && t < |run| && pid in run[t].processes
    requires HasOutcome(run[t].processes[pid]) && run[t].processes[pid].stage.outcome.Success?
    ensures var p := run[t].processes[pid];
      && p.checkedAt.Some? && p.admittedAt <= p.checkedAt.value <= t
      && forall j :: p.admittedAt <= j <= p.checkedAt.value ==>
           run[j].session.scope == p.stage.outcome.scope && !run[j].session.closed
    ensures var p := run[t].processes[pid];
      && p.stage.outcome.scope.context != ""
      && (p.stage.outcome.scope.namespace != "" || (p.query.service == Resources && p.query.clusterWide))
  {
    RunInv(run, t);
    var p, past := run[t].processes[pid], run[t].past;
    assert ProcessOk(past, p);
    forall j | p.admittedAt <= j <= p.checkedAt.value
      ensures run[j].session.scope == p.stage.outcome.scope && !run[j].session.closed
    {
      RunInv(run, j);
      assert past[p.admittedAt].generation <= past[j].generation <= past[p.checkedAt.value].generation;
      assert past[j] == past[p.admittedAt];
    }
  }

  /** Generations grow along a run, and each generation ever issued names one context and namespace. */
  lemma GenerationNamesScope(run: seq<World>, i: nat, j: nat)
    requires Run(run) && i <= j < |run|
    ensures run[i].session.scope.generation <= run[j].session.scope.generation
    ensures run[i].session.scope.generation == run[j].session.scope.generation ==>
      run[i].session.scope == run[j].session.scope
  {
    RunInv(run, j);
    assert run[j].past[i] == run[i].session.scope && run[j].past[j] == run[j].session.scope;
  }

  /**
   A selected namespace was listed for its own context no earlier than the generation at which that
   context was last selected, so a slow list from an earlier scope never admits a namespace.
   */
  lemma NamespaceProvenance(run: seq<World>, t: nat)
    requires Run(run) && t < |run| && run[t].session.scope.namespace != ""
    ensures exists k ::
      && 0 <= k < |run[t].listings|
      && run[t].listings[k].context == run[t].session.scope.context
      && run[t].activation <= run[t].listings[k].generation <= run[t].session.scope.generation
      && run[t].session.scope.namespace in run[t].listings[k].names
    ensures exists s ::
      0 <= s <= t && run[s].session.scope == Scope(run[t].session.scope.context, "", run[t].activation)
    ensures forall s :: 0 <= s <= t && run[s].session.scope.generation > run[t].activation ==>
      run[s].session.scope.context == run[t].session.scope.context && run[s].session.scope.namespace != ""
  {
    RunInv(run, t);
    assert Witnessed(run[t].listings, run[t].session.scope, run[t].activation, run[t].session.scope.namespace);
    assert ActivationOk(run[t].past, run[t].session.scope, run[t].activation);
    var j :| 0 <= j < |run[t].past| && run[t].past[j] == Scope(run[t].session.scope.context, "", run[t].activation);
    assert run[j].session.scope == run[t].past[j];
  }

  /** The slots taken are those of the requests still using them; when all have returned none is taken. */
  lemma SlotsBoundedAndReturned(run: seq<World>, t: nat)
    requires Run(run) && t < |run|
    ensures |Holders(run[t].processes, Resources)| == run[t].resourceSlots <= 4
    ensures |Holders(run[t].processes, Diagnostics)| == run[t].diagnosticSlots <= 2
    ensures (forall pid :: pid in run[t].processes ==> run[t].processes[pid].stage.Done?) ==>
      run[t].resourceSlots == run[t].diagnosticSlots == 0
  {
    assert SlotsOk(run[t], Resources) && SlotsOk(run[t], Diagnostics) by {
      RunInv(run, t);
    }
    if forall pid :: pid in run[t].processes ==> run[t].processes[pid].stage.Done? {
      assert Holders(run[t].processes, Resources) == {} && Holders(run[t].processes, Diagnostics) == {};
    }
  }

  /** The entry names the service and the scope, and says what came of the request. */
  predicate Tells(entry: Activity, service: Service, scope: Scope, outcome: Outcome) {
    && entry.service == service && entry.context == scope.context && entry.namespace == scope.namespace
    && entry.generation == scope.generation
    && (entry.verdict == Succeeded <==> outcome.Success?)
    && (outcome.Success? ==> entry.itemCount == outcome.items && entry.truncated == outcome.truncated)
    && (outcome.Failure? ==>
          entry.verdict == FailedWith(outcome.code) && entry.itemCount == 0 && !entry.truncated)
  }

  lemma EntryTells(processes: map<nat, Process>, log: seq<(nat, Activity)>, k: nat)
    requires LogOk(processes, log) && k < |log|
    ensures var p := processes[log[k].0];
      && HasOutcome(p) && Tells(log[k].1, p.query.service, p.scope, p.stage.outcome)
      && log[k].1.sequence == k + 1
  {
  }

  /**
   No request writes two entries. A diagnostics request that returned has written one, whatever
   became of it; a resource request has unless it was refused for want of a namespace. The entry
   says exactly what came of the request.
   */
  lemma OneEntryEach(run: seq<World>, t: nat, pid: nat)
    requires Run(run) && t < |run| && pid in run[t].processes && run[t].processes[pid].stage.Done?
    ensures var p, log := run[t].processes[pid], run[t].log;
      && (forall k, l :: 0 <= k < l < |log| ==> log[k].0 != log[l].0)
      && ((exists k :: 0 <= k < |log| && log[k].0 == pid) <==>
            p.query.service == Diagnostics || p.stage.outcome != Failure(NamespaceRequiredCode))
      && (forall k :: 0 <= k < |log| && log[k].0 == pid ==>
            Tells(log[k].1, p.query.service, p.scope, p.stage.outcome) && log[k].1.sequence == k + 1)
  {
    RunInv(run, t);
    var p, log := run[t].processes[pid], run[t].log;
    assert LogOk(run[t].processes, log);
    forall k | 0 <= k < |log| && log[k].0 == pid
      ensures Tells(log[k].1, p.query.service, p.scope, p.stage.outcome) && log[k].1.sequence == k + 1 && HasEntry(p)
    {
      EntryTells(run[t].processes, log, k);
    }
    if HasEntry(p) {
      assert pid in Writers(log);
    }
  }

  /** What the requests have logged, in order: the history that the bounded buffer abbreviates. */
  function History(w: World): seq<Activity> {
    seq(|w.log|, k requires 0 <= k < |w.log| => w.log[k].1)
  }

  /** The history is numbered from one without gaps. */
  lemma HistoryIsNumbered(run: seq<World>, t: nat)
    requires Run(run) && t < |run|
    ensures Numbered(History(run[t]))
  {
    RunInv(run, t);
    assert LogOk(run[t].processes, run[t].log);
  }

  /** A step leaves the history alone, or it records one entry as the buffer does. */
  lemma StepRecords(w: World, w': World)
    requires Follows(w, w')
    ensures History(w') == History(w) || exists entry :: History(w') == Recorded(History(w), entry)
  {
    var e :| Enabled(w, e) && w.past != [] && w' == Step(w, e);
    if w'.log != w.log {
      var n := |w.log|;
      assert |w'.log| == n + 1 && w'.log[..n] == w.log && w'.log[n].1.sequence == n + 1;
      assert History(w') == Recorded(History(w), w'.log[n].1);
    }
  }

  /** The history of a buffer that recorded these entries one after another. */
  function RecordedAll(entries: seq<Activity>): seq<Activity> {
    if entries == [] then [] else Recorded(RecordedAll(entries[..|entries| - 1]), entries[|entries| - 1])
  }

  lemma {:induction false} RecordedSince(run: seq<World>, t: nat) returns (entries: seq<Activity>)
    requires Run(run) && t < |run|
    ensures History(run[t]) == RecordedAll(entries)
  {
    if t == 0 {
      entries := [];
    } else {
      entries := RecordedSince(run, t - 1);
      assert FollowsAt(run, t - 1);
      StepRecords(run[t - 1], run[t]);
      if History(run[t]) != History(run[t - 1]) {
        var entry :| History(run[t]) == Recorded(History(run[t - 1]), entry);
        assert (entries + [entry])[..|entries|] == entries;
        entries := entries + [entry];
      }
    }
  }

  /**
   At every state of a run the buffer that recorded what was logged shows the last hundred entries
   of the log, under consecutive numbers that end at the number of all entries.
   */
  lemma ActivityShowsLatest(run: seq<World>, t: nat) returns (entries: seq<Activity>)
    requires Run(run) && t < |run|
    ensures var log, shown := run[t].log, Latest(RecordedAll(entries));
      && |shown| == (if |log| < 100 then |log| else 100)
      && forall k :: 0 <= k < |shown| ==>
        shown[k] == log[|log| - |shown| + k].1 && shown[k].sequence == |log| - |shown| + k + 1
  {
    entries := RecordedSince(run, t);
    HistoryIsNumbered(run, t);
    LatestIsConsecutive(History(run[t]));
  }

  /** Once closed, the session never changes again and no further request is admitted. */
  lemma {:induction false} ClosedForGood(run: seq<World>, t: nat, u: nat)
    requires Run(run) && t <= u < |run| && run[t].session.closed
    ensures run[u].session == run[t].session
    ensures run[u].processes.Keys == run[t].processes.Keys
  {
    if t < u {
      ClosedForGood(run, t, u - 1);
      RunInv(run, u - 1);
      assert FollowsAt(run, u - 1);
      FollowingState(run[u - 1], run[u]);
    }
  }

  /** The outcome that a process is left with after a step, when it has one. */
  ghost predicate EndsWith(w: World, pid: nat, code: Code) {
    pid in w.processes && HasOutcome(w.processes[pid]) && w.processes[pid].stage.outcome == Failure(code)
  }

  /**
   A request that waits with the namespace it needs may take a slot exactly while fewer than four, or two,
   are taken; a diagnostics request is turned away as busy exactly when both are.
   */
  lemma WaitingForSlot(w: World, pid: nat, fault: Fault)
    requires pid in w.processes && w.processes[pid].stage.Admitted?
    requires var p := w.processes[pid];
      p.scope.namespace != "" || (p.query.service == Resources && p.query.clusterWide)
    ensures w.processes[pid].query.service == Resources ==> (Enabled(w, Move(pid, TakeSlot)) <==> w.resourceSlots < 4)
    ensures w.processes[pid].query.service == Diagnostics ==>
      && (Enabled(w, Move(pid, TakeSlot)) <==> w.diagnosticSlots < 2)
      && (Enabled(w, Move(pid, FailWaiting(fault))) <==> w.diagnosticSlots >= 2)
      && (w.past != [] && w.diagnosticSlots >= 2 ==>
            EndsWith(Step(w, Move(pid, FailWaiting(fault))), pid, BusyCode))
  {
  }

  // ----- Every request ends -----

  /** How many steps a request has left at most. */
  function StepsLeft(p: Process): nat {
    match p.stage
    case Admitted => 7
    case Working => 6
    case Read(_) => 5
    case Checked(_) => 4
    case Returning(_) => 3
    case Logged(_) => 2
    case Finished(_) => 1
    case Done(_) => 0
  }

  /** Some step of the request is possible, whatever the others do. */
  lemma NeverStuck(run: seq<World>, t: nat, pid: nat) returns (action: Action)
    requires Run(run) && t < |run| && pid in run[t].processes && !run[t].processes[pid].stage.Done?
    ensures Enabled(run[t], Move(pid, action))
  {
    RunInv(run, t);
    var w, p := run[t], run[t].processes[pid];
    var service := p.query.service;
    assert SlotsOk(w, Resources) && SlotsOk(w, Diagnostics) && ProcessOk(w.past, p);
    if HoldsSlot(p) {
      assert pid in Holders(w.processes, service);
    }
    match p.stage
    case Admitted =>
      action := if NeedsNamespace(p) then MissNamespace
                else if Slots(w, service) < Capacity(service) then TakeSlot else FailWaiting(OtherFault);
    case Working => action := Fail(OtherFault);
    case Read(_) => action := Recheck;
    case Checked(_) => action := Conclude(None);
    case Returning(_) => action := Release;
    case Logged(_) => action := Release;
    case Finished(_) => action := Log;
  }

  /** And every step of a request brings it nearer to its end, so it takes at most seven. */
  lemma EveryStepAdvances(w: World, pid: nat, action: Action)
    requires w.past != [] && Enabled(w, Move(pid, action))
    ensures StepsLeft(Step(w, Move(pid, action)).processes[pid]) < StepsLeft(w.processes[pid]) <= 7
  {
  }

  // ----- What stops a request -----

  /**
   In another generation the recheck stops a request as stale, and so does a namespace list that the session
   refuses. In the same generation the recheck lets it pass, with what it has read.
   */
  lemma RecheckDecides(w: World, pid: nat)
    requires w.past != [] && Enabled(w, Move(pid, Recheck))
    ensures var p, w' := w.processes[pid], Step(w, Move(pid, Recheck));
      if w.session.scope.generation == p.scope.generation
      then w'.processes[pid].stage == Checked(p.stage.body)
      else EndsWith(w', pid, StaleScopeCode)
  {
  }

  lemma RefusedListing(w: World, pid: nat, names: seq<string>, cut: bool)
    requires w.past != [] && Enabled(w, Move(pid, AcceptNamespaces(names, cut)))
    ensures var p, w' := w.processes[pid], Step(w, Move(pid, AcceptNamespaces(names, cut)));
      if !w.session.closed && w.session.scope.generation == p.scope.generation && w.session.scope.context != ""
      then
        && w'.processes[pid].stage == Read(Payload(|names|, cut))
        && forall name :: name in w'.session.allowedNamespaces <==> name in names && name != ""
      else EndsWith(w', pid, StaleScopeCode) && w'.session == w.session
  {
  }

  /**
   The two services report a fault alike but for three kinds: a cancelled request is stale to the one and
   cancelled to the other, an over-long response is too large or unavailable, and a coded error keeps its
   code in the diagnostics service only.
   */
  lemma ServicesAgree(fault: Fault)
    ensures CodeOf(Resources, fault) == CodeOf(Diagnostics, fault) <==>
      !(fault.ContextCanceled? || fault.ResponseTooLarge? || (fault.Coded? && fault.code != UnavailableCode))
    ensures CodeOf(Resources, ContextCanceled) == CodeOf(Resources, StaleScopeFault) == StaleScopeCode
    ensures CodeOf(Diagnostics, ContextCanceled) == CancelledCode && CodeOf(Resources, ResponseTooLarge) == TooLargeCode
    ensures CodeOf(Diagnostics, ResponseTooLarge) == UnavailableCode
    ensures fault.Coded? ==> CodeOf(Diagnostics, fault) == fault.code && CodeOf(Resources, fault) == UnavailableCode
    ensures CodeOf(Resources, fault) == TimeoutCode <==> fault.DeadlineExceeded? || fault.ApiTimeout?
    ensures CodeOf(Resources, fault) == ForbiddenCode <==> fault.ApiForbidden?
    ensures CodeOf(Resources, fault) == UnauthenticatedCode <==> fault.ApiUnauthorized?
    ensures CodeOf(Resources, fault) == NotFoundCode <==> fault.ApiNotFound?
  {
  }
}
