/**
 The bookkeeping of `supervisor.py`: instances, generations, leases and port claims.  Launching, the
 monitor and the child process appear only as the outcomes they have.
 */
module Supervisor {
  import opened Common

  type Id = string
  type Token = nat

  datatype Status = Running | Paused | Stopped | Failed

  datatype Instance = Instance(generation: int, status: Status, lease: Option<Token>, port: Option<Port>)

  /** An `InstanceLease` as it was handed out, with the generation of its instance at the time. */
  datatype Handle = Handle(id: Id, token: Token, generation: int)

  /** `handles` is history: the leases ever granted. */
  datatype State = State(
    instances: map<Id, Instance>,
    claims: set<Port>,
    drawn: nat,                            // lease tokens drawn; uuid4 as a counter
    handles: set<Handle>)

  const INIT := State(map[], {}, 0, {})

  /** How a launch goes after the port was reserved. */
  datatype Launch =
    | NoPort                               // `reserve` raises: nothing happens
    | Raises                               // an exception outside both handlers (the trace directory, a
                                           // non-OSError from Popen, a kill that times out): nothing is
                                           // released or registered
    | SpawnFails                           // OSError from Popen: released, registered as failed
    | NoMonitor                            // no monitor in time: released, registered as failed
    | Started                              // registered as running (autostart may still raise after that)

  datatype Halt = Halted | HaltRaises      // the process did not die after kill

  datatype Op =
    | Create(id: Id, generation: int, launch: Launch, port: Port)
    | Restart(id: Id, halt: Halt, launch: Launch, port: Port)
    | Stop(id: Id, halt: Halt)
    | Close(order: seq<Id>, halts: map<Id, Halt>)
    | Lease(id: Id)
    | Release(h: Handle)
    | SetStatus(id: Id, status: Status)    // pause and run, through a live monitor

  function Registered(s: State, id: Id, i: Instance): State { s.(instances := s.instances[id := i]) }

  function CreateStep(s: State, id: Id, generation: int, launch: Launch, port: Port): State {
    match launch
    case NoPort => s
    case Raises => s.(claims := s.claims + {port})
    case SpawnFails => Registered(s, id, Instance(generation, Failed, None, None))
    case NoMonitor => Registered(s, id, Instance(generation, Failed, None, None))
    case Started => Registered(s, id, Instance(generation, Running, None, Some(port))).(claims := s.claims + {port})
  }

  function StopStep(s: State, id: Id, halt: Halt): State {
    if id !in s.instances || halt.HaltRaises? then s
    else
      var i := s.instances[id];
      s.(instances := s.instances[id := i.(status := Stopped, port := None)],
         claims := if i.port.Some? then s.claims - {i.port.value} else s.claims)
  }

  function RestartStep(s: State, id: Id, halt: Halt, launch: Launch, port: Port): State {
    if id !in s.instances || halt.HaltRaises? then s
    else CreateStep(StopStep(s, id, halt), id, s.instances[id].generation + 1, launch, port)
  }

  /** Stops every listed instance that is not stopped, until a stop raises. */
  function CloseStep(s: State, order: seq<Id>, halts: map<Id, Halt>): State
    decreases |order|
  {
    if order == [] then s
    else
      var id := order[0];
      if id !in s.instances || s.instances[id].status.Stopped? then CloseStep(s, order[1..], halts)
      else if id in halts && halts[id].HaltRaises? then s
      else CloseStep(StopStep(s, id, Halted), order[1..], halts)
  }

  /** None where the source raises. */
  function LeaseStep(s: State, id: Id): (State, Option<Handle>) {
    if id !in s.instances || s.instances[id].lease.Some? then (s, None)
    else
      var h := Handle(id, s.drawn, s.instances[id].generation);
      (s.(instances := s.instances[id := s.instances[id].(lease := Some(s.drawn))],
          drawn := s.drawn + 1,
          handles := s.handles + {h}), Some(h))
  }

  predicate Holds(s: State, h: Handle) { h.id in s.instances && s.instances[h.id].lease == Some(h.token) }

  function ReleaseStep(s: State, h: Handle): (State, bool) {
    if !Holds(s, h) then (s, false)
    else (s.(instances := s.instances[h.id := s.instances[h.id].(lease := None)]), true)
  }

  /** `reserve` never returns a port already claimed; handles come from `lease`; a status other than
      stopped or failed is set only through the monitor of an instance that has one. */
  ghost predicate Enabled(s: State, op: Op) {
    match op
    case Create(_, _, launch, port) => launch.NoPort? || port !in s.claims
    case Restart(id, halt, launch, port) => launch.NoPort? || port !in StopStep(s, id, halt).claims
    case Close(order, _) => forall id :: id in s.instances ==> id in order
    case Release(h) => h in s.handles
    case SetStatus(id, status) =>
      id in s.instances && (s.instances[id].status.Running? || s.instances[id].status.Paused?) &&
      (status.Running? || status.Paused?)
    case _ => true
  }

  function Step(s: State, op: Op): State {
    match op
    case Create(id, generation, launch, port) => CreateStep(s, id, generation, launch, port)
    case Restart(id, halt, launch, port) => RestartStep(s, id, halt, launch, port)
    case Stop(id, halt) => StopStep(s, id, halt)
    case Close(order, halts) => CloseStep(s, order, halts)
    case Lease(id) => LeaseStep(s, id).0
    case Release(h) => ReleaseStep(s, h).0
    case SetStatus(id, status) =>
      if id in s.instances then s.(instances := s.instances[id := s.instances[id].(status := status)]) else s
  }

  ghost predicate ValidRun(s: State, ops: seq<Op>)
    decreases |ops|
  {
    ops == [] || (Enabled(s, ops[0]) && ValidRun(Step(s, ops[0]), ops[1..]))
  }

  function Run(s: State, ops: seq<Op>): State
    decreases |ops|
  {
    if ops == [] then s else Run(Step(s, ops[0]), ops[1..])
  }

  ghost predicate Reachable(s: State) {
    exists ops :: ValidRun(INIT, ops) && Run(INIT, ops) == s
  }

  // ---------- Invariant ----------

  predicate HoldsPort(s: State, id: Id, p: Port) { id in s.instances && s.instances[id].port == Some(p) }

  ghost predicate PortInv(s: State) {
    && (forall id, p :: HoldsPort(s, id, p) ==> p in s.claims)
    && (forall id, jd, p :: HoldsPort(s, id, p) && HoldsPort(s, jd, p) ==> id == jd)
    && (forall id :: id in s.instances ==>
          (s.instances[id].port.Some? <==> s.instances[id].status.Running? || s.instances[id].status.Paused?))
  }

  ghost predicate LeaseInv(s: State) {
    && (forall h :: h in s.handles ==> h.token < s.drawn)
    && (forall g, h :: g in s.handles && h in s.handles && g.token == h.token ==> g == h)
    && (forall id :: id in s.instances && s.instances[id].lease.Some? ==>
          Handle(id, s.instances[id].lease.value, s.instances[id].generation) in s.handles)
  }

  ghost predicate Inv(s: State) { PortInv(s) && LeaseInv(s) }

  lemma StopKeepsInv(s: State, id: Id, halt: Halt)
    requires Inv(s)
    ensures Inv(StopStep(s, id, halt))
  {
    var s' := StopStep(s, id, halt);
    forall jd, p | HoldsPort(s', jd, p) ensures HoldsPort(s, jd, p) && p in s'.claims {
      assert HoldsPort(s, jd, p);
      assert id in s.instances && s.instances[id].port.Some? ==> HoldsPort(s, id, s.instances[id].port.value);
    }
  }

  /** Registering an instance, with a freshly claimed port or with none. */
  lemma RegisterKeepsInv(s: State, id: Id, i: Instance, s': State)
    requires Inv(s) && i.lease.None?
    requires if i.port.Some? then i.status.Running? && i.port.value !in s.claims else i.status.Failed?
    requires s' == Registered(s, id, i).(claims := s.claims + if i.port.Some? then {i.port.value} else {})
    ensures Inv(s')
  {
    assert forall jd, p :: HoldsPort(s', jd, p) ==> HoldsPort(s, jd, p) || (jd == id && i.port.Some?);
  }

  lemma CreateKeepsInv(s: State, id: Id, generation: int, launch: Launch, port: Port)
    requires Inv(s) && (launch.NoPort? || port !in s.claims)
    ensures Inv(CreateStep(s, id, generation, launch, port))
  {
    var s' := CreateStep(s, id, generation, launch, port);
    match launch
    case NoPort =>
    case Raises =>
      assert forall jd, p :: HoldsPort(s', jd, p) ==> HoldsPort(s, jd, p);
    case Started => RegisterKeepsInv(s, id, Instance(generation, Running, None, Some(port)), s');
    case _ => RegisterKeepsInv(s, id, Instance(generation, Failed, None, None), s');
  }

  lemma {:induction false} CloseKeepsInv(s: State, order: seq<Id>, halts: map<Id, Halt>)
    requires Inv(s)
    ensures Inv(CloseStep(s, order, halts))
    decreases |order|
  {
    if order != [] {
      StopKeepsInv(s, order[0], Halted);
      CloseKeepsInv(s, order[1..], halts);
      CloseKeepsInv(StopStep(s, order[0], Halted), order[1..], halts);
    }
  }

  predicate IsUp(status: Status) { status.Running? || status.Paused? }

  /** Changing an instance without touching its port. */
  lemma SamePortsKeepPortInv(s: State, s': State)
    requires PortInv(s) && s'.claims == s.claims && s'.instances.Keys == s.instances.Keys
    requires forall id :: id in s.instances ==>
      && s'.instances[id].port == s.instances[id].port
      && (s'.instances[id].status == s.instances[id].status ||
          (IsUp(s.instances[id].status) && IsUp(s'.instances[id].status)))
    ensures PortInv(s')
  {
    assert forall id, p :: HoldsPort(s', id, p) <==> HoldsPort(s, id, p);
  }

  lemma LeaseKeepsInv(s: State, id: Id)
    requires Inv(s)
    ensures Inv(LeaseStep(s, id).0)
  {
    SamePortsKeepPortInv(s, LeaseStep(s, id).0);
  }

  lemma ReleaseKeepsInv(s: State, h: Handle)
    requires Inv(s)
    ensures Inv(ReleaseStep(s, h).0)
  {
    SamePortsKeepPortInv(s, ReleaseStep(s, h).0);
  }

  lemma StepKeepsInv(s: State, op: Op)
    requires Inv(s) && Enabled(s, op)
    ensures Inv(Step(s, op))
  {
    match op
    case Create(id, generation, launch, port) => CreateKeepsInv(s, id, generation, launch, port);
    case Restart(id, halt, launch, port) =>
      StopKeepsInv(s, id, halt);
      if id in s.instances && halt.Halted? {
        CreateKeepsInv(StopStep(s, id, halt), id, s.instances[id].generation + 1, launch, port);
      }
    case Stop(id, halt) => StopKeepsInv(s, id, halt);
    case Close(order, halts) => CloseKeepsInv(s, order, halts);
    case Lease(id) => LeaseKeepsInv(s, id);
    case Release(h) => ReleaseKeepsInv(s, h);
    case SetStatus(_, _) => SamePortsKeepPortInv(s, Step(s, op));
  }

  lemma {:induction false} RunKeepsInv(s: State, ops: seq<Op>)
    requires Inv(s) && ValidRun(s, ops)
    ensures Inv(Run(s, ops))
    decreases |ops|
  {
    hide Inv, Step, Enabled;
    if ops != [] {
      StepKeepsInv(s, ops[0]);
      RunKeepsInv(Step(s, ops[0]), ops[1..]);
    }
  }

  lemma ReachableInv(s: State)
    requires Reachable(s)
    ensures Inv(s)
  {
    var ops :| ValidRun(INIT, ops) && Run(INIT, ops) == s;
    RunKeepsInv(INIT, ops);
  }

  // ---------- What holds in every run ----------

  /** The claimed ports that no registered instance holds. */
  ghost function Leaked(s: State): set<Port> { set p | p in s.claims && !exists id :: HoldsPort(s, id, p) }

  /** Every port that a registered instance holds is claimed, no two instances share a port, and only a
      running or paused instance holds one. */
  lemma ClaimsAreAccountedFor(s: State)
    requires Reachable(s)
    ensures forall p :: p in s.claims <==> p in Leaked(s) || exists id :: HoldsPort(s, id, p)
    ensures forall id, jd, p :: HoldsPort(s, id, p) && HoldsPort(s, jd, p) ==> id == jd
    ensures forall id, p :: HoldsPort(s, id, p) ==> s.instances[id].status.Running? || s.instances[id].status.Paused?
  {
    ReachableInv(s);
  }

  /** A registered instance holds a port exactly while it is running or paused. */
  lemma PortWhileRunning(s: State, id: Id)
    requires Reachable(s) && id in s.instances
    ensures s.instances[id].port.Some? <==> s.instances[id].status.Running? || s.instances[id].status.Paused?
  {
    ReachableInv(s);
  }

  /** What may happen in any state: every operation, a launch ending in any way, on any port not claimed. */
  lemma AlwaysPossible(s: State, id: Id, generation: int, halt: Halt, launch: Launch, port: Port, h: Handle)
    ensures port !in s.claims ==>
      Enabled(s, Create(id, generation, launch, port)) && Enabled(s, Restart(id, halt, launch, port))
    ensures Enabled(s, Create(id, generation, NoPort, port)) && Enabled(s, Restart(id, halt, NoPort, port))
    ensures Enabled(s, Stop(id, halt)) && Enabled(s, Lease(id))
    ensures h in s.handles ==> Enabled(s, Release(h))
    ensures id in s.instances && !s.instances[id].status.Stopped? && !s.instances[id].status.Failed? ==>
      Enabled(s, SetStatus(id, Running)) && Enabled(s, SetStatus(id, Paused))
    ensures forall order: seq<Id>, halts :: (forall jd :: jd in s.instances ==> jd in order) ==>
      Enabled(s, Close(order, halts))
  {
  }

  /** What a launch leaves behind: a started instance runs and holds exactly its port, one that failed is
      registered without a port, and in the other cases the entry is what it was.  The port stays claimed if
      the instance started or the launch raised. */
  lemma LaunchIsRecorded(s: State, id: Id, generation: int, launch: Launch, port: Port)
    requires Inv(s) && (launch.NoPort? || port !in s.claims)
    ensures
      var s' := Step(s, Create(id, generation, launch, port));
      && (id in s'.instances <==> id in s.instances || Registers(launch))
      && (Registers(launch) ==>
            && s'.instances[id].lease.None? && s'.instances[id].generation == generation
            && (launch.Started? ==> s'.instances[id].status.Running? && HoldsPort(s', id, port))
            && (!launch.Started? ==> s'.instances[id].status.Failed? && s'.instances[id].port.None?))
      && (!Registers(launch) ==> s'.instances == s.instances)
      && (forall jd :: jd in s.instances && jd != id ==> jd in s'.instances && s'.instances[jd] == s.instances[jd])
      && s'.claims - {port} == s.claims - {port}
      && (!launch.NoPort? ==> (port in s'.claims <==> launch.Started? || launch.Raises?))
  {
  }

  /** An instance whose process survives its stop, in a restart or in a close too, keeps its entry and claim. */
  lemma SurvivorIsKept(s: State, op: Op, id: Id)
    requires Inv(s) && id in s.instances
    requires
      match op
      case Stop(jd, halt) => jd == id && halt.HaltRaises?
      case Restart(jd, halt, _, _) => jd == id && halt.HaltRaises?
      case Close(_, halts) => id in halts && halts[id].HaltRaises?
      case _ => false
    ensures id in Step(s, op).instances && Step(s, op).instances[id] == s.instances[id]
    ensures s.instances[id].port.Some? ==> s.instances[id].port.value in Step(s, op).claims
  {
    assert s.instances[id].port.Some? ==> HoldsPort(s, id, s.instances[id].port.value);
    if op.Close? {
      CloseKeepsSurvivor(s, op.order, op.halts, id);
      CloseKeepsInv(s, op.order, op.halts);
      assert s.instances[id].port.Some? ==> HoldsPort(Step(s, op), id, s.instances[id].port.value);
    }
  }

  lemma {:induction false} CloseKeepsSurvivor(s: State, order: seq<Id>, halts: map<Id, Halt>, id: Id)
    requires id in s.instances && id in halts && halts[id].HaltRaises?
    ensures id in CloseStep(s, order, halts).instances
    ensures CloseStep(s, order, halts).instances[id] == s.instances[id]
    decreases |order|
  {
    if order != [] {
      CloseKeepsSurvivor(s, order[1..], halts, id);
      if order[0] != id { CloseKeepsSurvivor(StopStep(s, order[0], Halted), order[1..], halts, id); }
    }
  }

  /** A stop that works takes the port and the claim on it, and nothing else. */
  lemma StopGivesBack(s: State, id: Id)
    requires Inv(s) && id in s.instances
    ensures
      var s' := Step(s, Stop(id, Halted));
      && s'.instances.Keys == s.instances.Keys && s'.instances[id].status.Stopped? && s'.instances[id].port.None?
      && s'.instances[id].generation == s.instances[id].generation && s'.instances[id].lease == s.instances[id].lease
      && (forall jd :: jd in s.instances && jd != id ==> s'.instances[jd] == s.instances[jd])
      && forall p :: p in s'.claims <==> p in s.claims && !HoldsPort(s, id, p)
  {
  }

  /** The port that an operation leaks: its launch raises outside the handlers after claiming it, or
      registers over an instance that still holds it. */
  function LeakedBy(s: State, op: Op): set<Port> {
    match op
    case Create(id, _, launch, port) =>
      if launch.NoPort? then {}
      else if launch.Raises? then {port}
      else if id in s.instances && s.instances[id].port.Some? then {s.instances[id].port.value}
      else {}
    case Restart(id, halt, launch, port) =>
      if launch.Raises? && id in s.instances && halt.Halted? then {port} else {}
    case _ => {}
  }

  lemma StopLeaksNothing(s: State, id: Id, halt: Halt)
    requires Inv(s)
    ensures Leaked(StopStep(s, id, halt)) == Leaked(s)
  {
    var s' := StopStep(s, id, halt);
    assert id in s.instances && s.instances[id].port.Some? ==> HoldsPort(s, id, s.instances[id].port.value);
    assert forall jd, p :: jd != id ==> HoldsPort(s', jd, p) == HoldsPort(s, jd, p);
    forall p | p in s'.claims ensures p in Leaked(s') <==> p in Leaked(s) {
      assert HoldsPort(s, id, p) ==> HoldsPort(s', id, p);
    }
  }

  lemma {:induction false} CloseLeaksNothing(s: State, order: seq<Id>, halts: map<Id, Halt>)
    requires Inv(s)
    ensures Leaked(CloseStep(s, order, halts)) == Leaked(s)
    decreases |order|
  {
    hide Inv, Leaked, StopStep;
    if order != [] {
      CloseLeaksNothing(s, order[1..], halts);
      StopKeepsInv(s, order[0], Halted);
      StopLeaksNothing(s, order[0], Halted);
      CloseLeaksNothing(StopStep(s, order[0], Halted), order[1..], halts);
    }
  }

  lemma CreateLeaks(s: State, id: Id, generation: int, launch: Launch, port: Port)
    requires Inv(s) && (launch.NoPort? || port !in s.claims)
    ensures
      var lost := LeakedBy(s, Create(id, generation, launch, port));
      Leaked(CreateStep(s, id, generation, launch, port)) == Leaked(s) + lost && lost !! Leaked(s)
  {
    var s' := CreateStep(s, id, generation, launch, port);
    var lost := LeakedBy(s, Create(id, generation, launch, port));
    assert id in s.instances && s.instances[id].port.Some? ==> HoldsPort(s, id, s.instances[id].port.value);
    assert forall jd, p :: jd != id ==> HoldsPort(s', jd, p) == HoldsPort(s, jd, p);
    forall p ensures p in Leaked(s') <==> p in Leaked(s) || p in lost {
      assert launch.Started? ==> HoldsPort(s', id, port);
      assert launch.NoPort? || launch.Raises? ==> HoldsPort(s', id, p) == HoldsPort(s, id, p);
    }
  }

  lemma SamePortsLeakNothing(s: State, s': State)
    requires s'.claims == s.claims && forall id, p :: HoldsPort(s', id, p) <==> HoldsPort(s, id, p)
    ensures Leaked(s') == Leaked(s)
  {
  }

  /** Each operation adds exactly the port it leaks to the claims that nobody holds, and none of those is
      ever given back. */
  lemma LeaksExactly(s: State, op: Op)
    requires Inv(s) && Enabled(s, op)
    ensures Leaked(Step(s, op)) == Leaked(s) + LeakedBy(s, op) && LeakedBy(s, op) !! Leaked(s)
  {
    match op
    case Create(id, generation, launch, port) => CreateLeaks(s, id, generation, launch, port);
    case Restart(id, halt, launch, port) =>
      StopKeepsInv(s, id, halt);
      StopLeaksNothing(s, id, halt);
      if id in s.instances && halt.Halted? {
        CreateLeaks(StopStep(s, id, halt), id, s.instances[id].generation + 1, launch, port);
      }
    case Stop(id, halt) => StopLeaksNothing(s, id, halt);
    case Close(order, halts) => CloseLeaksNothing(s, order, halts);
    case _ => SamePortsLeakNothing(s, Step(s, op));
  }

  /** The ports leaked by the operations of a run. */
  function RunLeaks(s: State, ops: seq<Op>): set<Port>
    decreases |ops|
  {
    if ops == [] then {} else LeakedBy(s, ops[0]) + RunLeaks(Step(s, ops[0]), ops[1..])
  }

  lemma {:induction false} RunLeaksExactly(s: State, ops: seq<Op>)
    requires Inv(s) && ValidRun(s, ops)
    ensures Leaked(Run(s, ops)) == Leaked(s) + RunLeaks(s, ops)
    decreases |ops|
  {
    hide Inv, Step, Enabled, Leaked, LeakedBy;
    if ops != [] {
      StepKeepsInv(s, ops[0]);
      LeaksExactly(s, ops[0]);
      RunLeaksExactly(Step(s, ops[0]), ops[1..]);
    }
  }

  /** A run that leaks: a second create under an id takes its entry over, and stopping that id then gives
      back the second port only; nobody holds the first one, and it stays claimed. */
  lemma SecondCreateLeaks()
    ensures
      var ops := [Create("c64", 1, Started, 6510), Create("c64", 2, Started, 6511), Stop("c64", Halted)];
      var s := Run(INIT, ops);
      ValidRun(INIT, ops) && s.claims == {6510} && Leaked(s) == {6510} && RunLeaks(INIT, ops) == {6510}
  {
    var ops := [Create("c64", 1, Started, 6510), Create("c64", 2, Started, 6511), Stop("c64", Halted)];
    RunOfThree(INIT, ops[0], ops[1], ops[2]);
    RunLeaksExactly(INIT, ops);
    var s := Run(INIT, ops);
    assert s.claims == {6510};
    assert forall id, p :: !HoldsPort(s, id, p);
  }

  /** After any run, a `close` whose stops succeed stops every instance and leaves as claims exactly the
      ports that operations of the run leaked. */
  lemma CloseLeavesOnlyLeaks(ops: seq<Op>, order: seq<Id>, halts: map<Id, Halt>)
    requires ValidRun(INIT, ops) && Enabled(Run(INIT, ops), Close(order, halts))
    requires forall id :: id in halts ==> halts[id].Halted?
    ensures
      var s := Run(INIT, ops);
      var s' := Step(s, Close(order, halts));
      && s'.claims == RunLeaks(INIT, ops)
      && (forall id :: id in s.instances ==> id in s'.instances && s'.instances[id].status.Stopped?)
  {
    RunKeepsInv(INIT, ops);
    RunLeaksExactly(INIT, ops);
    var s := Run(INIT, ops);
    var s' := CloseStep(s, order, halts);
    CloseKeepsInv(s, order, halts);
    CloseLeaksNothing(s, order, halts);
    CloseStopsAll(s, order, halts);
    assert forall id, p :: !HoldsPort(s', id, p);
    assert s'.claims == Leaked(s') && Leaked(INIT) == {};
  }

  lemma {:induction false} CloseStopsAll(s: State, order: seq<Id>, halts: map<Id, Halt>)
    requires forall id :: id in halts ==> halts[id].Halted?
    requires forall id :: id in s.instances && !s.instances[id].status.Stopped? ==> id in order
    ensures CloseStep(s, order, halts).instances.Keys == s.instances.Keys
    ensures forall id :: id in s.instances ==> CloseStep(s, order, halts).instances[id].status.Stopped?
    decreases |order|
  {
    if order != [] {
      assert order == [order[0]] + order[1..];
      if order[0] !in s.instances || s.instances[order[0]].status.Stopped? {
        CloseStopsAll(s, order[1..], halts);
      } else {
        CloseStopsAll(StopStep(s, order[0], Halted), order[1..], halts);
      }
    }
  }

  /** At most one handle of an instance is valid at a time, and a valid handle was granted for the
      instance's present generation. */
  lemma OneValidHandle(s: State, g: Handle, h: Handle)
    requires Reachable(s) && g in s.handles && h in s.handles && g.id == h.id && Holds(s, g) && Holds(s, h)
    ensures g == h && h.generation == s.instances[h.id].generation
  {
    ReachableInv(s);
  }

  predicate Registers(launch: Launch) { launch.SpawnFails? || launch.NoMonitor? || launch.Started? }

  predicate Restarts(op: Op, id: Id) { op.Restart? && op.id == id && op.halt.Halted? && Registers(op.launch) }

  function RestartCount(ops: seq<Op>, id: Id): nat
    decreases |ops|
  {
    if ops == [] then 0 else (if Restarts(ops[0], id) then 1 else 0) + RestartCount(ops[1..], id)
  }

  /** Over a run that does not create the id anew, an instance's generation counts its restarts that
      registered an instance: no other operation, and no failed restart, moves it. */
  lemma {:induction false} GenerationCountsRestarts(s: State, ops: seq<Op>, id: Id)
    requires id in s.instances && forall op :: op in ops ==> !(op.Create? && op.id == id)
    ensures id in Run(s, ops).instances
    ensures Run(s, ops).instances[id].generation == s.instances[id].generation + RestartCount(ops, id)
    decreases |ops|
  {
    hide Step;
    if ops != [] {
      assert ops[0] in ops;
      StepGeneration(s, ops[0], id);
      GenerationCountsRestarts(Step(s, ops[0]), ops[1..], id);
    }
  }

  lemma StepGeneration(s: State, op: Op, id: Id)
    requires id in s.instances && !(op.Create? && op.id == id)
    ensures id in Step(s, op).instances
    ensures Step(s, op).instances[id].generation == s.instances[id].generation + if Restarts(op, id) then 1 else 0
  {
    if op.Close? { CloseKeepsGenerations(s, op.order, op.halts, id); }
  }

  /** The operations that end a lease: a release with its token, or a new instance under its id. */
  predicate Ends(op: Op, h: Handle) {
    match op
    case Create(id, _, launch, _) => id == h.id && Registers(launch)
    case Restart(_, _, _, _) => Restarts(op, h.id)
    case Release(g) => g.id == h.id && g.token == h.token
    case _ => false
  }

  lemma StepValidIff(s: State, op: Op, h: Handle)
    requires Inv(s) && h in s.handles
    ensures h in Step(s, op).handles
    ensures Holds(Step(s, op), h) <==> Holds(s, h) && !Ends(op, h)
  {
    if op.Close? { CloseKeepsLeases(s, op.order, op.halts); }
  }

  /** After any run, a handle is valid exactly if it was before and no operation of the run ended it.  A
      restart that registers no instance does not end it. */
  lemma {:induction false} HandleValidIff(s: State, ops: seq<Op>, h: Handle)
    requires Inv(s) && ValidRun(s, ops) && h in s.handles
    ensures Holds(Run(s, ops), h) <==> Holds(s, h) && forall op :: op in ops ==> !Ends(op, h)
    decreases |ops|
  {
    hide Inv, Step, Enabled, Holds, Ends;
    if ops != [] {
      assert ops == [ops[0]] + ops[1..];
      StepKeepsInv(s, ops[0]);
      StepValidIff(s, ops[0], h);
      HandleValidIff(Step(s, ops[0]), ops[1..], h);
    }
  }

  lemma {:induction false} CloseKeepsLeases(s: State, order: seq<Id>, halts: map<Id, Halt>)
    ensures CloseStep(s, order, halts).handles == s.handles
    ensures CloseStep(s, order, halts).instances.Keys == s.instances.Keys
    ensures forall id :: id in s.instances ==> CloseStep(s, order, halts).instances[id].lease == s.instances[id].lease
    decreases |order|
  {
    if order != [] {
      CloseKeepsLeases(s, order[1..], halts);
      CloseKeepsLeases(StopStep(s, order[0], Halted), order[1..], halts);
    }
  }

  /** A restart that finds no free port stops the instance and leaves its lease as valid as it was. */
  lemma FailedRestartKeepsLease()
    ensures
      var ops := [Create("c64", 1, Started, 6510), Lease("c64"), Restart("c64", Halted, NoPort, 6510)];
      var s := Run(INIT, ops);
      ValidRun(INIT, ops) && s.instances["c64"].status.Stopped? && Holds(s, Handle("c64", 0, 1))
  {
    var s1 := Step(INIT, Create("c64", 1, Started, 6510));
    var s2 := Step(s1, Lease("c64"));
    RunOfThree(INIT, Create("c64", 1, Started, 6510), Lease("c64"), Restart("c64", Halted, NoPort, 6510));
    assert s2.instances["c64"] == Instance(1, Running, Some(0), Some(6510));
  }

  lemma RunOfThree(s: State, a: Op, b: Op, c: Op)
    ensures Run(s, [a, b, c]) == Step(Step(Step(s, a), b), c)
    ensures ValidRun(s, [a, b, c]) <==>
      Enabled(s, a) && Enabled(Step(s, a), b) && Enabled(Step(Step(s, a), b), c)
  {
    hide Step, Enabled;
    assert [a, b, c][1..] == [b, c] && [b, c][1..] == [c] && [c][1..] == [];
    var s1 := Step(s, a);
    assert Run(s, [a, b, c]) == Run(s1, [b, c]) == Run(Step(s1, b), [c]) == Run(Step(Step(s1, b), c), []);
    assert ValidRun(Step(Step(s1, b), c), []);
    assert ValidRun(Step(s1, b), [c]) <==> Enabled(Step(s1, b), c);
    assert ValidRun(s1, [b, c]) <==> Enabled(s1, b) && Enabled(Step(s1, b), c);
  }

  /** `lease` succeeds exactly if the instance is there and not leased, and the handle it gives is valid. */
  lemma LeaseGrantedIff(s: State, id: Id)
    ensures
      var (s', h) := LeaseStep(s, id);
      && (h.Some? <==> id in s.instances && s.instances[id].lease.None?)
      && (h.Some? ==> Holds(s', h.value) && h.value.id == id && h.value in s'.handles)
      && (h.None? ==> s' == s)
  {
  }

  /** After any run, `release` with a handle succeeds exactly if the handle was valid and nothing ended it, and
      the instance can be leased again then. */
  lemma ReleaseWorksIff(s: State, ops: seq<Op>, h: Handle)
    requires Inv(s) && ValidRun(s, ops) && h in s.handles
    ensures
      var (s', ok) := ReleaseStep(Run(s, ops), h);
      && (ok <==> Holds(s, h) && forall op :: op in ops ==> !Ends(op, h))
      && (ok ==> LeaseStep(s', h.id).1.Some?)
  {
    HandleValidIff(s, ops, h);
  }

  /** Pausing or running an instance through its monitor changes its status and nothing else. */
  lemma StatusIsSet(s: State, id: Id, status: Status)
    requires Enabled(s, SetStatus(id, status))
    ensures
      var s' := Step(s, SetStatus(id, status));
      && s'.instances.Keys == s.instances.Keys && s'.instances[id].status == status
      && s'.instances[id].(status := s.instances[id].status) == s.instances[id]
      && (forall jd :: jd in s.instances && jd != id ==> s'.instances[jd] == s.instances[jd])
      && s'.(instances := s.instances) == s
  {
  }

  /** Once a lease has ended, its handle's `release` raises and changes nothing, whatever happens in
      between: a handle from before a restart never releases a lease of a later generation. */
  lemma RevokedForever(s: State, ops: seq<Op>, h: Handle)
    requires Inv(s) && ValidRun(s, ops) && h in s.handles
    requires !Holds(s, h) || exists op :: op in ops && Ends(op, h)
    ensures ReleaseStep(Run(s, ops), h) == (Run(s, ops), false)
  {
    HandleValidIff(s, ops, h);
  }

  lemma {:induction false} CloseKeepsGenerations(s: State, order: seq<Id>, halts: map<Id, Halt>, id: Id)
    requires id in s.instances
    ensures id in CloseStep(s, order, halts).instances
    ensures CloseStep(s, order, halts).instances[id].generation == s.instances[id].generation
    decreases |order|
  {
    if order != [] {
      CloseKeepsGenerations(s, order[1..], halts, id);
      if order[0] in s.instances { CloseKeepsGenerations(StopStep(s, order[0], Halted), order[1..], halts, id); }
    }
  }

  // ---------- The classes ----------

  class SupervisorObject {
    var instances: map<Id, Instance>
    var claims: set<Port>
    var drawn: nat
    ghost var handles: set<Handle>

    constructor ()
      ensures View() == INIT
    {
      instances, claims, drawn, handles := map[], {}, 0, {};
    }

    ghost function View(): State
      reads this
    {
      State(instances, claims, drawn, handles)
    }

    /** `create`; `port` is what `reserve` returned. */
    method Create(id: Id, generation: int, launch: Launch, port: Port)
      requires launch.NoPort? || port !in claims
      modifies this
      ensures View() == CreateStep(old(View()), id, generation, launch, port)
    {
      if launch.NoPort? {
        return;
      }
      claims := claims + {port};
      if launch.Raises? {
        return;
      }
      if launch.SpawnFails? || launch.NoMonitor? {
        claims := claims - {port};
        instances := instances[id := Instance(generation, Failed, None, None)];
      } else {
        instances := instances[id := Instance(generation, Running, None, Some(port))];
      }
    }

    /** `stop`; false where it raises. */
    method Stop(id: Id, halt: Halt) returns (ok: bool)
      modifies this
      ensures View() == StopStep(old(View()), id, halt)
      ensures ok <==> id in old(instances) && halt.Halted?
    {
      if id !in instances || halt.HaltRaises? {
        return false;
      }
      var i := instances[id];
      if i.port.Some? {
        claims := claims - {i.port.value};
      }
      instances := instances[id := i.(status := Stopped, port := None)];
      return true;
    }

    method Restart(id: Id, halt: Halt, launch: Launch, port: Port)
      requires launch.NoPort? || port !in StopStep(View(), id, halt).claims
      modifies this
      ensures View() == RestartStep(old(View()), id, halt, launch, port)
    {
      if id !in instances {
        return;
      }
      var generation := instances[id].generation + 1;
      var ok := Stop(id, halt);
      if ok {
        Create(id, generation, launch, port);
      }
    }

    /** `close`, over the instances in the order they were registered. */
    method Close(order: seq<Id>, halts: map<Id, Halt>)
      modifies this
      ensures View() == CloseStep(old(View()), order, halts)
    {
      var i := 0;
      while i < |order|
        invariant 0 <= i <= |order|
        invariant CloseStep(View(), order[i..], halts) == CloseStep(old(View()), order, halts)
      {
        assert order[i..][1..] == order[i + 1..];
        var id := order[i];
        if id in instances && !instances[id].status.Stopped? {
          if id in halts && halts[id].HaltRaises? {
            return;
          }
          var ok := Stop(id, Halted);
        }
        i := i + 1;
      }
    }

    /** `lease`; None where it raises. */
    method LeaseInstance(id: Id) returns (h: Option<InstanceLease>)
      modifies this
      ensures View() == LeaseStep(old(View()), id).0
      ensures h.Some? <==> LeaseStep(old(View()), id).1.Some?
      ensures h.Some? ==>
        fresh(h.value) && !h.value.released && h.value.supervisor == this
        && h.value.handle == LeaseStep(old(View()), id).1.value
    {
      if id !in instances || instances[id].lease.Some? {
        return None;
      }
      var handle := Handle(id, drawn, instances[id].generation);
      instances := instances[id := instances[id].(lease := Some(drawn))];
      drawn := drawn + 1;
      handles := handles + {handle};
      var l := new InstanceLease(this, handle);
      return Some(l);
    }

    /** `release`; false where it raises. */
    method ReleaseLease(h: Handle) returns (ok: bool)
      modifies this
      ensures (View(), ok) == ReleaseStep(old(View()), h)
    {
      if h.id !in instances || instances[h.id].lease != Some(h.token) {
        return false;
      }
      instances := instances[h.id := instances[h.id].(lease := None)];
      return true;
    }
  }

  class InstanceLease {
    const supervisor: SupervisorObject
    const handle: Handle
    var released: bool

    constructor (supervisor: SupervisorObject, handle: Handle)
      ensures this.supervisor == supervisor && this.handle == handle && !released
    {
      this.supervisor, this.handle, released := supervisor, handle, false;
    }

    /** Releases once; a refused release leaves the handle unreleased. */
    method Release() returns (ok: bool)
      modifies this, supervisor
      ensures old(released) ==> ok && released && supervisor.View() == old(supervisor.View())
      ensures !old(released) ==>
        (supervisor.View(), ok) == ReleaseStep(old(supervisor.View()), handle) && released == ok
    {
      if released {
        return true;
      }
      ok := supervisor.ReleaseLease(handle);
      if ok {
        released := true;
      }
    }
  }
}
