/**
 `BinaryMonitorTransport` of `monitor.py` as a transition system: any number of `execute` calls over
 one stream, an arbitrary peer, and timeouts, cancellations, failures, `close` and `connect` at any
 point where the source awaits.  One event is one stretch of code between two awaits.
 */
module MonitorTransport {
  import opened Common
  import opened MonitorFrames
  import opened RequestIds

  type CallId = nat

  datatype Conn = NotConnected | Connected | Failed | Closed

  /** The future of a call.  `Broken`: set_exception(Disconnected). */
  datatype Future = NoFuture | Unresolved | Resolved(reply: Response) | Broken | Cancelled

  datatype Outcome =
    | Returned(reply: Response)
    | CommandFailed(reply: Response)       // raises CommandError
    | ConnectionLost                       // raises Disconnected
    | GaveUp                               // timeout, cancellation, or a failed write

  /** Where an `execute` call stands: holding a slot; registered under its id and waiting for the write lock;
      written and waiting for `drain` or the future; or past its `finally`. */
  datatype Phase = Admitted | Registered | Sent | Done(outcome: Outcome)

  /** `issued`, `position` and `epoch` are history: how many ids had been issued, how many probes made, and
      how many connections opened, when this call got its id. */
  datatype Call = Call(phase: Phase, id: nat, future: Future, issued: nat, position: nat, epoch: nat)

  datatype Closing = Open | Cancelling | Draining

  datatype State = State(
    conn: Conn,
    reader: bool,                          // the read loop is running
    writer: bool,
    closing: Closing,                      // progress of a `close` under the life lock
    pending: map<nat, CallId>,
    slots: nat,
    calls: map<CallId, Call>,
    issued: nat,
    position: nat,                         // probes made so far; `_next` is position % EVENT_ID
    sent: seq<CallId>,                     // history: requests written, in order
    epoch: nat)                            // history: connections opened so far

  datatype Event =
    | Admit(c: CallId)                     // slots.acquire() succeeds
    | Enter(c: CallId)
    | Send(c: CallId)
    | Finish(c: CallId)                    // the future is done and wait_for returns or raises
    | GiveUp(c: CallId)
    | Receive(reply: Response)             // the read loop gets a frame that is not an event
    | Break                                // the read loop hits EOF or a bad frame
    | Connect
    | ConnectFails
    | CloseBegin                           // cancel the reader task
    | CloseClear                           // break the pending futures, drop the writer
    | CloseEnd(reconnecting: bool)
    | CloseAborted                         // the closing task is itself cancelled in wait_closed

  function Init(maxPending: nat): State {
    State(NotConnected, false, false, Open, map[], maxPending, map[], 0, 0, [], 0)
  }

  predicate InFlight(call: Call) { call.phase.Registered? || call.phase.Sent? }

  predicate Unfinished(call: Call) { !call.phase.Done? }

  ghost predicate Enabled(s: State, e: Event) {
    match e
    case Admit(c) => c !in s.calls && s.slots > 0
    case Enter(c) => c in s.calls && s.calls[c].phase.Admitted?
    case Send(c) => c in s.calls && s.calls[c].phase.Registered? && s.writer
    case Finish(c) => c in s.calls && s.calls[c].phase.Sent? && !s.calls[c].future.Unresolved?
    case GiveUp(c) => c in s.calls && Unfinished(s.calls[c])
    case Receive(reply) => s.reader && WellFormed(reply) && reply.requestId != EVENT_ID
    case Break => s.reader
    case Connect => s.closing.Open? && s.conn != Connected
    case ConnectFails => s.closing.Open? && s.conn != Connected
    case CloseBegin => s.closing.Open?
    case CloseClear => s.closing.Cancelling?
    case CloseEnd(_) => s.closing.Draining?
    case CloseAborted => s.closing.Draining?
  }

  /** The `finally` of `execute`.  It pops by id, whichever call the id maps to by then. */
  function Cleanup(s: State, c: CallId, outcome: Outcome): State
    requires c in s.calls
  {
    var call := s.calls[c];
    var future := if call.future.Unresolved? then Cancelled else call.future;
    s.(pending := if InFlight(call) then s.pending - {call.id} else s.pending,
       calls := s.calls[c := call.(phase := Done(outcome), future := future)],
       slots := s.slots + 1)
  }

  function OutcomeOf(f: Future): Outcome {
    match f
    case Resolved(reply) => if reply.error != 0 then CommandFailed(reply) else Returned(reply)
    case Broken => ConnectionLost
    case _ => GaveUp
  }

  /** set_exception(Disconnected) on every pending future that is not done. */
  function BreakPending(s: State): map<CallId, Call> {
    map c | c in s.calls ::
      if c in s.pending.Values && s.calls[c].future.Unresolved? then s.calls[c].(future := Broken) else s.calls[c]
  }

  function Fail(s: State): State {
    s.(conn := Failed, reader := false, calls := BreakPending(s))
  }

  /** Between `acquire` and the write lock: the state check, the id, the future, the pending entry. */
  function EnterStep(s: State, c: CallId): State
    requires c in s.calls
  {
    if s.conn != Connected || !s.writer then Cleanup(s, c, ConnectionLost)
    else
      var probes := FirstFree(s.position % EVENT_ID, s.pending.Keys, 1);
      if probes > EVENT_ID then Cleanup(s.(position := s.position + EVENT_ID), c, GaveUp)
      else Register(s, c, s.position + probes)
  }

  function Register(s: State, c: CallId, position: nat): State {
    var id := position % EVENT_ID;
    s.(calls := s.calls[c := Call(Registered, id, Unresolved, s.issued, position, s.epoch)],
       pending := s.pending[id := c],
       issued := s.issued + 1,
       position := position)
  }

  function ReceiveStep(s: State, reply: Response): State {
    if reply.requestId !in s.pending then Fail(s)
    else
      var c := s.pending[reply.requestId];
      if c in s.calls && s.calls[c].future.Unresolved?
      then s.(calls := s.calls[c := s.calls[c].(future := Resolved(reply))])
      else s
  }

  function Step(s: State, e: Event): State
    requires Enabled(s, e)
  {
    match e
    case Admit(c) => s.(slots := s.slots - 1, calls := s.calls[c := Call(Admitted, 0, NoFuture, 0, 0, 0)])
    case Enter(c) => EnterStep(s, c)
    case Send(c) => s.(calls := s.calls[c := s.calls[c].(phase := Sent)], sent := s.sent + [c])
    case Finish(c) => Cleanup(s, c, OutcomeOf(s.calls[c].future))
    case GiveUp(c) => Cleanup(s, c, GaveUp)
    case Receive(reply) => ReceiveStep(s, reply)
    case Break => Fail(s)
    case Connect => s.(conn := Connected, reader := true, writer := true, epoch := s.epoch + 1)
    case ConnectFails => s.(conn := Failed)
    case CloseBegin => s.(reader := false, closing := Cancelling)
    case CloseClear => s.(calls := BreakPending(s), pending := map[], writer := false, closing := Draining)
    case CloseEnd(reconnecting) => s.(conn := if reconnecting then NotConnected else Closed, closing := Open)
    case CloseAborted => s.(closing := Open)
  }

  ghost predicate ValidRun(s: State, events: seq<Event>)
    decreases |events|
  {
    events == [] || (Enabled(s, events[0]) && ValidRun(Step(s, events[0]), events[1..]))
  }

  ghost function Run(s: State, events: seq<Event>): State
    requires ValidRun(s, events)
    decreases |events|
  {
    if events == [] then s else Run(Step(s, events[0]), events[1..])
  }

  ghost predicate Reachable(s: State, maxPending: nat) {
    exists events :: ValidRun(Init(maxPending), events) && Run(Init(maxPending), events) == s
  }

  // ---------- Invariant: every call's own record, the pending table, the slots ----------

  ghost predicate CallInv(s: State, c: CallId)
    requires c in s.calls
  {
    var call := s.calls[c];
    && (call.phase.Admitted? ==> call.future.NoFuture?)
    && (InFlight(call) ==> !call.future.NoFuture? && !call.future.Cancelled?)
    && (call.phase.Done? ==> !call.future.Unresolved?)
    && (call.future.Resolved? ==> call.future.reply.requestId == call.id)
    && (call.phase.Done? ==>
          match call.phase.outcome
          case Returned(reply) => reply.error == 0 && call.future == Resolved(reply)
          case CommandFailed(reply) => reply.error != 0 && call.future == Resolved(reply)
          case _ => true)
    && (c in s.sent ==> !call.phase.Admitted? && !call.phase.Registered?)
  }

  ghost predicate PendingInv(s: State, id: nat)
    requires id in s.pending
  {
    var c := s.pending[id];
    c in s.calls && InFlight(s.calls[c]) && s.calls[c].id == id
  }

  ghost predicate Inv(s: State) {
    && (forall c :: c in s.calls ==> CallInv(s, c))
    && (forall id :: id in s.pending ==> PendingInv(s, id))
    && (forall c :: c in s.sent ==> c in s.calls)
    && (forall i, j :: 0 <= i < j < |s.sent| ==> s.sent[i] != s.sent[j])
    && (s.reader ==> s.conn == Connected && s.writer && s.closing.Open?)
    && (s.closing.Draining? ==> !s.writer && s.pending == map[])
  }

  lemma CleanupKeepsInv(s: State, c: CallId, outcome: Outcome)
    requires Inv(s) && c in s.calls && Unfinished(s.calls[c])
    requires (!outcome.Returned? && !outcome.CommandFailed?) || outcome == OutcomeOf(s.calls[c].future)
    ensures Inv(Cleanup(s, c, outcome))
  {
    var s' := Cleanup(s, c, outcome);
    assert CallInv(s, c);
    forall d | d in s'.calls ensures CallInv(s', d) {
      assert CallInv(s, d);
    }
    forall id | id in s'.pending ensures PendingInv(s', id) {
      assert PendingInv(s, id);
    }
  }

  lemma BreakKeepsInv(s: State, s': State)
    requires Inv(s) && s'.calls == BreakPending(s) && s'.sent == s.sent
    requires s'.pending == s.pending || s'.pending == map[]
    requires !s'.reader && (s'.closing.Draining? ==> !s'.writer && s'.pending == map[])
    ensures Inv(s')
  {
    forall d | d in s'.calls ensures CallInv(s', d) {
      assert CallInv(s, d);
    }
    forall id | id in s'.pending ensures PendingInv(s', id) {
      assert PendingInv(s, id);
    }
  }

  lemma ProbeIsPosition(position: nat, k: nat)
    ensures Probe(position % EVENT_ID, k) == (position + k) % EVENT_ID
  {
  }

  lemma RegisterKeepsInv(s: State, c: CallId, position: nat)
    requires Inv(s) && s.writer && c in s.calls && s.calls[c].phase.Admitted? && position % EVENT_ID !in s.pending
    ensures Inv(Register(s, c, position))
  {
    var s' := Register(s, c, position);
    assert CallInv(s, c);
    forall d | d in s'.calls ensures CallInv(s', d) {
      assert CallInv(s, d);
    }
    forall id | id in s'.pending ensures PendingInv(s', id) {
      if id in s.pending { assert PendingInv(s, id); }
    }
  }

  lemma EnterKeepsInv(s: State, c: CallId)
    requires Inv(s) && Enabled(s, Enter(c))
    ensures Inv(EnterStep(s, c))
  {
    hide CallInv, PendingInv, Cleanup, Register;
    var probes := FirstFree(s.position % EVENT_ID, s.pending.Keys, 1);
    if s.conn != Connected || !s.writer {
      CleanupKeepsInv(s, c, ConnectionLost);
    } else if probes > EVENT_ID {
      SameTablesKeepInv(s, s.(position := s.position + EVENT_ID));
      CleanupKeepsInv(s.(position := s.position + EVENT_ID), c, GaveUp);
    } else {
      ProbeIsPosition(s.position, probes);
      RegisterKeepsInv(s, c, s.position + probes);
    }
  }

  lemma ReceiveKeepsInv(s: State, reply: Response)
    requires Inv(s) && Enabled(s, Receive(reply))
    ensures Inv(ReceiveStep(s, reply))
  {
    if reply.requestId !in s.pending {
      BreakKeepsInv(s, ReceiveStep(s, reply));
    } else {
      var s' := ReceiveStep(s, reply);
      assert PendingInv(s, reply.requestId);
      forall d | d in s'.calls ensures CallInv(s', d) {
        assert CallInv(s, d);
      }
      forall id | id in s'.pending ensures PendingInv(s', id) {
        assert PendingInv(s, id);
      }
    }
  }

  lemma AdmitKeepsInv(s: State, c: CallId)
    requires Inv(s) && Enabled(s, Admit(c))
    ensures Inv(Step(s, Admit(c)))
  {
    var s' := Step(s, Admit(c));
    forall d | d in s'.calls ensures CallInv(s', d) {
      if d != c { assert CallInv(s, d); }
    }
    forall id | id in s'.pending ensures PendingInv(s', id) {
      assert PendingInv(s, id);
    }
  }

  lemma SendKeepsInv(s: State, c: CallId)
    requires Inv(s) && Enabled(s, Send(c))
    ensures Inv(Step(s, Send(c)))
  {
    var s' := Step(s, Send(c));
    assert CallInv(s, c);
    forall d | d in s'.calls ensures CallInv(s', d) {
      assert CallInv(s, d);
    }
    forall id | id in s'.pending ensures PendingInv(s', id) {
      assert PendingInv(s, id);
    }
  }

  lemma StepKeepsInv(s: State, e: Event)
    requires Inv(s) && Enabled(s, e)
    ensures Inv(Step(s, e))
  {
    match e
    case Admit(c) => AdmitKeepsInv(s, c);
    case Enter(c) => EnterKeepsInv(s, c);
    case Send(c) => SendKeepsInv(s, c);
    case Finish(c) => CleanupKeepsInv(s, c, OutcomeOf(s.calls[c].future));
    case GiveUp(c) => CleanupKeepsInv(s, c, GaveUp);
    case Receive(reply) => ReceiveKeepsInv(s, reply);
    case Break => BreakKeepsInv(s, Step(s, e));
    case CloseClear => BreakKeepsInv(s, Step(s, e));
    case _ => SameTablesKeepInv(s, Step(s, e));
  }

  lemma SameTablesKeepInv(s: State, s': State)
    requires Inv(s) && s'.calls == s.calls && s'.pending == s.pending && s'.sent == s.sent
    requires s'.reader ==> s'.conn == Connected && s'.writer && s'.closing.Open?
    requires s'.closing.Draining? ==> !s'.writer && s'.pending == map[]
    ensures Inv(s')
  {
    forall d | d in s'.calls ensures CallInv(s', d) { assert CallInv(s, d); }
    forall id | id in s'.pending ensures PendingInv(s', id) { assert PendingInv(s, id); }
  }

  // ---------- Slots, and what bounds the pending table ----------

  ghost function Active(s: State): set<CallId> { set c | c in s.calls && Unfinished(s.calls[c]) }

  ghost predicate SlotInv(s: State, maxPending: nat) { s.slots + |Active(s)| == maxPending }

  lemma CleanupFreesSlot(s: State, c: CallId, outcome: Outcome, maxPending: nat)
    requires SlotInv(s, maxPending) && c in s.calls && Unfinished(s.calls[c])
    ensures SlotInv(Cleanup(s, c, outcome), maxPending)
  {
    assert Active(Cleanup(s, c, outcome)) == Active(s) - {c};
  }

  lemma SameActive(s: State, s': State, maxPending: nat)
    requires SlotInv(s, maxPending) && s'.slots == s.slots && s'.calls.Keys == s.calls.Keys
    requires forall c :: c in s.calls ==> Unfinished(s'.calls[c]) == Unfinished(s.calls[c])
    ensures SlotInv(s', maxPending)
  {
    assert Active(s') == Active(s);
  }

  lemma StepKeepsSlots(s: State, e: Event, maxPending: nat)
    requires Inv(s) && SlotInv(s, maxPending) && Enabled(s, e)
    ensures SlotInv(Step(s, e), maxPending)
  {
    hide SlotInv, CallInv, PendingInv, Cleanup;
    match e
    case Admit(c) =>
      assert SlotInv(Step(s, e), maxPending) by { AdmitTakesSlot(s, c, maxPending); }
    case Enter(c) =>
      var probes := FirstFree(s.position % EVENT_ID, s.pending.Keys, 1);
      if s.conn != Connected || !s.writer {
        CleanupFreesSlot(s, c, ConnectionLost, maxPending);
      } else if probes > EVENT_ID {
        var t := s.(position := s.position + EVENT_ID);
        SameActive(s, t, maxPending);
        CleanupFreesSlot(t, c, GaveUp, maxPending);
      } else {
        SameActive(s, Step(s, e), maxPending);
      }
    case Finish(c) => CleanupFreesSlot(s, c, OutcomeOf(s.calls[c].future), maxPending);
    case GiveUp(c) => CleanupFreesSlot(s, c, GaveUp, maxPending);
    case _ => SameActive(s, Step(s, e), maxPending);
  }

  lemma AdmitTakesSlot(s: State, c: CallId, maxPending: nat)
    requires SlotInv(s, maxPending) && Enabled(s, Admit(c))
    ensures SlotInv(Step(s, Admit(c)), maxPending)
  {
    assert Active(Step(s, Admit(c))) == Active(s) + {c};
  }

  lemma {:induction false} PendingFitsInto(pending: map<nat, CallId>, calls: set<CallId>)
    requires forall id :: id in pending ==> pending[id] in calls
    requires forall i, j :: i in pending && j in pending && pending[i] == pending[j] ==> i == j
    ensures |pending| <= |calls|
    decreases |pending|
  {
    if pending.Keys != {} {
      var id :| id in pending;
      assert (pending - {id}).Keys == pending.Keys - {id};
      PendingFitsInto(pending - {id}, calls - {pending[id]});
    }
  }

  /** While a call waits to register, fewer than `maxPending` ids are pending. */
  lemma PendingBelowSlots(s: State, c: CallId, maxPending: nat)
    requires Inv(s) && SlotInv(s, maxPending) && c in s.calls && s.calls[c].phase.Admitted?
    ensures |s.pending| < maxPending
  {
    forall id | id in s.pending ensures s.pending[id] in Active(s) - {c} {
      assert PendingInv(s, id);
    }
    forall i, j | i in s.pending && j in s.pending && s.pending[i] == s.pending[j] ensures i == j {
      assert PendingInv(s, i) && PendingInv(s, j);
    }
    PendingFitsInto(s.pending, Active(s) - {c});
    assert c in Active(s);
  }

  // ---------- Ids: how far apart two calls with the same id are ----------

  predicate HasId(call: Call) { !call.future.NoFuture? }

  /** `issued` numbers the calls that got an id, and each id costs at most `maxPending` probes. */
  ghost predicate LagInv(s: State, c: CallId, maxPending: nat)
    requires c in s.calls
  {
    var call := s.calls[c];
    HasId(call) ==>
      && call.issued < s.issued
      && call.id == call.position % EVENT_ID
      && call.position <= s.position <= call.position + (s.issued - 1 - call.issued) * maxPending
  }

  ghost predicate PairInv(s: State, c: CallId, d: CallId, maxPending: nat)
    requires c in s.calls && d in s.calls
  {
    var a, b := s.calls[c], s.calls[d];
    HasId(a) && HasId(b) && c != d ==>
      && a.issued != b.issued
      && (a.issued < b.issued ==>
            a.position < b.position <= a.position + (b.issued - a.issued) * maxPending)
  }

  ghost predicate IdInv(s: State, maxPending: nat) {
    && (forall c :: c in s.calls ==> LagInv(s, c, maxPending))
    && (forall c, d :: c in s.calls && d in s.calls ==> PairInv(s, c, d, maxPending))
  }

  /** Everything an id depends on, for all calls but `c`, is untouched. */
  lemma SameIdsKeepIdInv(s: State, s': State, maxPending: nat)
    requires IdInv(s, maxPending) && s'.issued == s.issued && s'.position == s.position
    requires forall c :: c in s'.calls && HasId(s'.calls[c]) ==>
      && c in s.calls && HasId(s.calls[c])
      && s'.calls[c].id == s.calls[c].id
      && s'.calls[c].issued == s.calls[c].issued && s'.calls[c].position == s.calls[c].position
    ensures IdInv(s', maxPending)
  {
    forall c | c in s'.calls ensures LagInv(s', c, maxPending) {
      if HasId(s'.calls[c]) { assert LagInv(s, c, maxPending); }
    }
    forall c, d | c in s'.calls && d in s'.calls ensures PairInv(s', c, d, maxPending) {
      if HasId(s'.calls[c]) && HasId(s'.calls[d]) { assert PairInv(s, c, d, maxPending); }
    }
  }

  lemma RegisterKeepsIdInv(s: State, c: CallId, probes: nat, maxPending: nat)
    requires IdInv(s, maxPending) && c in s.calls && !HasId(s.calls[c]) && 1 <= probes <= maxPending
    ensures IdInv(Register(s, c, s.position + probes), maxPending)
  {
    var s' := Register(s, c, s.position + probes);
    forall d | d in s'.calls ensures LagInv(s', d, maxPending) {
      if d != c && HasId(s'.calls[d]) {
        assert LagInv(s, d, maxPending);
        OneMore(s.issued - 1 - s.calls[d].issued, maxPending);
      }
    }
    forall a, b | a in s'.calls && b in s'.calls ensures PairInv(s', a, b, maxPending) {
      if HasId(s'.calls[a]) && HasId(s'.calls[b]) && a != b {
        if a != c && b != c {
          assert PairInv(s, a, b, maxPending);
        } else {
          var old_ := if a == c then b else a;
          assert LagInv(s, old_, maxPending);
          OneMore(s.issued - 1 - s.calls[old_].issued, maxPending);
        }
      }
    }
  }

  lemma OneMore(k: nat, m: nat)
    ensures (k + 1) * m == k * m + m
  {
  }

  /** `_request_id` never exhausts the ids: it stops within as many probes as there are slots. */
  lemma IdWithinSlots(s: State, c: CallId, maxPending: nat)
    requires Inv(s) && SlotInv(s, maxPending) && c in s.calls && s.calls[c].phase.Admitted?
    requires maxPending <= EVENT_ID
    ensures FirstFree(s.position % EVENT_ID, s.pending.Keys, 1) <= maxPending
  {
    PendingBelowSlots(s, c, maxPending);
    FreeWithinPendingPlusOne(s.position % EVENT_ID, s.pending.Keys);
  }

  lemma EnterKeepsIdInv(s: State, c: CallId, maxPending: nat)
    requires Inv(s) && SlotInv(s, maxPending) && IdInv(s, maxPending) && maxPending <= EVENT_ID
    requires Enabled(s, Enter(c))
    ensures IdInv(EnterStep(s, c), maxPending)
  {
    hide IdInv, SlotInv, PendingInv, FirstFree, Probe;
    assert CallInv(s, c);
    if s.conn == Connected && s.writer {
      IdWithinSlots(s, c, maxPending);
      RegisterKeepsIdInv(s, c, FirstFree(s.position % EVENT_ID, s.pending.Keys, 1), maxPending);
    } else {
      SameIdsKeepIdInv(s, EnterStep(s, c), maxPending);
    }
  }

  lemma StepKeepsIdInv(s: State, e: Event, maxPending: nat)
    requires Inv(s) && SlotInv(s, maxPending) && IdInv(s, maxPending) && Enabled(s, e) && maxPending <= EVENT_ID
    ensures IdInv(Step(s, e), maxPending)
  {
    hide IdInv, SlotInv, Inv, EnterStep, FirstFree, Probe;
    match e
    case Enter(c) => EnterKeepsIdInv(s, c, maxPending);
    case _ => SameIdsKeepIdInv(s, Step(s, e), maxPending);
  }

  ghost predicate AllInv(s: State, maxPending: nat) {
    Inv(s) && SlotInv(s, maxPending) && (maxPending <= EVENT_ID ==> IdInv(s, maxPending))
  }

  lemma InitInv(maxPending: nat)
    ensures AllInv(Init(maxPending), maxPending)
  {
    assert Active(Init(maxPending)) == {};
  }

  lemma StepKeepsAllInv(s: State, e: Event, maxPending: nat)
    requires AllInv(s, maxPending) && Enabled(s, e)
    ensures AllInv(Step(s, e), maxPending)
  {
    hide Inv, SlotInv, IdInv, Step, Enabled;
    StepKeepsInv(s, e);
    StepKeepsSlots(s, e, maxPending);
    if maxPending <= EVENT_ID { StepKeepsIdInv(s, e, maxPending); }
  }

  lemma {:induction false} RunKeepsInv(s: State, events: seq<Event>, maxPending: nat)
    requires AllInv(s, maxPending) && ValidRun(s, events)
    ensures AllInv(Run(s, events), maxPending)
    decreases |events|
  {
    hide AllInv, Step, Enabled;
    if events != [] {
      StepKeepsAllInv(s, events[0], maxPending);
      RunKeepsInv(Step(s, events[0]), events[1..], maxPending);
    }
  }

  lemma ReachableInv(s: State, maxPending: nat)
    requires Reachable(s, maxPending)
    ensures AllInv(s, maxPending)
  {
    hide AllInv;
    var events :| ValidRun(Init(maxPending), events) && Run(Init(maxPending), events) == s;
    InitInv(maxPending);
    RunKeepsInv(Init(maxPending), events, maxPending);
  }

  // ---------- What holds in every run ----------

  /** `execute` returns normally only with an error-free reply that carries its own id. */
  lemma ReturnsOwnReply(s: State, c: CallId, maxPending: nat)
    requires Reachable(s, maxPending) && c in s.calls && s.calls[c].phase.Done?
    ensures
      match s.calls[c].phase.outcome
      case Returned(reply) => reply.error == 0 && reply.requestId == s.calls[c].id
      case CommandFailed(reply) => reply.error != 0 && reply.requestId == s.calls[c].id
      case _ => true
  {
    ReachableInv(s, maxPending);
    assert CallInv(s, c);
  }

  /** Call `c` is in flight and its future is done. */
  predicate Settled(s: State, c: CallId, future: Future) {
    c in s.calls && (s.calls[c].phase.Registered? || s.calls[c].phase.Sent?) && s.calls[c].future == future
  }

  /** A run in which `c` neither finishes nor gives up leaves its future as it was once done. */
  lemma {:induction false} StaysSettled(s: State, c: CallId, future: Future, events: seq<Event>)
    requires Inv(s) && ValidRun(s, events) && Settled(s, c, future) && (future.Resolved? || future.Broken?)
    requires forall e :: e in events ==> e != Finish(c) && e != GiveUp(c)
    ensures Settled(Run(s, events), c, future)
    decreases |events|
  {
    hide Inv, Step, Enabled, Settled;
    if events != [] {
      assert events[0] in events && forall e :: e in events[1..] ==> e in events;
      StepStaysSettled(s, c, future, events[0]);
      StepKeepsInv(s, events[0]);
      StaysSettled(Step(s, events[0]), c, future, events[1..]);
    }
  }

  lemma StepStaysSettled(s: State, c: CallId, future: Future, e: Event)
    requires Inv(s) && Enabled(s, e) && Settled(s, c, future) && (future.Resolved? || future.Broken?)
    requires e != Finish(c) && e != GiveUp(c)
    ensures Settled(Step(s, e), c, future)
  {
    hide FirstFree, Probe, PendingInv;
    assert CallInv(s, c);
  }

  /** A request answered while it waits returns that answer, or raises CommandError for it, however much
      happens before it is resumed. */
  lemma AnswerIsReturned(s: State, c: CallId, reply: Response, events: seq<Event>, maxPending: nat)
    requires Reachable(s, maxPending) && Enabled(s, Receive(reply)) && ValidRun(s, [Receive(reply)] + events)
    requires reply.requestId in s.pending && s.pending[reply.requestId] == c
    requires c in s.calls && s.calls[c].future.Unresolved?
    requires forall e :: e in events ==> e != Finish(c) && e != GiveUp(c)
    ensures
      var s' := Run(s, [Receive(reply)] + events);
      && c in s'.calls && InFlight(s'.calls[c])
      && (s'.calls[c].phase.Sent? ==>
            && Enabled(s', Finish(c))
            && Step(s', Finish(c)).calls[c].phase ==
                 Done(if reply.error == 0 then Returned(reply) else CommandFailed(reply)))
  {
    hide ValidRun, Run, Reachable;
    ReachableInv(s, maxPending);
    assert PendingInv(s, reply.requestId);
    RunHead(s, Receive(reply), events);
    var s1 := Step(s, Receive(reply));
    assert Settled(s1, c, Resolved(reply));
    StepKeepsInv(s, Receive(reply));
    StaysSettled(s1, c, Resolved(reply), events);
  }

  lemma RunHead(s: State, e: Event, events: seq<Event>)
    requires ValidRun(s, [e] + events)
    ensures Enabled(s, e) && ValidRun(Step(s, e), events) && Run(s, [e] + events) == Run(Step(s, e), events)
  {
    assert ([e] + events)[1..] == events;
  }

  /** A request that waits when the connection fails or is closed raises Disconnected when it is resumed. */
  lemma LossIsRaised(s: State, c: CallId, loss: Event, events: seq<Event>, maxPending: nat)
    requires Reachable(s, maxPending) && (loss.Break? || loss.CloseClear?) && ValidRun(s, [loss] + events)
    requires c in s.calls && s.calls[c].future.Unresolved? && c in s.pending.Values
    requires forall e :: e in events ==> e != Finish(c) && e != GiveUp(c)
    ensures
      var s' := Run(s, [loss] + events);
      && c in s'.calls && InFlight(s'.calls[c])
      && (s'.calls[c].phase.Sent? ==>
            Enabled(s', Finish(c)) && Step(s', Finish(c)).calls[c].phase == Done(ConnectionLost))
  {
    hide ValidRun, Run, Reachable;
    ReachableInv(s, maxPending);
    var id :| id in s.pending && s.pending[id] == c;
    assert PendingInv(s, id);
    RunHead(s, loss, events);
    assert Settled(Step(s, loss), c, Broken);
    StepKeepsInv(s, loss);
    StaysSettled(Step(s, loss), c, Broken, events);
  }

  /** What nothing can keep from happening.  A call gets a slot while there is one, and is then examined; it
      can be written while there is a writer; and it can give up at any time, which frees its slot and leaves
      no entry of its own.  A connection attempt may succeed or fail whenever there is neither a connection
      nor a close under way. */
  lemma AlwaysPossible(s: State, c: CallId)
    ensures s.slots > 0 && c !in s.calls ==>
      Enabled(s, Admit(c)) && Enabled(Step(s, Admit(c)), Enter(c)) && Step(s, Admit(c)).slots == s.slots - 1
    ensures c in s.calls && s.calls[c].phase.Registered? && s.writer ==>
      Enabled(s, Send(c)) && Step(s, Send(c)).sent == s.sent + [c] && Step(s, Send(c)).calls[c].phase.Sent?
    ensures c in s.calls && !s.calls[c].phase.Done? ==>
      && Enabled(s, GiveUp(c))
      && var s' := Step(s, GiveUp(c));
      && s'.calls[c].phase == Done(GaveUp) && !s'.calls[c].future.Unresolved? && s'.slots == s.slots + 1
      && (InFlight(s.calls[c]) ==> s.calls[c].id !in s'.pending)
    ensures s.closing.Open? && s.conn != Connected ==>
      && Enabled(s, Connect) && Enabled(s, ConnectFails)
      && var (up, down) := (Step(s, Connect), Step(s, ConnectFails));
      && up.conn == Connected && up.reader && up.writer && up.calls == s.calls && up.pending == s.pending
      && down.conn == Failed && down.(conn := s.conn) == s
    ensures s.closing.Open? ==> Enabled(s, CloseBegin) && Enabled(Step(s, CloseBegin), CloseClear)
    ensures s.reader ==> Enabled(s, Break)
    ensures s.reader ==> forall r: Response :: WellFormed(r) && r.requestId != EVENT_ID ==> Enabled(s, Receive(r))
  {
  }

  /** A future, once done, never changes again. */
  lemma ResolvesOnce(s: State, e: Event, c: CallId, maxPending: nat)
    requires Reachable(s, maxPending) && Enabled(s, e) && c in s.calls
    requires !s.calls[c].future.NoFuture? && !s.calls[c].future.Unresolved?
    ensures c in Step(s, e).calls && Step(s, e).calls[c].future == s.calls[c].future
  {
    ReachableInv(s, maxPending);
    assert CallInv(s, c);
  }

  /** No request is ever written twice: reconnecting replays nothing. */
  lemma NeverReplays(s: State, maxPending: nat)
    requires Reachable(s, maxPending)
    ensures forall i, j :: 0 <= i < j < |s.sent| ==> s.sent[i] != s.sent[j]
  {
    ReachableInv(s, maxPending);
  }

  /** Every slot is free or held by one unfinished call: none is leaked, none is granted twice. */
  lemma SlotsAreConserved(s: State, maxPending: nat)
    requires Reachable(s, maxPending)
    ensures s.slots + |set c | c in s.calls && !s.calls[c].phase.Done?| == maxPending
  {
    ReachableInv(s, maxPending);
    assert Active(s) == set c | c in s.calls && !s.calls[c].phase.Done?;
  }

  /** A reply to an id that is not pending (retired, or never issued) fails the connection, stops the
      read loop, and breaks every pending request that was unresolved. */
  lemma UnknownReplyFailsConnection(s: State, reply: Response, maxPending: nat)
    requires Reachable(s, maxPending) && Enabled(s, Receive(reply))
    ensures forall id :: id in s.pending ==> s.pending[id] in s.calls
    ensures
      var s' := Step(s, Receive(reply));
      if reply.requestId !in s.pending then
        && s'.conn == Failed && !s'.reader
        && (forall id :: id in s.pending && s.calls[s.pending[id]].future.Unresolved? ==>
              s'.calls[s.pending[id]].future.Broken?)
      else
        && s'.conn == s.conn && s'.reader
        && (s.calls[s.pending[reply.requestId]].future.Unresolved? ==>
              s'.calls[s.pending[reply.requestId]].future == Resolved(reply))
        && (forall c :: c in s.calls && c != s.pending[reply.requestId] ==> s'.calls[c] == s.calls[c])
  {
    ReachableInv(s, maxPending);
    forall id | id in s.pending ensures s.pending[id] in s.calls && s.pending[id] in s.pending.Values {
      assert PendingInv(s, id);
    }
  }

  /** A reply to a retired id that has not been issued again - one that no request in flight carries, however
      long ago it was retired - fails the connection and leaves no pending request unresolved. */
  lemma LateReplyFailsConnection(s: State, reply: Response, maxPending: nat)
    requires Reachable(s, maxPending) && Enabled(s, Receive(reply))
    requires forall c :: c in s.calls && InFlight(s.calls[c]) ==> s.calls[c].id != reply.requestId
    ensures
      var s' := Step(s, Receive(reply));
      && s'.conn == Failed && !s'.reader
      && forall id :: id in s'.pending ==>
           s'.pending[id] in s'.calls && !s'.calls[s'.pending[id]].future.Unresolved?
  {
    ReachableInv(s, maxPending);
    forall id | id in s.pending
      ensures s.pending[id] in s.pending.Values && s.pending[id] in s.calls
      ensures InFlight(s.calls[s.pending[id]]) && s.calls[s.pending[id]].id == id
    {
      assert PendingInv(s, id);
    }
  }

  /** When `close` ends, nothing is left of the connection: no reader, no writer, no pending request; and
      none appears until the next successful connect. */
  lemma CloseLeavesNothing(s: State, reconnecting: bool, maxPending: nat)
    requires Reachable(s, maxPending) && Enabled(s, CloseEnd(reconnecting))
    ensures
      var s' := Step(s, CloseEnd(reconnecting));
      && (s'.conn == if reconnecting then NotConnected else Closed)
      && !s'.reader && !s'.writer && s'.pending == map[] && s'.closing == Open
      && (forall c :: Enabled(s', Enter(c)) ==> Step(s', Enter(c)).calls[c].phase == Done(ConnectionLost))
  {
    ReachableInv(s, maxPending);
  }

  /** With `max_pending` slots an id is never exhausted, is not pending already, and is not the event id. */
  lemma EnterAlwaysGetsAnId(s: State, c: CallId, maxPending: nat)
    requires Reachable(s, maxPending) && Enabled(s, Enter(c)) && maxPending <= EVENT_ID
    requires s.conn == Connected && s.writer
    ensures
      var s' := Step(s, Enter(c));
      && s'.calls[c].phase.Registered?
      && s'.calls[c].id !in s.pending && s'.calls[c].id < EVENT_ID
      && s'.pending == s.pending[s'.calls[c].id := c]
      && s'.position <= s.position + maxPending
  {
    hide Reachable, Cleanup, FirstFree, Probe, Inv, IdInv, SlotInv;
    ReachableInv(s, maxPending);
    IdWithinSlots(s, c, maxPending);
    ProbeIsPosition(s.position, FirstFree(s.position % EVENT_ID, s.pending.Keys, 1));
  }

  /** An id comes back only after at least (2^32 - 1) / max_pending further allocations. */
  lemma ReissueDistance(s: State, c: CallId, d: CallId, maxPending: nat)
    requires Reachable(s, maxPending) && maxPending <= EVENT_ID
    requires c in s.calls && d in s.calls && c != d && HasId(s.calls[c]) && HasId(s.calls[d])
    requires s.calls[c].id == s.calls[d].id && s.calls[c].issued <= s.calls[d].issued
    ensures (s.calls[d].issued - s.calls[c].issued) * maxPending >= EVENT_ID
  {
    ReachableInv(s, maxPending);
    assert LagInv(s, c, maxPending) && LagInv(s, d, maxPending) && PairInv(s, c, d, maxPending);
    SameIdMeansFullCycle(s.calls[c].position, s.calls[d].position);
  }

  // ---------- Which futures stay unresolved ----------

  /** Every unresolved future can still be reached through the pending table, and only while online. */
  ghost predicate Tracked(s: State) {
    forall c :: c in s.calls && s.calls[c].future.Unresolved? ==> Reached(s, c)
  }

  predicate Reached(s: State, c: CallId) {
    c in s.calls && s.conn == Connected && s.writer && s.calls[c].id in s.pending && s.pending[s.calls[c].id] == c
  }

  /** The cleanup in this event pops the entry of another request, which is unresolved. */
  predicate Steals(s: State, e: Event) {
    && (e.Finish? || e.GiveUp?) && e.c in s.calls
    && var call := s.calls[e.c];
    && InFlight(call) && call.id in s.pending && s.pending[call.id] != e.c
    && s.pending[call.id] in s.calls && s.calls[s.pending[call.id]].future.Unresolved?
  }

  function Victims(s: State, e: Event): set<CallId> {
    if Steals(s, e) then {s.pending[s.calls[e.c].id]} else {}
  }

  /** The requests whose entries are stolen in the course of a run. */
  ghost function Stolen(s: State, events: seq<Event>): set<CallId>
    requires ValidRun(s, events)
    decreases |events|
  {
    if events == [] then {} else Victims(s, events[0]) + Stolen(Step(s, events[0]), events[1..])
  }

  /** As `Tracked`, but for the requests in `lost`: those have no entry any more. */
  ghost predicate TrackedBut(s: State, lost: set<CallId>) {
    && (forall c :: c in s.calls && s.calls[c].future.Unresolved? ==>
          if c in lost then c !in s.pending.Values else Reached(s, c))
    && (forall c :: c in lost ==> c in s.calls && HasId(s.calls[c]))
  }

  lemma CleanupTracks(s: State, e: Event, c: CallId, outcome: Outcome, lost: set<CallId>)
    requires Inv(s) && TrackedBut(s, lost) && Enabled(s, e) && (e == Finish(c) || e == GiveUp(c))
    ensures TrackedBut(Cleanup(s, c, outcome), lost + Victims(s, e))
    ensures forall d :: d in Victims(s, e) ==> d !in Cleanup(s, c, outcome).pending.Values
  {
    var s' := Cleanup(s, c, outcome);
    assert CallInv(s, c);
    forall id | id in s.pending ensures s.pending[id] in s.calls && s.calls[s.pending[id]].id == id {
      assert PendingInv(s, id);
    }
    forall d | d in s'.pending.Values ensures d in s.pending.Values && d !in Victims(s, e) {
      var id :| id in s'.pending && s'.pending[id] == d;
      assert s.pending[id] == d;
    }
    forall d | d in lost + Victims(s, e) ensures d in s'.calls && HasId(s'.calls[d]) {
    }
  }

  lemma RegisterTracks(s: State, c: CallId, position: nat, lost: set<CallId>)
    requires Inv(s) && TrackedBut(s, lost) && s.conn == Connected && s.writer && position % EVENT_ID !in s.pending
    requires c in s.calls && s.calls[c].phase.Admitted?
    ensures TrackedBut(Register(s, c, position), lost)
  {
    var s' := Register(s, c, position);
    assert CallInv(s, c);
    forall d | d in s'.calls && s'.calls[d].future.Unresolved?
      ensures if d in lost then d !in s'.pending.Values else Reached(s', d)
    {
      if d != c { assert s.calls[d].future.Unresolved?; }
    }
  }

  lemma EnterTracks(s: State, c: CallId, lost: set<CallId>)
    requires Inv(s) && TrackedBut(s, lost) && Enabled(s, Enter(c))
    ensures TrackedBut(EnterStep(s, c), lost)
  {
    hide Register, Reached;
    var probes := FirstFree(s.position % EVENT_ID, s.pending.Keys, 1);
    if s.conn == Connected && s.writer && probes <= EVENT_ID {
      ProbeIsPosition(s.position, probes);
      RegisterTracks(s, c, s.position + probes, lost);
    } else {
      RefusedTracks(s, c, EnterStep(s, c), lost);
    }
  }

  lemma RefusedTracks(s: State, c: CallId, s': State, lost: set<CallId>)
    requires Inv(s) && TrackedBut(s, lost) && c in s.calls && s.calls[c].phase.Admitted?
    requires s'.conn == s.conn && s'.writer == s.writer && s'.pending == s.pending
    requires c in s'.calls && s'.calls == s.calls[c := s'.calls[c]] && s'.calls[c].future.NoFuture?
    ensures TrackedBut(s', lost)
  {
    assert CallInv(s, c);
    forall d | d in s'.calls && s'.calls[d].future.Unresolved?
      ensures if d in lost then d !in s'.pending.Values else Reached(s', d)
    {
      assert s.calls[d].future.Unresolved?;
    }
  }

  /** Where the pending futures are broken, only lost requests stay unresolved. */
  lemma BreakingTracks(s: State, s': State, lost: set<CallId>)
    requires TrackedBut(s, lost) && s'.calls == BreakPending(s) && s'.pending.Values <= s.pending.Values
    ensures TrackedBut(s', lost)
    ensures forall c :: c in s'.calls && s'.calls[c].future.Unresolved? <==> c in lost && s.calls[c].future.Unresolved?
  {
    forall c | c in s.calls && s.calls[c].future.Unresolved? && c !in lost ensures c in s.pending.Values {
      assert Reached(s, c);
    }
  }

  lemma ResolveTracks(s: State, reply: Response, lost: set<CallId>)
    requires Inv(s) && TrackedBut(s, lost) && Enabled(s, Receive(reply))
    ensures TrackedBut(ReceiveStep(s, reply), lost)
  {
    if reply.requestId !in s.pending {
      BreakingTracks(s, ReceiveStep(s, reply), lost);
    } else {
      assert PendingInv(s, reply.requestId);
    }
  }

  /** After an event, the unresolved requests without an entry are those before it and its victim. */
  lemma StepTracks(s: State, e: Event, lost: set<CallId>)
    requires Inv(s) && TrackedBut(s, lost) && Enabled(s, e)
    ensures TrackedBut(Step(s, e), lost + Victims(s, e))
    ensures forall d :: d in Victims(s, e) ==> d !in Step(s, e).pending.Values
  {
    hide CallInv, PendingInv, Cleanup, EnterStep, ReceiveStep;
    assert e.Finish? || e.GiveUp? || (Victims(s, e) == {} && lost + Victims(s, e) == lost);
    match e
    case Enter(c) => EnterTracks(s, c, lost);
    case Finish(c) => CleanupTracks(s, e, c, OutcomeOf(s.calls[c].future), lost);
    case GiveUp(c) => CleanupTracks(s, e, c, GaveUp, lost);
    case Receive(reply) => ResolveTracks(s, reply, lost);
    case Break => BreakingTracks(s, Step(s, e), lost);
    case CloseClear => BreakingTracks(s, Step(s, e), lost);
    case _ =>
  }

  /** An event keeps every unresolved request reachable exactly if it steals no entry. */
  lemma StepKeepsTrackedIff(s: State, e: Event)
    requires Inv(s) && Tracked(s) && Enabled(s, e)
    ensures Tracked(Step(s, e)) <==> !Steals(s, e)
  {
    StepTracks(s, e, {});
    if Steals(s, e) {
      var c := s.pending[s.calls[e.c].id];
      assert Step(s, e).calls[c] == s.calls[c];
      assert c in Victims(s, e);
    }
  }

  ghost predicate TrackedThroughout(s: State, events: seq<Event>)
    requires ValidRun(s, events)
    decreases |events|
  {
    Tracked(s) && (events == [] || TrackedThroughout(Step(s, events[0]), events[1..]))
  }

  lemma VictimsIff(s: State, e: Event)
    ensures Victims(s, e) == {} <==> !Steals(s, e)
  {
    if Steals(s, e) { assert s.pending[s.calls[e.c].id] in Victims(s, e); }
  }

  /** A run keeps every unresolved request reachable at all times exactly if no cleanup in it steals. */
  lemma {:induction false} TrackedThroughoutIff(s: State, events: seq<Event>)
    requires Inv(s) && Tracked(s) && ValidRun(s, events)
    ensures TrackedThroughout(s, events) <==> Stolen(s, events) == {}
    decreases |events|
  {
    hide Inv, Tracked, Step, Enabled, Steals, Victims;
    if events != [] {
      StepKeepsInv(s, events[0]);
      StepKeepsTrackedIff(s, events[0]);
      VictimsIff(s, events[0]);
      if !Steals(s, events[0]) {
        TrackedThroughoutIff(Step(s, events[0]), events[1..]);
      }
    }
  }

  lemma {:induction false} RunTracks(s: State, events: seq<Event>, lost: set<CallId>)
    requires Inv(s) && TrackedBut(s, lost) && ValidRun(s, events)
    ensures Inv(Run(s, events)) && TrackedBut(Run(s, events), lost + Stolen(s, events))
    decreases |events|
  {
    hide Inv, TrackedBut, Step, Enabled, Victims;
    if events == [] {
      assert lost + {} == lost;
    } else {
      StepKeepsInv(s, events[0]);
      StepTracks(s, events[0], lost);
      var victims := Victims(s, events[0]);
      RunTracks(Step(s, events[0]), events[1..], lost + victims);
      assert lost + victims + Stolen(Step(s, events[0]), events[1..])
          == lost + (victims + Stolen(Step(s, events[0]), events[1..]));
    }
  }

  lemma InitTracks(events: seq<Event>, maxPending: nat)
    requires ValidRun(Init(maxPending), events)
    ensures
      var s := Run(Init(maxPending), events);
      Inv(s) && TrackedBut(s, Stolen(Init(maxPending), events))
  {
    hide Run, Stolen, ValidRun;
    InitInv(maxPending);
    RunTracks(Init(maxPending), events, {});
    assert {} + Stolen(Init(maxPending), events) == Stolen(Init(maxPending), events);
  }

  /** Whenever the connection is down, the unresolved futures are exactly those of stolen requests that are
      still waiting: no other request waits, and in a run that steals nothing none does. */
  lemma NothingUnresolvedOffline(events: seq<Event>, maxPending: nat)
    requires ValidRun(Init(maxPending), events)
    ensures
      var s, stolen := Run(Init(maxPending), events), Stolen(Init(maxPending), events);
      && stolen <= s.calls.Keys
      && (s.conn != Connected || !s.writer ==>
            forall c :: c in s.calls && s.calls[c].future.Unresolved? ==> c in stolen)
  {
    InitTracks(events, maxPending);
  }

  /** What a `close` begun after any run leaves unresolved: exactly the stolen requests that are still waiting,
      so nothing at all exactly if there is none of these. */
  lemma CloseResolvesAllButStolen(events: seq<Event>, maxPending: nat)
    requires ValidRun(Init(maxPending), events) && Run(Init(maxPending), events).closing.Open?
    ensures
      var s, stolen := Run(Init(maxPending), events), Stolen(Init(maxPending), events);
      && ValidRun(s, CLOSE)
      && var s' := Run(s, CLOSE);
      && s'.conn == Closed && s'.calls.Keys == s.calls.Keys
      && forall c :: c in s.calls ==>
           (s'.calls[c].future.Unresolved? <==> c in stolen && s.calls[c].future.Unresolved?)
  {
    InitTracks(events, maxPending);
    hide ValidRun, Run, Stolen, BreakPending;
    var s := Run(Init(maxPending), events);
    CloseRuns(s);
    BreakingTracks(s, Step(Step(s, CloseBegin), CloseClear), Stolen(Init(maxPending), events));
  }

  /** A `close` that nothing interrupts. */
  const CLOSE := [CloseBegin, CloseClear, CloseEnd(false)]

  lemma CloseRuns(s: State)
    requires s.closing.Open?
    ensures ValidRun(s, CLOSE)
    ensures Run(s, CLOSE) == Step(Step(Step(s, CloseBegin), CloseClear), CloseEnd(false))
    ensures Step(Step(s, CloseBegin), CloseClear).calls == BreakPending(s)
    ensures Run(s, CLOSE).calls == BreakPending(s) && Run(s, CLOSE).conn == Closed
    ensures BreakPending(s).Keys == s.calls.Keys
  {
    hide BreakPending;
    var s1 := Step(s, CloseBegin);
    var s2 := Step(s1, CloseClear);
    var tail: seq<Event> := [CloseEnd(false)];
    assert CLOSE[1..] == [CloseClear, CloseEnd(false)] && CLOSE[1..][1..] == tail && tail[1..] == [];
    assert BreakPending(s1) == BreakPending(s) by { SamePendingBreaks(s, s1); }
    assert ValidRun(s2, tail) && Run(s2, tail) == Step(s2, CloseEnd(false));
    assert ValidRun(s1, CLOSE[1..]) && Run(s1, CLOSE[1..]) == Run(s2, tail);
    BreakKeepsCalls(s);
  }

  lemma SamePendingBreaks(s: State, s': State)
    requires s'.calls == s.calls && s'.pending == s.pending
    ensures BreakPending(s') == BreakPending(s)
  {
  }

  lemma BreakKeepsCalls(s: State)
    ensures BreakPending(s).Keys == s.calls.Keys
  {
  }

  // ---------- When nothing is stolen ----------

  /** No in-flight call has lived through (2^32 - 1) / max_pending later allocations. */
  ghost predicate Prompt(s: State, maxPending: nat) {
    forall c :: c in s.calls && InFlight(s.calls[c]) ==>
      (s.issued - 1 - s.calls[c].issued) * maxPending < EVENT_ID
  }

  lemma PromptCallsHaveDistinctIds(s: State, c: CallId, d: CallId, maxPending: nat)
    requires Inv(s) && IdInv(s, maxPending) && Prompt(s, maxPending)
    requires c in s.calls && d in s.calls && c != d && InFlight(s.calls[c]) && InFlight(s.calls[d])
    requires s.calls[c].issued <= s.calls[d].issued
    ensures s.calls[c].id != s.calls[d].id
  {
    assert CallInv(s, c) && CallInv(s, d);
    assert LagInv(s, c, maxPending) && LagInv(s, d, maxPending) && PairInv(s, c, d, maxPending);
    MulMonotone(s.calls[d].issued - s.calls[c].issued, s.issued - 1 - s.calls[c].issued, maxPending);
    SameIdMeansFullCycle(s.calls[c].position, s.calls[d].position);
  }

  lemma PromptStepStealsNothing(s: State, e: Event, maxPending: nat)
    requires Inv(s) && IdInv(s, maxPending) && Prompt(s, maxPending)
    ensures !Steals(s, e)
  {
    if (e.Finish? || e.GiveUp?) && e.c in s.calls && InFlight(s.calls[e.c]) && s.calls[e.c].id in s.pending {
      var c, d := e.c, s.pending[s.calls[e.c].id];
      assert PendingInv(s, s.calls[c].id);
      if c != d {
        if s.calls[c].issued <= s.calls[d].issued {
          PromptCallsHaveDistinctIds(s, c, d, maxPending);
        } else {
          PromptCallsHaveDistinctIds(s, d, c, maxPending);
        }
      }
    }
  }

  /** The run passes only through states in which every in-flight call is prompt. */
  ghost predicate PromptRun(s: State, events: seq<Event>, maxPending: nat)
    requires ValidRun(s, events)
    decreases |events|
  {
    Prompt(s, maxPending) && (events == [] || PromptRun(Step(s, events[0]), events[1..], maxPending))
  }

  /** Nothing is stolen in a run whose calls do not stay in flight across (2^32 - 1) / max_pending ids. */
  lemma {:induction false} PromptRunStealsNothing(s: State, events: seq<Event>, maxPending: nat)
    requires AllInv(s, maxPending) && maxPending <= EVENT_ID
    requires ValidRun(s, events) && PromptRun(s, events, maxPending)
    ensures Stolen(s, events) == {}
    decreases |events|
  {
    hide Inv, SlotInv, IdInv, Prompt, Step, Enabled, Steals, Victims;
    if events != [] {
      PromptStepStealsNothing(s, events[0], maxPending);
      VictimsIff(s, events[0]);
      StepKeepsAllInv(s, events[0], maxPending);
      PromptRunStealsNothing(Step(s, events[0]), events[1..], maxPending);
    }
  }

  // ---------- Which connection a request is written on ----------

  /** What the futures say about the connection a call was registered on: that of an unresolved future is the
      present one, that of a broken future is an earlier one wherever there is a present one. */
  ghost predicate HomeInv(s: State, c: CallId, lost: set<CallId>)
    requires c in s.calls
  {
    var call := s.calls[c];
    && call.epoch <= s.epoch
    && (call.future.Unresolved? && c !in lost ==> call.epoch == s.epoch)
    && (call.future.Broken? && s.conn == Connected && s.writer ==> call.epoch < s.epoch)
  }

  ghost predicate AtHome(s: State, lost: set<CallId>) { forall c :: c in s.calls ==> HomeInv(s, c, lost) }

  lemma StepKeepsHome(s: State, e: Event, lost: set<CallId>)
    requires Inv(s) && TrackedBut(s, lost) && AtHome(s, lost) && Enabled(s, e)
    ensures AtHome(Step(s, e), lost + Victims(s, e))
  {
    hide PendingInv, FirstFree, Probe, Victims;
    var s' := Step(s, e);
    forall c | c in s'.calls ensures HomeInv(s', c, lost + Victims(s, e)) {
      if c in s.calls { assert HomeInv(s, c, lost) && CallInv(s, c); }
    }
  }

  lemma {:induction false} RunKeepsHome(s: State, events: seq<Event>, lost: set<CallId>)
    requires Inv(s) && TrackedBut(s, lost) && AtHome(s, lost) && ValidRun(s, events)
    ensures AtHome(Run(s, events), lost + Stolen(s, events))
    decreases |events|
  {
    hide Inv, TrackedBut, AtHome, Step, Enabled, Victims;
    if events == [] {
      assert lost + {} == lost;
    } else {
      StepKeepsInv(s, events[0]);
      StepTracks(s, events[0], lost);
      StepKeepsHome(s, events[0], lost);
      var victims := Victims(s, events[0]);
      RunKeepsHome(Step(s, events[0]), events[1..], lost + victims);
      assert lost + victims + Stolen(Step(s, events[0]), events[1..])
          == lost + (victims + Stolen(Step(s, events[0]), events[1..]));
    }
  }

  /** The next write of request `c` goes to another connection than the one it was registered on. */
  predicate GoesElsewhere(s: State, c: CallId) { c in s.calls && s.calls[c].epoch != s.epoch }

  /** A request whose entry was not stolen, and which nobody has answered before it was written, goes to
      another connection exactly if its future is done when it gets the write lock. */
  lemma WrittenElsewhereIff(events: seq<Event>, c: CallId, maxPending: nat)
    requires ValidRun(Init(maxPending), events) && c !in Stolen(Init(maxPending), events)
    requires Enabled(Run(Init(maxPending), events), Send(c))
    ensures
      var s := Run(Init(maxPending), events);
      var future := s.calls[c].future;
      && (GoesElsewhere(s, c) ==> !future.Unresolved?)
      && (s.conn == Connected && !future.Resolved? ==> (GoesElsewhere(s, c) <==> !future.Unresolved?))
  {
    hide Run, Stolen, ValidRun;
    InitInv(maxPending);
    InitTracks(events, maxPending);
    InitHome(events, maxPending);
    var s := Run(Init(maxPending), events);
    assert HomeInv(s, c, Stolen(Init(maxPending), events)) && CallInv(s, c);
  }

  lemma InitHome(events: seq<Event>, maxPending: nat)
    requires ValidRun(Init(maxPending), events)
    ensures AtHome(Run(Init(maxPending), events), Stolen(Init(maxPending), events))
  {
    hide Run, Stolen, ValidRun;
    InitInv(maxPending);
    RunKeepsHome(Init(maxPending), events, {});
    assert {} + Stolen(Init(maxPending), events) == Stolen(Init(maxPending), events);
  }

  /** The peer answers only requests that have been written. */
  ghost predicate Solicited(s: State, e: Event) {
    e.Receive? && e.reply.requestId in s.pending && s.pending[e.reply.requestId] in s.calls ==>
      !s.calls[s.pending[e.reply.requestId]].phase.Registered?
  }

  ghost predicate SolicitedRun(s: State, events: seq<Event>)
    requires ValidRun(s, events)
    decreases |events|
  {
    events == [] || (Solicited(s, events[0]) && SolicitedRun(Step(s, events[0]), events[1..]))
  }

  ghost predicate NoEarlyReply(s: State) {
    forall c :: c in s.calls && s.calls[c].phase.Registered? ==> !s.calls[c].future.Resolved?
  }

  lemma StepKeepsNoEarlyReply(s: State, e: Event)
    requires NoEarlyReply(s) && Enabled(s, e) && Solicited(s, e)
    ensures NoEarlyReply(Step(s, e))
  {
    hide FirstFree, Probe;
  }

  lemma {:induction false} RunKeepsNoEarlyReply(s: State, events: seq<Event>)
    requires NoEarlyReply(s) && ValidRun(s, events) && SolicitedRun(s, events)
    ensures NoEarlyReply(Run(s, events))
    decreases |events|
  {
    hide NoEarlyReply, Step, Enabled, Solicited;
    if events != [] {
      StepKeepsNoEarlyReply(s, events[0]);
      RunKeepsNoEarlyReply(Step(s, events[0]), events[1..]);
    }
  }

  /** Against a peer that answers only what was written: a request goes to another connection than its own
      exactly if its future is done when it gets the lock. */
  lemma WrittenElsewhereIffDone(events: seq<Event>, c: CallId, maxPending: nat)
    requires ValidRun(Init(maxPending), events) && SolicitedRun(Init(maxPending), events)
    requires c !in Stolen(Init(maxPending), events)
    requires
      var s := Run(Init(maxPending), events);
      Enabled(s, Send(c)) && s.conn == Connected
    ensures
      var s := Run(Init(maxPending), events);
      GoesElsewhere(s, c) <==> !s.calls[c].future.Unresolved?
  {
    hide Run, Stolen, ValidRun, SolicitedRun;
    WrittenElsewhereIff(events, c, maxPending);
    RunKeepsNoEarlyReply(Init(maxPending), events);
  }

  // ---------- A request that is stolen ----------

  ghost predicate Reaches(s: State, s': State) {
    exists events :: ValidRun(s, events) && Run(s, events) == s'
  }

  lemma ReachesSelf(s: State)
    ensures Reaches(s, s)
  {
    assert ValidRun(s, []) && Run(s, []) == s;
  }

  lemma {:induction false} RunThenStep(s: State, events: seq<Event>, e: Event)
    requires ValidRun(s, events) && Enabled(Run(s, events), e)
    ensures ValidRun(s, events + [e]) && Run(s, events + [e]) == Step(Run(s, events), e)
    decreases |events|
  {
    hide Step, Enabled;
    if events == [] {
      assert [e][1..] == [] && ValidRun(Step(s, e), []);
      assert events + [e] == [e];
    } else {
      RunThenStep(Step(s, events[0]), events[1..], e);
      assert (events + [e])[1..] == events[1..] + [e];
    }
  }

  lemma ReachesStep(s: State, t: State, e: Event)
    requires Reaches(s, t) && Enabled(t, e)
    ensures Reaches(s, Step(t, e))
  {
    hide Step, Enabled;
    var events :| ValidRun(s, events) && Run(s, events) == t;
    RunThenStep(s, events, e);
  }

  /** Connected, nothing pending, and call 0 as given; later calls are numbered by `issued`. */
  ghost predicate Idle(s: State, stale: Call) {
    && s.conn == Connected && s.writer && s.closing.Open? && s.pending == map[] && s.slots >= 1
    && 0 in s.calls && s.calls[0] == stale
    && (forall c :: c in s.calls ==> c < s.issued)
  }

  /** A request that is cancelled at once moves the id counter on by one. */
  lemma CancelledRequest(s0: State, s: State, stale: Call) returns (s': State)
    requires Reaches(s0, s) && Idle(s, stale)
    ensures Reaches(s0, s') && Idle(s', stale) && s'.position == s.position + 1
  {
    hide Reaches;
    var c := s.issued;
    var s1 := Step(s, Admit(c));
    ReachesStep(s0, s, Admit(c));
    assert FirstFree(s1.position % EVENT_ID, s1.pending.Keys, 1) == 1;
    var s2 := Step(s1, Enter(c));
    ReachesStep(s0, s1, Enter(c));
    s' := Step(s2, GiveUp(c));
    ReachesStep(s0, s2, GiveUp(c));
  }

  lemma {:induction false} CancelledRequests(s0: State, s: State, stale: Call, k: nat) returns (s': State)
    requires Reaches(s0, s) && Idle(s, stale)
    ensures Reaches(s0, s') && Idle(s', stale) && s'.position == s.position + k
    decreases k
  {
    hide Reaches, Idle;
    if k == 0 {
      s' := s;
    } else {
      var t := CancelledRequest(s0, s, stale);
      s' := CancelledRequests(s0, t, stale, k - 1);
    }
  }

  /** Call 0 draws id 1. */
  lemma FirstCall(maxPending: nat) returns (s: State)
    requires maxPending >= 2
    ensures Reaches(Init(maxPending), s)
    ensures s == Init(maxPending).(conn := Connected, reader := true, writer := true, slots := maxPending - 1,
                                   calls := map[0 := Call(Registered, 1, Unresolved, 0, 1, 1)],
                                   pending := map[1 := 0], issued := 1, position := 1, epoch := 1)
  {
    hide Reaches;
    var s0 := Init(maxPending);
    var s1 := Step(s0, Connect);
    ReachesSelf(s0);
    ReachesStep(s0, s0, Connect);
    var s2 := Step(s1, Admit(0));
    ReachesStep(s0, s1, Admit(0));
    assert FirstFree(s2.position % EVENT_ID, s2.pending.Keys, 1) == 1;
    s := Step(s2, Enter(0));
    ReachesStep(s0, s2, Enter(0));
  }

  /** Call 0 is written but stuck in `drain` because the peer does not read; `close` is cancelled while it
      waits for the old stream, a second `close` ends at once, and the transport connects again.  Call 0
      still holds the write lock and its id. */
  lemma StaleCall(maxPending: nat) returns (s: State)
    requires maxPending >= 2
    ensures Reaches(Init(maxPending), s) && 0 in s.calls && Idle(s, s.calls[0]) && s.position == 1
    ensures s.calls[0].phase.Sent? && s.calls[0].id == 1
  {
    hide Reaches;
    var s0 := Init(maxPending);
    var s3 := FirstCall(maxPending);
    var s4 := Step(s3, Send(0));
    ReachesStep(s0, s3, Send(0));
    var s5 := Step(s4, CloseBegin);
    ReachesStep(s0, s4, CloseBegin);
    var s6 := Step(s5, CloseClear);
    ReachesStep(s0, s5, CloseClear);
    var s7 := Step(s6, CloseAborted);
    ReachesStep(s0, s6, CloseAborted);
    assert s5.pending[1] == 0;
    assert s7.calls == map[0 := Call(Sent, 1, Broken, 0, 1, 1)];
    s := ReopenedCall(maxPending, s7);
  }

  lemma ReopenedCall(maxPending: nat, s7: State) returns (s: State)
    requires Reaches(Init(maxPending), s7) && s7.closing.Open? && s7.slots >= 1 && s7.position == 1 && s7.issued == 1
    requires s7.calls == map[0 := Call(Sent, 1, Broken, 0, 1, 1)] && s7.pending == map[]
    ensures Reaches(Init(maxPending), s) && 0 in s.calls && Idle(s, s.calls[0]) && s.position == 1
    ensures s.calls[0].phase.Sent? && s.calls[0].id == 1
  {
    hide Reaches;
    var s0 := Init(maxPending);
    var s8 := Step(s7, CloseBegin);
    ReachesStep(s0, s7, CloseBegin);
    var s9 := Step(s8, CloseClear);
    ReachesStep(s0, s8, CloseClear);
    var s10 := Step(s9, CloseEnd(true));
    ReachesStep(s0, s9, CloseEnd(true));
    s := Step(s10, Connect);
    ReachesStep(s0, s10, Connect);
  }

  /** After `StaleCall`, 2^32 - 2 requests wait for the write lock and are cancelled, and the next one draws
      id 1 again. */
  lemma SameIdAgain(maxPending: nat) returns (s: State, newer: CallId)
    requires maxPending >= 2
    ensures Reaches(Init(maxPending), s)
    ensures 0 in s.calls && newer in s.calls && newer != 0 && s.closing.Open?
    ensures s.calls[0].phase.Sent? && s.calls[0].id == s.calls[newer].id && s.pending == map[s.calls[0].id := newer]
    ensures s.calls[newer].future.Unresolved?
  {
    hide Reaches;
    var s0 := Init(maxPending);
    var s7 := StaleCall(maxPending);
    var t := CancelledRequests(s0, s7, s7.calls[0], EVENT_ID - 1);
    newer := t.issued;
    var t1 := Step(t, Admit(newer));
    ReachesStep(s0, t, Admit(newer));
    assert FirstFree(t1.position % EVENT_ID, t1.pending.Keys, 1) == 1;
    s := Step(t1, Enter(newer));
    ReachesStep(s0, t1, Enter(newer));
  }

  /** A run in which a `close` leaves a request unresolved: after `SameIdAgain` call 0 gives up, its `finally`
      pops the entry of the newer request, and the transport closes. */
  lemma StalePopIsReachable(maxPending: nat) returns (s: State, newer: CallId)
    requires maxPending >= 2
    ensures Reachable(s, maxPending) && s.conn == Closed
    ensures newer in s.calls && s.calls[newer].future.Unresolved?
  {
    hide Reaches, Reachable;
    var s0 := Init(maxPending);
    var t: State;
    t, newer := SameIdAgain(maxPending);
    var t1 := Step(t, GiveUp(0));
    ReachesStep(s0, t, GiveUp(0));
    assert t1.pending == map[] && t1.calls[newer].future.Unresolved?;
    var t2 := Step(t1, CloseBegin);
    ReachesStep(s0, t1, CloseBegin);
    var t3 := Step(t2, CloseClear);
    ReachesStep(s0, t2, CloseClear);
    s := Step(t3, CloseEnd(false));
    ReachesStep(s0, t3, CloseEnd(false));
    ReachesIsReachable(s, maxPending);
  }

  /** A run in which that happens: call 0 is stuck in `drain` and call 1 waits for the lock when the peer sends
      a bad frame; after a new connect call 0 is cancelled and call 1 writes its request, with its future
      broken, to the new connection.  It raises Disconnected, and the peer's answer fails that connection. */
  lemma LateWriteIsReachable(maxPending: nat, reply: Response) returns (s: State, s': State)
    requires maxPending >= 2 && WellFormed(reply) && reply.requestId == 2
    ensures Reachable(s, maxPending) && s.conn == Connected && s.writer && Enabled(s, Send(1)) && GoesElsewhere(s, 1)
    ensures s.calls[1].future.Broken? && s.calls[1].id == 2
    ensures Reachable(s', maxPending) && s'.conn == Connected && s'.reader && 1 in s'.sent && s'.epoch == s.epoch
    ensures 1 in s'.calls && s'.calls[1].phase == Done(ConnectionLost)
    ensures Step(s', Receive(reply)).conn == Failed
  {
    hide Reaches, Reachable;
    var s0 := Init(maxPending);
    var s3 := FirstCall(maxPending);
    var s4 := Step(s3, Send(0));
    ReachesStep(s0, s3, Send(0));
    var s5 := Step(s4, Admit(1));
    ReachesStep(s0, s4, Admit(1));
    var s6 := SecondCall(maxPending, s5);
    s, s' := FailAndWrite(maxPending, s6);
    ReachesIsReachable(s, maxPending);
    ReachesIsReachable(s', maxPending);
  }

  /** A peer that answers ahead of the request: the future is done, and the request is still written on the
      connection it was registered on. */
  lemma EarlyReplyStaysHome(maxPending: nat, reply: Response) returns (s: State)
    requires maxPending >= 2 && WellFormed(reply) && reply.requestId == 1
    ensures Reachable(s, maxPending) && s.conn == Connected && Enabled(s, Send(0)) && !GoesElsewhere(s, 0)
    ensures s.calls[0].future == Resolved(reply)
  {
    hide Reaches, Reachable;
    var s3 := FirstCall(maxPending);
    s := Step(s3, Receive(reply));
    ReachesStep(Init(maxPending), s3, Receive(reply));
    ReachesIsReachable(s, maxPending);
  }

  lemma SecondCall(maxPending: nat, s5: State) returns (s: State)
    requires Reaches(Init(maxPending), s5) && s5.conn == Connected && s5.writer && s5.position == 1 && s5.epoch == 1
    requires s5.pending == map[1 := 0] && 1 in s5.calls && s5.calls[1].phase.Admitted?
    ensures Reaches(Init(maxPending), s)
    ensures s == s5.(calls := s5.calls[1 := Call(Registered, 2, Unresolved, s5.issued, 2, 1)],
                     pending := map[1 := 0, 2 := 1], issued := s5.issued + 1, position := 2)
  {
    hide Reaches;
    assert FirstFree(s5.position % EVENT_ID, s5.pending.Keys, 1) == 1;
    s := Step(s5, Enter(1));
    ReachesStep(Init(maxPending), s5, Enter(1));
  }

  lemma FailAndWrite(maxPending: nat, s6: State) returns (s: State, s': State)
    requires Reaches(Init(maxPending), s6) && s6.reader && s6.writer && s6.closing.Open? && s6.epoch == 1
    requires s6.calls == map[0 := Call(Sent, 1, Unresolved, 0, 1, 1), 1 := Call(Registered, 2, Unresolved, 1, 2, 1)]
    requires s6.pending == map[1 := 0, 2 := 1]
    ensures Reaches(Init(maxPending), s) && s.conn == Connected && s.writer && Enabled(s, Send(1)) && s.epoch == 2
    ensures s.calls[1] == Call(Registered, 2, Broken, 1, 2, 1)
    ensures Reaches(Init(maxPending), s') && s'.conn == Connected && s'.reader && 1 in s'.sent && s'.epoch == 2
    ensures 1 in s'.calls && s'.calls[1].phase == Done(ConnectionLost) && s'.pending == map[]
  {
    hide Reaches, EnterStep, ReceiveStep;
    var s0 := Init(maxPending);
    var s7 := Step(s6, Break);
    ReachesStep(s0, s6, Break);
    assert s6.pending[1] == 0 && s6.pending[2] == 1;
    assert s7.calls[0].future.Broken? && s7.calls[1].future.Broken?;
    var s8 := Step(s7, Connect);
    ReachesStep(s0, s7, Connect);
    s := Step(s8, GiveUp(0));
    ReachesStep(s0, s8, GiveUp(0));
    var s10 := Step(s, Send(1));
    ReachesStep(s0, s, Send(1));
    s' := Step(s10, Finish(1));
    ReachesStep(s0, s10, Finish(1));
  }

  lemma ReachesIsReachable(s: State, maxPending: nat)
    requires Reaches(Init(maxPending), s)
    ensures Reachable(s, maxPending)
  {
  }
}
