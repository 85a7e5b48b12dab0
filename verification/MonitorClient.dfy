/** The state-changing code of `BinaryMonitorTransport`, proved to take the steps of `MonitorTransport`. */
module MonitorClient {
  import opened Common
  import opened MonitorFrames
  import opened MonitorTransport
  import RequestIds

  class Transport {
    var conn: Conn
    var reader: bool
    var writer: bool
    var closing: Closing
    var pending: map<nat, CallId>
    var slots: nat
    var calls: map<CallId, Call>
    const ids: RequestIds.Allocator
    var issued: nat                        // history, like `position`, `sent` and `epoch`
    var position: nat
    ghost var sent: seq<CallId>
    var epoch: nat

    constructor (maxPending: nat)
      ensures Valid() && View() == Init(maxPending) && fresh(ids)
    {
      conn, reader, writer, closing := NotConnected, false, false, Open;
      pending, slots, calls := map[], maxPending, map[];
      ids := new RequestIds.Allocator();
      issued, position, sent, epoch := 0, 0, [], 0;
    }

    ghost predicate Valid()
      reads this, ids
    {
      ids.next == position % EVENT_ID
    }

    ghost function View(): State
      reads this
    {
      State(conn, reader, writer, closing, pending, slots, calls, issued, position, sent, epoch)
    }

    /** The part of `execute` from its first check to the pending entry. */
    method EnterCall(c: CallId)
      requires Valid() && Enabled(View(), Enter(c))
      modifies this, ids
      ensures Valid() && View() == Step(old(View()), Enter(c))
    {
      hide Cleanup, RequestIds.FirstFree, RequestIds.Probe;
      if conn != Connected || !writer {
        FinishCall(c, ConnectionLost);
        return;
      }
      var probes := RequestIds.FirstFree(ids.next, pending.Keys, 1);
      RequestIds.SameIdAfterCycle(position);
      var id := ids.RequestId(pending.Keys);
      if id.None? {
        position := position + EVENT_ID;
        FinishCall(c, GaveUp);
        return;
      }
      ProbeIsPosition(position, probes);
      position := position + probes;
      calls := calls[c := Call(Registered, id.value, Unresolved, issued, position, epoch)];
      pending := pending[id.value := c];
      issued := issued + 1;
    }

    /** The `finally` of `execute`. */
    method FinishCall(c: CallId, outcome: Outcome)
      requires c in calls && Unfinished(calls[c])
      modifies this`pending, this`calls, this`slots
      ensures View() == Cleanup(old(View()), c, outcome)
    {
      var call := calls[c];
      if InFlight(call) {
        pending := pending - {call.id};
      }
      var future := if call.future.Unresolved? then Cancelled else call.future;
      calls := calls[c := call.(phase := Done(outcome), future := future)];
      slots := slots + 1;
    }

    /** The loops over `tuple(self._pending.values())`. */
    method BreakFutures()
      modifies this`calls
      ensures calls == BreakPending(old(View()))
    {
      var todo := pending.Values;
      while todo != {}
        invariant todo <= pending.Values
        invariant calls.Keys == old(calls).Keys
        invariant forall c :: c in calls ==>
          calls[c] == if c in pending.Values - todo && old(calls)[c].future.Unresolved?
                      then old(calls)[c].(future := Broken) else old(calls)[c]
        decreases |todo|
      {
        var c :| c in todo;
        todo := todo - {c};
        if c in calls && calls[c].future.Unresolved? {
          calls := calls[c := calls[c].(future := Broken)];
        }
      }
    }

    method FailConnection()
      modifies this`conn, this`reader, this`calls
      ensures View() == Fail(old(View()))
    {
      conn := Failed;
      BreakFutures();
      reader := false;
    }

    /** The body of `_read_loop` for a frame that is not an event. */
    method OnReply(reply: Response)
      requires Enabled(View(), Receive(reply))
      modifies this`conn, this`reader, this`calls
      ensures View() == Step(old(View()), Receive(reply))
    {
      if reply.requestId !in pending {
        FailConnection();
        return;
      }
      var c := pending[reply.requestId];
      if c in calls && calls[c].future.Unresolved? {
        calls := calls[c := calls[c].(future := Resolved(reply))];
      }
    }

    /** The part of `close` after the reader task has been awaited, up to `wait_closed`. */
    method ClearOnClose()
      requires Enabled(View(), CloseClear)
      modifies this`calls, this`pending, this`writer, this`closing
      ensures View() == Step(old(View()), CloseClear)
    {
      BreakFutures();
      pending := map[];
      writer := false;
      closing := Draining;
    }
  }
}
