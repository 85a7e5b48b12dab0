/** The bounded, drop-oldest event queue of `monitor.py`: the event branch of `_read_loop`, and `next_event`. */
module MonitorEvents {
  import opened Common
  import opened MonitorFrames

  class EventQueue {
    const maxEvents: nat
    var queue: seq<Response>
    var droppedEvents: nat
    ghost var received: seq<Response>      // every event frame read so far
    ghost var delivered: seq<nat>          // positions in `received` of the events handed out, in order

    /** The source's check on the bound: None where it raises ValueError. */
    static method New(maxEvents: int) returns (q: Option<EventQueue>)
      ensures q.Some? <==> maxEvents >= 1
      ensures q.Some? ==> q.value.Valid() && q.value.maxEvents == maxEvents && q.value.queue == []
    {
      if maxEvents < 1 {
        return None;
      }
      var queue := new EventQueue(maxEvents);
      return Some(queue);
    }

    constructor (maxEvents: nat)
      requires maxEvents >= 1
      ensures this.maxEvents == maxEvents && Valid()
      ensures queue == [] && droppedEvents == 0 && received == [] && delivered == []
    {
      this.maxEvents := maxEvents;
      queue, droppedEvents, received, delivered := [], 0, [], [];
    }

    /** The queue is a suffix of what was received and never too long; everything else received was
        delivered, in arrival order, or counted as dropped. */
    ghost predicate Valid()
      reads this
    {
      && 1 <= maxEvents && |queue| <= maxEvents
      && |received| == |delivered| + |queue| + droppedEvents
      && queue == received[|received| - |queue|..]
      && (forall i, j :: 0 <= i < j < |delivered| ==> delivered[i] < delivered[j])
      && (forall i :: 0 <= i < |delivered| ==> delivered[i] < |received| - |queue|)
    }

    method OnEvent(reply: Response)
      requires Valid() && reply.requestId == EVENT_ID
      modifies this
      ensures Valid() && received == old(received) + [reply] && delivered == old(delivered)
      ensures queue == (if |old(queue)| == maxEvents then old(queue)[1..] else old(queue)) + [reply]
      ensures droppedEvents == old(droppedEvents) + if |old(queue)| == maxEvents then 1 else 0
    {
      if |queue| == maxEvents {
        queue := queue[1..];
        droppedEvents := droppedEvents + 1;
      }
      queue := queue + [reply];
      received := received + [reply];
    }

    /** None stands for waiting, or for the timeout. */
    method NextEvent() returns (r: Option<Response>)
      requires Valid()
      modifies this
      ensures Valid() && received == old(received) && droppedEvents == old(droppedEvents)
      ensures r.None? <==> old(queue) == []
      ensures r.Some? ==>
        && queue == old(queue)[1..] && |delivered| == |old(delivered)| + 1
        && delivered[..|old(delivered)|] == old(delivered)
        && received[delivered[|old(delivered)|]] == r.value
      ensures r.None? ==> queue == old(queue) && delivered == old(delivered)
    {
      if queue == [] {
        return None;
      }
      r := Some(queue[0]);
      delivered := delivered + [|received| - |queue|];
      queue := queue[1..];
    }
  }
}
