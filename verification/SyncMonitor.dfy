/** The synchronous client of `monitor_sync.py`: reading frames under any fragmentation, and `call`. */
module SyncMonitor {
  import opened Common
  import opened Bytes
  import opened MonitorFrames

  /** What `call` comes to: the reply, or the exception it raises. */
  datatype CallResult =
    | Reply(reply: Response)
    | ConnectionClosed
    | InvalidHeader
    | IdMismatch
    | CommandFailed(error: byte)

  /** `call` after the request was sent: the result, the events it put aside, and the bytes it left. */
  function AwaitReply(stream: Bytes, id: nat): (CallResult, seq<Response>, Bytes)
    decreases |stream|
  {
    match ReadResponse(stream, U32_LIMIT)
    case Frame(reply, rest) =>
      if reply.requestId == EVENT_ID then
        var (result, events, left) := AwaitReply(rest, id);
        (result, [reply] + events, left)
      else if reply.requestId != id then (IdMismatch, [], rest)
      else if reply.error != 0 then (CommandFailed(reply.error), [], rest)
      else (Reply(reply), [], rest)
    case BadMagic => (InvalidHeader, [], stream[12..])
    case _ => (ConnectionClosed, [], [])
  }

  function EncodeReplies(replies: seq<Response>): Bytes
    requires forall r :: r in replies ==> r.requestId < U32_LIMIT && |r.body| < U32_LIMIT
  {
    if replies == [] then [] else EncodeReply(replies[0]) + EncodeReplies(replies[1..])
  }

  ghost predicate AllEvents(replies: seq<Response>) {
    forall r :: r in replies ==> WellFormed(r) && r.requestId == EVENT_ID
  }

  /** Events ahead of the reply are put aside in order, and `call` goes by the first frame that is none. */
  lemma {:induction false} FirstNonEventDecides(events: seq<Response>, reply: Response, rest: Bytes, id: nat)
    requires AllEvents(events) && WellFormed(reply) && reply.requestId != EVENT_ID
    ensures
      AwaitReply(EncodeReplies(events) + EncodeReply(reply) + rest, id) ==
      (if reply.requestId != id then IdMismatch
       else if reply.error != 0 then CommandFailed(reply.error)
       else Reply(reply), events, rest)
    decreases |events|
  {
    hide ReadResponse, EncodeReply;
    var stream := EncodeReplies(events) + EncodeReply(reply) + rest;
    if events == [] {
      assert stream == EncodeReply(reply) + rest;
      ReadInvertsEncode(stream, reply, rest, U32_LIMIT);
    } else {
      var tail := EncodeReplies(events[1..]) + EncodeReply(reply) + rest;
      assert stream == EncodeReply(events[0]) + tail;
      ReadInvertsEncode(stream, events[0], tail, U32_LIMIT);
      FirstNonEventDecides(events[1..], reply, rest, id);
      assert events == [events[0]] + events[1..];
    }
  }

  /** Events ahead of what is no frame are put aside too: a wrong header and a lost connection each raise their
      own exception. */
  lemma {:induction false} FirstBadFrameRaises(events: seq<Response>, rest: Bytes, id: nat)
    requires AllEvents(events)
    ensures |rest| < 12 ==> AwaitReply(EncodeReplies(events) + rest, id) == (ConnectionClosed, events, [])
    ensures |rest| >= 12 && (rest[0] != 2 || rest[1] != 2) ==>
      AwaitReply(EncodeReplies(events) + rest, id) == (InvalidHeader, events, rest[12..])
    decreases |events|
  {
    hide ReadResponse, EncodeReply;
    var stream := EncodeReplies(events) + rest;
    if events == [] {
      assert stream == rest;
      NoFrame(rest);
    } else {
      var tail := EncodeReplies(events[1..]) + rest;
      assert stream == EncodeReply(events[0]) + tail;
      ReadInvertsEncode(stream, events[0], tail, U32_LIMIT);
      FirstBadFrameRaises(events[1..], rest, id);
      assert events == [events[0]] + events[1..];
    }
  }

  lemma NoFrame(stream: Bytes)
    ensures |stream| < 12 ==> ReadResponse(stream, U32_LIMIT) == Disconnected
    ensures |stream| >= 12 && (stream[0] != 2 || stream[1] != 2) ==> ReadResponse(stream, U32_LIMIT) == BadMagic
  {
    if |stream| >= 12 { assert stream[..2] == [stream[0], stream[1]]; }
  }

  lemma ReadShortens(stream: Bytes, limit: nat)
    ensures var r := ReadResponse(stream, limit);
      r.Frame? ==> |r.rest| < |stream| && WellFormed(r.reply) && |r.reply.body| <= limit
    ensures ReadResponse(stream, limit).BadMagic? ==> |stream| >= 12
    ensures limit >= U32_LIMIT ==> !ReadResponse(stream, limit).TooLong?
  {
  }

  /** Whatever bytes arrive: a reply is returned only if they start with the events put aside followed by
      exactly that reply, error-free and carrying the id, and what is left follows it. */
  lemma {:induction false} ReplyMeansWholeFrames(stream: Bytes, id: nat)
    requires AwaitReply(stream, id).0.Reply?
    ensures
      var (result, events, left) := AwaitReply(stream, id);
      && AllEvents(events) && WellFormed(result.reply)
      && result.reply.requestId == id && result.reply.error == 0 && id != EVENT_ID
      && stream == EncodeReplies(events) + EncodeReply(result.reply) + left
    decreases |stream|
  {
    hide ReadResponse, EncodeReply;
    ReadShortens(stream, U32_LIMIT);
    var Frame(reply, rest) := ReadResponse(stream, U32_LIMIT);
    ReadInvertsEncode(stream, reply, rest, U32_LIMIT);
    var (result, events, left) := AwaitReply(stream, id);
    if reply.requestId == EVENT_ID {
      ReplyMeansWholeFrames(rest, id);
      var (_, events', _) := AwaitReply(rest, id);
      assert events[1..] == events';
      assert stream == EncodeReply(reply) + (EncodeReplies(events') + EncodeReply(result.reply) + left);
    } else {
      assert stream == EncodeReplies(events) + EncodeReply(reply) + left;
    }
  }

  /** A call whose id is the event marker never gets its reply, nor an error: both are filed as events. */
  lemma {:induction false} EventIdNeverReturns(stream: Bytes)
    ensures !AwaitReply(stream, EVENT_ID).0.Reply? && !AwaitReply(stream, EVENT_ID).0.CommandFailed?
    decreases |stream|
  {
    match ReadResponse(stream, U32_LIMIT)
    case Frame(reply, rest) => EventIdNeverReturns(rest);
    case _ =>
  }

  /** A stream socket: bytes come in pieces of any size. */
  class Socket {
    var incoming: Bytes                    // all the peer will send before it closes
    var outgoing: Bytes

    constructor (incoming: Bytes)
      ensures this.incoming == incoming && outgoing == []
    {
      this.incoming, outgoing := incoming, [];
    }

    /** `recv`: between 1 and `max` bytes, however the network cut them; none once the peer has closed. */
    method Recv(max: nat) returns (x: Bytes)
      requires max > 0
      modifies this`incoming
      ensures |x| <= max && old(incoming) == x + incoming
      ensures x == [] <==> old(incoming) == []
    {
      if incoming == [] {
        return [];
      }
      var n: nat :| 1 <= n <= max && n <= |incoming|;
      x := incoming[..n];
      incoming := incoming[n..];
    }
  }

  class BinaryMonitor {
    const socket: Socket
    var id: nat
    var events: seq<Response>
    ghost var calls: nat                   // calls made so far

    constructor (socket: Socket)
      ensures this.socket == socket && id == 0 && events == [] && calls == 0
    {
      this.socket := socket;
      id, events, calls := 0, [], 0;
    }

    ghost predicate Valid()
      reads this
    {
      id == calls % U32_LIMIT
    }

    /** `_exact`: exactly the next `n` bytes under any fragmentation; None if the stream ends before. */
    method Exact(n: nat) returns (r: Option<Bytes>)
      modifies socket`incoming
      ensures r.Some? <==> n <= |old(socket.incoming)|
      ensures r.Some? ==> r.value == old(socket.incoming)[..n] && socket.incoming == old(socket.incoming)[n..]
      ensures r.None? ==> socket.incoming == []
    {
      var b: Bytes := [];
      while |b| < n
        invariant |b| <= n && old(socket.incoming) == b + socket.incoming
        decreases n - |b|
      {
        var x := socket.Recv(n - |b|);
        if x == [] {
          return None;
        }
        b := b + x;
      }
      return Some(b);
    }

    /** One frame, as `call` reads it. */
    method ReadFrame() returns (r: Read)
      modifies socket`incoming
      ensures r == ReadResponse(old(socket.incoming), U32_LIMIT)
      ensures socket.incoming ==
        match r
        case Frame(_, rest) => rest
        case BadMagic => old(socket.incoming)[12..]
        case _ => []
    {
      ghost var stream := socket.incoming;
      var h := Exact(12);
      if h.None? {
        return Disconnected;
      }
      if h.value[..2] != MAGIC {
        assert stream[..2] == h.value[..2];
        return BadMagic;
      }
      var n := FromLe32(h.value, 2);
      var body := Exact(n);
      assert stream[..2] == h.value[..2];
      if body.None? {
        return Disconnected;
      }
      assert stream[12..][..n] == stream[12..12 + n] && stream[12..][n..] == stream[12 + n..];
      return Frame(Response(h.value[6], h.value[7], FromLe32(h.value, 8), body.value), socket.incoming);
    }

    /** `call`: sends one request under the next id, then reads frames until one settles it. */
    method Call(command: byte, body: Bytes) returns (r: CallResult)
      requires Valid() && |body| < U32_LIMIT
      modifies this, socket
      ensures Valid() && calls == old(calls) + 1
      ensures id == (old(calls) + 1) % U32_LIMIT
      ensures socket.outgoing == old(socket.outgoing) + RequestBytes(command, id, body)
      ensures old(events) <= events
      ensures (r, events[|old(events)|..], socket.incoming) == AwaitReply(old(socket.incoming), id)
      ensures (old(calls) + 1) % U32_LIMIT == EVENT_ID ==> !r.Reply? && !r.CommandFailed?
    {
      hide RequestBytes, ReadResponse;
      EventIdNeverReturns(socket.incoming);
      id := (id + 1) % U32_LIMIT;
      calls := calls + 1;
      var rid := id;
      socket.outgoing := socket.outgoing + RequestBytes(command, rid, body);
      ghost var stream := socket.incoming;
      ghost var aside: seq<Response> := [];
      assert aside + AwaitReply(stream, rid).1 == AwaitReply(stream, rid).1;
      while true
        invariant Valid() && calls == old(calls) + 1 && id == rid
        invariant socket.outgoing == old(socket.outgoing) + RequestBytes(command, rid, body)
        invariant events == old(events) + aside
        invariant
          var (result, rest, left) := AwaitReply(socket.incoming, rid);
          AwaitReply(stream, rid) == (result, aside + rest, left)
        decreases |socket.incoming|
      {
        ghost var before := socket.incoming;
        var f := ReadFrame();
        ReadShortens(before, U32_LIMIT);
        assert aside + [] == aside;
        match f
        case Frame(reply, _) =>
          if reply.requestId == EVENT_ID {
            assert aside + ([reply] + AwaitReply(socket.incoming, rid).1)
                == aside + [reply] + AwaitReply(socket.incoming, rid).1;
            events := events + [reply];
            aside := aside + [reply];
          } else if reply.requestId != rid {
            return IdMismatch;
          } else if reply.error != 0 {
            return CommandFailed(reply.error);
          } else {
            return Reply(reply);
          }
        case BadMagic => return InvalidHeader;
        case _ => return ConnectionClosed;
      }
    }
  }

  /** Against a peer that answers the call, after any events, the call is settled by that answer exactly if
      its number is not one less than a multiple of 2^32: the id is then not the event marker, the reply or
      its error comes back and the events before it are kept. */
  method CallAnswered(m: BinaryMonitor, command: byte, body: Bytes, events: seq<Response>, reply: Response, rest: Bytes)
    returns (r: CallResult)
    requires m.Valid() && |body| < U32_LIMIT
    requires AllEvents(events) && WellFormed(reply) && reply.requestId == (m.calls + 1) % U32_LIMIT
    requires m.socket.incoming == EncodeReplies(events) + EncodeReply(reply) + rest
    modifies m, m.socket
    ensures r.Reply? || r.CommandFailed? <==> (old(m.calls) + 1) % U32_LIMIT != EVENT_ID
    ensures (old(m.calls) + 1) % U32_LIMIT != EVENT_ID ==>
      && r == (if reply.error == 0 then Reply(reply) else CommandFailed(reply.error))
      && m.events == old(m.events) + events && m.socket.incoming == rest
  {
    hide AwaitReply, RequestBytes, EncodeReplies, EncodeReply, AllEvents;
    if reply.requestId != EVENT_ID {
      FirstNonEventDecides(events, reply, rest, reply.requestId);
    }
    r := m.Call(command, body);
  }
}
