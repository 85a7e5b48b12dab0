/** Framing of the VICE binary monitor, version 2, as `monitor.py` and `monitor_sync.py` use it. */
module MonitorFrames {
  import opened Common
  import opened Bytes

  const MAGIC: Bytes := [2, 2]
  const EVENT_ID: nat := 0xFFFF_FFFF
  const MAX_BODY: nat := 64 * 1024 * 1024

  datatype Response = Response(command: byte, error: byte, requestId: nat, body: Bytes)

  ghost predicate WellFormed(r: Response) {
    r.requestId < U32_LIMIT && |r.body| < U32_LIMIT
  }

  /** What the emulator sends for `r`. */
  function EncodeReply(r: Response): Bytes
    requires r.requestId < U32_LIMIT && |r.body| < U32_LIMIT
  {
    MAGIC + Le32(|r.body|) + [r.command, r.error] + Le32(r.requestId) + r.body
  }

  datatype Read = Frame(reply: Response, rest: Bytes) | Disconnected | BadMagic | TooLong

  /** `read_response` on the bytes still to come, `limit` being the longest body accepted. */
  function ReadResponse(stream: Bytes, limit: nat): Read {
    if |stream| < 12 then Disconnected
    else if stream[..2] != MAGIC then BadMagic
    else
      var size := FromLe32(stream, 2);
      if size > limit then TooLong
      else if |stream| < 12 + size then Disconnected
      else Frame(Response(stream[6], stream[7], FromLe32(stream, 8), stream[12..12 + size]), stream[12 + size..])
  }

  /** A request on the wire: 11 header bytes, then the body. */
  function RequestBytes(command: byte, requestId: nat, body: Bytes): Bytes
    requires requestId < U32_LIMIT && |body| < U32_LIMIT
  {
    MAGIC + Le32(|body|) + Le32(requestId) + [command] + body
  }

  /** `encode_request`; None where it raises ValueError. */
  function EncodeRequest(command: int, requestId: int, body: Bytes): Option<Bytes> {
    if !(0 <= command <= 255) || !(0 <= requestId < EVENT_ID) || |body| > MAX_BODY then None
    else Some(RequestBytes(command, requestId, body))
  }

  datatype Request = Request(command: byte, requestId: nat, body: Bytes)

  /** The emulator's side of a request: 11 header bytes, then the body. */
  function ReadRequest(stream: Bytes): Option<(Request, Bytes)> {
    if |stream| < 11 || stream[0] != 2 || stream[1] != 2 then None
    else
      var size := FromLe32(stream, 2);
      if |stream| < 11 + size then None
      else Some((Request(stream[10], FromLe32(stream, 6), stream[11..11 + size]), stream[11 + size..]))
  }

  /** A frame is read off the front of a stream exactly when the stream starts with its encoding. */
  lemma ReadInvertsEncode(stream: Bytes, r: Response, rest: Bytes, limit: nat)
    requires WellFormed(r) && |r.body| <= limit
    ensures ReadResponse(stream, limit) == Frame(r, rest) <==> stream == EncodeReply(r) + rest
  {
    var e := EncodeReply(r);
    if stream == e + rest {
      assert stream[..2] == MAGIC;
      assert stream[2..6] == Le32(|r.body|);
      assert stream[8..12] == Le32(r.requestId);
      Le32RoundTrip(stream, 2, |r.body|);
      Le32RoundTrip(stream, 8, r.requestId);
      assert stream[12..12 + |r.body|] == r.body;
      assert stream[12 + |r.body|..] == rest;
    }
    if ReadResponse(stream, limit) == Frame(r, rest) {
      Le32RoundTrip(stream, 2, |r.body|);
      Le32RoundTrip(stream, 8, r.requestId);
      assert stream == stream[..2] + stream[2..6] + [stream[6], stream[7]] + stream[8..12]
                       + stream[12..12 + |r.body|] + stream[12 + |r.body|..];
    }
  }

  /** A stream that ends inside a frame is a lost connection, wherever it ends; a frame with a longer body
      than accepted is refused once its header is there; so is anything that does not start with 2, 2. */
  lemma BadFrames(r: Response, cut: nat, stream: Bytes, limit: nat)
    requires WellFormed(r)
    ensures cut < 12 || (cut < |EncodeReply(r)| && |r.body| <= limit) ==>
      cut < |EncodeReply(r)| && ReadResponse(EncodeReply(r)[..cut], limit) == Disconnected
    ensures 12 <= cut <= |EncodeReply(r)| && |r.body| > limit ==>
      ReadResponse(EncodeReply(r)[..cut], limit) == TooLong
    ensures ReadResponse(stream, limit) == BadMagic <==> |stream| >= 12 && (stream[0] != 2 || stream[1] != 2)
  {
    var e := EncodeReply(r);
    if 12 <= cut <= |e| {
      assert e[..cut][2..6] == Le32(|r.body|) && e[..cut][..2] == MAGIC;
      Le32RoundTrip(e[..cut], 2, |r.body|);
    }
    if |stream| >= 12 { assert stream[..2] == [stream[0], stream[1]]; }
  }

  /** The emulator reads a request back, whatever follows it. */
  lemma RequestBytesRoundTrip(command: byte, requestId: nat, body: Bytes, rest: Bytes)
    requires requestId < U32_LIMIT && |body| < U32_LIMIT
    ensures ReadRequest(RequestBytes(command, requestId, body) + rest) == Some((Request(command, requestId, body), rest))
  {
    var stream := RequestBytes(command, requestId, body) + rest;
    assert stream[..2] == MAGIC;
    assert stream[2..6] == Le32(|body|);
    assert stream[6..10] == Le32(requestId);
    Le32RoundTrip(stream, 2, |body|);
    Le32RoundTrip(stream, 6, requestId);
    assert stream[11..11 + |body|] == body;
    assert stream[11 + |body|..] == rest;
  }

  /** `encode_request` accepts exactly the requests the protocol allows, and the emulator reads them back. */
  lemma RequestRoundTrip(command: int, requestId: int, body: Bytes, rest: Bytes)
    ensures EncodeRequest(command, requestId, body).Some? <==>
            0 <= command < 256 && 0 <= requestId < 0xFFFF_FFFF && |body| <= 67_108_864
    ensures
      var e := EncodeRequest(command, requestId, body);
      e.Some? ==> ReadRequest(e.value + rest) == Some((Request(command, requestId, body), rest))
  {
    if EncodeRequest(command, requestId, body).Some? {
      RequestBytesRoundTrip(command, requestId, body, rest);
    }
  }
}
