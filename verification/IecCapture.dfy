/**
 The incremental IEC trace reader of `iec_capture.py`.  A capture starts at the end of an append-only
 file; each read drains what has been appended, at most `limit` events of it.
 */
module IecCapture {
  import opened Common
  import opened Bytes
  import opened IecLines

  /** The bookkeeping of one capture. */
  datatype Session = Session(offset: nat, pending: Bytes, sequence: nat, malformed: nat, active: bool)

  /** A drain returns numbered events, or `_normalize` raises in the middle of it. */
  datatype Drained<+E> = Drained(events: seq<(nat, E)>) | Raised

  function Number<E>(first: nat, events: seq<E>): (r: seq<(nat, E)>)
    ensures |r| == |events|
    ensures forall i :: 0 <= i < |events| ==> r[i] == (first + i, events[i])
  {
    seq(|events|, i requires 0 <= i < |events| => (first + i, events[i]))
  }

  predicate Complete(s: Session) { s.malformed == 0 && s.pending == [] }

  /** Bytes of the file that went into whole consumed lines, counted from the start of the file. */
  function Consumed(s: Session): int { s.offset - |s.pending| }

  /** `_drain`, as a function of the session, the file as it is now, and the limit. */
  function DrainStep<E>(s: Session, file: Bytes, limit: int, loads: Bytes -> Parsed<E>): (Session, Drained<E>)
    requires s.offset <= |file|
  {
    if limit < 1 then (s, Drained([]))
    else
      var data := s.pending + file[s.offset..];
      var lines := Lines(data);
      var k := Cut(lines, limit, loads);
      var events := Events(lines[..k], loads);
      var malformed := s.malformed + BadCount(lines[..k], loads);
      if k < |lines| && |events| < limit then
        (Session(|file|, Tail(data), s.sequence + |events| + 1, malformed, s.active), Raised)
      else
        (Session(|file|, Unlines(lines[k..]) + Tail(data), s.sequence + |events|, malformed, s.active),
         Drained(Number(s.sequence + 1, events)))
  }

  /** What the session has consumed are whole lines from `start` on, and the rest of what it read is pending. */
  ghost predicate Shape(s: Session, start: nat, file: Bytes) {
    && start <= Consumed(s) && s.offset <= |file|
    && s.pending == file[Consumed(s)..s.offset]
    && WholeLines(file[start..Consumed(s)])
  }

  /** The lines a read has in front of it. */
  function Facing(s: Session, file: Bytes): seq<Bytes>
    requires s.offset <= |file|
  {
    Lines(s.pending + file[s.offset..])
  }

  /** The session agrees with one parse of the file from `start` to the end of what it consumed. */
  ghost predicate Synced<E>(s: Session, start: nat, file: Bytes, loads: Bytes -> Parsed<E>) {
    && Shape(s, start, file)
    && s.sequence == |Events(Lines(file[start..Consumed(s)]), loads)|
    && s.malformed == BadCount(Lines(file[start..Consumed(s)]), loads)
    && (forall l :: l in Lines(file[start..Consumed(s)]) ==> !Raises(l, loads))
  }

  /** The events of the whole file from `start`, parsed at once. */
  function WholeParse<E>(file: Bytes, start: nat, loads: Bytes -> Parsed<E>): seq<E>
    requires start <= |file|
  {
    Events(Lines(file[start..]), loads)
  }

  lemma StartSynced<E>(file: Bytes, loads: Bytes -> Parsed<E>)
    ensures Synced(Session(|file|, [], 0, 0, true), |file|, file, loads)
  {
    assert file[|file|..|file|] == [];
  }

  lemma AppendKeepsSynced<E>(s: Session, start: nat, file: Bytes, more: Bytes, loads: Bytes -> Parsed<E>)
    requires Synced(s, start, file, loads)
    ensures Synced(s, start, file + more, loads)
  {
    assert (file + more)[Consumed(s)..s.offset] == file[Consumed(s)..s.offset];
    assert (file + more)[start..Consumed(s)] == file[start..Consumed(s)];
  }

  /** The lines still to consume, and how they continue the ones already consumed. */
  lemma Remaining<E>(s: Session, start: nat, file: Bytes, loads: Bytes -> Parsed<E>)
    requires Synced(s, start, file, loads)
    ensures s.pending + file[s.offset..] == file[Consumed(s)..]
    ensures Lines(file[start..]) == Lines(file[start..Consumed(s)]) + Lines(file[Consumed(s)..])
    ensures Tail(file[start..]) == Tail(file[Consumed(s)..])
    ensures WholeParse(file, start, loads) ==
            Events(Lines(file[start..Consumed(s)]), loads) + Events(Lines(file[Consumed(s)..]), loads)
  {
    var done, todo := file[start..Consumed(s)], file[Consumed(s)..];
    assert s.pending + file[s.offset..] == todo;
    assert file[start..] == done + todo;
    LinesConcat(done, todo);
    EventsAppend(Lines(done), Lines(todo), loads);
  }

  lemma CutPrefix<E>(lines: seq<Bytes>, k: nat, loads: Bytes -> Parsed<E>)
    requires k <= |lines|
    ensures Events(lines, loads) == Events(lines[..k], loads) + Events(lines[k..], loads)
    ensures Unlines(lines) == Unlines(lines[..k]) + Unlines(lines[k..])
  {
    hide Events, Unlines, BadCount;
    assert lines == lines[..k] + lines[k..];
    EventsAppend(lines[..k], lines[k..], loads);
    UnlinesAppend(lines[..k], lines[k..]);
  }

  /** Consuming the bytes `taken` moves the cut between consumed and remaining bytes by their number. */
  lemma SliceConsumed(file: Bytes, start: nat, cut: nat, taken: Bytes, left: Bytes)
    requires start <= cut <= |file| && file[cut..] == taken + left
    ensures
      var cut' := |file| - |left|;
      && start <= cut + |taken| == cut' <= |file|
      && file[cut'..] == left && file[start..cut'] == file[start..cut] + taken
  {
    var todo := file[cut..];
    assert file[cut..][|taken|..] == left;
    assert file[start..] == file[start..cut] + todo;
    assert todo[..|taken|] == taken;
  }

  /** Consuming the first `k` lines in front of the session, and keeping the rest. */
  lemma ConsumeLines(s: Session, s': Session, start: nat, file: Bytes, k: nat)
    requires Shape(s, start, file)
    requires k <= |Facing(s, file)| && s'.offset == |file|
    requires s'.pending == Unlines(Facing(s, file)[k..]) + Tail(s.pending + file[s.offset..])
    ensures Shape(s', start, file)
    ensures
      var taken := Facing(s, file)[..k];
      Lines(file[start..Consumed(s')]) == Lines(file[start..Consumed(s)]) + taken
  {
    hide Lines, Tail, Unlines;
    var todo := file[Consumed(s)..];
    assert s.pending + file[s.offset..] == todo;
    var lines := Lines(todo);
    var done, taken := file[start..Consumed(s)], Unlines(lines[..k]);
    UnlinesLines(todo);
    UnlinesAppend(lines[..k], lines[k..]);
    assert lines == lines[..k] + lines[k..];
    UnlinesWhole(lines[..k]);
    assert todo == taken + s'.pending;
    SliceConsumed(file, start, Consumed(s), taken, s'.pending);
    assert file[Consumed(s')..|file|] == file[Consumed(s')..];
    LinesConcat(done, taken);
    WholeJoin(done, taken);
  }

  lemma WholeJoin(a: Bytes, b: Bytes)
    requires WholeLines(a) && WholeLines(b)
    ensures WholeLines(a + b)
  {
  }

  /** Consuming `k` whole lines of what remains keeps the session in step with the file. */
  lemma ConsumeKeepsSynced<E>(s: Session, s': Session, start: nat, file: Bytes, k: nat, loads: Bytes -> Parsed<E>)
    requires Synced(s, start, file, loads)
    requires var lines := Lines(file[Consumed(s)..]);
      && k <= |lines| && (forall i :: 0 <= i < k ==> !Raises(lines[i], loads))
      && s'.offset == |file| && s'.pending == Unlines(lines[k..]) + Tail(file[Consumed(s)..])
      && s'.sequence == s.sequence + |Events(lines[..k], loads)|
      && s'.malformed == s.malformed + BadCount(lines[..k], loads)
    ensures Synced(s', start, file, loads)
  {
    hide Lines, Tail, Unlines, Events, BadCount, Raises, WholeLines;
    assert s.pending + file[s.offset..] == file[Consumed(s)..];
    ConsumeLines(s, s', start, file, k);
    EventsAppend(Lines(file[start..Consumed(s)]), Facing(s, file)[..k], loads);
  }

  /** A drain that returns gives exactly the next min(limit, remaining) events of the one-shot parse,
      numbered on from the last, and stays in step with the file. */
  lemma DrainReturnsNext<E>(s: Session, start: nat, file: Bytes, limit: int, loads: Bytes -> Parsed<E>)
    requires Synced(s, start, file, loads) && limit >= 1
    requires DrainStep(s, file, limit, loads).1.Drained?
    ensures
      var (s', r) := DrainStep(s, file, limit, loads);
      var whole := WholeParse(file, start, loads);
      && Synced(s', start, file, loads) && s'.offset == |file| && s'.active == s.active
      && s.sequence <= s'.sequence <= |whole|
      && s'.sequence == (if limit <= |whole| - s.sequence then s.sequence + limit else |whole|)
      && r.events == Number(s.sequence + 1, whole[s.sequence..s'.sequence])
  {
    hide Synced, Lines, Tail, Unlines, Events, Cut, BadCount;
    SequenceCounts(s, start, file, loads);
    var (s', r) := DrainStep(s, file, limit, loads);
    var todo := file[Consumed(s)..];
    Remaining(s, start, file, loads);
    var lines := Lines(todo);
    var k := Cut(lines, limit, loads);
    CutTakesNext(lines, limit, loads);
    CutPrefix(lines, k, loads);
    ConsumeKeepsSynced(s, s', start, file, k, loads);
    var whole := WholeParse(file, start, loads);
    assert whole[s.sequence..s'.sequence] == Events(lines[..k], loads);
    if k == |lines| {
      assert lines[..k] == lines;
    }
  }

  lemma SequenceCounts<E>(s: Session, start: nat, file: Bytes, loads: Bytes -> Parsed<E>)
    requires Synced(s, start, file, loads)
    ensures start <= Consumed(s) <= s.offset <= |file|
    ensures s.sequence == |Events(Lines(file[start..Consumed(s)]), loads)|
  {
  }

  /** A drain raises exactly when a line on which `_normalize` raises comes before the limit is reached. */
  lemma DrainRaisesIff<E>(s: Session, start: nat, file: Bytes, limit: int, loads: Bytes -> Parsed<E>)
    requires Synced(s, start, file, loads) && limit >= 1
    ensures
      var lines := Lines(file[Consumed(s)..]);
      DrainStep(s, file, limit, loads).1.Raised? <==>
      exists i :: 0 <= i < |lines| && Raises(lines[i], loads) && |Events(lines[..i], loads)| < limit
  {
    hide Synced, Lines, Tail, Unlines, Events, Cut, BadCount, Raises;
    Remaining(s, start, file, loads);
    SequenceCounts(s, start, file, loads);
    CutRaisesIff(Lines(file[Consumed(s)..]), limit, loads);
  }

  /** A raising line ahead of the limit-th event is what the cut stops at. */
  lemma CutRaisesIff<E>(lines: seq<Bytes>, limit: nat, loads: Bytes -> Parsed<E>)
    ensures
      var k := Cut(lines, limit, loads);
      (k < |lines| && |Events(lines[..k], loads)| < limit) <==>
      exists i :: 0 <= i < |lines| && Raises(lines[i], loads) && |Events(lines[..i], loads)| < limit
  {
    hide Events, Cut, Raises;
    var k := Cut(lines, limit, loads);
    CutTakesNext(lines, limit, loads);
    forall i | 0 <= i < |lines| && Raises(lines[i], loads)
      ensures k <= i && |Events(lines[..k], loads)| <= |Events(lines[..i], loads)|
    {
      assert lines[..i][..k] == lines[..k];
      CutPrefix(lines[..i], k, loads);
    }
  }

  /** One drain, line by line: it takes the first `k` lines in front of it.  On those, each record on a line
      that is not all white space is one event, `at` saying where, each such line that is no JSON counts as
      malformed, and no other line counts.  It stops at the limit-th event, at the end of the lines, or in
      front of the first record on which `dict(...)` raises. */
  lemma DrainLineByLine<E>(s: Session, file: Bytes, limit: int, loads: Bytes -> Parsed<E>)
    returns (k: nat, at: seq<nat>, events: seq<E>)
    requires s.offset <= |file| && limit >= 1
    ensures
      var (s', r) := DrainStep(s, file, limit, loads);
      var lines := Lines(s.pending + file[s.offset..]);
      && k <= |lines| && RecordsAt(at, events, lines[..k], loads) && |at| <= limit
      && s'.malformed == s.malformed + |TornLines(lines[..k], loads)|
      && (forall i :: 0 <= i < k && Speaks(lines[i]) ==> !loads(lines[i]).Rejected?)
      && (r.Raised? <==> k < |lines| && |at| < limit)
      && s'.offset == |file| && s'.active == s.active
      && (r.Raised? ==>
            && Speaks(lines[k]) && loads(lines[k]).Rejected?
            && s'.sequence == s.sequence + |at| + 1 && s'.pending == Tail(s.pending + file[s.offset..]))
      && (r.Drained? ==>
            && |r.events| == |at| && s'.sequence == s.sequence + |at|
            && (|at| == limit ==> at[limit - 1] == k - 1)
            && s'.pending == Unlines(lines[k..]) + Tail(s.pending + file[s.offset..])
            && forall j :: 0 <= j < |at| ==> r.events[j] == (s.sequence + 1 + j, events[j]))
  {
    hide Lines, Tail, Unlines, Events, Cut, BadCount, Speaks, Blank, TornLines, RecordsAt;
    var lines := Lines(s.pending + file[s.offset..]);
    k := Cut(lines, limit, loads);
    events := Events(lines[..k], loads);
    CutTakesNext(lines, limit, loads);
    at := EventsAreRecords(lines[..k], loads);
    RecordsSized(at, events, lines[..k], loads);
    BadCountIsTorn(lines[..k], loads);
    forall i | 0 <= i < |lines| ensures Speaks(lines[i]) <==> !Blank(lines[i]) {
      SpeaksIff(lines[i]);
    }
    if |at| == limit {
      LastRecord(at, events, lines[..k], loads);
    }
  }

  lemma RecordsSized<E>(at: seq<nat>, events: seq<E>, lines: seq<Bytes>, loads: Bytes -> Parsed<E>)
    requires RecordsAt(at, events, lines, loads)
    ensures |at| == |events|
  {
  }

  /** If the last line holds a record, it is the last one listed. */
  lemma LastRecord<E>(at: seq<nat>, events: seq<E>, lines: seq<Bytes>, loads: Bytes -> Parsed<E>)
    requires RecordsAt(at, events, lines, loads) && lines != []
    requires Speaks(lines[|lines| - 1]) && loads(lines[|lines| - 1]).Record?
    ensures at != [] && at[|at| - 1] == |lines| - 1
  {
    assert |lines| - 1 in at;
  }

  /** After a raise every line present in the file is skipped for good, returned or not, and the capture
      still calls itself complete if nothing was malformed and the file ended in a newline. */
  lemma RaiseSkipsLines<E>(s: Session, start: nat, file: Bytes, limit: int, loads: Bytes -> Parsed<E>, more: Bytes)
    requires Synced(s, start, file, loads) && limit >= 1
    requires DrainStep(s, file, limit, loads).1.Raised?
    ensures
      var s' := DrainStep(s, file, limit, loads).0;
      && Lines(file[start..] + more) == Lines(file[start..]) + Lines(s'.pending + (file + more)[s'.offset..])
      && (Complete(s') <==> Tail(file[start..]) == [] && s'.malformed == 0)
  {
    hide Synced, Events, Cut, BadCount, Lines, Tail, Unlines;
    SequenceCounts(s, start, file, loads);
    Remaining(s, start, file, loads);
    var whole, tail := Unlines(Lines(file[start..])), Tail(file[start..]);
    UnlinesLines(file[start..]);
    UnlinesWhole(Lines(file[start..]));
    assert file[start..] + more == whole + (tail + more);
    assert (file + more)[|file|..] == more;
    LinesConcat(whole, tail + more);
  }

  /** `complete` is sound for a capture that never raised: all bytes from the start of the capture to the
      last drain form whole lines, none malformed, and each event on them has been returned. */
  lemma CompleteIsSound<E>(s: Session, start: nat, file: Bytes, loads: Bytes -> Parsed<E>)
    requires Synced(s, start, file, loads) && Complete(s)
    ensures
      var seen := file[start..s.offset];
      && WholeLines(seen) && BadCount(Lines(seen), loads) == 0
      && s.sequence == |Events(Lines(seen), loads)|
      && forall l :: l in Lines(seen) ==> Blank(l) || loads(l).Record?
  {
    var seen := file[start..s.offset];
    NoBadLines(Lines(seen), loads);
  }

  lemma {:induction false} NoBadLines<E>(lines: seq<Bytes>, loads: Bytes -> Parsed<E>)
    requires BadCount(lines, loads) == 0
    ensures forall l :: l in lines ==> !IsBad(l, loads)
  {
    if lines != [] {
      NoBadLines(lines[1..], loads);
      assert lines == [lines[0]] + lines[1..];
    }
  }

  // ---------- Whole captures ----------

  datatype Op = Append(bytes: Bytes) | Read(limit: int)

  /** Any mix of appends by the recorder and reads; None once a read has raised. */
  function RunOps<E>(s: Session, file: Bytes, ops: seq<Op>, loads: Bytes -> Parsed<E>)
    : (Session, Bytes, Option<seq<(nat, E)>>)
    requires s.offset <= |file|
    decreases |ops|
  {
    if ops == [] then (s, file, Some([]))
    else
      match ops[0]
      case Append(bytes) => RunOps(s, file + bytes, ops[1..], loads)
      case Read(limit) =>
        var (s1, r) := DrainStep(s, file, limit, loads);
        if r.Raised? then (s1, file, None)
        else
          var (s2, file2, rest) := RunOps(s1, file, ops[1..], loads);
          (s2, file2, if rest.None? then None else Some(r.events + rest.value))
  }

  /** Such a schedule gives None exactly if one of its reads raises, in the state that the operations before it
      lead to. */
  lemma {:induction false} RunOpsRaisesIff<E>(s: Session, file: Bytes, ops: seq<Op>, loads: Bytes -> Parsed<E>)
    requires s.offset <= |file|
    ensures RunOps(s, file, ops, loads).2.None? <==> exists i :: 0 <= i < |ops| && RaisesAt(s, file, ops, i, loads)
    decreases |ops|
  {
    hide DrainStep;
    if ops != [] {
      var s1, file1 := s, file;
      match ops[0] {
        case Append(bytes) => file1 := file + bytes;
        case Read(limit) =>
          DrainOffset(s, file, limit, loads);
          s1 := DrainStep(s, file, limit, loads).0;
      }
      var raises := ops[0].Read? && DrainStep(s, file, ops[0].limit, loads).1.Raised?;
      RunOpsRaisesIff(s1, file1, ops[1..], loads);
      assert RunOps(s, file, ops, loads).2.None? <==> raises || RunOps(s1, file1, ops[1..], loads).2.None?;
      forall i | 0 < i < |ops|
        ensures RaisesAt(s, file, ops, i, loads) <==> RaisesAt(s1, file1, ops[1..], i - 1, loads)
      {
        assert ops[..i][0] == ops[0] && ops[..i][1..] == ops[1..][..i - 1];
      }
      assert ops[..0] == [] && (RaisesAt(s, file, ops, 0, loads) <==> raises);
      if RunOps(s1, file1, ops[1..], loads).2.None? {
        var i :| 0 <= i < |ops[1..]| && RaisesAt(s1, file1, ops[1..], i, loads);
        assert RaisesAt(s, file, ops, i + 1, loads);
      }
    }
  }

  ghost predicate RaisesAt<E>(s: Session, file: Bytes, ops: seq<Op>, i: nat, loads: Bytes -> Parsed<E>)
    requires s.offset <= |file| && i < |ops|
  {
    var (s', file', _) := RunAll(s, file, ops[..i], loads);
    ops[i].Read? && s'.offset <= |file'| && DrainStep(s', file', ops[i].limit, loads).1.Raised?
  }

  lemma WholeParseGrows<E>(file: Bytes, more: Bytes, start: nat, loads: Bytes -> Parsed<E>)
    requires start <= |file|
    ensures WholeParse(file, start, loads) <= WholeParse(file + more, start, loads)
  {
    hide Lines, Events;
    LinesGrow(file[start..], more);
    assert (file + more)[start..] == file[start..] + more;
    var a, b := Lines(file[start..]), Lines((file + more)[start..]);
    assert b == a + b[|a|..];
    EventsAppend(a, b[|a|..], loads);
  }

  lemma NumberNext<E>(first: nat, events: seq<E>, event: E)
    ensures Number(first, events + [event]) == Number(first, events) + [(first + |events|, event)]
  {
  }

  lemma ConcatNumbered<E>(first: nat, a: seq<E>, b: seq<E>)
    ensures Number(first, a) + Number(first + |a|, b) == Number(first, a + b)
  {
  }

  /** Over any schedule of appends (splitting lines anywhere) and reads with any limits that raises
      nowhere, the reads together return an initial run of the one-shot parse, numbered without gaps. */
  lemma {:induction false} RunRefinesWholeParse<E>(
    s: Session, start: nat, file: Bytes, ops: seq<Op>, loads: Bytes -> Parsed<E>)
    requires Synced(s, start, file, loads)
    requires RunOps(s, file, ops, loads).2.Some?
    ensures
      var (s', file', events) := RunOps(s, file, ops, loads);
      && Synced(s', start, file', loads) && file <= file'
      && s.sequence <= s'.sequence <= |WholeParse(file', start, loads)|
      && events.value == Number(s.sequence + 1, WholeParse(file', start, loads)[s.sequence..s'.sequence])
    decreases |ops|
  {
    hide Synced, Lines, Tail, Unlines, Events, Cut, BadCount;
    SequenceCounts(s, start, file, loads);
    Remaining(s, start, file, loads);
    if ops != [] {
      match ops[0]
      case Append(bytes) =>
        AppendKeepsSynced(s, start, file, bytes, loads);
        RunRefinesWholeParse(s, start, file + bytes, ops[1..], loads);
      case Read(limit) =>
        ReadThenRun(s, start, file, limit, ops, loads);
    }
  }

  /** Unfolding `RunOps` at a read that returns. */
  lemma RunOpsRead<E>(s: Session, file: Bytes, limit: int, ops: seq<Op>, loads: Bytes -> Parsed<E>)
    requires s.offset <= |file| && ops != [] && ops[0] == Read(limit) && RunOps(s, file, ops, loads).2.Some?
    ensures
      var (s1, r) := DrainStep(s, file, limit, loads);
      && r.Drained? && s1.offset <= |file|
      && RunOps(s1, file, ops[1..], loads).2.Some?
      && var (s2, file2, rest) := RunOps(s1, file, ops[1..], loads);
      && RunOps(s, file, ops, loads) == (s2, file2, Some(r.events + rest.value))
      && (limit < 1 ==> s1 == s && r.events == [])
  {
  }

  /** Two consecutive runs of numbered events, the first numbered against an older, shorter parse. */
  lemma NumberedRunsJoin<E>(first: nat, older: seq<E>, newer: seq<E>, i: nat, j: nat, k: nat)
    requires older <= newer && i <= j <= |older| && j <= k <= |newer|
    ensures Number(first + i, older[i..j]) + Number(first + j, newer[j..k]) == Number(first + i, newer[i..k])
  {
    hide Number;
    assert older[i..j] == newer[i..j];
    ConcatNumbered(first + i, newer[i..j], newer[j..k]);
    assert newer[i..j] + newer[j..k] == newer[i..k];
  }

  lemma {:induction false} ReadThenRun<E>(
    s: Session, start: nat, file: Bytes, limit: int, ops: seq<Op>, loads: Bytes -> Parsed<E>)
    requires Synced(s, start, file, loads) && ops != [] && ops[0] == Read(limit)
    requires RunOps(s, file, ops, loads).2.Some?
    ensures
      var (s', file', events) := RunOps(s, file, ops, loads);
      && Synced(s', start, file', loads) && file <= file'
      && s.sequence <= s'.sequence <= |WholeParse(file', start, loads)|
      && events.value == Number(s.sequence + 1, WholeParse(file', start, loads)[s.sequence..s'.sequence])
    decreases |ops|, 0
  {
    hide Synced, WholeParse, RunOps, DrainStep, Number;
    SequenceCounts(s, start, file, loads);
    RunOpsRead(s, file, limit, ops, loads);
    var (s1, r) := DrainStep(s, file, limit, loads);
    if limit >= 1 { DrainReturnsNext(s, start, file, limit, loads); }
    RunRefinesWholeParse(s1, start, file, ops[1..], loads);
    var (s2, file2, rest) := RunOps(s1, file, ops[1..], loads);
    if limit >= 1 {
      assert file + file2[|file|..] == file2;
      WholeParseGrows(file, file2[|file|..], start, loads);
      NumberedRunsJoin(1, WholeParse(file, start, loads), WholeParse(file2, start, loads),
                       s.sequence, s1.sequence, s2.sequence);
    } else {
      assert [] + rest.value == rest.value;
    }
  }

  /** A capture from its start: what was returned is the first `sequence` events of the file's one-shot
      parse, numbered 1, 2, 3, ...; if `complete` is reported it is all there was at the last drain. */
  lemma CaptureRefinesWholeParse<E>(file: Bytes, ops: seq<Op>, loads: Bytes -> Parsed<E>)
    requires RunOps(Session(|file|, [], 0, 0, true), file, ops, loads).2.Some?
    ensures
      var (s, file', events) := RunOps(Session(|file|, [], 0, 0, true), file, ops, loads);
      && file <= file' && |file| <= s.offset <= |file'|
      && s.sequence <= |WholeParse(file', |file|, loads)|
      && events.value == Number(1, WholeParse(file', |file|, loads)[..s.sequence])
      && (Complete(s) ==> events.value == Number(1, WholeParse(file'[..s.offset], |file|, loads)))
  {
    StartSynced(file, loads);
    hide Synced, Lines, Tail, Unlines, Events, Cut, BadCount;
    var s0 := Session(|file|, [], 0, 0, true);
    RunRefinesWholeParse(s0, |file|, file, ops, loads);
    var (s, file', events) := RunOps(s0, file, ops, loads);
    SequenceCounts(s, |file|, file', loads);
    if Complete(s) {
      CompleteIsSound(s, |file|, file', loads);
      assert file'[..s.offset][|file|..] == file'[|file|..s.offset];
      WholeParseGrows(file'[..s.offset], file'[s.offset..], |file|, loads);
      assert file'[..s.offset] + file'[s.offset..] == file';
    }
  }

  // ---------- Captures that go on after a raise ----------

  /** Any mix of appends and reads, going on after reads that raise; those return nothing. */
  function RunAll<E>(s: Session, file: Bytes, ops: seq<Op>, loads: Bytes -> Parsed<E>)
    : (Session, Bytes, seq<(nat, E)>)
    requires s.offset <= |file|
    decreases |ops|
  {
    if ops == [] then (s, file, [])
    else
      match ops[0]
      case Append(bytes) => RunAll(s, file + bytes, ops[1..], loads)
      case Read(limit) =>
        var (s1, r) := DrainStep(s, file, limit, loads);
        var (s2, file2, rest) := RunAll(s1, file, ops[1..], loads);
        (s2, file2, Returned(r) + rest)
  }

  function Returned<E>(r: Drained<E>): seq<(nat, E)> { if r.Raised? then [] else r.events }

  function Unnumbered<E>(events: seq<(nat, E)>): seq<E> {
    seq(|events|, i requires 0 <= i < |events| => events[i].1)
  }

  lemma UnnumberedAppend<E>(a: seq<(nat, E)>, b: seq<(nat, E)>)
    ensures Unnumbered(a + b) == Unnumbered(a) + Unnumbered(b)
  {
  }

  lemma NumberedBack<E>(first: nat, events: seq<E>)
    ensures Unnumbered(Number(first, events)) == events
  {
  }

  /** Events that a read finds or skips without returning them: all in front of it, if it raises. */
  function LostEvents<E>(s: Session, file: Bytes, limit: int, loads: Bytes -> Parsed<E>): nat
    requires s.offset <= |file|
  {
    if DrainStep(s, file, limit, loads).1.Raised? then |Events(Facing(s, file), loads)| else 0
  }

  /** Malformed lines that a read skips without counting them: those behind the line it raises on. */
  function LostBad<E>(s: Session, file: Bytes, limit: int, loads: Bytes -> Parsed<E>): nat
    requires s.offset <= |file|
  {
    if limit < 1 || !DrainStep(s, file, limit, loads).1.Raised? then 0
    else BadCount(Facing(s, file)[Cut(Facing(s, file), limit, loads)..], loads)
  }

  /** The read raises with an event in front of it, or with a malformed line from there on. */
  ghost predicate Loses<E>(s: Session, file: Bytes, limit: int, loads: Bytes -> Parsed<E>)
    requires s.offset <= |file|
  {
    && limit >= 1 && DrainStep(s, file, limit, loads).1.Raised?
    && var lines := Facing(s, file);
    || (exists l :: l in lines && IsEvent(l, loads))
    || (exists l :: l in lines[Cut(lines, limit, loads)..] && IsBad(l, loads))
  }

  lemma {:induction false} NoEventLines<E>(lines: seq<Bytes>, loads: Bytes -> Parsed<E>)
    ensures Events(lines, loads) == [] <==> forall l :: l in lines ==> !IsEvent(l, loads)
    ensures BadCount(lines, loads) == 0 <==> forall l :: l in lines ==> !IsBad(l, loads)
  {
    if lines != [] {
      NoEventLines(lines[1..], loads);
      assert lines == [lines[0]] + lines[1..];
    }
  }

  lemma LosesIff<E>(s: Session, file: Bytes, limit: int, loads: Bytes -> Parsed<E>)
    requires s.offset <= |file|
    ensures Loses(s, file, limit, loads) <==> LostEvents(s, file, limit, loads) + LostBad(s, file, limit, loads) > 0
  {
    hide Events, BadCount, Lines, Cut, IsEvent, IsBad, Tail, Unlines, Number;
    if limit >= 1 {
      var lines := Facing(s, file);
      NoEventLines(lines, loads);
      NoEventLines(lines[Cut(lines, limit, loads)..], loads);
    }
  }

  /** Of the lines consumed, `got` are the events returned, `e` the number of those lost, and `b` the number
      of malformed lines not counted. */
  ghost predicate Account<E>(
    s: Session, start: nat, file: Bytes, got: seq<E>, e: nat, b: nat, loads: Bytes -> Parsed<E>)
  {
    && Shape(s, start, file)
    && var lines := Lines(file[start..Consumed(s)]);
    && |got| + e == |Events(lines, loads)|
    && (e == 0 ==> got == Events(lines, loads))
    && s.malformed + b == BadCount(lines, loads)
  }

  lemma AccountFromStart<E>(file: Bytes, loads: Bytes -> Parsed<E>)
    ensures Account(Session(|file|, [], 0, 0, true), |file|, file, [], 0, 0, loads)
  {
    assert file[|file|..|file|] == [];
  }

  lemma AppendKeepsAccount<E>(
    s: Session, start: nat, file: Bytes, more: Bytes, got: seq<E>, e: nat, b: nat, loads: Bytes -> Parsed<E>)
    requires Account(s, start, file, got, e, b, loads)
    ensures Account(s, start, file + more, got, e, b, loads)
  {
    assert (file + more)[Consumed(s)..s.offset] == file[Consumed(s)..s.offset];
    assert (file + more)[start..Consumed(s)] == file[start..Consumed(s)];
  }

  lemma Nothing<E>(got: seq<E>)
    ensures Unnumbered<E>([]) == [] && got + Unnumbered<E>([]) == got
    ensures Unlines([]) == []
  {
  }

  lemma ReadKeepsAccount<E>(
    s: Session, start: nat, file: Bytes, limit: int, got: seq<E>, e: nat, b: nat, loads: Bytes -> Parsed<E>)
    requires Account(s, start, file, got, e, b, loads)
    ensures
      var (s', r) := DrainStep(s, file, limit, loads);
      Account(s', start, file, got + Unnumbered(Returned(r)), e + LostEvents(s, file, limit, loads),
              b + LostBad(s, file, limit, loads), loads)
  {
    hide Lines, Tail, Unlines, Events, BadCount, Cut, Number, Unnumbered, WholeLines;
    Nothing(got);
    var (s', r) := DrainStep(s, file, limit, loads);
    if limit >= 1 {
      var lines := Facing(s, file);
      var k := Cut(lines, limit, loads);
      CutPrefix(lines, k, loads);
      if r.Raised? {
        assert lines[|lines|..] == [] && lines[..|lines|] == lines && lines == lines[..k] + lines[k..];
        EventsAppend(lines[..k], lines[k..], loads);
        ConsumeLines(s, s', start, file, |lines|);
        EventsAppend(Lines(file[start..Consumed(s)]), lines, loads);
      } else {
        ConsumeLines(s, s', start, file, k);
        EventsAppend(Lines(file[start..Consumed(s)]), lines[..k], loads);
        NumberedBack(s.sequence + 1, Events(lines[..k], loads));
      }
    }
  }

  ghost predicate NothingLost<E>(s: Session, file: Bytes, ops: seq<Op>, loads: Bytes -> Parsed<E>)
    requires s.offset <= |file|
    decreases |ops|
  {
    ops == [] ||
    match ops[0]
    case Append(bytes) => NothingLost(s, file + bytes, ops[1..], loads)
    case Read(limit) =>
      !Loses(s, file, limit, loads) && NothingLost(DrainStep(s, file, limit, loads).0, file, ops[1..], loads)
  }

  /** The events lost and the malformed lines not counted over a run. */
  ghost function Lost<E>(s: Session, file: Bytes, ops: seq<Op>, loads: Bytes -> Parsed<E>): (nat, nat)
    requires s.offset <= |file|
    decreases |ops|
  {
    if ops == [] then (0, 0)
    else
      match ops[0]
      case Append(bytes) => Lost(s, file + bytes, ops[1..], loads)
      case Read(limit) =>
        var (e, b) := Lost(DrainStep(s, file, limit, loads).0, file, ops[1..], loads);
        (LostEvents(s, file, limit, loads) + e, LostBad(s, file, limit, loads) + b)
  }

  lemma {:induction false} NothingLostIff<E>(s: Session, file: Bytes, ops: seq<Op>, loads: Bytes -> Parsed<E>)
    requires s.offset <= |file|
    ensures NothingLost(s, file, ops, loads) <==> Lost(s, file, ops, loads) == (0, 0)
    decreases |ops|
  {
    hide DrainStep, Loses, LostEvents, LostBad;
    if ops != [] {
      match ops[0]
      case Append(bytes) => NothingLostIff(s, file + bytes, ops[1..], loads);
      case Read(limit) =>
        DrainOffset(s, file, limit, loads);
        LosesIff(s, file, limit, loads);
        NothingLostIff(DrainStep(s, file, limit, loads).0, file, ops[1..], loads);
    }
  }

  lemma DrainOffset<E>(s: Session, file: Bytes, limit: int, loads: Bytes -> Parsed<E>)
    requires s.offset <= |file|
    ensures DrainStep(s, file, limit, loads).0.offset <= |file|
  {
  }

  /** Unfolding `RunAll` and `Lost` at a read. */
  lemma RunAllRead<E>(s: Session, file: Bytes, limit: int, ops: seq<Op>, loads: Bytes -> Parsed<E>)
    requires s.offset <= |file| && ops != [] && ops[0] == Read(limit)
    ensures
      var (s1, r) := DrainStep(s, file, limit, loads);
      && s1.offset <= |file|
      && var (s2, file2, rest) := RunAll(s1, file, ops[1..], loads);
      RunAll(s, file, ops, loads) == (s2, file2, Returned(r) + rest)
  {
    hide DrainStep, Returned;
    DrainOffset(s, file, limit, loads);
  }

  lemma LostRead<E>(s: Session, file: Bytes, limit: int, ops: seq<Op>, loads: Bytes -> Parsed<E>)
    requires s.offset <= |file| && ops != [] && ops[0] == Read(limit)
    ensures
      var s1 := DrainStep(s, file, limit, loads).0;
      && s1.offset <= |file|
      && var (e, b) := Lost(s1, file, ops[1..], loads);
      Lost(s, file, ops, loads) == (LostEvents(s, file, limit, loads) + e, LostBad(s, file, limit, loads) + b)
  {
    hide DrainStep, LostEvents, LostBad;
    DrainOffset(s, file, limit, loads);
  }

  lemma RunAllAppend<E>(s: Session, file: Bytes, bytes: Bytes, ops: seq<Op>, loads: Bytes -> Parsed<E>)
    requires s.offset <= |file| && ops != [] && ops[0] == Append(bytes)
    ensures RunAll(s, file, ops, loads) == RunAll(s, file + bytes, ops[1..], loads)
    ensures Lost(s, file, ops, loads) == Lost(s, file + bytes, ops[1..], loads)
  {
  }

  lemma RunAllNone<E>(s: Session, file: Bytes, loads: Bytes -> Parsed<E>)
    requires s.offset <= |file|
    ensures RunAll(s, file, [], loads) == (s, file, []) && Lost(s, file, [], loads) == (0, 0)
  {
  }

  lemma JoinReturned<E>(got: seq<E>, first: seq<(nat, E)>, rest: seq<(nat, E)>)
    ensures got + Unnumbered(first) + Unnumbered(rest) == got + Unnumbered(first + rest)
  {
    UnnumberedAppend(first, rest);
    assert got + Unnumbered(first) + Unnumbered(rest) == got + (Unnumbered(first) + Unnumbered(rest));
  }

  /** Over any schedule, raises included: the events on the lines consumed are the ones returned and the ones
      lost, and the malformed lines are the ones counted and the ones skipped. */
  lemma {:induction false} RunAllAccounts<E>(
    s: Session, start: nat, file: Bytes, ops: seq<Op>, got: seq<E>, e: nat, b: nat, loads: Bytes -> Parsed<E>)
    requires s.offset <= |file| && Account(s, start, file, got, e, b, loads)
    ensures
      var (s', file', events) := RunAll(s, file, ops, loads);
      var (e', b') := Lost(s, file, ops, loads);
      file <= file' && Account(s', start, file', got + Unnumbered(events), e + e', b + b', loads)
    decreases |ops|
  {
    hide Account, DrainStep, LostEvents, LostBad, Unnumbered, RunAll, Lost;
    if ops == [] {
      RunAllNone(s, file, loads);
      Nothing(got);
    } else {
      match ops[0]
      case Append(bytes) =>
        RunAllAppend(s, file, bytes, ops, loads);
        AppendKeepsAccount(s, start, file, bytes, got, e, b, loads);
        RunAllAccounts(s, start, file + bytes, ops[1..], got, e, b, loads);
      case Read(limit) =>
        RunAllRead(s, file, limit, ops, loads);
        LostRead(s, file, limit, ops, loads);
        ReadKeepsAccount(s, start, file, limit, got, e, b, loads);
        var (s1, r) := DrainStep(s, file, limit, loads);
        RunAllAccounts(s1, start, file, ops[1..], got + Unnumbered(Returned(r)),
                       e + LostEvents(s, file, limit, loads), b + LostBad(s, file, limit, loads), loads);
        var (_, _, rest) := RunAll(s1, file, ops[1..], loads);
        JoinReturned(got, Returned(r), rest);
    }
  }

  lemma AccountOffset<E>(
    s: Session, start: nat, file: Bytes, got: seq<E>, e: nat, b: nat, loads: Bytes -> Parsed<E>)
    requires Account(s, start, file, got, e, b, loads)
    ensures start <= Consumed(s) <= s.offset <= |file|
  {
  }

  /** Where no read raises, this is the run of `RunOps`. */
  lemma {:induction false} RunAllWithoutRaise<E>(s: Session, file: Bytes, ops: seq<Op>, loads: Bytes -> Parsed<E>)
    requires s.offset <= |file| && RunOps(s, file, ops, loads).2.Some?
    ensures
      var (s', file', events) := RunOps(s, file, ops, loads);
      RunAll(s, file, ops, loads) == (s', file', events.value)
    decreases |ops|
  {
    hide DrainStep;
    if ops != [] {
      match ops[0]
      case Append(bytes) => RunAllWithoutRaise(s, file + bytes, ops[1..], loads);
      case Read(limit) =>
        RunOpsRead(s, file, limit, ops, loads);
        RunAllRead(s, file, limit, ops, loads);
        RunAllWithoutRaise(DrainStep(s, file, limit, loads).0, file, ops[1..], loads);
    }
  }

  /** When `complete` can be believed: over any schedule of appends and reads, those that raise included, a
      capture that reports complete has returned every event of the bytes it has seen, all well-formed,
      exactly if no read raised with an event in front of it or a malformed line from there on. */
  lemma CompleteIffNothingLost<E>(file: Bytes, ops: seq<Op>, loads: Bytes -> Parsed<E>)
    ensures
      var s0 := Session(|file|, [], 0, 0, true);
      var (s, file', events) := RunAll(s0, file, ops, loads);
      && file <= file' && |file| <= s.offset <= |file'|
      && (Complete(s) ==>
            var seen := file'[|file|..s.offset];
            && WholeLines(seen)
            && (Unnumbered(events) == Events(Lines(seen), loads) && BadCount(Lines(seen), loads) == 0 <==>
                NothingLost(s0, file, ops, loads)))
  {
    hide RunAll, Lost, NothingLost, Lines, Events, BadCount, Unnumbered;
    var s0 := Session(|file|, [], 0, 0, true);
    AccountFromStart(file, loads);
    RunAllAccounts(s0, |file|, file, ops, [], 0, 0, loads);
    NothingLostIff(s0, file, ops, loads);
    var (s, file', events) := RunAll(s0, file, ops, loads);
    assert [] + Unnumbered(events) == Unnumbered(events);
  }

  /** A concrete capture whose `complete` is wrong: an object and then the number 1 are appended and read.  The
      read raises, the object's event is neither returned nor counted as missing, and the file is used up. */
  lemma RaiseFakesCompleteness()
    ensures
      var loads: Bytes -> Parsed<Bytes> := raw => if raw == [49] then Rejected(false) else Record(raw);
      var (s, file, events) :=
        RunAll(Session(0, [], 0, 0, true), [], [Append([123, 125, NL, 49, NL]), Read(1000)], loads);
      Complete(s) && s.offset == |file| && events == [] && WholeParse(file, 0, loads) == [[123, 125]]
  {
    hide DrainStep, Lines, Events;
    var loads: Bytes -> Parsed<Bytes> := raw => if raw == [49] then Rejected(false) else Record(raw);
    var file: Bytes := [123, 125, NL, 49, NL];
    var ops: seq<Op> := [Append(file), Read(1000)];
    var s0 := Session(0, [], 0, 0, true);
    RaisingRead(loads);
    assert [] + file == file && ops[1..] == [Read(1000)] && ops[1..][1..] == [];
    RunAllAppend(s0, [], file, ops, loads);
    RunAllRead(s0, file, 1000, ops[1..], loads);
    RunAllNone(DrainStep(s0, file, 1000, loads).0, file, loads);
  }

  lemma RaisingRead<E>(loads: Bytes -> Parsed<E>)
    requires loads([123, 125]).Record? && loads([49]).Rejected?
    ensures
      var file: Bytes := [123, 125, NL, 49, NL];
      var (s, r) := DrainStep(Session(0, [], 0, 0, true), file, 1000, loads);
      && r.Raised? && Complete(s) && s.offset == |file|
      && WholeParse(file, 0, loads) == [loads([123, 125]).event]
  {
    hide Lines, Tail, Events, Cut, BadCount;
    var file: Bytes := [123, 125, NL, 49, NL];
    TwoLines();
    OneEvent([123, 125], [49], loads);
    assert [] + file[0..] == file && file[0..] == file;
    var lines: seq<Bytes> := [[123, 125], [49]];
    assert lines[..1] == [[123, 125]];
  }

  lemma TwoLines()
    ensures Lines([123, 125, NL, 49, NL]) == [[123, 125], [49]] && Tail([123, 125, NL, 49, NL]) == []
  {
    hide Lines, Tail;
    var record, number: Bytes := [123, 125], [49];
    assert [49, NL] == number + [NL] + [];
    SplitLine(number, []);
    NoLines();
    SplitLine(record, [49, NL]);
    assert [123, 125, NL, 49, NL] == record + [NL] + [49, NL];
    assert [record] + ([number] + []) == [record, number];
  }

  lemma OneEvent<E>(record: Bytes, number: Bytes, loads: Bytes -> Parsed<E>)
    requires record != [] && record[0] == 123 && loads(record).Record?
    requires number != [] && number[0] == 49 && loads(number).Rejected?
    ensures Events([record, number], loads) == [loads(record).event]
    ensures Events([record], loads) == [loads(record).event] && BadCount([record], loads) == 0
    ensures Cut([record, number], 1000, loads) == 1
  {
    assert record[0] in record && number[0] in number && !Blank(record) && !Blank(number);
    var lines: seq<Bytes> := [record, number];
    assert lines[1..] == [number] && lines[1..][1..] == [] && [record][1..] == [];
    assert Events<E>([], loads) == [] && Events([number], loads) == [];
    assert Cut([number], 999, loads) == 0;
  }

  // ---------- observe ----------

  /** The lines that iterating over the open file gives: newlines kept, and a last unfinished one. */
  function RawLines(data: Bytes): seq<Bytes>
    decreases |data|
  {
    if data == [] then []
    else if !HasNewline(data) then [data]
    else var i := FirstNewline(data); [data[..i + 1]] + RawLines(data[i + 1..])
  }

  /** What `observe` ends up with: the last line that parses; a `null` counts as none. */
  function LastParsed<E>(raws: seq<Bytes>, loads: Bytes -> Parsed<E>): Parsed<E> {
    if raws == [] then Malformed
    else
      var p := loads(raws[|raws| - 1]);
      if p.Malformed? then LastParsed(raws[..|raws| - 1], loads)
      else if p == Rejected(true) then Malformed
      else p
  }

  /** The body of `observe` on the file's bytes: Malformed stands for "no complete event". */
  method Observe<E>(file: Bytes, loads: Bytes -> Parsed<E>) returns (last: Parsed<E>)
    ensures last == LastParsed(RawLines(file), loads)
  {
    var raws := RawLines(file);
    last := Malformed;
    var i := 0;
    while i < |raws|
      invariant 0 <= i <= |raws|
      invariant last == LastParsed(raws[..i], loads)
    {
      var p := loads(raws[i]);
      assert raws[..i + 1][..i] == raws[..i];
      if !p.Malformed? {
        last := if p == Rejected(true) then Malformed else p;
      }
      i := i + 1;
    }
    assert raws[..i] == raws;
  }

  /** Iterating over a file gives its bytes, cut after every newline and nowhere else. */
  lemma {:induction false} RawLinesCut(data: Bytes)
    ensures Glued(RawLines(data)) == data
    ensures forall i :: 0 <= i < |RawLines(data)| ==> IsRawLine(RawLines(data)[i], i == |RawLines(data)| - 1)
    decreases |data|
  {
    hide RawLines, IsRawLine;
    if data == [] || !HasNewline(data) {
      RawTail(data);
    } else {
      var i := FirstNewline(data);
      var line, rest := data[..i], data[i + 1..];
      assert data == line + [NL] + rest;
      RawSplitLine(line, rest);
      RawLinesCut(rest);
      WholeRawLine(line);
      RawNonEmpty(rest);
      assert ([line + [NL]] + RawLines(rest))[1..] == RawLines(rest);
    }
  }

  /** A newline at the end, which only the last line may lack, and no other. */
  ghost predicate IsRawLine(raw: Bytes, last: bool) {
    raw != [] && NL !in raw[..|raw| - 1] && (last || raw[|raw| - 1] == NL)
  }

  lemma RawTail(data: Bytes)
    requires !HasNewline(data)
    ensures RawLines(data) == if data == [] then [] else [data]
    ensures data != [] ==> IsRawLine(data, true)
    ensures Glued([]) == [] && Glued([data]) == data
  {
    var one: seq<Bytes> := [data];
    assert one[1..] == [];
  }

  lemma WholeRawLine(line: Bytes)
    requires NL !in line
    ensures IsRawLine(line + [NL], true) && IsRawLine(line + [NL], false)
  {
    assert (line + [NL])[..|line + [NL]| - 1] == line;
  }

  lemma RawNonEmpty(data: Bytes)
    ensures RawLines(data) == [] <==> data == []
  {
  }

  function Glued(parts: seq<Bytes>): Bytes { if parts == [] then [] else parts[0] + Glued(parts[1..]) }

  /** `observe` goes by the last of them that parses, complete line or not. */
  lemma {:induction false} LastParsedIs<E>(raws: seq<Bytes>, loads: Bytes -> Parsed<E>, n: nat)
    requires n < |raws| && !loads(raws[n]).Malformed?
    requires forall i :: n < i < |raws| ==> loads(raws[i]).Malformed?
    ensures LastParsed(raws, loads) == if loads(raws[n]) == Rejected(true) then Malformed else loads(raws[n])
    decreases |raws|
  {
    if n < |raws| - 1 {
      LastParsedIs(raws[..|raws| - 1], loads, n);
    }
  }

  lemma {:induction false} NothingParses<E>(raws: seq<Bytes>, loads: Bytes -> Parsed<E>)
    requires forall i :: 0 <= i < |raws| ==> loads(raws[i]).Malformed?
    ensures LastParsed(raws, loads) == Malformed
  {
    if raws != [] { NothingParses(raws[..|raws| - 1], loads); }
  }

  lemma RawSplitLine(line: Bytes, rest: Bytes)
    requires NL !in line
    ensures RawLines(line + [NL] + rest) == [line + [NL]] + RawLines(rest)
  {
    var data := line + [NL] + rest;
    assert data[|line|] == NL && data[..|line|] == line;
    FirstNewlineIs(data, |line|);
    assert data[..|line| + 1] == line + [NL] && data[|line| + 1..] == rest;
  }

  lemma {:induction false} RawLinesAreLines(data: Bytes)
    requires WholeLines(data)
    ensures |RawLines(data)| == |Lines(data)|
    ensures forall i :: 0 <= i < |Lines(data)| ==> RawLines(data)[i] == Lines(data)[i] + [NL]
    decreases |data|
  {
    if data == [] {
      NoLines();
    } else {
      hide Lines, RawLines, WholeLines;
      var line, rest := WholeLinesHead(data);
      SplitLine(line, rest);
      RawSplitLine(line, rest);
      RawLinesAreLines(rest);
    }
  }

  lemma {:induction false} LastParsedIsLastEvent<E>(raws: seq<Bytes>, lines: seq<Bytes>, loads: Bytes -> Parsed<E>)
    requires |raws| == |lines|
    requires forall i :: 0 <= i < |lines| ==>
      && (Blank(lines[i]) ==> loads(raws[i]).Malformed?)
      && (!Blank(lines[i]) ==> loads(raws[i]) == loads(lines[i]))
      && !Raises(lines[i], loads)
    ensures
      var events := Events(lines, loads);
      LastParsed(raws, loads) == if events == [] then Malformed else Record(events[|events| - 1])
  {
    if lines != [] {
      var n := |lines| - 1;
      LastParsedIsLastEvent(raws[..n], lines[..n], loads);
      assert lines == lines[..n] + [lines[n]];
      EventsAppend(lines[..n], [lines[n]], loads);
    }
  }

  /** On a file that ends in a newline, `observe` gives the last event of a drain of the whole file,
      provided a newline does not change what a record parses to and a blank line parses to nothing. */
  lemma ObserveIsLastDrainedEvent<E>(file: Bytes, loads: Bytes -> Parsed<E>)
    requires WholeLines(file)
    requires forall l :: l in Lines(file) ==> !Raises(l, loads)
    requires forall l :: l in Lines(file) ==>
      (if Blank(l) then loads(l + [NL]).Malformed? else loads(l + [NL]) == loads(l))
    ensures
      var events := WholeParse(file, 0, loads);
      LastParsed(RawLines(file), loads) == if events == [] then Malformed else Record(events[|events| - 1])
  {
    hide Lines, RawLines, Events, LastParsed, WholeLines;
    assert file[0..] == file;
    RawLinesAreLines(file);
    LastParsedIsLastEvent(RawLines(file), Lines(file), loads);
  }

  // ---------- The reader and its sessions ----------

  /** The source's `CaptureSession`; its path is the file handed to the methods. */
  class CaptureSession<!E> {
    var s: Session
    const captureId: nat
    const loads: Bytes -> Parsed<E>

    constructor (captureId: nat, file: Bytes, loads: Bytes -> Parsed<E>)
      ensures s == Session(|file|, [], 0, 0, true) && this.captureId == captureId && this.loads == loads
    {
      this.captureId, this.loads := captureId, loads;
      s := Session(|file|, [], 0, 0, true);
    }

    /** The rest of the loop body: parse one line and count it. */
    method Take(raw: Bytes) returns (p: Parsed<E>)
      modifies this`s
      ensures p == if Blank(raw) then Malformed else loads(raw)
      ensures s == old(s).(sequence := old(s).sequence + if IsEvent(raw, loads) || Raises(raw, loads) then 1 else 0,
                           malformed := old(s).malformed + if IsBad(raw, loads) then 1 else 0)
    {
      if Blank(raw) {
        return Malformed;
      }
      p := loads(raw);
      if p.Malformed? {
        s := s.(malformed := s.malformed + 1);
      } else {
        s := s.(sequence := s.sequence + 1);
      }
    }

    /** `_drain`. */
    method Drain(file: Bytes, limit: int) returns (r: Drained<E>)
      requires s.offset <= |file|
      modifies this`s
      ensures (s, r) == DrainStep(old(s), file, limit, loads)
    {
      hide Lines, Tail, Unlines, Events, BadCount, Cut, Blank, Number;
      if limit < 1 {
        return Drained([]);
      }
      var data := s.pending + file[s.offset..];
      var lines := Lines(data);
      NothingSeen(s.sequence + 1, lines, loads);
      s := s.(offset := |file|, pending := Tail(data));
      var events: seq<(nat, E)> := [];
      var index := 0;
      ghost var seen: seq<E> := [];
      while index < |lines|
        invariant 0 <= index <= |lines|
        invariant seen == Events(lines[..index], loads) && |seen| <= limit
        invariant events == Number(old(s).sequence + 1, seen)
        invariant s == old(s).(offset := |file|, pending := Tail(data), sequence := old(s).sequence + |seen|,
                               malformed := old(s).malformed + BadCount(lines[..index], loads))
        invariant Cut(lines, limit, loads) == index + Cut(lines[index..], limit - |seen|, loads)
      {
        CutHere(lines, index, limit - |seen|, loads);
        if |events| >= limit {
          s := s.(pending := Unlines(lines[index..]) + s.pending);
          return Drained(events);
        }
        EventsOfNext(lines, index, loads);
        var event := Take(lines[index]);
        index := index + 1;
        if event.Rejected? {
          return Raised;
        }
        if event.Record? {
          NumberNext(old(s).sequence + 1, seen, event.event);
          events := events + [(s.sequence, event.event)];
          seen := seen + [event.event];
        }
      }
      CutHere(lines, index, limit - |seen|, loads);
      assert Unlines(lines[index..]) + s.pending == s.pending;
      return Drained(events);
    }
  }

  type Key = (string, int)                 // instance id and generation

  /** `IECTraceReader`: at most one capture per instance and generation, replaced only once stopped. */
  class IECTraceReader<!E> {
    var sessions: map<Key, CaptureSession<E>>
    var drawn: nat                         // capture ids drawn so far; uuid4 as a counter
    const loads: Bytes -> Parsed<E>

    constructor (loads: Bytes -> Parsed<E>)
      ensures this.loads == loads && sessions == map[] && Valid()
    {
      this.loads := loads;
      sessions, drawn := map[], 0;
    }

    ghost predicate Valid()
      reads this, sessions.Values
    {
      && (forall k :: k in sessions ==> sessions[k].loads == loads && sessions[k].captureId < drawn)
      && (forall k, l :: k in sessions && l in sessions && k != l ==>
            sessions[k] != sessions[l] && sessions[k].captureId != sessions[l].captureId)
    }

    /** `file` is None when the instance was launched without a recorder; the result is None if it raises. */
    method Start(key: Key, file: Option<Bytes>) returns (id: Option<nat>)
      requires Valid()
      modifies this
      ensures Valid()
      ensures id.Some? <==> file.Some? && !(key in old(sessions) && old(sessions[key].s.active))
      ensures id.None? ==> sessions == old(sessions)
      ensures id.Some? ==>
        && key in sessions && fresh(sessions[key]) && sessions == old(sessions)[key := sessions[key]]
        && sessions[key].captureId == id.value && sessions[key].s == Session(|file.value|, [], 0, 0, true)
    {
      if file.None? || (key in sessions && sessions[key].s.active) {
        return None;
      }
      var session := new CaptureSession(drawn, file.value, loads);
      id := Some(drawn);
      drawn := drawn + 1;
      sessions := sessions[key := session];
    }

    /** `read` (and `stop`, which also ends the capture) touches only the session it refers to; None where
        `_session` raises. */
    method Read(key: Key, file: Bytes, limit: int, captureId: Option<nat>, stop: bool) returns (r: Option<Drained<E>>)
      requires Valid() && (key in sessions ==> sessions[key].s.offset <= |file|)
      modifies sessions.Values
      ensures Valid()
      ensures r.Some? <==> key in sessions && captureId in {None, Some(sessions[key].captureId)}
      ensures r.Some? ==>
        var (s, d) := DrainStep(old(sessions[key].s), file, limit, loads);
        r.value == d && sessions[key].s == if stop && d.Drained? then s.(active := false) else s
      ensures forall k :: k in sessions && (k != key || r.None?) ==> sessions[k].s == old(sessions[k].s)
    {
      if key !in sessions || (captureId.Some? && captureId.value != sessions[key].captureId) {
        return None;
      }
      var session := sessions[key];
      var d := session.Drain(file, limit);
      if stop && d.Drained? {
        session.s := session.s.(active := false);
      }
      return Some(d);
    }
  }

  lemma NothingSeen<E>(first: nat, lines: seq<Bytes>, loads: Bytes -> Parsed<E>)
    ensures Number<E>(first, []) == []
    ensures Events(lines[..0], loads) == [] && BadCount(lines[..0], loads) == 0 && lines[0..] == lines
  {
  }

  /** What `Cut` makes of the line at `index`. */
  lemma CutHere<E>(lines: seq<Bytes>, index: nat, limit: nat, loads: Bytes -> Parsed<E>)
    requires index <= |lines|
    ensures
      Cut(lines[index..], limit, loads) ==
      if index == |lines| || limit == 0 || Raises(lines[index], loads) then 0
      else 1 + Cut(lines[index + 1..], if IsEvent(lines[index], loads) then limit - 1 else limit, loads)
    ensures index == |lines| ==> Unlines(lines[index..]) == []
  {
    if index < |lines| {
      assert lines[index..][1..] == lines[index + 1..];
    }
  }

  lemma EventsOfNext<E>(lines: seq<Bytes>, index: nat, loads: Bytes -> Parsed<E>)
    requires index < |lines|
    ensures Events(lines[..index + 1], loads) ==
            Events(lines[..index], loads) + if IsEvent(lines[index], loads) then [loads(lines[index]).event] else []
    ensures BadCount(lines[..index + 1], loads) ==
            BadCount(lines[..index], loads) + if IsBad(lines[index], loads) then 1 else 0
    ensures lines[index..][1..] == lines[index + 1..]
  {
    assert lines[..index + 1] == lines[..index] + [lines[index]];
    EventsAppend(lines[..index], [lines[index]], loads);
    LastLine(lines[index], loads);
  }
}
