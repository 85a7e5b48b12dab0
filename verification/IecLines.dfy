/** Lines of a trace file, as `bytes.split(b"\n")` sees them, and what the records on them amount to. */
module IecLines {
  import opened Bytes

  const NL: byte := 10

  /** `json.loads` on one line: it raises a decode error, or gives a record that `_normalize` turns into an
      event, or one on which its `dict(...)` raises (`null` is told apart because `observe` tests for None). */
  datatype Parsed<+E> = Malformed | Record(event: E) | Rejected(isNull: bool)

  predicate HasNewline(data: Bytes) { NL in data }

  function FirstNewline(data: Bytes): (i: nat)
    requires HasNewline(data)
    ensures i < |data| && data[i] == NL && NL !in data[..i]
  {
    if data[0] == NL then 0
    else
      var i := 1 + FirstNewline(data[1..]);
      assert data[..i] == [data[0]] + data[1..][..i - 1];
      i
  }

  /** The complete lines, without their newlines. */
  function Lines(data: Bytes): seq<Bytes>
    decreases |data|
  {
    if !HasNewline(data) then []
    else var i := FirstNewline(data); [data[..i]] + Lines(data[i + 1..])
  }

  /** What follows the last newline. */
  function Tail(data: Bytes): Bytes
    decreases |data|
  {
    if !HasNewline(data) then data else Tail(data[FirstNewline(data) + 1..])
  }

  /** `b"\n".join(lines) + b"\n"`, and nothing for no lines. */
  function Unlines(lines: seq<Bytes>): Bytes {
    if lines == [] then [] else lines[0] + [NL] + Unlines(lines[1..])
  }

  ghost predicate WholeLines(data: Bytes) { data == [] || data[|data| - 1] == NL }

  lemma {:induction false} FirstNewlineIs(data: Bytes, i: nat)
    requires i < |data| && data[i] == NL && NL !in data[..i]
    ensures FirstNewline(data) == i
  {
    if i > 0 {
      assert data[0] == data[..i][0];
      assert data[1..][..i - 1] == data[..i][1..];
      FirstNewlineIs(data[1..], i - 1);
    }
  }

  lemma SplitLine(line: Bytes, rest: Bytes)
    requires NL !in line
    ensures Lines(line + [NL] + rest) == [line] + Lines(rest)
    ensures Tail(line + [NL] + rest) == Tail(rest)
  {
    var data := line + [NL] + rest;
    assert data[|line|] == NL && data[..|line|] == line;
    FirstNewlineIs(data, |line|);
    assert data[|line| + 1..] == rest;
  }

  lemma WholeLinesHead(a: Bytes) returns (line: Bytes, rest: Bytes)
    requires WholeLines(a) && a != []
    ensures NL !in line && a == line + [NL] + rest && WholeLines(rest) && |rest| < |a|
  {
    assert a[|a| - 1] == NL;
    var i := FirstNewline(a);
    line, rest := a[..i], a[i + 1..];
    assert rest == [] || rest[|rest| - 1] == a[|a| - 1];
  }

  lemma NoLines()
    ensures Lines([]) == [] && Tail([]) == []
  {
  }

  /** Cutting after a newline splits the lines in two. */
  lemma {:induction false} LinesConcat(a: Bytes, b: Bytes)
    requires WholeLines(a)
    ensures Lines(a + b) == Lines(a) + Lines(b) && Tail(a + b) == Tail(b) && Tail(a) == []
    decreases |a|
  {
    hide Lines, Tail, WholeLines;
    if a == [] {
      NoLines();
      assert a + b == b;
    } else {
      var line, rest := WholeLinesHead(a);
      assert a + b == line + [NL] + (rest + b);
      SplitLine(line, rest);
      SplitLine(line, rest + b);
      LinesConcat(rest, b);
    }
  }

  lemma OnlyTail(data: Bytes)
    requires !HasNewline(data)
    ensures Lines(data) == [] && Tail(data) == data
  {
  }

  lemma {:induction false} UnlinesLines(data: Bytes)
    ensures Unlines(Lines(data)) + Tail(data) == data
    ensures NL !in Tail(data) && forall l :: l in Lines(data) ==> NL !in l
    decreases |data|
  {
    hide Lines, Tail;
    if HasNewline(data) {
      var i := FirstNewline(data);
      var line, rest := data[..i], data[i + 1..];
      assert data == line + [NL] + rest;
      SplitLine(line, rest);
      UnlinesLines(rest);
      assert ([line] + Lines(rest))[1..] == Lines(rest);
    } else {
      OnlyTail(data);
    }
  }

  lemma {:induction false} UnlinesAppend(a: seq<Bytes>, b: seq<Bytes>)
    ensures Unlines(a + b) == Unlines(a) + Unlines(b)
  {
    if a == [] {
      assert a + b == b;
    } else {
      UnlinesAppend(a[1..], b);
      assert (a + b)[1..] == a[1..] + b;
    }
  }

  lemma {:induction false} UnlinesWhole(lines: seq<Bytes>)
    requires forall l :: l in lines ==> NL !in l
    ensures WholeLines(Unlines(lines)) && Lines(Unlines(lines)) == lines
  {
    if lines != [] {
      UnlinesWhole(lines[1..]);
      SplitLine(lines[0], Unlines(lines[1..]));
      assert lines == [lines[0]] + lines[1..];
    }
  }

  /** A longer file only adds lines. */
  lemma LinesGrow(data: Bytes, more: Bytes)
    ensures Lines(data) <= Lines(data + more)
  {
    hide Lines, Tail, Unlines;
    var whole := Unlines(Lines(data));
    UnlinesLines(data);
    UnlinesWhole(Lines(data));
    assert data + more == whole + (Tail(data) + more);
    LinesConcat(whole, Tail(data) + more);
  }

  // ---------- What the lines say ----------

  /** `not raw.strip()`: only ASCII white space. */
  predicate Blank(raw: Bytes) { forall b :: b in raw ==> 9 <= b <= 13 || b == 32 }

  predicate IsEvent<E>(raw: Bytes, loads: Bytes -> Parsed<E>) { !Blank(raw) && loads(raw).Record? }

  predicate IsBad<E>(raw: Bytes, loads: Bytes -> Parsed<E>) { !Blank(raw) && loads(raw).Malformed? }

  predicate Raises<E>(raw: Bytes, loads: Bytes -> Parsed<E>) { !Blank(raw) && loads(raw).Rejected? }

  /** The events of a run of lines, in order. */
  function Events<E>(lines: seq<Bytes>, loads: Bytes -> Parsed<E>): seq<E> {
    if lines == [] then []
    else (if IsEvent(lines[0], loads) then [loads(lines[0]).event] else []) + Events(lines[1..], loads)
  }

  function BadCount<E>(lines: seq<Bytes>, loads: Bytes -> Parsed<E>): nat {
    if lines == [] then 0 else (if IsBad(lines[0], loads) then 1 else 0) + BadCount(lines[1..], loads)
  }

  /** What the first line contributes. */
  lemma FirstLine<E>(line: Bytes, rest: seq<Bytes>, loads: Bytes -> Parsed<E>)
    ensures Events([line] + rest, loads) == (if IsEvent(line, loads) then [loads(line).event] else []) + Events(rest, loads)
    ensures BadCount([line] + rest, loads) == (if IsBad(line, loads) then 1 else 0) + BadCount(rest, loads)
  {
    assert ([line] + rest)[1..] == rest;
  }

  lemma {:induction false} EventsAppend<E>(a: seq<Bytes>, b: seq<Bytes>, loads: Bytes -> Parsed<E>)
    ensures Events(a + b, loads) == Events(a, loads) + Events(b, loads)
    ensures BadCount(a + b, loads) == BadCount(a, loads) + BadCount(b, loads)
  {
    hide Events, BadCount, IsEvent, IsBad;
    if a == [] {
      assert a + b == b;
      NoEvents(loads);
    } else {
      assert a == [a[0]] + a[1..] && a + b == [a[0]] + (a[1..] + b);
      FirstLine(a[0], a[1..], loads);
      FirstLine(a[0], a[1..] + b, loads);
      EventsAppend(a[1..], b, loads);
    }
  }

  lemma NoEvents<E>(loads: Bytes -> Parsed<E>)
    ensures Events([], loads) == [] && BadCount([], loads) == 0
  {
  }

  // ---------- The same, byte by byte and line by line ----------

  /** Some byte of the line is neither a blank (32) nor one of 9 (tab) to 13 (return). */
  predicate Speaks(raw: Bytes) { exists i :: 0 <= i < |raw| && (raw[i] < 9 || 13 < raw[i] < 32 || 32 < raw[i]) }

  lemma SpeaksIff(raw: Bytes)
    ensures Speaks(raw) <==> !Blank(raw)
  {
    if !Blank(raw) {
      var b :| b in raw && !(9 <= b <= 13 || b == 32);
      var i :| 0 <= i < |raw| && raw[i] == b;
      assert raw[i] < 9 || 13 < raw[i] < 32 || 32 < raw[i];
    }
    if i :| 0 <= i < |raw| && (raw[i] < 9 || 13 < raw[i] < 32 || 32 < raw[i]) {
      assert raw[i] in raw;
    }
  }

  /** The lines that are not white space and that `json.loads` rejects. */
  ghost function TornLines<E>(lines: seq<Bytes>, loads: Bytes -> Parsed<E>): set<nat> {
    set i: nat | i < |lines| && Speaks(lines[i]) && loads(lines[i]).Malformed?
  }

  /** `at` lists, in order, the lines that are not white space and hold a record, `events` their records. */
  ghost predicate RecordsAt<E>(at: seq<nat>, events: seq<E>, lines: seq<Bytes>, loads: Bytes -> Parsed<E>) {
    && |at| == |events|
    && (forall j :: 0 <= j < |at| ==>
          at[j] < |lines| && Speaks(lines[at[j]]) && loads(lines[at[j]]) == Record(events[j]))
    && (forall i, j :: 0 <= i < j < |at| ==> at[i] < at[j])
    && (forall i: nat :: i < |lines| && Speaks(lines[i]) && loads(lines[i]).Record? ==> i in at)
  }

  lemma {:induction false} BadCountIsTorn<E>(lines: seq<Bytes>, loads: Bytes -> Parsed<E>)
    ensures BadCount(lines, loads) == |TornLines(lines, loads)|
  {
    hide Speaks, Blank;
    if lines == [] {
      assert TornLines(lines, loads) == {};
    } else {
      var n := |lines| - 1;
      var init, last := lines[..n], lines[n];
      BadCountIsTorn(init, loads);
      assert lines == init + [last];
      EventsAppend(init, [last], loads);
      SpeaksIff(last);
      LastLine(last, loads);
      assert TornLines(lines, loads) == TornLines(init, loads) + if IsBad(last, loads) then {n} else {};
    }
  }

  lemma LastLine<E>(line: Bytes, loads: Bytes -> Parsed<E>)
    ensures Events([line], loads) == if IsEvent(line, loads) then [loads(line).event] else []
    ensures BadCount([line], loads) == if IsBad(line, loads) then 1 else 0
  {
    hide IsEvent, IsBad;
    var nothing: seq<Bytes> := [];
    assert [line] + nothing == [line];
    FirstLine(line, nothing, loads);
    NoEvents(loads);
  }

  lemma {:induction false} EventsAreRecords<E>(lines: seq<Bytes>, loads: Bytes -> Parsed<E>) returns (at: seq<nat>)
    ensures RecordsAt(at, Events(lines, loads), lines, loads)
  {
    hide Events, Speaks, Blank;
    if lines == [] {
      at := [];
      NoEvents(loads);
    } else {
      var n := |lines| - 1;
      var init, last := lines[..n], lines[n];
      at := EventsAreRecords(init, loads);
      assert lines == init + [last];
      EventsAppend(init, [last], loads);
      SpeaksIff(last);
      LastLine(last, loads);
      if IsEvent(last, loads) { at := at + [n]; }
    }
  }

  /** How many lines one drain consumes: up to and including the limit-th event, stopping in front of a
      line on which `_normalize` raises. */
  function Cut<E>(lines: seq<Bytes>, limit: nat, loads: Bytes -> Parsed<E>): (k: nat)
    ensures k <= |lines|
  {
    if lines == [] || limit == 0 || Raises(lines[0], loads) then 0
    else 1 + Cut(lines[1..], if IsEvent(lines[0], loads) then limit - 1 else limit, loads)
  }

  /** The drain stops at `Cut` because the limit is reached, the lines are used up, or the next one raises. */
  lemma {:induction false} CutTakesNext<E>(lines: seq<Bytes>, limit: nat, loads: Bytes -> Parsed<E>)
    ensures
      var k := Cut(lines, limit, loads);
      && |Events(lines[..k], loads)| <= limit
      && (forall i :: 0 <= i < k ==> !Raises(lines[i], loads))
      && (k < |lines| && |Events(lines[..k], loads)| < limit ==> Raises(lines[k], loads))
      && (limit > 0 && |Events(lines[..k], loads)| == limit ==> k > 0 && IsEvent(lines[k - 1], loads))
  {
    var k := Cut(lines, limit, loads);
    if k > 0 {
      CutTakesNext(lines[1..], if IsEvent(lines[0], loads) then limit - 1 else limit, loads);
      assert lines[..k][1..] == lines[1..][..k - 1];
    }
  }
}
