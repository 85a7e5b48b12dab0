/** The frame-driven keyboard queue of `keyboard.py`. */
module Keyboard {
  import opened Common

  datatype Action = Action(kind: string, value: string, frames: int, modifiers: seq<string>)

  /** An action and the frame it is scheduled for. */
  datatype Item = Item(at: int, action: Action)

  /** One entry of the event log. */
  datatype Delivery = Delivery(
    frame: int, scheduled: int, kind: string, value: string, modifiers: seq<string>, machine: string, warp: bool)

  datatype Queue = Queue(machine: string, frame: int, items: seq<Item>, held: set<string>, events: seq<Delivery>)

  function Max(a: int, b: int): int { if a < b then b else a }

  function LowerChar(c: char): char {
    if 'A' <= c <= 'Z' then (c as int + 32) as char else c
  }

  /** `str.lower`, for ASCII kinds. */
  function Lower(s: string): string { seq(|s|, i requires 0 <= i < |s| => LowerChar(s[i])) }

  /** `low` is `s` with every capital replaced by its small letter. */
  ghost predicate LowerCaseOf(low: string, s: string) {
    && |low| == |s|
    && forall i :: 0 <= i < |s| ==>
         if 'A' <= s[i] <= 'Z' then 'a' <= low[i] <= 'z' && low[i] - 'a' == s[i] - 'A' else low[i] == s[i]
  }

  lemma LowerIsLowerCase(s: string)
    ensures LowerCaseOf(Lower(s), s)
  {
  }

  // ---------- One call ----------

  /** The items that `enqueue` appends: each follows its predecessor by the predecessor's frames. */
  function Schedule(actions: seq<Action>, f: int): seq<Item> {
    if actions == [] then []
    else [Item(f, actions[0])] + Schedule(actions[1..], f + Max(0, actions[0].frames))
  }

  /** The frames of the first `k` actions, negative ones counting as none. */
  function FramesBefore(actions: seq<Action>, k: nat): int
    requires k <= |actions|
  {
    if k == 0 then 0
    else FramesBefore(actions, k - 1) + if actions[k - 1].frames > 0 then actions[k - 1].frames else 0
  }

  lemma {:induction false} FramesAfterFirst(actions: seq<Action>, k: nat)
    requires 1 <= k <= |actions|
    ensures FramesBefore(actions, k) == FramesBefore(actions, 1) + FramesBefore(actions[1..], k - 1)
  {
    if k > 1 { FramesAfterFirst(actions, k - 1); }
  }

  /** Every action is scheduled, in order, for the first frame and the frames of all before it. */
  lemma {:induction false} ScheduledAt(actions: seq<Action>, f: int)
    ensures |Schedule(actions, f)| == |actions|
    ensures forall k :: 0 <= k < |actions| ==> Schedule(actions, f)[k] == Item(f + FramesBefore(actions, k), actions[k])
  {
    if actions != [] {
      var g := f + FramesBefore(actions, 1);
      ScheduledAt(actions[1..], g);
      assert FramesBefore(actions, 0) == 0 && g == f + Max(0, actions[0].frames);
      assert Schedule(actions, f) == [Item(f, actions[0])] + Schedule(actions[1..], g);
      forall k | 0 <= k < |actions| ensures Schedule(actions, f)[k] == Item(f + FramesBefore(actions, k), actions[k]) {
        if k > 0 {
          FramesAfterFirst(actions, k);
          assert Schedule(actions, f)[k] == Schedule(actions[1..], g)[k - 1];
        }
      }
    }
  }

  function EnqueueStep(s: Queue, actions: seq<Action>, start: Option<int>): Queue {
    s.(items := s.items + Schedule(actions, if start.None? then s.frame else Max(s.frame, start.value)))
  }

  /** How many items at the front are due; one that is not holds back all behind it. */
  function DueCount(items: seq<Item>, frame: int): (n: nat)
    ensures n <= |items|
  {
    if items == [] || items[0].at > frame then 0 else 1 + DueCount(items[1..], frame)
  }

  predicate Presses(kind: string) { kind in ["press", "matrix_press", "restore", "hold"] }

  predicate Releases(kind: string) { kind in ["release", "matrix_release"] }

  function Hold(held: set<string>, kind: string, key: string): set<string> {
    if Presses(kind) then held + {key} else if Releases(kind) then held - {key} else held
  }

  function HeldAfter(held: set<string>, events: seq<Delivery>): set<string> {
    if events == [] then held
    else
      var last := events[|events| - 1];
      Hold(HeldAfter(held, events[..|events| - 1]), last.kind, last.value)
  }

  function Deliver(item: Item, frame: int, machine: string, warp: bool): Delivery {
    Delivery(frame, item.at, Lower(item.action.kind), item.action.value, item.action.modifiers, machine, warp)
  }

  function DeliverAll(items: seq<Item>, frame: int, machine: string, warp: bool): seq<Delivery> {
    seq(|items|, i requires 0 <= i < |items| => Deliver(items[i], frame, machine, warp))
  }

  /** `tick`, and the events it returns. */
  function TickStep(s: Queue, frames: int, running: bool, warp: bool): (Queue, seq<Delivery>) {
    var frame := s.frame + Max(0, frames);
    if !running then (s.(frame := frame), [])
    else
      var n := DueCount(s.items, frame);
      var out := DeliverAll(s.items[..n], frame, s.machine, warp);
      (Queue(s.machine, frame, s.items[n..], HeldAfter(s.held, out), s.events + out), out)
  }

  function CancelStep(s: Queue): Queue { s.(items := [], held := {}) }

  datatype KeyboardResult = KeyboardResult(completed: nat, cancelled: bool, stuckKeys: set<string>)

  /** The loop of `drain`. */
  function DrainLoop(s: Queue, target: int, running: bool): (r: Queue)
    ensures |r.events| >= |s.events|
    decreases target - s.frame
  {
    if s.items != [] && s.frame < target then DrainLoop(TickStep(s, 1, running, false).0, target, running) else s
  }

  function DrainStep(s: Queue, maxFrames: int, running: bool): (Queue, KeyboardResult) {
    var s1 := DrainLoop(s, s.frame + maxFrames, running);
    var cancelled := s1.items != [];
    var s2 := if cancelled then CancelStep(s1) else s1;
    (s2, KeyboardResult(|s2.events| - |s.events|, cancelled, s2.held))
  }

  // ---------- tick(a); tick(b) and tick(a + b) ----------

  /** A delivery without the frame it happened at. */
  function Content(e: Delivery): (int, string, string, seq<string>) { (e.scheduled, e.kind, e.value, e.modifiers) }

  function Contents(events: seq<Delivery>): seq<(int, string, string, seq<string>)> {
    seq(|events|, i requires 0 <= i < |events| => Content(events[i]))
  }

  lemma {:induction false} DueInTwoSteps(items: seq<Item>, f: int, g: int)
    requires f <= g
    ensures DueCount(items, f) <= DueCount(items, g)
    ensures DueCount(items, g) == DueCount(items, f) + DueCount(items[DueCount(items, f)..], g)
  {
    if items != [] && items[0].at <= f {
      DueInTwoSteps(items[1..], f, g);
      assert items[1..][DueCount(items[1..], f)..] == items[DueCount(items, f)..];
    }
  }

  lemma {:induction false} HeldAfterConcat(held: set<string>, a: seq<Delivery>, b: seq<Delivery>)
    ensures HeldAfter(held, a + b) == HeldAfter(HeldAfter(held, a), b)
  {
    if b == [] {
      assert a + b == a;
    } else {
      HeldAfterConcat(held, a, b[..|b| - 1]);
      assert (a + b)[..|a + b| - 1] == a + b[..|b| - 1];
    }
  }

  ghost predicate PressedLastAt(events: seq<Delivery>, key: string, i: nat) {
    && i < |events| && events[i].kind in {"press", "matrix_press", "restore", "hold"} && events[i].value == key
    && forall j :: i < j < |events| ==> !(events[j].kind in {"release", "matrix_release"} && events[j].value == key)
  }

  /** A key is held exactly if one of the events pressed it and none after that released it. */
  lemma {:induction false} HeldMeansPressed(events: seq<Delivery>, key: string)
    ensures key in HeldAfter({}, events) <==> exists i :: PressedLastAt(events, key, i)
  {
    if events != [] {
      var n := |events| - 1;
      var init := events[..n];
      HeldMeansPressed(init, key);
      if key in HeldAfter({}, init) && !(Releases(events[n].kind) && events[n].value == key) {
        var i :| PressedLastAt(init, key, i);
        assert PressedLastAt(events, key, i);
      }
      if Presses(events[n].kind) && events[n].value == key {
        assert PressedLastAt(events, key, n);
      }
      forall i: nat | PressedLastAt(events, key, i) ensures key in HeldAfter({}, events) {
        if i < n { assert PressedLastAt(init, key, i); }
      }
    }
  }

  /** The held keys depend only on what was delivered, not when. */
  lemma {:induction false} HeldByContent(held: set<string>, a: seq<Delivery>, b: seq<Delivery>)
    requires Contents(a) == Contents(b)
    ensures HeldAfter(held, a) == HeldAfter(held, b)
  {
    if a != [] {
      var n := |a| - 1;
      assert |b| == |a| by { assert |Contents(a)| == |Contents(b)|; }
      assert Contents(a[..n]) == Contents(a)[..n] && Contents(b[..n]) == Contents(b)[..n];
      HeldByContent(held, a[..n], b[..n]);
      assert Contents(a)[n] == Contents(b)[n];
    }
  }

  lemma DeliverySplits(items: seq<Item>, n: nat, m: nat, f: int, g: int, machine: string, warp: bool)
    requires n <= m <= |items|
    ensures Contents(DeliverAll(items[..n], f, machine, warp) + DeliverAll(items[n..][..m - n], g, machine, warp))
         == Contents(DeliverAll(items[..m], g, machine, warp))
  {
    var a, b := DeliverAll(items[..n], f, machine, warp), DeliverAll(items[n..][..m - n], g, machine, warp);
    var c := DeliverAll(items[..m], g, machine, warp);
    forall i | 0 <= i < m ensures Content((a + b)[i]) == Content(c[i]) {
      if i >= n { assert items[n..][..m - n][i - n] == items[i]; }
    }
  }

  /** What a running tick does, field by field. */
  lemma TickFields(s: Queue, frames: nat, warp: bool)
    ensures
      var (s', out) := TickStep(s, frames, true, warp);
      var n := DueCount(s.items, s.frame + frames);
      && s'.frame == s.frame + frames && s'.machine == s.machine && s'.items == s.items[n..]
      && out == DeliverAll(s.items[..n], s.frame + frames, s.machine, warp)
      && s'.held == HeldAfter(s.held, out) && s'.events == s.events + out
  {
  }

  /** Two ticks in a row leave the same queue, frame and held keys as one tick of both lengths, and deliver
      the same actions in the same order. */
  lemma TicksAdd(s: Queue, a: nat, b: nat, warp: bool)
    ensures
      var (s1, out1) := TickStep(s, a, true, warp);
      var (s2, out2) := TickStep(s1, b, true, warp);
      var (t, out) := TickStep(s, a + b, true, warp);
      && s2.items == t.items && s2.frame == t.frame && s2.held == t.held
      && Contents(out1 + out2) == Contents(out)
      && s2.events == s.events + (out1 + out2) && t.events == s.events + out
  {
    hide DeliverAll, Contents, HeldAfter, DueCount, TickStep;
    var (s1, out1) := TickStep(s, a, true, warp);
    var (s2, out2) := TickStep(s1, b, true, warp);
    var (t, out) := TickStep(s, a + b, true, warp);
    TickFields(s, a, warp);
    TickFields(s1, b, warp);
    TickFields(s, a + b, warp);
    DueInTwoSteps(s.items, s.frame + a, s.frame + a + b);
    var n, m := DueCount(s.items, s.frame + a), DueCount(s.items, s.frame + a + b);
    DeliverySplits(s.items, n, m, s.frame + a, s.frame + a + b, s.machine, warp);
    assert s.items[n..][m - n..] == s.items[m..];
    assert s.events + out1 + out2 == s.events + (out1 + out2);
    HeldAfterConcat(s.held, out1, out2);
    HeldByContent(s.held, out1 + out2, out);
  }

  // ---------- drain ----------

  function MaxSchedule(items: seq<Item>): int
    requires items != []
  {
    var last := items[|items| - 1].at;
    if |items| == 1 then last else Max(MaxSchedule(items[..|items| - 1]), last)
  }

  /** The frame at which a running drain that starts at frame `start` delivers item `i`. */
  function DeliveryFrame(items: seq<Item>, i: nat, start: int): int
    requires i < |items|
  {
    Max(start + 1, MaxSchedule(items[..i + 1]))
  }

  lemma {:induction false} MaxScheduleBounds(items: seq<Item>)
    requires items != []
    ensures forall i :: 0 <= i < |items| ==> items[i].at <= MaxSchedule(items)
    ensures exists i :: 0 <= i < |items| && items[i].at == MaxSchedule(items)
  {
    if |items| > 1 {
      var n := |items| - 1;
      MaxScheduleBounds(items[..n]);
      var i :| 0 <= i < n && items[..n][i].at == MaxSchedule(items[..n]);
      assert items[if MaxSchedule(items[..n]) < items[n].at then n else i].at == MaxSchedule(items);
    } else {
      assert items[0].at == MaxSchedule(items);
    }
  }

  lemma {:induction false} DuePrefix(items: seq<Item>, frame: int)
    ensures
      var n := DueCount(items, frame);
      && (forall i :: 0 <= i < n ==> items[i].at <= frame)
      && (n < |items| ==> items[n].at > frame)
  {
    if items != [] && items[0].at <= frame {
      DuePrefix(items[1..], frame);
      var n := DueCount(items[1..], frame);
      forall i | 0 <= i < n + 1 ensures items[i].at <= frame {
        if i > 0 { assert items[i] == items[1..][i - 1]; }
      }
    }
  }

  /** The frame at which item `i` becomes due, counting from the item `d` that was found not due at `f`. */
  lemma DeliveryFrameShifts(items: seq<Item>, d: nat, j: nat, f: int)
    requires d + j < |items| && (forall i :: 0 <= i < d ==> items[i].at <= f) && items[d].at > f
    ensures DeliveryFrame(items[d..], j, f) == DeliveryFrame(items, d + j, f - 1)
  {
    var a, b := items[d..][..j + 1], items[..d + j + 1];
    assert forall i :: 0 <= i <= j ==> a[i] == b[d + i];
    MaxScheduleBounds(a);
    MaxScheduleBounds(b);
    assert a[0].at == items[d].at;
  }

  lemma DeliveryFrameNow(items: seq<Item>, i: nat, f: int)
    requires i < |items| && forall k :: 0 <= k <= i ==> items[k].at <= f
    ensures DeliveryFrame(items, i, f - 1) == f
  {
    MaxScheduleBounds(items[..i + 1]);
  }

  /** The drain of `s` that ends in `s'` delivered item `i` on time. */
  ghost predicate DeliveredAt(s: Queue, s': Queue, i: nat, target: int) {
    && i < |s.items| && |s.events| + i < |s'.events|
    && DeliveryFrame(s.items, i, s.frame) <= target
    && s'.events[|s.events| + i] == Deliver(s.items[i], DeliveryFrame(s.items, i, s.frame), s.machine, false)
  }

  /** What a running drain logs by the time it stops. */
  ghost predicate Drained(s: Queue, s': Queue, target: int) {
    var n := |s'.events| - |s.events|;
    && 0 <= n <= |s.items|
    && s'.items == s.items[n..]
    && (forall i: nat :: i < n ==> DeliveredAt(s, s', i, target))
    && (n < |s.items| ==> DeliveryFrame(s.items, n, s.frame) > target)
  }

  /** One tick that delivers the first `d` items. */
  ghost predicate TickDelivers(s: Queue, t: Queue, d: nat) {
    && t.frame == s.frame + 1 && t.machine == s.machine
    && d <= |s.items| && t.items == s.items[d..]
    && (forall i :: 0 <= i < d ==> s.items[i].at <= t.frame) && (d < |s.items| ==> s.items[d].at > t.frame)
    && t.events == s.events + DeliverAll(s.items[..d], t.frame, s.machine, false)
  }

  lemma EarlyDelivery(s: Queue, t: Queue, s': Queue, d: nat, target: int, i: nat)
    requires s.frame < target && TickDelivers(s, t, d) && t.events <= s'.events && i < d
    ensures DeliveredAt(s, s', i, target)
  {
    DeliveryFrameNow(s.items, i, t.frame);
    assert s'.events[|s.events| + i] == t.events[|s.events| + i];
  }

  lemma LaterDelivery(s: Queue, t: Queue, s': Queue, d: nat, target: int, i: nat)
    requires TickDelivers(s, t, d) && t.events <= s'.events && DeliveredAt(t, s', i, target)
    ensures DeliveredAt(s, s', d + i, target)
  {
    DeliveryFrameShifts(s.items, d, i, t.frame);
  }

  /** One tick that delivers `d` items, then the rest of the drain. */
  lemma TickThenDrained(s: Queue, t: Queue, s': Queue, d: nat, target: int)
    requires s.frame < target && TickDelivers(s, t, d)
    requires Drained(t, s', target) && t.events <= s'.events
    ensures Drained(s, s', target)
  {
    hide DeliveredAt, DeliveryFrame;
    var n := |s'.events| - |t.events|;
    assert |t.events| == |s.events| + d;
    forall i: nat | i < d + n ensures DeliveredAt(s, s', i, target) {
      if i < d { EarlyDelivery(s, t, s', d, target, i); } else { LaterDelivery(s, t, s', d, target, i - d); }
    }
    if d + n < |s.items| { DeliveryFrameShifts(s.items, d, n, t.frame); }
  }

  lemma {:induction false} DrainLoopDelivers(s: Queue, target: int)
    ensures Drained(s, DrainLoop(s, target, true), target)
    ensures s.events <= DrainLoop(s, target, true).events
    decreases target - s.frame
  {
    if s.items != [] && s.frame < target {
      var (t, out) := TickStep(s, 1, true, false);
      DuePrefix(s.items, t.frame);
      DrainLoopDelivers(t, target);
      TickThenDrained(s, t, DrainLoop(t, target, true), DueCount(s.items, t.frame), target);
    } else if s.items != [] {
      assert DeliveryFrame(s.items, 0, s.frame) >= s.frame + 1;
    }
  }

  lemma {:induction false} PausedDrainLoop(s: Queue, target: int)
    ensures
      var s' := DrainLoop(s, target, false);
      s'.items == s.items && s'.events == s.events && s'.held == s.held
    decreases target - s.frame
  {
    if s.items != [] && s.frame < target {
      PausedDrainLoop(TickStep(s, 1, false, false).0, target);
    }
  }

  lemma MaxScheduleGrows(items: seq<Item>, n: nat)
    requires n < |items|
    ensures MaxSchedule(items[..n + 1]) <= MaxSchedule(items)
  {
    MaxScheduleBounds(items);
    MaxScheduleBounds(items[..n + 1]);
  }

  /** `drain` reports "drained" exactly when there was nothing to do, or the machine runs and every schedule
      lies within the allowed frames; otherwise it clears the queue and the held keys.  A running drain
      delivers each item it reaches at the first frame after the start at which it and all before it are due. */
  lemma DrainOutcome(s: Queue, maxFrames: int, running: bool)
    ensures
      var (s', r) := DrainStep(s, maxFrames, running);
      var target := s.frame + maxFrames;
      && (!r.cancelled <==>
            s.items == [] || (running && maxFrames >= 1 && MaxSchedule(s.items) <= target))
      && s'.items == [] && (r.cancelled ==> s'.held == {}) && r.stuckKeys == s'.held
      && s.events <= s'.events && r.completed == |s'.events| - |s.events| <= |s.items|
      && (!running ==> r.completed == 0)
      && (running ==>
            && (forall i: nat :: i < r.completed ==> DeliveredAt(s, s', i, target))
            && (r.completed < |s.items| ==> DeliveryFrame(s.items, r.completed, s.frame) > target))
  {
    hide DrainLoop, MaxSchedule;
    var target := s.frame + maxFrames;
    if running {
      DrainLoopDelivers(s, target);
      var s1 := DrainLoop(s, target, true);
      var n := |s1.events| - |s.events|;
      forall i: nat | i < n ensures DeliveredAt(s, DrainStep(s, maxFrames, true).0, i, target) {
        assert DeliveredAt(s, s1, i, target);
      }
      if n < |s.items| { MaxScheduleGrows(s.items, n); }
      if n == |s.items| && n > 0 {
        assert s.items[..n - 1 + 1] == s.items;
        assert DeliveredAt(s, s1, n - 1, target);
        assert DeliveryFrame(s.items, n - 1, s.frame) == Max(s.frame + 1, MaxSchedule(s.items));
      }
    } else {
      PausedDrainLoop(s, target);
    }
  }

  // ---------- Every run ----------

  datatype Op =
    | Enqueue(actions: seq<Action>, start: Option<int>)
    | Tick(frames: int, running: bool, warp: bool)
    | Cancel
    | Drain(maxFrames: int, running: bool)

  function Apply(s: Queue, op: Op): Queue {
    match op
    case Enqueue(actions, start) => EnqueueStep(s, actions, start)
    case Tick(frames, running, warp) => TickStep(s, frames, running, warp).0
    case Cancel => CancelStep(s)
    case Drain(maxFrames, running) => DrainStep(s, maxFrames, running).0
  }

  /** The queue with the history of a run: every item ever enqueued, for each event the position of its item
      among them, the positions cancelled, and the length of the event log at the last cancel. */
  datatype Trace = Trace(s: Queue, enqueued: seq<Item>, order: seq<nat>, cancelled: seq<nat>, mark: nat)

  /** FIFO, never early, nothing lost or duplicated except by a cancel, and the held keys are those pressed
      and not released since the last cancel. */
  ghost predicate Accounted(t: Trace) {
    var gone := |t.enqueued| - |t.s.items|;
    && gone >= 0 && t.s.items == t.enqueued[gone..]
    && |t.order| == |t.s.events|
    && (forall i, j :: 0 <= i < j < |t.order| ==> t.order[i] < t.order[j])
    && (forall i :: 0 <= i < |t.order| ==> EventFor(t, i))
    && (forall k :: 0 <= k < gone ==> (k in t.order <==> k !in t.cancelled))
    && (forall k :: k in t.cancelled ==> k < gone)
    && t.mark <= |t.s.events|
    && t.s.held == HeldAfter({}, t.s.events[t.mark..])
  }

  /** Event `i` is the delivery, not before its time, of the item at `order[i]`, which is no longer queued. */
  ghost predicate EventFor(t: Trace, i: nat)
    requires i < |t.order| == |t.s.events|
  {
    var e, k := t.s.events[i], t.order[i];
    && k < |t.enqueued| - |t.s.items| && k !in t.cancelled
    && DeliversItem(e, t.enqueued[k], t.s.machine)
    && t.enqueued[k].at <= e.frame <= t.s.frame
  }

  /** Everything an event says of its item; its kind is the action's in lower case. */
  ghost predicate DeliversItem(e: Delivery, item: Item, machine: string) {
    && e.scheduled == item.at && e.value == item.action.value && e.modifiers == item.action.modifiers
    && e.machine == machine && LowerCaseOf(e.kind, item.action.kind)
  }

  lemma DeliverTells(item: Item, frame: int, machine: string, warp: bool)
    ensures
      var e := Deliver(item, frame, machine, warp);
      DeliversItem(e, item, machine) && e.frame == frame && e.warp == warp
  {
    LowerIsLowerCase(item.action.kind);
  }

  lemma AllDelivered(items: seq<Item>, frame: int, machine: string, warp: bool)
    ensures
      var out := DeliverAll(items, frame, machine, warp);
      && |out| == |items|
      && forall i :: 0 <= i < |out| ==>
           DeliversItem(out[i], items[i], machine) && out[i].frame == frame && out[i].warp == warp
  {
    hide Deliver, DeliversItem;
    forall i | 0 <= i < |items|
      ensures
        var e := Deliver(items[i], frame, machine, warp);
        DeliversItem(e, items[i], machine) && e.frame == frame && e.warp == warp
    {
      DeliverTells(items[i], frame, machine, warp);
    }
  }

  function Positions(from: nat, to: nat): seq<nat>
    requires from <= to
  {
    seq(to - from, i requires 0 <= i < to - from => from + i)
  }

  /** One operation other than a drain, with its effect on the history. */
  function TraceStep(t: Trace, op: Op): Trace {
    var s' := Apply(t.s, op);
    var gone := if |t.s.items| <= |t.enqueued| then |t.enqueued| - |t.s.items| else 0;
    match op
    case Enqueue(_, _) => t.(s := s', enqueued := t.enqueued + s'.items[|t.s.items|..])
    case Cancel => t.(s := s', cancelled := t.cancelled + Positions(gone, |t.enqueued|), mark := |t.s.events|)
    case _ =>
      var n := if |s'.items| <= |t.s.items| then |t.s.items| - |s'.items| else 0;
      t.(s := s', order := t.order + Positions(gone, gone + n))
  }

  lemma PositionsHas(from: nat, to: nat)
    requires from <= to
    ensures forall k :: k in Positions(from, to) <==> from <= k < to
  {
    forall k | from <= k < to ensures k in Positions(from, to) {
      assert Positions(from, to)[k - from] == k;
    }
  }

  lemma EnqueueAccounted(t: Trace, actions: seq<Action>, start: Option<int>)
    requires Accounted(t)
    ensures Accounted(TraceStep(t, Enqueue(actions, start)))
  {
    var t' := TraceStep(t, Enqueue(actions, start));
    assert t'.s.items == t.s.items + t'.s.items[|t.s.items|..];
    forall i | 0 <= i < |t'.order| ensures EventFor(t', i) { assert EventFor(t, i); }
  }

  lemma CancelAccounted(t: Trace)
    requires Accounted(t)
    ensures Accounted(TraceStep(t, Cancel))
  {
    var t' := TraceStep(t, Cancel);
    PositionsHas(|t.enqueued| - |t.s.items|, |t.enqueued|);
    forall i | 0 <= i < |t'.order| ensures EventFor(t', i) { assert EventFor(t, i); }
    forall k | 0 <= k < |t.enqueued| ensures k in t'.order <==> k !in t'.cancelled {
      if k in t.order {
        var i :| 0 <= i < |t.order| && t.order[i] == k;
        assert EventFor(t, i);
      }
    }
    assert t.s.events[|t.s.events|..] == [];
  }

  /** The history side of a running tick that delivers `n` items. */
  lemma DeliveryAccounted(t: Trace, t': Trace, n: nat, out: seq<Delivery>)
    requires Accounted(t) && n <= |t.s.items| == |t'.s.items| + n && |out| == n
    requires t'.enqueued == t.enqueued && t'.cancelled == t.cancelled && t'.mark == t.mark
    requires t'.s.machine == t.s.machine && t.s.frame <= t'.s.frame && t'.s.items == t.s.items[n..]
    requires t'.s.events == t.s.events + out && t'.s.held == HeldAfter(t.s.held, out)
    requires t'.order == t.order + Positions(|t.enqueued| - |t.s.items|, |t.enqueued| - |t.s.items| + n)
    requires forall i :: 0 <= i < n ==>
      && t.s.items[i].at <= out[i].frame <= t'.s.frame
      && out[i] == Deliver(t.s.items[i], out[i].frame, t.s.machine, out[i].warp)
    ensures Accounted(t')
  {
    hide Deliver, HeldAfter;
    var gone := |t.enqueued| - |t.s.items|;
    PositionsHas(gone, gone + n);
    forall i | 0 <= i < |t'.order| ensures EventFor(t', i) {
      if i < |t.order| {
        assert EventFor(t, i);
      } else {
        var k := i - |t.order|;
        assert t.enqueued[t'.order[i]] == t.s.items[k];
        DeliverTells(t.s.items[k], out[k].frame, t.s.machine, out[k].warp);
      }
    }
    forall i, j | 0 <= i < j < |t'.order| ensures t'.order[i] < t'.order[j] {
      if i < |t.order| { assert EventFor(t, i); }
    }
    forall k | 0 <= k < gone + n ensures k in t'.order <==> k !in t'.cancelled {
    }
    assert t'.s.events[t.mark..] == t.s.events[t.mark..] + out;
    HeldAfterConcat({}, t.s.events[t.mark..], out);
  }

  lemma TickAccounted(t: Trace, frames: int, running: bool, warp: bool)
    requires Accounted(t)
    ensures Accounted(TraceStep(t, Tick(frames, running, warp)))
  {
    hide Accounted, HeldAfter, DueCount;
    AccountedFits(t);
    NothingHeld(t.s.held);
    var t' := TraceStep(t, Tick(frames, running, warp));
    var (s', out) := TickStep(t.s, frames, running, warp);
    DuePrefix(t.s.items, s'.frame);
    assert t.s.items[0..] == t.s.items && t.s.events + [] == t.s.events;
    DeliveryAccounted(t, t', |t.s.items| - |s'.items|, out);
  }

  lemma NothingHeld(held: set<string>)
    ensures HeldAfter(held, []) == held
  {
  }

  lemma AccountedFits(t: Trace)
    requires Accounted(t)
    ensures |t.s.items| <= |t.enqueued|
  {
  }

  function TraceDrainLoop(t: Trace, target: int, running: bool): Trace
    decreases target - t.s.frame
  {
    if t.s.items != [] && t.s.frame < target
    then TraceDrainLoop(TraceStep(t, Tick(1, running, false)), target, running) else t
  }

  /** Any operation with its effect on the history; a drain is its ticks, and its cancel if it times out. */
  function TraceOp(t: Trace, op: Op): Trace {
    if op.Drain? then
      var t1 := TraceDrainLoop(t, t.s.frame + op.maxFrames, op.running);
      if t1.s.items != [] then TraceStep(t1, Cancel) else t1
    else TraceStep(t, op)
  }

  function TraceRun(t: Trace, ops: seq<Op>): Trace
    decreases |ops|
  {
    if ops == [] then t else TraceRun(TraceOp(t, ops[0]), ops[1..])
  }

  function Run(s: Queue, ops: seq<Op>): Queue
    decreases |ops|
  {
    if ops == [] then s else Run(Apply(s, ops[0]), ops[1..])
  }

  lemma {:induction false} DrainLoopAccounted(t: Trace, target: int, running: bool)
    requires Accounted(t)
    ensures Accounted(TraceDrainLoop(t, target, running))
    ensures TraceDrainLoop(t, target, running).s == DrainLoop(t.s, target, running)
    decreases target - t.s.frame
  {
    hide Accounted;
    if t.s.items != [] && t.s.frame < target {
      TickAccounted(t, 1, running, false);
      DrainLoopAccounted(TraceStep(t, Tick(1, running, false)), target, running);
    }
  }

  lemma OpAccounted(t: Trace, op: Op)
    requires Accounted(t)
    ensures Accounted(TraceOp(t, op)) && TraceOp(t, op).s == Apply(t.s, op)
  {
    hide Accounted, EnqueueStep, TickStep;
    match op
    case Enqueue(actions, start) => EnqueueAccounted(t, actions, start);
    case Tick(frames, running, warp) => TickAccounted(t, frames, running, warp);
    case Cancel => CancelAccounted(t);
    case Drain(maxFrames, running) =>
      DrainLoopAccounted(t, t.s.frame + maxFrames, running);
      CancelAccounted(TraceDrainLoop(t, t.s.frame + maxFrames, running));
  }

  /** The history goes on accounting for every item. */
  lemma {:induction false} RunAccounted(t: Trace, ops: seq<Op>)
    requires Accounted(t)
    ensures Accounted(TraceRun(t, ops)) && TraceRun(t, ops).s == Run(t.s, ops)
    decreases |ops|
  {
    hide Accounted, TraceOp, Apply;
    if ops != [] {
      OpAccounted(t, ops[0]);
      RunAccounted(TraceOp(t, ops[0]), ops[1..]);
    }
  }

  /** Over every run from an empty queue, the history accounts for every item. */
  lemma {:induction false} EveryRunAccounted(machine: string, frame: int, ops: seq<Op>)
    ensures
      var t := TraceRun(Trace(Queue(machine, frame, [], {}, []), [], [], [], 0), ops);
      Accounted(t) && t.s == Run(Queue(machine, frame, [], {}, []), ops)
  {
    hide Accounted, TraceRun, Run;
    var t := Trace(Queue(machine, frame, [], {}, []), [], [], [], 0);
    NothingYetAccounted(t);
    RunAccounted(t, ops);
  }

  lemma NothingYetAccounted(t: Trace)
    requires t.s.items == [] && t.s.held == {} && t.s.events == [] && t.enqueued == [] && t.order == []
    requires t.cancelled == [] && t.mark == 0
    ensures Accounted(t)
  {
    hide HeldAfter, EventFor;
    NothingHeld({});
    assert t.s.events[t.mark..] == [] && t.enqueued[0..] == [];
  }

  // ---------- The class ----------

  lemma NothingDelivered(s: Queue, warp: bool)
    ensures DeliverAll(s.items[..0], s.frame, s.machine, warp) == [] && HeldAfter(s.held, []) == s.held
    ensures s.items[0..] == s.items
  {
  }

  /** One more turn of the loop in `tick`, after `i` items have been delivered as `out`. */
  lemma NextDelivered(s: Queue, i: nat, out: seq<Delivery>, warp: bool)
    requires i < |s.items| && s.items[i].at <= s.frame && out == DeliverAll(s.items[..i], s.frame, s.machine, warp)
    ensures
      var e := Deliver(s.items[i], s.frame, s.machine, warp);
      && out + [e] == DeliverAll(s.items[..i + 1], s.frame, s.machine, warp)
      && HeldAfter(s.held, out + [e]) == Hold(HeldAfter(s.held, out), e.kind, e.value)
      && DueCount(s.items[i..], s.frame) == 1 + DueCount(s.items[i + 1..], s.frame)
      && s.items[i..][1..] == s.items[i + 1..]
  {
    hide Deliver;
    var e := Deliver(s.items[i], s.frame, s.machine, warp);
    assert (out + [e])[..|out + [e]| - 1] == out;
    assert s.items[i..][1..] == s.items[i + 1..];
  }

  lemma NoneDue(items: seq<Item>, frame: int)
    requires items == [] || items[0].at > frame
    ensures DueCount(items, frame) == 0
  {
  }

  class KeyboardQueue {
    var s: Queue

    /** `machine` is upper-cased by the source first. */
    constructor (machine: string, frame: int)
      ensures s == Queue(machine, frame, [], {}, [])
    {
      s := Queue(machine, frame, [], {}, []);
    }

    method Enqueue(actions: seq<Action>, start: Option<int>)
      modifies this
      ensures s == EnqueueStep(old(s), actions, start)
      ensures s == old(s).(items := s.items) && |s.items| == |old(s).items| + |actions| && old(s).items <= s.items
      ensures
        var first := if start.Some? && start.value > old(s).frame then start.value else old(s).frame;
        forall k :: 0 <= k < |actions| ==>
          s.items[|old(s).items| + k] == Item(first + FramesBefore(actions, k), actions[k])
    {
      ScheduledAt(actions, if start.None? then s.frame else Max(s.frame, start.value));
      var f := if start.None? then s.frame else Max(s.frame, start.value);
      var i := 0;
      while i < |actions|
        invariant 0 <= i <= |actions|
        invariant s == old(s).(items := s.items)
        invariant s.items + Schedule(actions[i..], f) == EnqueueStep(old(s), actions, start).items
      {
        assert actions[i..][1..] == actions[i + 1..];
        assert s.items + ([Item(f, actions[i])] + Schedule(actions[i + 1..], f + Max(0, actions[i].frames)))
            == s.items + [Item(f, actions[i])] + Schedule(actions[i + 1..], f + Max(0, actions[i].frames));
        s := s.(items := s.items + [Item(f, actions[i])]);
        f := f + Max(0, actions[i].frames);
        i := i + 1;
      }
    }

    method Tick(frames: int, running: bool, warp: bool) returns (out: seq<Delivery>)
      modifies this
      ensures (s, out) == TickStep(old(s), frames, running, warp)
      ensures s.frame == old(s).frame + (if frames > 0 then frames else 0)
      ensures !running ==> out == [] && s == old(s).(frame := s.frame)
      ensures running ==>
        && |out| <= |old(s).items| && s.items == old(s).items[|out|..] && s.events == old(s).events + out
        && (s.items != [] ==> s.items[0].at > s.frame)
        && forall i :: 0 <= i < |out| ==>
             && old(s).items[i].at <= out[i].frame == s.frame && out[i].warp == warp
             && DeliversItem(out[i], old(s).items[i], s.machine)
    {
      hide DueCount, HeldAfter, Deliver, DeliverAll, Hold, DeliversItem;
      ghost var due := DueCount(s.items, s.frame + Max(0, frames));
      DuePrefix(s.items, s.frame + Max(0, frames));
      AllDelivered(s.items[..due], s.frame + Max(0, frames), s.machine, warp);
      s := s.(frame := s.frame + Max(0, frames));
      out := [];
      if !running {
        return;
      }
      ghost var start := s;
      ghost var n := DueCount(start.items, s.frame);
      ghost var i := 0;
      NothingDelivered(start, warp);
      while s.items != [] && s.items[0].at <= s.frame
        invariant 0 <= i <= n && i + DueCount(s.items, s.frame) == n
        invariant s == start.(items := start.items[i..], held := HeldAfter(start.held, out))
        invariant out == DeliverAll(start.items[..i], s.frame, s.machine, warp)
        decreases |s.items|
      {
        var item := s.items[0];
        var e := Deliver(item, s.frame, s.machine, warp);
        NextDelivered(start, i, out, warp);
        s := s.(items := s.items[1..], held := Hold(s.held, e.kind, e.value));
        out := out + [e];
        i := i + 1;
      }
      NoneDue(s.items, s.frame);
      s := s.(events := s.events + out);
    }

    method Cancel()
      modifies this
      ensures s == CancelStep(old(s))
    {
      s := s.(items := [], held := {});
    }

    method Drain(maxFrames: int, running: bool) returns (r: KeyboardResult)
      modifies this
      ensures (s, r) == DrainStep(old(s), maxFrames, running)
    {
      var n := |s.events|;
      var target := s.frame + maxFrames;
      while s.items != [] && s.frame < target
        invariant DrainLoop(s, target, running) == DrainLoop(old(s), target, running)
        decreases target - s.frame
      {
        var out := Tick(1, running, false);
      }
      var cancelled := s.items != [];
      if cancelled {
        Cancel();
      }
      return KeyboardResult(|s.events| - n, cancelled, s.held);
    }
  }
}
