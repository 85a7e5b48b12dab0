/** Request-id allocation of `monitor.py`: the cycle 0 .. 0xFFFFFFFE, skipping ids still pending. */
module RequestIds {
  import opened Common
  import opened MonitorFrames

  /** The id looked at by the k-th probe after `next`. */
  function Probe(next: nat, k: nat): nat { (next + k) % EVENT_ID }

  /** The first probe, from the k-th on, whose id is not pending; EVENT_ID + 1 if none of the EVENT_ID is. */
  function FirstFree(next: nat, pending: set<nat>, k: nat): (n: nat)
    requires 1 <= k <= EVENT_ID + 1
    ensures k <= n <= EVENT_ID + 1
    ensures n <= EVENT_ID ==> Probe(next, n) !in pending
    ensures forall j :: k <= j < n ==> Probe(next, j) in pending
    decreases EVENT_ID + 1 - k
  {
    if k > EVENT_ID || Probe(next, k) !in pending then k else FirstFree(next, pending, k + 1)
  }

  function Probed(next: nat, m: nat): set<nat> { set j | 1 <= j <= m :: Probe(next, j) }

  /** Two points of the cycle that carry the same id are a full cycle apart. */
  lemma SameIdMeansFullCycle(p: nat, q: nat)
    requires p < q
    ensures p % EVENT_ID == q % EVENT_ID ==> q - p >= EVENT_ID
  {
  }

  lemma SameIdAfterCycle(p: nat)
    ensures Probe(p % EVENT_ID, EVENT_ID) == p % EVENT_ID == (p + EVENT_ID) % EVENT_ID
  {
  }

  lemma NoProbe(next: nat)
    requires next < EVENT_ID
    ensures Probe(next, 0) == next && Probe(next, EVENT_ID) == next
    ensures forall k :: Probe(next, k) < EVENT_ID
  {
  }

  /** One probe: add one modulo 2^32, and step over the event id. */
  lemma ProbeStep(next: nat, k: nat)
    ensures
      var n := (Probe(next, k) + 1) % 0x1_0000_0000;
      (if n == EVENT_ID then 0 else n) == Probe(next, k + 1)
  {
  }

  lemma {:induction false} ProbesAreDistinct(next: nat, m: nat)
    requires m <= EVENT_ID
    ensures |Probed(next, m)| == m
  {
    if m > 0 {
      ProbesAreDistinct(next, m - 1);
      assert Probed(next, m) == Probed(next, m - 1) + {Probe(next, m)};
      forall j | 1 <= j < m ensures Probe(next, j) != Probe(next, m) {
        SameIdMeansFullCycle(next + j, next + m);
      }
    }
  }

  /** Pigeonhole: n pending ids cost at most n extra probes. */
  lemma FreeWithinPendingPlusOne(next: nat, pending: set<nat>)
    requires |pending| < EVENT_ID
    ensures FirstFree(next, pending, 1) <= |pending| + 1
  {
    var n := FirstFree(next, pending, 1);
    if n > |pending| + 1 {
      var m := |pending| + 1;
      ProbesAreDistinct(next, m);
      assert Probed(next, m) <= pending;
      SubsetSize(Probed(next, m), pending);
    }
  }

  class Allocator {
    var next: nat

    constructor ()
      ensures next == 0
    {
      next := 0;
    }

    /** `_request_id`.  It fails only if every one of the EVENT_ID ids is pending. */
    method RequestId(pending: set<nat>) returns (id: Option<nat>)
      requires next < EVENT_ID
      modifies this
      ensures next < EVENT_ID
      ensures var probes := FirstFree(old(next), pending, 1);
        && id == (if probes <= EVENT_ID then Some(Probe(old(next), probes)) else None)
        && (|pending| < EVENT_ID ==> id.Some? && probes <= |pending| + 1)
      ensures id.Some? ==> id.value == next && id.value !in pending && id.value != EVENT_ID
      ensures id.None? ==> next == old(next)
    {
      hide Probe, FirstFree;
      if |pending| < EVENT_ID { FreeWithinPendingPlusOne(next, pending); }
      NoProbe(next);
      var probe := 0;
      while probe < EVENT_ID
        invariant 0 <= probe <= EVENT_ID
        invariant next == Probe(old(next), probe)
        invariant FirstFree(old(next), pending, probe + 1) == FirstFree(old(next), pending, 1)
      {
        ProbeStep(old(next), probe);
        FirstFreeAt(old(next), pending, probe + 1);
        next := (next + 1) % 0x1_0000_0000;
        if next == EVENT_ID {
          next := 0;
        }
        probe := probe + 1;
        if next !in pending {
          return Some(next);
        }
      }
      return None;
    }
  }

  lemma FirstFreeAt(next: nat, pending: set<nat>, k: nat)
    requires 1 <= k <= EVENT_ID
    ensures FirstFree(next, pending, k) == if Probe(next, k) !in pending then k else FirstFree(next, pending, k + 1)
  {
  }
}
