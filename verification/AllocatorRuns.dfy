/**
 Any sequence of `reserve`, `handoff` and `release` on one `PortAllocator`, with other processes in between:
 which reservations the allocator still claims.
 */
module AllocatorRuns {
  import opened Common
  import opened PortAllocator

  /** `held` and `drawn` are history: the reservations not yet released, and a bound on the tokens drawn. */
  datatype Ledger = Ledger(book: Book, held: set<Reservation>, drawn: nat)

  datatype Op =
    | Reserve(r: Reservation, alive: set<int>)      // `reserve` returns `r`
    | Handoff(item: Reservation)
    | Release(item: Reservation)                    // `item` may have been released before
    | Others(sockets: map<Port, nat>, leases: map<Port, Lease>)

  /** What `Allocator.Usable` asks of a port, apart from whether the OS lets it be bound. */
  predicate Reservable(b: Book, p: Port, alive: set<int>) {
    p !in b.sockets && p !in b.claims && !(p in b.leases && Live(b.leases[p], alive))
  }

  /** `reserve` returns a usable port under a fresh token, and this process is alive; other processes leave
      alone the leases that name it. */
  ghost predicate Possible(l: Ledger, op: Op, pid: int) {
    match op
    case Reserve(r, alive) => pid > 0 && pid in alive && Reservable(l.book, r.port, alive) && l.drawn <= r.token
    case Others(_, leases) =>
      forall p :: p in l.book.leases && l.book.leases[p].Owned? && l.book.leases[p].pid == pid ==>
        p in leases && leases[p] == l.book.leases[p]
    case _ => true
  }

  function Step(l: Ledger, op: Op, pid: int): Ledger {
    match op
    case Reserve(r, _) => Ledger(AfterReserve(l.book, r, pid), l.held + {r}, r.token + 1)
    case Handoff(item) => l.(book := AfterHandoff(l.book, item))
    case Release(item) => l.(book := AfterRelease(l.book, item), held := l.held - {item})
    case Others(sockets, leases) => l.(book := l.book.(sockets := sockets, leases := leases))
  }

  ghost predicate ValidRun(l: Ledger, ops: seq<Op>, pid: int)
    decreases |ops|
  {
    ops == [] || (Possible(l, ops[0], pid) && ValidRun(Step(l, ops[0], pid), ops[1..], pid))
  }

  function Run(l: Ledger, ops: seq<Op>, pid: int): Ledger
    decreases |ops|
  {
    if ops == [] then l else Run(Step(l, ops[0], pid), ops[1..], pid)
  }

  /** A new allocator, on whatever host. */
  ghost predicate Fresh(l: Ledger) { l.book.claims == {} && l.held == {} }

  function PortsOf(rs: set<Reservation>): set<Port> { set r | r in rs :: r.port }

  /** The claims are exactly the ports of the reservations held. */
  ghost predicate Covered(l: Ledger) { l.book.claims == PortsOf(l.held) }

  /** This release is of a reservation that is not held, while another one of its port is. */
  ghost predicate Forgets(l: Ledger, op: Op) {
    op.Release? && op.item !in l.held && op.item.port in PortsOf(l.held)
  }

  /** The reservations whose claims an operation drops although they stay held. */
  ghost function Victims(l: Ledger, op: Op): set<Reservation> {
    if Forgets(l, op) then set r | r in l.held && r.port == op.item.port else {}
  }

  ghost function Forgotten(l: Ledger, ops: seq<Op>, pid: int): set<Reservation>
    decreases |ops|
  {
    if ops == [] then {} else Victims(l, ops[0]) + Forgotten(Step(l, ops[0], pid), ops[1..], pid)
  }

  // ---------- Invariant ----------

  ghost predicate HeldInv(l: Ledger, r: Reservation, pid: int) {
    r.token < l.drawn && r.port in l.book.leases && l.book.leases[r.port] == Owned(pid, r.token)
  }

  /** Every reservation held has its lease file, and the claims are those of the ones not in `lost`. */
  ghost predicate Inv(l: Ledger, lost: set<Reservation>, pid: int) {
    && (forall r :: r in l.held ==> HeldInv(l, r, pid))
    && (forall r :: r in lost ==> r.token < l.drawn)
    && l.book.claims == PortsOf(l.held - lost)
  }

  /** No two reservations held are of one port. */
  lemma OneHolder(l: Ledger, lost: set<Reservation>, q: Reservation, r: Reservation, pid: int)
    requires Inv(l, lost, pid) && q in l.held && r in l.held && q.port == r.port
    ensures q == r
  {
    assert HeldInv(l, q, pid) && HeldInv(l, r, pid);
  }

  lemma ReserveKeepsInv(l: Ledger, lost: set<Reservation>, r: Reservation, alive: set<int>, pid: int)
    requires Inv(l, lost, pid) && Possible(l, Reserve(r, alive), pid)
    ensures Inv(Step(l, Reserve(r, alive), pid), lost, pid)
  {
    var l' := Step(l, Reserve(r, alive), pid);
    forall q | q in l'.held ensures HeldInv(l', q, pid) {
      if q != r { assert HeldInv(l, q, pid); }
    }
    assert l'.held - lost == (l.held - lost) + {r};
  }

  lemma ReleaseKeepsInv(l: Ledger, lost: set<Reservation>, item: Reservation, pid: int)
    requires Inv(l, lost, pid)
    ensures Inv(Step(l, Release(item), pid), lost + Victims(l, Release(item)), pid)
  {
    var l' := Step(l, Release(item), pid);
    var lost' := lost + Victims(l, Release(item));
    forall q | q in l'.held ensures HeldInv(l', q, pid) {
      assert HeldInv(l, q, pid);
    }
    forall q | q in l.held && q.port == item.port ensures item in l.held ==> q == item {
      if item in l.held { OneHolder(l, lost, q, item, pid); }
    }
    assert forall q :: q in l.held - lost && q.port != item.port ==> q in l'.held - lost';
    forall q | q in l'.held - lost' ensures q in l.held - lost && q.port != item.port {
      assert q.port == item.port && item !in l.held ==> q.port in PortsOf(l.held);
    }
    assert l'.book.claims == PortsOf(l'.held - lost');
    forall q | q in lost' ensures q.token < l'.drawn {
      assert q in lost || HeldInv(l, q, pid);
    }
  }

  lemma StepKeepsInv(l: Ledger, lost: set<Reservation>, op: Op, pid: int)
    requires Inv(l, lost, pid) && Possible(l, op, pid)
    ensures Inv(Step(l, op, pid), lost + Victims(l, op), pid)
  {
    assert !op.Release? ==> lost + Victims(l, op) == lost;
    match op
    case Reserve(r, alive) => ReserveKeepsInv(l, lost, r, alive, pid);
    case Release(item) => ReleaseKeepsInv(l, lost, item, pid);
    case _ =>
      forall q | q in l.held ensures HeldInv(Step(l, op, pid), q, pid) {
        assert HeldInv(l, q, pid);
      }
  }

  lemma {:induction false} RunKeepsInv(l: Ledger, lost: set<Reservation>, ops: seq<Op>, pid: int)
    requires Inv(l, lost, pid) && ValidRun(l, ops, pid)
    ensures Inv(Run(l, ops, pid), lost + Forgotten(l, ops, pid), pid)
    decreases |ops|
  {
    hide Inv, Step, Possible, Victims;
    if ops == [] {
      assert lost + {} == lost;
    } else {
      StepKeepsInv(l, lost, ops[0], pid);
      var victims, rest := Victims(l, ops[0]), Forgotten(Step(l, ops[0], pid), ops[1..], pid);
      RunKeepsInv(Step(l, ops[0], pid), lost + victims, ops[1..], pid);
      assert lost + victims + rest == lost + (victims + rest);
    }
  }

  // ---------- Which claims an allocator keeps ----------

  /** An operation keeps the claims equal to the ports of the reservations held exactly if it is not the
      release of a reservation that is not held, of a port that another one holds. */
  lemma StepKeepsCoveredIff(l: Ledger, op: Op, pid: int)
    requires Inv(l, {}, pid) && Possible(l, op, pid)
    ensures Covered(Step(l, op, pid)) <==> !Forgets(l, op)
  {
    StepKeepsInv(l, {}, op, pid);
    var l' := Step(l, op, pid);
    var victims := Victims(l, op);
    assert {} + victims == victims;
    if Forgets(l, op) {
      var r :| r in l.held && r.port == op.item.port;
      assert r in l'.held && r.port in PortsOf(l'.held);
      assert r.port !in l'.book.claims;
    } else {
      assert l'.held - victims == l'.held;
    }
  }

  ghost predicate CoveredThroughout(l: Ledger, ops: seq<Op>, pid: int)
    decreases |ops|
  {
    Covered(l) && (ops == [] || CoveredThroughout(Step(l, ops[0], pid), ops[1..], pid))
  }

  ghost predicate NeverForgets(l: Ledger, ops: seq<Op>, pid: int)
    decreases |ops|
  {
    ops == [] || (!Forgets(l, ops[0]) && NeverForgets(Step(l, ops[0], pid), ops[1..], pid))
  }

  lemma {:induction false} CoveredIff(l: Ledger, ops: seq<Op>, pid: int)
    requires Inv(l, {}, pid) && ValidRun(l, ops, pid)
    ensures CoveredThroughout(l, ops, pid) <==> NeverForgets(l, ops, pid)
    decreases |ops|
  {
    hide Inv, Step, Possible, Forgets, Covered;
    InvIsCovered(l, pid);
    if ops != [] {
      StepKeepsCoveredIff(l, ops[0], pid);
      if !Forgets(l, ops[0]) {
        StepKeepsInv(l, {}, ops[0], pid);
        assert {} + Victims(l, ops[0]) == {};
        CoveredIff(Step(l, ops[0], pid), ops[1..], pid);
      }
    }
  }

  lemma InvIsCovered(l: Ledger, pid: int)
    requires Inv(l, {}, pid)
    ensures Covered(l)
  {
    assert l.held - {} == l.held;
  }

  /** Over any run of a new allocator, the claims equal the ports of the reservations held at all times
      exactly if no such release occurs. */
  lemma ClaimsCoverHeldIff(l: Ledger, ops: seq<Op>, pid: int)
    requires Fresh(l) && ValidRun(l, ops, pid)
    ensures CoveredThroughout(l, ops, pid) <==> NeverForgets(l, ops, pid)
  {
    CoveredIff(l, ops, pid);
  }

  /** After any run of a new allocator: the claims are exactly the ports of the reservations held and not
      forgotten, no two reservations held share a port, and each has its lease file. */
  lemma ClaimsAfterRun(l: Ledger, ops: seq<Op>, pid: int)
    requires Fresh(l) && ValidRun(l, ops, pid)
    ensures
      var l', lost := Run(l, ops, pid), Forgotten(l, ops, pid);
      && l'.book.claims == PortsOf(l'.held - lost)
      && (forall r :: r in l'.held ==> r.port in l'.book.leases && l'.book.leases[r.port] == Owned(pid, r.token))
      && (forall q, r :: q in l'.held && r in l'.held && q.port == r.port ==> q == r)
  {
    hide Forgotten, Run, ValidRun;
    RunKeepsInv(l, {}, ops, pid);
    var l', lost := Run(l, ops, pid), Forgotten(l, ops, pid);
    assert {} + lost == lost;
    forall r | r in l'.held ensures r.port in l'.book.leases && l'.book.leases[r.port] == Owned(pid, r.token) {
      assert HeldInv(l', r, pid);
    }
  }

  // ---------- The class takes these steps ----------

  /** The ledger is about this allocator as it is now. */
  ghost predicate Of(l: Ledger, a: Allocator)
    reads a`claims, a.host
  {
    l.book == a.View() && l.drawn <= a.host.drawn && a.host.Valid() && a.pid > 0 && a.pid in a.host.alive
  }

  method ReserveStep(a: Allocator, ghost l: Ledger, preferred: nat) returns (r: Option<Reservation>)
    requires Of(l, a)
    modifies a`claims, a.host`sockets, a.host`leases, a.host`drawn
    ensures r.None? ==> Of(l, a)
    ensures r.Some? ==>
      && Possible(l, Reserve(r.value, a.host.alive), a.pid)
      && Of(Step(l, Reserve(r.value, a.host.alive), a.pid), a)
  {
    if preferred > 0 {
      r := a.Reserve(preferred);
    } else {
      r := a.ReserveAny();
    }
  }

  method HandoffStep(a: Allocator, ghost l: Ledger, item: Reservation)
    requires Of(l, a)
    modifies a.host`sockets
    ensures Possible(l, Handoff(item), a.pid) && Of(Step(l, Handoff(item), a.pid), a)
  {
    a.Handoff(item);
  }

  method ReleaseStep(a: Allocator, ghost l: Ledger, item: Reservation)
    requires Of(l, a)
    modifies a`claims, a.host`sockets, a.host`leases
    ensures Possible(l, Release(item), a.pid) && Of(Step(l, Release(item), a.pid), a)
  {
    a.Release(item);
  }
}
