/**
 The module-level port tables of `batch.py`: `allocate_ports`, `release_ports`, `handoff_port`.
 */
module BatchPorts {
  import opened Common
  import opened PortAllocator

  /** `allocate_ports` returns the ports, or runs into its error path.  That path calls `release_ports`,
      which waits for the non-reentrant `_PORT_LOCK` that its caller holds: the call never returns, and
      the ports reserved up to then stay reserved. */
  datatype Outcome = Allocated(ports: seq<Port>) | SelfDeadlock(stranded: seq<Port>)

  ghost predicate Increasing(s: seq<Port>) {
    forall i, j :: 0 <= i < j < |s| ==> s[i] < s[j]
  }

  /** `out` lists the |out| least elements of `avail`, in order. */
  ghost predicate FirstOf(out: seq<Port>, avail: set<Port>) {
    && Increasing(out)
    && (forall p :: p in out ==> p in avail)
    && (forall p, i :: p in avail && 0 <= i < |out| && p < out[i] ==> p in out[..i])
  }

  /** `after` differs from `before` only in that some leases of dead owners, and garbled ones, are gone. */
  ghost predicate Pruned(before: map<Port, Lease>, after: map<Port, Lease>, alive: set<int>) {
    && (forall p :: p in after ==> p in before && after[p] == before[p])
    && (forall p :: p in before && Live(before[p], alive) ==> p in after)
  }

  function Elements(s: seq<Port>): set<Port> { set p | p in s }

  lemma {:induction false} IncreasingSize(s: seq<Port>)
    requires Increasing(s)
    ensures |Elements(s)| == |s|
  {
    if s != [] {
      var init, last := s[..|s| - 1], s[|s| - 1];
      IncreasingSize(init);
      assert last !in init;
      assert s == init + [last];
      assert Elements(s) == Elements(init) + {last};
    }
  }

  lemma FirstOfPrefix(out: seq<Port>, avail: set<Port>)
    requires FirstOf(out, avail) && out != []
    ensures FirstOf(out[..|out| - 1], avail)
  {
    var init := out[..|out| - 1];
    forall p, i | p in avail && 0 <= i < |init| && p < init[i] ensures p in init[..i] {
      assert out[i] == init[i] && out[..i] == init[..i];
    }
  }

  lemma FirstOfExtends(out: seq<Port>, avail: set<Port>, next: Port)
    requires FirstOf(out, avail) && next in avail && next !in out
    requires forall p :: p in avail && p !in out ==> next <= p
    ensures FirstOf(out + [next], avail)
  {
    var ext := out + [next];
    forall i | 0 <= i < |out| ensures out[i] < next {
      assert out[i] in out;
      var smaller := out[..i];
      assert next < out[i] ==> next in smaller;
    }
    forall p, i | p in avail && 0 <= i < |ext| && p < ext[i] ensures p in ext[..i] {
      if i < |out| {
        assert p in out[..i] && ext[..i] == out[..i];
      } else {
        assert ext[..i] == out;
      }
    }
  }

  /** What is left after the |out| least elements lies at least |out| above the base. */
  lemma FirstOfBounds(out: seq<Port>, avail: set<Port>, base: nat)
    requires FirstOf(out, avail)
    requires forall p :: p in avail ==> base <= p
    ensures forall p :: p in avail && p !in out ==> base + |out| <= p
  {
    forall p | p in avail && p !in out ensures base + |out| <= p {
      forall i | 0 <= i < |out| ensures base <= out[i] < p {
        assert out[i] in out;
        var smaller := out[..i];
        assert p < out[i] ==> p in smaller;
      }
      IncreasingBelow(out, base, p);
    }
  }

  lemma {:induction false} IncreasingBelow(s: seq<Port>, base: nat, bound: nat)
    requires Increasing(s) && base <= bound
    requires forall i :: 0 <= i < |s| ==> base <= s[i] < bound
    ensures base + |s| <= bound
  {
    if s != [] {
      IncreasingBelow(s[..|s| - 1], base, s[|s| - 1]);
    }
  }

  /** The |out| least elements are determined by |out|. */
  lemma {:induction false} FirstOfIsUnique(a: seq<Port>, b: seq<Port>, avail: set<Port>)
    requires FirstOf(a, avail) && FirstOf(b, avail) && |a| == |b|
    ensures a == b
  {
    if a != [] {
      var n := |a| - 1;
      FirstOfPrefix(a, avail);
      FirstOfPrefix(b, avail);
      FirstOfIsUnique(a[..n], b[..n], avail);
      assert a == a[..n] + [a[n]] && b == b[..n] + [b[n]];
      assert a[n] in a && b[n] in b;
      var x, y, init := a[n], b[n], a[..n];
      assert x < y ==> x in init;
      assert y < x ==> y in init;
    }
  }

  /** Every table an allocation touches, as one value. */
  datatype Tables = Tables(
    reservedPorts: set<Port>,
    reservations: map<Port, Reservation>,
    claims: set<Port>,
    sockets: map<Port, nat>,
    leases: map<Port, Lease>)

  predicate UsableIn(t: Tables, p: Port, host: Host) {
    p !in t.sockets && p !in host.denied && p !in t.claims && !(p in t.leases && Live(t.leases[p], host.alive))
  }

  /** Ports a call may hand out: usable, from `base` up, and not in `used`. */
  ghost function Available(t: Tables, base: nat, used: set<Port>, host: Host): set<Port> {
    set p: Port | p <= MAX_PORT && base <= p && UsableIn(t, p, host) && p !in used
  }

  /** Ports that the OS can bind. */
  ghost function Bindable(t: Tables, host: Host): set<Port> {
    set p: Port | p <= MAX_PORT && p !in t.sockets && p !in host.denied
  }

  /** When `allocate_ports` must succeed.  With a base: if there are enough available ports.  Without: if
      there are enough ports to bind and none of them is unavailable, since the OS may pick any. */
  ghost predicate MustSucceed(t: Tables, base: nat, count: nat, used: set<Port>, host: Host) {
    if base > 0 then count <= |Available(t, base, used, host)|
    else count <= |Bindable(t, host)| && Bindable(t, host) <= Available(t, 0, used, host)
  }

  /** Why a port could not be added to `out`. */
  ghost predicate Exhausted(t: Tables, base: nat, used: set<Port>, host: Host, out: seq<Port>) {
    if base > 0 then Elements(out) == Available(t, base, used, host)
    else Bindable(t, host) <= Elements(out) || !(Bindable(t, host) <= Available(t, 0, used, host))
  }

  lemma OutcomeDecided(t: Tables, base: nat, count: nat, used: set<Port>, host: Host, out: seq<Port>)
    requires Chosen(out, Available(t, base, used, host), base) && |out| <= count
    ensures |out| == count ==> count <= |Available(t, base, used, host)|
    ensures |out| < count && Exhausted(t, base, used, host, out) ==> !MustSucceed(t, base, count, used, host)
  {
    SubsetSize(Elements(out), Available(t, base, used, host));
    if Bindable(t, host) <= Elements(out) { SubsetSize(Bindable(t, host), Elements(out)); }
  }

  lemma TookBindable(before: Tables, t: Tables, out: seq<Port>, pid: int, host: Host)
    requires Took(before, t, out, pid, host.alive)
    ensures Bindable(t, host) <= Bindable(before, host) <= Bindable(t, host) + Elements(out)
    ensures Bindable(t, host) !! Elements(out)
  {
    var ports := Elements(out);
    forall p: Port | p !in ports ensures p in t.sockets <==> p in before.sockets {
      assert p in t.sockets <==> p in t.sockets - ports;
    }
    forall p: Port | p in ports ensures p in t.sockets && p !in before.sockets {
      assert HoldsFully(t, p, pid);
      assert p !in t.sockets - ports;
    }
  }

  lemma TookAvailable(before: Tables, t: Tables, out: seq<Port>, pid: int, host: Host, base: nat, used: set<Port>)
    requires Took(before, t, out, pid, host.alive)
    ensures Available(t, base, used + Elements(out), host) == Available(before, base, used, host) - Elements(out)
  {
    var ports := Elements(out);
    forall p: Port | p !in ports ensures UsableIn(t, p, host) == UsableIn(before, p, host) {
      assert p in t.sockets <==> p in t.sockets - ports;
      assert p in t.leases <==> p in t.leases - ports;
      assert p in before.leases <==> p in before.leases - ports;
    }
  }

  /** What the `try` block has done once it holds the reservations `out`. */
  ghost predicate Took(before: Tables, after: Tables, out: seq<Port>, pid: int, alive: set<int>) {
    var ports := Elements(out);
    && after.reservedPorts == before.reservedPorts
    && after.claims == before.claims + ports
    && after.reservations.Keys == before.reservations.Keys + ports
    && after.reservations - ports == before.reservations
    && (forall p :: p in ports ==> HoldsFully(after, p, pid))
    && after.sockets - ports == before.sockets
    && Pruned(before.leases - ports, after.leases - ports, alive)
  }

  ghost predicate HoldsFully(t: Tables, p: Port, pid: int) {
    && p in t.reservations && t.reservations[p].port == p
    && p in t.sockets && t.sockets[p] == t.reservations[p].token
    && p in t.leases && t.leases[p] == Owned(pid, t.reservations[p].token)
  }

  /** The allocator's part of taking reservation `r`, and the batch's record of it. */
  ghost predicate TookOne(t: Tables, t': Tables, r: Reservation, pid: int, alive: set<int>) {
    && t'.reservedPorts == t.reservedPorts
    && t'.reservations == t.reservations[r.port := r]
    && t'.claims == t.claims + {r.port}
    && t'.sockets == t.sockets[r.port := r.token]
    && r.port in t'.leases && t'.leases[r.port] == Owned(pid, r.token)
    && Pruned(t.leases - {r.port}, t'.leases - {r.port}, alive)
  }

  function BookOf(t: Tables): Book { Book(t.claims, t.sockets, t.leases) }

  function WithBook(t: Tables, b: Book): Tables { t.(claims := b.claims, sockets := b.sockets, leases := b.leases) }

  lemma TakeAndGiveBack(t: Tables, r: Reservation, pid: int, host: Host)
    requires UsableIn(t, r.port, host)
    ensures
      var taken := AfterReserve(BookOf(t), r, pid);
      && TookOne(t, WithBook(t, taken).(reservations := t.reservations[r.port := r]), r, pid, host.alive)
      && Took(t, WithBook(t, AfterRelease(taken, r)), [], pid, host.alive)
  {
    var t' := WithBook(t, AfterRelease(AfterReserve(BookOf(t), r, pid), r));
    assert Elements([]) == {};
    assert t'.claims == t.claims && t'.sockets == t.sockets && t'.leases == t.leases - {r.port};
    assert t'.leases - {} == t'.leases && t.leases - {} == t.leases && t.sockets - {} == t.sockets;
    assert t.reservations - {} == t.reservations;
  }

  lemma TookNothingTwice(t: Tables, t1: Tables, t2: Tables, pid: int, alive: set<int>)
    requires Took(t, t1, [], pid, alive) && Took(t1, t2, [], pid, alive)
    ensures Took(t, t2, [], pid, alive)
  {
    assert Elements([]) == {};
    assert t.leases - {} == t.leases && t1.leases - {} == t1.leases && t2.leases - {} == t2.leases;
    assert t1.sockets - {} == t1.sockets && t2.sockets - {} == t2.sockets;
    assert t1.reservations - {} == t1.reservations && t2.reservations - {} == t2.reservations;
  }

  lemma TookNothingThenOne(t: Tables, t1: Tables, t2: Tables, r: Reservation, pid: int, alive: set<int>)
    requires Took(t, t1, [], pid, alive) && TookOne(t1, t2, r, pid, alive)
    ensures TookOne(t, t2, r, pid, alive)
  {
    assert Elements([]) == {};
    assert t.leases - {} == t.leases && t1.leases - {} == t1.leases;
    assert t1.sockets - {} == t1.sockets && t1.reservations - {} == t1.reservations;
    assert forall p :: p in t.leases - {r.port} && p in t1.leases ==> p in t1.leases - {r.port};
  }

  lemma StillAvailable(t: Tables, t1: Tables, pid: int, base: nat, used: set<Port>, host: Host)
    requires Took(t, t1, [], pid, host.alive)
    ensures Available(t1, base, used, host) == Available(t, base, used, host)
  {
    TookAvailable(t, t1, [], pid, host, base, used);
    assert Elements([]) == {} && used + {} == used;
  }

  lemma AvailableFrom(t: Tables, base: nat, used: set<Port>, host: Host)
    ensures forall p :: p in Available(t, base, used, host) ==> base <= p
  {
  }

  lemma TookNoneYet(t: Tables, pid: int, alive: set<int>)
    ensures Took(t, t, [], pid, alive)
  {
    assert Elements([]) == {};
    assert t.sockets - {} == t.sockets && t.reservations - {} == t.reservations && t.leases - {} == t.leases;
  }

  /** `out` are distinct available ports; with a non-zero base, the least ones in order. */
  ghost predicate Chosen(out: seq<Port>, avail: set<Port>, base: nat) {
    && Elements(out) <= avail && |Elements(out)| == |out|
    && (base > 0 ==> FirstOf(out, avail))
  }

  lemma ChosenNone(avail: set<Port>, base: nat)
    ensures Chosen([], avail, base) && Elements([]) == {}
  {
    assert Elements([]) == {};
  }

  lemma ChosenStep(out: seq<Port>, avail: set<Port>, base: nat, p: Port)
    requires Chosen(out, avail, base) && p in avail && p !in out
    requires base > 0 ==> FirstOf(out + [p], avail)
    ensures Chosen(out + [p], avail, base)
    ensures Elements(out + [p]) == Elements(out) + {p}
  {
    assert Elements(out + [p]) == Elements(out) + {p};
  }

  lemma TookNothing(before: Tables, t: Tables, t': Tables, out: seq<Port>, pid: int, alive: set<int>)
    requires Took(before, t, out, pid, alive) && Took(t, t', [], pid, alive)
    requires pid > 0 && pid in alive
    ensures Took(before, t', out, pid, alive)
  {
    var ports := Elements(out);
    assert Elements([]) == {};
    assert t'.sockets - {} == t'.sockets && t'.reservations - {} == t'.reservations;
    assert t.leases - {} == t.leases && t'.leases - {} == t'.leases;
    forall p | p in ports ensures HoldsFully(t', p, pid) {
      assert HoldsFully(t, p, pid);
    }
    forall p | p in t'.leases - ports ensures p in before.leases - ports && t'.leases[p] == before.leases[p] {
      assert p in t.leases - ports;
    }
    forall p | p in before.leases - ports && Live(before.leases[p], alive) ensures p in t'.leases - ports {
      assert p in t.leases - ports;
    }
  }

  lemma TookStep(before: Tables, t: Tables, t': Tables, out: seq<Port>, r: Reservation, pid: int, alive: set<int>)
    requires Took(before, t, out, pid, alive) && TookOne(t, t', r, pid, alive)
    requires r.port !in out && r.port !in t.reservations && r.port !in t.sockets
    requires pid > 0 && pid in alive
    ensures Took(before, t', out + [r.port], pid, alive)
  {
    var ports, ports' := Elements(out), Elements(out + [r.port]);
    assert ports' == ports + {r.port};
    forall p | p in ports' ensures HoldsFully(t', p, pid) {
      if p in ports {
        assert HoldsFully(t, p, pid);
        assert p in t.leases - {r.port};
      }
    }
    assert t'.reservations - ports' == before.reservations;
    assert t'.sockets - ports' == before.sockets;
    forall p | p in t'.leases - ports'
      ensures p in before.leases - ports' && t'.leases[p] == before.leases[p]
    {
      assert p in t'.leases - {r.port};
      assert p in t.leases - ports;
    }
    forall p | p in before.leases - ports' && Live(before.leases[p], alive) ensures p in t'.leases - ports' {
      assert p in before.leases - ports;
      assert p in t.leases - ports;
      assert p in t.leases - {r.port};
    }
  }

  lemma TookKeys(before: Tables, t: Tables, out: seq<Port>, pid: int, alive: set<int>)
    requires Took(before, t, out, pid, alive)
    ensures t.reservations.Keys == before.reservations.Keys + Elements(out)
    ensures t.reservedPorts == before.reservedPorts
  {
  }

  lemma TookConsistent(before: Tables, t: Tables, out: seq<Port>, pid: int, alive: set<int>)
    requires Took(before, t, out, pid, alive)
    requires forall p :: p in before.reservations ==> before.reservations[p].port == p
    ensures forall p :: p in t.reservations ==> t.reservations[p].port == p
  {
    forall p | p in t.reservations ensures t.reservations[p].port == p {
      if p in Elements(out) {
        assert HoldsFully(t, p, pid);
      } else {
        assert p in t.reservations - Elements(out);
      }
    }
  }

  /** Is `p` among the ports being released, with `token` the one its reservation carries? */
  predicate Ours(t: Tables, ports: set<Port>, p: Port, token: nat) {
    p in ports && p in t.reservations && t.reservations[p].token == token
  }

  /** Every table after `release_ports(ports)`. */
  ghost function Released(t: Tables, ports: set<Port>): Tables {
    Tables(
      t.reservedPorts - ports,
      t.reservations - ports,
      t.claims - (ports * t.reservations.Keys),
      map p | p in t.sockets && !Ours(t, ports, p, t.sockets[p]) :: t.sockets[p],
      map p | p in t.leases && !(t.leases[p].Owned? && Ours(t, ports, p, t.leases[p].token)) :: t.leases[p])
  }

  lemma ReleasedNothing(t: Tables)
    ensures Released(t, {}) == t
  {
    var r := Released(t, {});
    assert r.reservations == t.reservations && r.sockets == t.sockets && r.leases == t.leases;
  }

  lemma ReleasedOne(t: Tables, ports: set<Port>, port: Port)
    ensures Released(Released(t, ports), {port}) == Released(t, ports + {port})
  {
    var a, b := Released(Released(t, ports), {port}), Released(t, ports + {port});
    assert a.reservedPorts == b.reservedPorts && a.reservations == b.reservations && a.claims == b.claims;
    assert a.sockets == b.sockets && a.leases == b.leases;
  }

  /** Releasing what a failed allocation took puts every table back, up to stale lease files. */
  lemma RollbackRestores(before: Tables, t: Tables, out: seq<Port>, pid: int, alive: set<int>)
    requires Took(before, t, out, pid, alive)
    requires forall p :: p in out ==> p !in before.reservedPorts && p !in before.claims
    requires forall p :: p in out ==> !(p in before.leases && Live(before.leases[p], alive))
    ensures Released(t, Elements(out)) == before.(leases := Released(t, Elements(out)).leases)
    ensures Pruned(before.leases, Released(t, Elements(out)).leases, alive)
  {
    var ports := Elements(out);
    var r := Released(t, ports);
    assert forall p :: p in ports ==> HoldsFully(t, p, pid);
    assert r.sockets == t.sockets - ports;
    assert r.leases == t.leases - ports;
    forall p | p in before.leases && Live(before.leases[p], alive) ensures p in r.leases {
      assert p in before.leases - ports;
    }
    forall p | p in r.leases ensures p in before.leases && r.leases[p] == before.leases[p] {
      assert p in t.leases - ports;
      assert p in before.leases - ports;
    }
  }

  /** The available ports that `out` does not list are those a scan from `base + |out|` meets. */
  lemma ScanMeetsTheRest(
    before: Tables, t: Tables, out: seq<Port>, pid: int, host: Host, base: nat, taken: set<Port>)
    requires Took(before, t, out, pid, host.alive)
    requires FirstOf(out, Available(before, base, taken, host))
    ensures Available(before, base, taken, host) - Elements(out)
         == Available(t, base + |out|, taken + Elements(out), host)
  {
    hide Took, FirstOf, UsableIn;
    var avail := Available(before, base, taken, host);
    TookAvailable(before, t, out, pid, host, base, taken);
    FirstOfBounds(out, avail, base);
    NarrowAvailable(t, base, base + |out|, taken + Elements(out), host);
  }

  lemma NarrowAvailable(t: Tables, base: nat, higher: nat, used: set<Port>, host: Host)
    requires base <= higher && forall p :: p in Available(t, base, used, host) ==> higher <= p
    ensures Available(t, higher, used, host) == Available(t, base, used, host)
  {
    hide UsableIn;
  }

  /** A scan that finds nothing beyond `out` means that nothing available is left. */
  lemma ScanStops(before: Tables, t: Tables, out: seq<Port>, pid: int, host: Host, base: nat, taken: set<Port>)
    requires Took(before, t, out, pid, host.alive) && base > 0
    requires Chosen(out, Available(before, base, taken, host), base)
    requires Available(t, base + |out|, taken + Elements(out), host) == {}
    ensures Exhausted(before, base, taken, host, out)
  {
    hide Took, FirstOf, Available;
    ScanMeetsTheRest(before, t, out, pid, host, base, taken);
    var avail := Available(before, base, taken, host);
    assert forall p :: p in avail ==> p in Elements(out) || p in avail - Elements(out);
  }

  /** The port picked next, the least one from `base + |out|` up or any, is available and not yet taken. */
  lemma NextIsAvailable(
    before: Tables, t: Tables, out: seq<Port>, pid: int, host: Host, base: nat, taken: set<Port>, next: Port)
    requires Took(before, t, out, pid, host.alive) && before.reservations.Keys <= taken
    requires Chosen(out, Available(before, base, taken, host), base)
    requires
      var rest := Available(t, if base > 0 then base + |out| else 0, taken + Elements(out), host);
      next in rest && (base > 0 ==> forall p :: p in rest ==> next <= p)
    ensures next !in out && next in Available(before, base, taken, host)
    ensures next !in t.reservations && next !in t.sockets
    ensures base > 0 ==> FirstOf(out + [next], Available(before, base, taken, host))
  {
    hide Took, FirstOf, Available, Chosen;
    var avail := Available(before, base, taken, host);
    TookKeys(before, t, out, pid, host.alive);
    AvailableIsFree(t, if base > 0 then base + |out| else 0, taken + Elements(out), host, next);
    if base > 0 {
      ChosenIsFirst(out, avail, base);
      ScanMeetsTheRest(before, t, out, pid, host, base, taken);
      assert forall p :: p in avail && p !in out ==> p in avail - Elements(out);
      FirstOfExtends(out, avail, next);
    } else {
      TookAvailable(before, t, out, pid, host, base, taken);
    }
  }

  lemma ChosenIsFirst(out: seq<Port>, avail: set<Port>, base: nat)
    requires Chosen(out, avail, base) && base > 0
    ensures FirstOf(out, avail)
  {
  }

  lemma AvailableIsFree(t: Tables, base: nat, used: set<Port>, host: Host, p: Port)
    requires p in Available(t, base, used, host)
    ensures p !in used && p !in t.sockets
  {
  }

  /** A pick that can fail now could have failed, or run out, in view of the tables before. */
  lemma PickStops(before: Tables, t: Tables, out: seq<Port>, pid: int, host: Host, taken: set<Port>)
    requires Took(before, t, out, pid, host.alive)
    requires
      Bindable(t, host) == {} || !(Bindable(t, host) <= Available(t, 0, taken + Elements(out), host))
    ensures Exhausted(before, 0, taken, host, out)
  {
    TookAvailable(before, t, out, pid, host, 0, taken);
    TookBindable(before, t, out, pid, host);
  }

  lemma OnePortAtTheTop(t: Tables, used: set<Port>, host: Host)
    ensures |Available(t, MAX_PORT, used, host)| <= 1
  {
    SubsetSize(Available(t, MAX_PORT, used, host), {MAX_PORT});
  }

  class Batch {
    var locked: bool
    var reservedPorts: set<Port>
    var reservations: map<Port, Reservation>
    const allocator: Allocator

    constructor (allocator: Allocator)
      ensures this.allocator == allocator && !locked && reservedPorts == {} && reservations == map[]
    {
      this.allocator := allocator;
      locked, reservedPorts, reservations := false, {}, map[];
    }

    ghost predicate Valid()
      reads this, allocator.host
    {
      && allocator.host.Valid()
      && allocator.pid > 0 && allocator.pid in allocator.host.alive
      && reservations.Keys == reservedPorts
      && (forall p :: p in reservations ==> reservations[p].port == p)
    }

    ghost function Snapshot(): Tables
      reads this, allocator, allocator.host
    {
      Tables(reservedPorts, reservations, allocator.claims, allocator.host.sockets, allocator.host.leases)
    }

    ghost predicate Taken(before: Tables, out: seq<Port>)
      reads this, allocator, allocator.host
    {
      Took(before, Snapshot(), out, allocator.pid, allocator.host.alive)
    }

    /** The inner loop of `allocate_ports` for a non-zero base: reserve, give back a port that is in
        `used`, and try again one higher. */
    method ScanFrom(preferred: nat, used: set<Port>) returns (r: Option<Reservation>)
      requires preferred > 0 && allocator.host.Valid()
      modifies allocator`claims, allocator.host`sockets, allocator.host`leases, allocator.host`drawn
      ensures allocator.host.Valid()
      ensures r.Some? ==>
        && r.value.port in Available(old(Snapshot()), preferred, used, allocator.host)
        && (forall p :: p in Available(old(Snapshot()), preferred, used, allocator.host) ==> r.value.port <= p)
        && TookOne(old(Snapshot()), Snapshot().(reservations := reservations[r.value.port := r.value]), r.value,
                   allocator.pid, allocator.host.alive)
      ensures r.None? ==>
        && Available(old(Snapshot()), preferred, used, allocator.host) == {}
        && Taken(old(Snapshot()), [])
    {
      hide Took, TookOne, AfterReserve, AfterRelease, Available;
      ghost var t := Snapshot();
      ghost var avail := Available(t, preferred, used, allocator.host);
      TookNoneYet(t, allocator.pid, allocator.host.alive);
      AvailableFrom(t, preferred, used, allocator.host);
      var p := preferred;
      while p <= MAX_PORT
        invariant preferred <= p && allocator.host.Valid() && Taken(t, [])
        invariant forall q :: q in avail ==> p <= q
      {
        ghost var now := Snapshot();
        StillAvailable(t, now, allocator.pid, preferred, used, allocator.host);
        UsableNow(now, preferred, used);
        r := allocator.Reserve(p);
        if r.Some? {
          TakeAndGiveBack(now, r.value, allocator.pid, allocator.host);
          if r.value.port !in used {
            TookNothingThenOne(t, now, Snapshot().(reservations := reservations[r.value.port := r.value]), r.value,
                               allocator.pid, allocator.host.alive);
            return;
          }
          allocator.Release(r.value);
          TookNothingTwice(t, now, Snapshot(), allocator.pid, allocator.host.alive);
        }
        p := p + 1;
      }
      return None;
    }

    lemma UsableNow(now: Tables, base: nat, used: set<Port>)
      requires now == Snapshot()
      ensures forall p: Port :: allocator.Usable(p) <==> UsableIn(now, p, allocator.host)
      ensures forall p: Port ::
        p in Available(now, base, used, allocator.host) <==> base <= p && allocator.Usable(p) && p !in used
    {
    }

    /** The single attempt of `allocate_ports` when the base is None or 0. */
    method TakeAny(used: set<Port>) returns (r: Option<Reservation>)
      requires allocator.host.Valid()
      modifies allocator`claims, allocator.host`sockets, allocator.host`leases, allocator.host`drawn
      ensures allocator.host.Valid()
      ensures r.Some? ==>
        && r.value.port in Available(old(Snapshot()), 0, used, allocator.host)
        && TookOne(old(Snapshot()), Snapshot().(reservations := reservations[r.value.port := r.value]), r.value,
                   allocator.pid, allocator.host.alive)
      ensures r.None? ==>
        && Taken(old(Snapshot()), [])
        && (Bindable(old(Snapshot()), allocator.host) == {} ||
            !(Bindable(old(Snapshot()), allocator.host) <= Available(old(Snapshot()), 0, used, allocator.host)))
    {
      hide Took, TookOne, AfterReserve, AfterRelease;
      ghost var t := Snapshot();
      assert forall p: Port :: p in Bindable(t, allocator.host) <==> allocator.host.Bindable(p);
      assert forall p: Port :: p in Available(t, 0, used, allocator.host) <==> allocator.Usable(p) && p !in used;
      TookNoneYet(t, allocator.pid, allocator.host.alive);
      r := allocator.ReserveAny();
      if r.Some? {
        TakeAndGiveBack(t, r.value, allocator.pid, allocator.host);
        if r.value.port in used {
          allocator.Release(r.value);
          r := None;
        }
      }
    }

    /** One turn of the outer loop: reserve the next port and record it. */
    method TakeNext(ghost before: Tables, base: nat, ghost taken: set<Port>, used: set<Port>, out: seq<Port>)
      returns (r: Option<Port>)
      requires allocator.host.Valid() && allocator.pid > 0 && allocator.pid in allocator.host.alive
      requires Taken(before, out) && used == taken + Elements(out)
      requires before.reservations.Keys <= taken
      requires Chosen(out, Available(before, base, taken, allocator.host), base)
      modifies this`reservations, allocator`claims
      modifies allocator.host`sockets, allocator.host`leases, allocator.host`drawn
      ensures allocator.host.Valid()
      ensures r.Some? ==>
        && Taken(before, out + [r.value])
        && r.value !in out && r.value in Available(before, base, taken, allocator.host)
        && (base > 0 ==> FirstOf(out + [r.value], Available(before, base, taken, allocator.host)))
      ensures r.None? ==>
        Taken(before, out) && Exhausted(before, base, taken, allocator.host, out)
    {
      hide Took, FirstOf, Pruned, HoldsFully, Available, Bindable, Exhausted, Chosen;
      ghost var t := Snapshot();
      var next: Option<Reservation>;
      if base > 0 {
        next := ScanFrom(base + |out|, used);
        if next.None? { ScanStops(before, t, out, allocator.pid, allocator.host, base, taken); }
      } else {
        next := TakeAny(used);
        if next.None? { PickStops(before, t, out, allocator.pid, allocator.host, taken); }
      }
      if next.None? {
        TookNothing(before, t, Snapshot(), out, allocator.pid, allocator.host.alive);
        return None;
      }
      reservations := reservations[next.value.port := next.value];
      NextIsAvailable(before, t, out, allocator.pid, allocator.host, base, taken, next.value.port);
      TookStep(before, t, Snapshot(), out, next.value, allocator.pid, allocator.host.alive);
      return Some(next.value.port);
    }

    lemma NothingTaken()
      ensures Taken(Snapshot(), [])
    {
      TookNoneYet(Snapshot(), allocator.pid, allocator.host.alive);
    }

    /** The `try` block of `allocate_ports` up to its final update; `ok` says that nothing raised. */
    method TryAllocate(base: nat, count: nat, occupied: set<Port>) returns (ok: bool, out: seq<Port>)
      requires Valid()
      modifies this`reservations, allocator`claims
      modifies allocator.host`sockets, allocator.host`leases, allocator.host`drawn
      ensures allocator.host.Valid() && Taken(old(Snapshot()), out)
      ensures Chosen(out, Available(old(Snapshot()), base, occupied + reservedPorts, allocator.host), base)
      ensures |out| <= count && (ok <==> |out| == count)
      ensures !ok ==> Exhausted(old(Snapshot()), base, occupied + reservedPorts, allocator.host, out)
    {
      hide Took, Taken, FirstOf, Available, Bindable, Exhausted, Pruned, HoldsFully, Elements;
      var used := occupied + reservedPorts;
      ghost var before := Snapshot();
      ghost var taken := used;
      ghost var avail := Available(before, base, taken, allocator.host);
      out := [];
      NothingTaken();
      ChosenNone(avail, base);
      while |out| < count
        invariant |out| <= count
        invariant allocator.host.Valid() && Taken(before, out)
        invariant used == taken + Elements(out)
        invariant Chosen(out, avail, base)
      {
        var r := TakeNext(before, base, taken, used, out);
        if r.None? {
          return false, out;
        }
        ChosenStep(out, avail, base, r.value);
        used := used + {r.value};
        out := out + [r.value];
      }
      return true, out;
    }

    /** The tables after a successful allocation of `ports`. */
    twostate predicate Allocation(base: nat, count: nat, occupied: set<Port>, ports: seq<Port>)
      reads this, allocator, allocator.host
    {
      && Valid() && |ports| == count
      && Chosen(ports, Available(old(Snapshot()), base, occupied + old(reservedPorts), allocator.host), base)
      && Took(old(Snapshot()), Snapshot().(reservedPorts := old(reservedPorts)), ports,
              allocator.pid, allocator.host.alive)
      && reservedPorts == old(reservedPorts) + Elements(ports)
      && count <= |Available(old(Snapshot()), base, occupied + old(reservedPorts), allocator.host)|
    }

    /** `allocate_ports`, entered with the lock free.  With a non-zero base it returns exactly the first
        `count` available ports if there are that many; otherwise it deadlocks on itself. */
    method AllocatePorts(base: nat, count: nat, occupied: set<Port>) returns (r: Outcome)
      requires Valid() && !locked
      modifies this`locked, this`reservedPorts, this`reservations, allocator`claims
      modifies allocator.host`sockets, allocator.host`leases, allocator.host`drawn
      ensures r.Allocated? ==> !locked && Allocation(base, count, occupied, r.ports)
      ensures r.SelfDeadlock? ==>
        && locked && |r.stranded| < count && Taken(old(Snapshot()), r.stranded)
        && Exhausted(old(Snapshot()), base, occupied + old(reservedPorts), allocator.host, r.stranded)
        && !MustSucceed(old(Snapshot()), base, count, occupied + old(reservedPorts), allocator.host)
    {
      hide Took, FirstOf, Available, Bindable, Elements, Exhausted, MustSucceed, Chosen;
      ghost var before := Snapshot();
      locked := true;
      var ok, out := TryAllocate(base, count, occupied);
      OutcomeDecided(before, base, count, occupied + reservedPorts, allocator.host, out);
      TookKeys(before, Snapshot(), out, allocator.pid, allocator.host.alive);
      TookConsistent(before, Snapshot(), out, allocator.pid, allocator.host.alive);
      if !ok {
        return SelfDeadlock(out);
      }
      reservedPorts := reservedPorts + Elements(out);
      locked := false;
      return Allocated(out);
    }

    /** A call that deadlocks whatever the tables hold: two ports from the highest one up. */
    method TwoPortsFromTheTop(occupied: set<Port>) returns (r: Outcome)
      requires Valid() && !locked
      modifies this`locked, this`reservedPorts, this`reservations, allocator`claims
      modifies allocator.host`sockets, allocator.host`leases, allocator.host`drawn
      ensures r.SelfDeadlock? && locked
    {
      OnePortAtTheTop(Snapshot(), occupied + reservedPorts, allocator.host);
      r := AllocatePorts(MAX_PORT, 2, occupied);
    }

    ghost predicate Consistent()
      reads this`reservations, allocator.host
    {
      allocator.host.Valid() && forall p :: p in reservations ==> reservations[p].port == p
    }

    /** One turn of the loop in `release_ports`. */
    method ReleaseOne(port: Port)
      requires Consistent()
      modifies this`reservedPorts, this`reservations, allocator`claims
      modifies allocator.host`sockets, allocator.host`leases
      ensures Consistent()
      ensures Snapshot() == Released(old(Snapshot()), {port})
    {
      ghost var t := Released(Snapshot(), {port});
      reservedPorts := reservedPorts - {port};
      if port in reservations {
        var reservation := reservations[port];
        reservations := reservations - {port};
        allocator.Release(reservation);
      }
      assert reservations == t.reservations && allocator.claims == t.claims;
      assert allocator.host.sockets == t.sockets;
      assert allocator.host.leases == t.leases;
    }

    /** The body of `release_ports`, run with the lock already held. */
    method ReleaseBody(ports: seq<Port>)
      requires Consistent()
      modifies this`reservedPorts, this`reservations, allocator`claims
      modifies allocator.host`sockets, allocator.host`leases
      ensures Consistent()
      ensures Snapshot() == Released(old(Snapshot()), Elements(ports))
    {
      hide Released;
      ghost var t := Snapshot();
      assert Elements(ports[..0]) == {};
      ReleasedNothing(t);
      var i := 0;
      while i < |ports|
        invariant 0 <= i <= |ports| && Consistent()
        invariant Snapshot() == Released(t, Elements(ports[..i]))
      {
        ReleasedOne(t, Elements(ports[..i]), ports[i]);
        assert Elements(ports[..i + 1]) == Elements(ports[..i]) + {ports[i]};
        ReleaseOne(ports[i]);
        i := i + 1;
      }
      assert ports[..i] == ports;
    }

    method ReleasePorts(ports: seq<Port>)
      requires Valid() && !locked
      modifies this`locked, this`reservedPorts, this`reservations, allocator`claims
      modifies allocator.host`sockets, allocator.host`leases
      ensures Valid() && !locked
      ensures Snapshot() == Released(old(Snapshot()), Elements(ports))
    {
      locked := true;
      ReleaseBody(ports);
      locked := false;
    }

    /** What `allocate_ports` is meant to do: were the lock re-entrant, it would succeed as it does, and on
        failure its rollback would put back every table, except that stale lease files met on the way are
        gone. */
    method AllocateOrRollBack(base: nat, count: nat, occupied: set<Port>) returns (r: Option<seq<Port>>)
      requires Valid()
      modifies this`reservedPorts, this`reservations, allocator`claims
      modifies allocator.host`sockets, allocator.host`leases, allocator.host`drawn
      ensures r.Some? ==> Allocation(base, count, occupied, r.value)
      ensures r.None? ==>
        && Snapshot() == old(Snapshot()).(leases := allocator.host.leases)
        && Pruned(old(allocator.host.leases), allocator.host.leases, allocator.host.alive)
        && !MustSucceed(old(Snapshot()), base, count, occupied + old(reservedPorts), allocator.host)
    {
      hide Took, FirstOf, Pruned, HoldsFully, Released, Bindable, Exhausted, MustSucceed;
      ghost var before := Snapshot();
      ghost var avail := Available(before, base, occupied + reservedPorts, allocator.host);
      var ok, out := TryAllocate(base, count, occupied);
      OutcomeDecided(before, base, count, occupied + reservedPorts, allocator.host, out);
      TookKeys(before, Snapshot(), out, allocator.pid, allocator.host.alive);
      TookConsistent(before, Snapshot(), out, allocator.pid, allocator.host.alive);
      if ok {
        reservedPorts := reservedPorts + Elements(out);
        return Some(out);
      }
      assert forall p :: p in out ==> p in Elements(out) && p in avail;
      RollbackRestores(before, Snapshot(), out, allocator.pid, allocator.host.alive);
      ReleaseBody(out);
      return None;
    }

    /** `handoff_port`: closes the reservation's socket and keeps its claim and its lease file; None of
        the tables changes when the port is not reserved (the source raises). */
    method HandoffPort(port: Port) returns (ok: bool)
      requires Valid() && !locked
      modifies this`locked, allocator.host`sockets
      ensures Valid() && !locked
      ensures ok <==> port in reservedPorts
      ensures allocator.host.sockets ==
        if ok && port in old(allocator.host.sockets) && old(allocator.host.sockets)[port] == reservations[port].token
        then old(allocator.host.sockets) - {port} else old(allocator.host.sockets)
    {
      locked := true;
      ok := port in reservations;
      if ok {
        allocator.Handoff(reservations[port]);
      }
      locked := false;
    }
  }
}
