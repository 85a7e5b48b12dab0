/**
 `PortAllocator` of `process.py` run by one thread against a host that nobody else changes during
 the call.  `LeaseProtocol` covers the interleavings; this module covers what one call computes.
 */
module PortAllocator {
  import opened Common

  /** A lease file: unreadable or half-written, or naming its owner's pid and token. */
  datatype Lease = Garbled | Owned(pid: int, token: nat)

  /** The lease names a process that is running. */
  predicate Live(lease: Lease, alive: set<int>) {
    lease.Owned? && lease.pid > 0 && lease.pid in alive
  }

  datatype Reservation = Reservation(port: Port, token: nat)

  /** The tables that an allocator's calls change. */
  datatype Book = Book(claims: set<Port>, sockets: map<Port, nat>, leases: map<Port, Lease>)

  /** The tables once reservation `r` has been made, handed off, released. */
  function AfterReserve(b: Book, r: Reservation, pid: int): Book {
    Book(b.claims + {r.port}, b.sockets[r.port := r.token], b.leases[r.port := Owned(pid, r.token)])
  }

  function AfterHandoff(b: Book, r: Reservation): Book {
    if r.port in b.sockets && b.sockets[r.port] == r.token then b.(sockets := b.sockets - {r.port}) else b
  }

  function AfterRelease(b: Book, r: Reservation): Book {
    var own := r.port in b.leases && b.leases[r.port].Owned? && b.leases[r.port].token == r.token;
    AfterHandoff(b, r).(claims := b.claims - {r.port}, leases := if own then b.leases - {r.port} else b.leases)
  }

  /** The socket table, lease directory and process table that allocators share. */
  class Host {
    var sockets: map<Port, nat>        // bound port -> token of the binder
    var leases: map<Port, Lease>
    var drawn: nat                     // tokens drawn so far; uuid4 as a counter
    const alive: set<int>
    const denied: set<Port>            // ports on which bind raises for another reason

    constructor (alive: set<int>, denied: set<Port>)
      ensures sockets == map[] && leases == map[] && drawn == 0 && this.alive == alive && this.denied == denied
    {
      this.alive, this.denied := alive, denied;
      sockets, leases, drawn := map[], map[], 0;
    }

    predicate Bindable(p: Port)
      reads this`sockets
    {
      p !in sockets && p !in denied
    }

    predicate LiveLease(p: Port)
      reads this`leases
    {
      p in leases && Live(leases[p], alive)
    }

    /** Every token in use was drawn earlier. */
    ghost predicate Valid()
      reads this
    {
      && (forall p :: p in leases && leases[p].Owned? ==> leases[p].token < drawn)
      && (forall p :: p in sockets ==> sockets[p] < drawn)
    }
  }

  class Allocator {
    var claims: set<Port>
    const host: Host
    const pid: int

    constructor (host: Host, pid: int)
      ensures this.host == host && this.pid == pid && claims == {}
    {
      this.host, this.pid := host, pid;
      claims := {};
    }

    ghost function View(): Book
      reads this`claims, host`sockets, host`leases
    {
      Book(claims, host.sockets, host.leases)
    }

    /** `reserve` can end on `p`: bind works, no claim of this allocator, no lease of a live process. */
    predicate Usable(p: Port)
      reads this`claims, host`sockets, host`leases
    {
      host.Bindable(p) && p !in claims && !host.LiveLease(p)
    }

    /** The lease is claimed unless the file present names a live process, and then nothing changes:
        a missing, garbled or stale file is replaced within the two attempts. */
    method ClaimFile(port: Port, token: nat) returns (claimed: bool)
      modifies host`leases
      ensures claimed <==> !old(host.LiveLease(port))
      ensures !claimed <==>
        port in old(host.leases) && old(host.leases)[port].Owned? && old(host.leases)[port].pid > 0 &&
        old(host.leases)[port].pid in host.alive
      ensures host.leases == if claimed then old(host.leases)[port := Owned(pid, token)] else old(host.leases)
    {
      var attempt := 0;
      while attempt < 2
        invariant 0 <= attempt <= 2
        invariant attempt == 0 ==> host.leases == old(host.leases)
        invariant attempt >= 1 ==> !old(host.LiveLease(port)) && host.leases == old(host.leases) - {port}
        invariant attempt <= 1
      {
        if port !in host.leases {
          host.leases := host.leases[port := Owned(pid, token)];
          return true;
        }
        var owner := if host.leases[port].Owned? then host.leases[port].pid else -1;
        if owner > 0 && owner in host.alive {
          return false;
        }
        host.leases := host.leases - {port};
        attempt := attempt + 1;
      }
      return false;
    }

    /** One turn of the scan in `reserve`, after bind succeeded on `port` with socket `token`. */
    method TryBound(port: Port, token: nat) returns (r: Option<Reservation>)
      requires host.Bindable(port)
      modifies this`claims, host`sockets, host`leases
      ensures r == if old(Usable(port)) then Some(Reservation(port, token)) else None
      ensures View() == if r.Some? then AfterReserve(old(View()), r.value, pid) else old(View())
    {
      host.sockets := host.sockets[port := token];
      if port in claims {
        host.sockets := host.sockets - {port};
        return None;
      }
      var claimed := ClaimFile(port, token);
      if !claimed {
        host.sockets := host.sockets - {port};
        return None;
      }
      claims := claims + {port};
      return Some(Reservation(port, token));
    }

    /** `reserve(preferred)` for `preferred > 0`: the least usable port from `preferred` up, or
        `LaunchError` (None) exactly when there is none; every rejected socket is closed again. */
    method Reserve(preferred: nat) returns (r: Option<Reservation>)
      requires preferred > 0 && host.Valid()
      modifies this`claims, host`sockets, host`leases, host`drawn
      ensures host.Valid() && host.drawn >= old(host.drawn)
      ensures r.Some? ==>
        && preferred <= r.value.port && old(Usable(r.value.port))
        && (forall p: Port :: preferred <= p < r.value.port ==> !old(Usable(p)))
        && old(host.drawn) <= r.value.token < host.drawn
        && View() == AfterReserve(old(View()), r.value, pid)
      ensures r.None? ==>
        (forall p: Port :: preferred <= p ==> !old(Usable(p))) && View() == old(View())
    {
      var candidate := preferred;
      while candidate <= MAX_PORT
        invariant preferred <= candidate
        invariant claims == old(claims) && host.sockets == old(host.sockets) && host.leases == old(host.leases)
        invariant host.Valid() && host.drawn >= old(host.drawn)
        invariant forall p: Port :: preferred <= p < candidate ==> !old(Usable(p))
      {
        if host.Bindable(candidate) {
          var token := host.drawn;
          host.drawn := host.drawn + 1;
          r := TryBound(candidate, token);
          if r.Some? { return; }
        }
        candidate := candidate + 1;
      }
      return None;
    }

    /** `reserve(0)`: a single attempt on the port the OS picks, which is any it can bind.  It fails only if
        nothing can be bound or the pick could fall on a port that is not usable. */
    method ReserveAny() returns (r: Option<Reservation>)
      requires host.Valid()
      modifies this`claims, host`sockets, host`leases, host`drawn
      ensures host.Valid() && host.drawn >= old(host.drawn)
      ensures r.Some? ==>
        && old(Usable(r.value.port))
        && old(host.drawn) <= r.value.token < host.drawn
        && View() == AfterReserve(old(View()), r.value, pid)
      ensures r.None? ==>
        && View() == old(View())
        && ((forall p: Port :: !old(host.Bindable(p))) || exists p: Port :: old(host.Bindable(p)) && !old(Usable(p)))
    {
      if p: Port :| host.Bindable(p) {
        var token := host.drawn;
        host.drawn := host.drawn + 1;
        r := TryBound(p, token);
      } else {
        r := None;
      }
    }

    /** `Reservation.handoff`: closes this reservation's own socket, once. */
    method Handoff(item: Reservation)
      modifies host`sockets
      ensures View() == AfterHandoff(old(View()), item)
    {
      if item.port in host.sockets && host.sockets[item.port] == item.token {
        host.sockets := host.sockets - {item.port};
      }
    }

    /** Removes the lease file only if it carries this reservation's token. */
    method Release(item: Reservation)
      modifies this`claims, host`sockets, host`leases
      ensures View() == AfterRelease(old(View()), item)
      ensures old(host.Valid()) ==> host.Valid()
    {
      Handoff(item);
      claims := claims - {item.port};
      if item.port in host.leases && host.leases[item.port].Owned? && host.leases[item.port].token == item.token {
        host.leases := host.leases - {item.port};
      }
    }

    predicate IsClaimed(p: Port)
      reads this`claims
    {
      p in claims
    }
  }

  /** Releasing a fresh reservation undoes the reserve: claims and sockets are as before, and so is
      every lease except that a stale file at that port is gone. */
  method ReserveThenRelease(a: Allocator, preferred: nat) returns (r: Option<Reservation>)
    requires preferred > 0 && a.host.Valid()
    modifies a`claims, a.host`sockets, a.host`leases, a.host`drawn
    ensures a.host.Valid() && (r.Some? ==> r.value.token < a.host.drawn)
    ensures r.Some? <==> exists p: Port :: preferred <= p && old(a.Usable(p))
    ensures r.Some? ==> a.Usable(r.value.port)
    ensures a.claims == old(a.claims) && a.host.sockets == old(a.host.sockets)
    ensures a.host.leases == if r.Some? then old(a.host.leases) - {r.value.port} else old(a.host.leases)
    ensures forall p: Port :: a.Usable(p) == old(a.Usable(p))
  {
    r := a.Reserve(preferred);
    if r.Some? {
      a.Release(r.value);
    }
  }

  /** Releasing a reservation twice, with a second reservation of the same port taken in between: the
      second reservation keeps its socket and its lease file, but the allocator forgets its claim. */
  method DoubleRelease(a: Allocator, preferred: nat) returns (first: Option<Reservation>, second: Option<Reservation>)
    requires preferred > 0 && a.host.Valid()
    modifies a`claims, a.host`sockets, a.host`leases, a.host`drawn
    ensures first.Some? <==> exists p: Port :: preferred <= p && old(a.Usable(p))
    ensures first.Some? ==>
      && second.Some? && second.value.port == first.value.port && second.value.token != first.value.token
      && a.host.sockets == old(a.host.sockets)[second.value.port := second.value.token]
      && a.host.leases == old(a.host.leases)[second.value.port := Owned(a.pid, second.value.token)]
      && !a.IsClaimed(second.value.port) && !a.Usable(second.value.port)
  {
    first := ReserveThenRelease(a, preferred);
    second := None;
    if first.Some? {
      second := a.Reserve(first.value.port);
      a.Release(first.value);
    }
  }
}
