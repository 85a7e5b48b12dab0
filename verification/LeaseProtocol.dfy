/**
 The cross-process port lease of `process.py` as a transition system.

 Any number of claimants, in any number of processes, interleave at the level of single system
 calls.  One claimant is one candidate port of one `reserve` call: it has bound the port, has drawn
 its token, and walks through `_claim_file`; on success it is the resulting `Reservation`, which may
 be handed off, released, and released again.  Processes start, crash at any point, and may reuse
 process ids.  Inodes are modelled, so that a writer or reader that opened a path keeps the inode it
 opened even if the path is unlinked meanwhile.
 */
module LeaseProtocol {

  import opened Common

  type Pid = int
  type Token = nat

  /** What an inode holds.  An inode is named by the token of the claimant that created it.  Every
      proper prefix of the JSON payload fails to parse, so all of them are `Partial`. */
  datatype Content = Partial | Full(pid: Pid)

  datatype Pc =
    | Start(attempt: nat)                        // top of the retry loop
    | Opening(attempt: nat)                      // O_EXCL failed; about to open the lease for reading
    | Reading(attempt: nat, inode: Option<Token>)
    | Testing(attempt: nat, owner: Pid)          // about to test whether `owner` is alive
    | Unlinking(attempt: nat)
    | Writing                                    // created the lease file; payload not yet written
    | Refused                                    // `_claim_file` returned None; socket still bound
    | Rejected                                   // socket of a refused claim closed
    | Held(handedOff: bool)                      // a live Reservation
    | RelOpening(again: bool)                    // in `release`, socket closed, about to open the lease
    | RelReading(again: bool, inode: Option<Token>)
    | RelUnlinking(again: bool)                  // token matched; about to unlink
    | Released
    | Crashed

  datatype Claimant = Claimant(pid: Pid, port: Port, pc: Pc)

  datatype Holder = By(t: Token) | Foreign

  datatype State = State(
    claimants: map<Token, Claimant>,
    bound: map<Port, Holder>,                    // exclusive sockets
    path: map<Port, Token>,                      // lease path -> inode it names
    inodes: map<Token, Content>,
    live: set<Pid>)

  datatype Event =
    | Spawn(pid: Pid)
    | Crash(pid: Pid)
    | ForeignBind(port: Port)                    // e.g. the emulator, or an unrelated program
    | ForeignClose(port: Port)
    | Bind(t: Token, newPid: Pid, newPort: Port)
    | Act(t: Token)                              // the claimant's next system call
    | Handoff(t: Token)
    | CallRelease(t: Token)

  const INIT := State(map[], map[], map[], map[], {})

  /** Process ids in use are distinct and positive, tokens are never drawn twice, and only live claimants
      act. */
  predicate Possible(s: State, e: Event) {
    match e
    case Spawn(pid) => pid > 0 && pid !in s.live
    case Crash(pid) => pid in s.live
    case ForeignBind(port) => port !in s.bound
    case ForeignClose(port) => port in s.bound && s.bound[port] == Foreign
    case Bind(t, pid, _) => t !in s.claimants && pid in s.live
    case Act(t) =>
      t in s.claimants &&
      var pc := s.claimants[t].pc;
      !pc.Rejected? && !pc.Held? && !pc.Released? && !pc.Crashed?
    case Handoff(t) => t in s.claimants && s.claimants[t].pc.Held?
    case CallRelease(t) => t in s.claimants && (s.claimants[t].pc.Held? || s.claimants[t].pc.Released?)
  }

  /** What the OS adds: binding a port is exclusive. */
  predicate Enabled(s: State, e: Event) {
    Possible(s, e) && (e.Bind? ==> e.newPort !in s.bound)
  }

  function Go(s: State, t: Token, pc: Pc): State
    requires t in s.claimants
  {
    s.(claimants := s.claimants[t := s.claimants[t].(pc := pc)])
  }

  function Named(s: State, port: Port): Option<Token> {
    if port in s.path then Some(s.path[port]) else None
  }

  /** `owner.get("pid", -1)` after `json.loads`, or -1 when the read or the parse failed. */
  function OwnerPid(s: State, inode: Option<Token>): Pid {
    if inode.Some? && inode.value in s.inodes && s.inodes[inode.value].Full?
    then s.inodes[inode.value].pid else -1
  }

  function TokenMatches(s: State, inode: Option<Token>, t: Token): bool {
    inode == Some(t) && t in s.inodes && s.inodes[t].Full?
  }

  function PidAlive(s: State, pid: Pid): bool { pid > 0 && pid in s.live }

  function Close(s: State, port: Port): State { s.(bound := s.bound - {port}) }

  function Unlink(s: State, port: Port): State { s.(path := s.path - {port}) }

  /** One system call of claimant `t`. */
  function ActStep(s: State, t: Token): State
    requires t in s.claimants
  {
    var c := s.claimants[t];
    match c.pc
    case Start(k) =>
      if k >= 2 then Go(s, t, Refused)
      else if c.port in s.path then Go(s, t, Opening(k))
      else Go(s, t, Writing).(path := s.path[c.port := t], inodes := s.inodes[t := Partial])
    case Opening(k) => Go(s, t, Reading(k, Named(s, c.port)))
    case Reading(k, inode) => Go(s, t, Testing(k, OwnerPid(s, inode)))
    case Testing(k, owner) => Go(s, t, if PidAlive(s, owner) then Refused else Unlinking(k))
    case Unlinking(k) => Go(Unlink(s, c.port), t, Start(k + 1))
    case Writing => Go(s, t, Held(false)).(inodes := s.inodes[t := Full(c.pid)])
    case Refused => Go(Close(s, c.port), t, Rejected)
    case RelOpening(again) => Go(s, t, RelReading(again, Named(s, c.port)))
    case RelReading(again, inode) =>
      Go(s, t, if TokenMatches(s, inode, t) then RelUnlinking(again) else Released)
    case RelUnlinking(again) => Go(Unlink(s, c.port), t, Released)
    case _ => s
  }

  function CloseOwn(s: State, t: Token): State
    requires t in s.claimants
  {
    if s.claimants[t].pc == Held(false) then Close(s, s.claimants[t].port) else s
  }

  function Step(s: State, e: Event): State
    requires Possible(s, e)
  {
    match e
    case Spawn(pid) => s.(live := s.live + {pid})
    case Crash(pid) =>
      s.(live := s.live - {pid},
         claimants := map t | t in s.claimants ::
           if s.claimants[t].pid == pid then s.claimants[t].(pc := Crashed) else s.claimants[t],
         bound := map p | p in s.bound && !HeldByPid(s, s.bound[p], pid) :: s.bound[p])
    case ForeignBind(port) => s.(bound := s.bound[port := Foreign])
    case ForeignClose(port) => Close(s, port)
    case Bind(t, pid, port) =>
      s.(claimants := s.claimants[t := Claimant(pid, port, Start(0))], bound := s.bound[port := By(t)])
    case Act(t) => ActStep(s, t)
    case Handoff(t) => Go(CloseOwn(s, t), t, Held(true))
    case CallRelease(t) => Go(CloseOwn(s, t), t, RelOpening(s.claimants[t].pc.Released?))
  }

  predicate HeldByPid(s: State, h: Holder, pid: Pid) {
    h.By? && h.t in s.claimants && s.claimants[h.t].pid == pid
  }

  ghost predicate ValidRun(s: State, events: seq<Event>)
    decreases |events|
  {
    events == [] || (Enabled(s, events[0]) && ValidRun(Step(s, events[0]), events[1..]))
  }

  ghost function Run(s: State, events: seq<Event>): State
    requires ValidRun(s, events)
    decreases |events|
  {
    if events == [] then s else Run(Step(s, events[0]), events[1..])
  }

  ghost predicate Reachable(s: State) {
    exists events :: ValidRun(INIT, events) && Run(INIT, events) == s
  }

  // ---------- The inductive invariant ----------

  predicate SocketOpen(pc: Pc) {
    pc.Start? || pc.Opening? || pc.Reading? || pc.Testing? || pc.Unlinking? || pc.Writing? || pc.Refused? ||
    pc == Held(false)
  }

  /** From creating the lease file up to the unlink in its own release, the claimant owns the lease. */
  predicate Owns(pc: Pc) {
    pc.Writing? || pc.Held? || pc == RelOpening(false) || (pc.RelReading? && !pc.again) || pc.RelUnlinking?
  }

  ghost predicate DeadLease(s: State, port: Port) {
    port in s.path ==> s.path[port] in s.claimants && s.claimants[s.path[port]].pc.Crashed?
  }

  /** What each program point knows about the lease path of its port. */
  ghost predicate PointInv(s: State, t: Token)
    requires t in s.claimants
  {
    var c := s.claimants[t];
    match c.pc
    case Start(k) => k <= 1 && (k == 1 ==> c.port !in s.path)
    case Opening(k) => k == 0
    case Reading(k, inode) => k == 0 && (c.port in s.path ==> inode == Some(s.path[c.port]))
    case Testing(k, owner) =>
      k == 0 &&
      (c.port in s.path ==>
         s.path[c.port] in s.claimants &&
         (s.claimants[s.path[c.port]].pc.Crashed? || s.claimants[s.path[c.port]].pid == owner))
    case Unlinking(k) => k == 0 && DeadLease(s, c.port)
    case RelReading(again, inode) => (inode == Some(t)) == !again
    case RelUnlinking(again) => !again
    case _ => true
  }

  ghost predicate ClaimantInv(s: State, t: Token)
    requires t in s.claimants
  {
    var c := s.claimants[t];
    && c.pid > 0
    && (!c.pc.Crashed? ==> c.pid in s.live)
    && (SocketOpen(c.pc) ==> c.port in s.bound && s.bound[c.port] == By(t))
    && (Owns(c.pc) ==> c.port in s.path && s.path[c.port] == t && t in s.inodes)
    && (Owns(c.pc) && !c.pc.Writing? ==> s.inodes[t] == Full(c.pid))
    && PointInv(s, t)
  }

  ghost predicate PathInv(s: State, port: Port)
    requires port in s.path
  {
    var t := s.path[port];
    && t in s.claimants
    && s.claimants[t].port == port
    && (Owns(s.claimants[t].pc) || s.claimants[t].pc.Crashed?)
  }

  ghost predicate BoundInv(s: State, port: Port)
    requires port in s.bound
  {
    s.bound[port].By? ==>
      var t := s.bound[port].t;
      t in s.claimants && s.claimants[t].port == port && SocketOpen(s.claimants[t].pc)
  }

  ghost predicate Inv(s: State) {
    && (forall t :: t in s.claimants ==> ClaimantInv(s, t))
    && (forall port :: port in s.path ==> PathInv(s, port))
    && (forall t :: t in s.inodes ==> t in s.claimants)
    && (forall port :: port in s.bound ==> BoundInv(s, port))
    && (forall pid :: pid in s.live ==> pid > 0)
  }

  lemma CrashKeepsInv(s: State, pid: Pid)
    requires Inv(s) && Enabled(s, Crash(pid))
    ensures Inv(Step(s, Crash(pid)))
  {
    var s' := Step(s, Crash(pid));
    forall t | t in s'.claimants ensures ClaimantInv(s', t) {
      assert ClaimantInv(s, t);
    }
    forall p | p in s'.path ensures PathInv(s', p) {
      assert PathInv(s, p);
    }
    forall p | p in s'.bound ensures BoundInv(s', p) {
      if p in s.bound { assert BoundInv(s, p); }
    }
  }

  lemma BindKeepsInv(s: State, t: Token, pid: Pid, port: Port)
    requires Inv(s) && Enabled(s, Bind(t, pid, port))
    ensures Inv(Step(s, Bind(t, pid, port)))
  {
    var s' := Step(s, Bind(t, pid, port));
    forall u | u in s'.claimants ensures ClaimantInv(s', u) {
      if u != t { assert ClaimantInv(s, u); }
    }
    forall p | p in s'.path ensures PathInv(s', p) {
      assert PathInv(s, p);
    }
    forall p | p in s'.bound ensures BoundInv(s', p) {
      if p in s.bound { assert BoundInv(s, p); }
    }
  }

  lemma EnvironmentKeepsInv(s: State, e: Event)
    requires Inv(s) && Enabled(s, e) && (e.Spawn? || e.ForeignBind? || e.ForeignClose?)
    ensures Inv(Step(s, e))
  {
    var s' := Step(s, e);
    forall u | u in s'.claimants ensures ClaimantInv(s', u) {
      assert ClaimantInv(s, u);
    }
    forall p | p in s'.path ensures PathInv(s', p) {
      assert PathInv(s, p);
    }
    forall p | p in s'.bound ensures BoundInv(s', p) {
      if p in s.bound { assert BoundInv(s, p); }
    }
  }

  /** A claimant that only moves its program counter and possibly closes its own socket. */
  lemma MoveKeepsInv(s: State, t: Token, pc: Pc, s': State)
    requires Inv(s) && t in s.claimants
    requires s' == Go(s, t, pc) || (s' == Go(Close(s, s.claimants[t].port), t, pc) && SocketOpen(s.claimants[t].pc))
    requires SocketOpen(pc) <==> SocketOpen(s.claimants[t].pc) && s'.bound == s.bound
    requires Owns(pc) == Owns(s.claimants[t].pc) && !pc.Writing? && !s.claimants[t].pc.Writing?
    requires s.claimants[t].pc.Crashed? ==> pc.Crashed?
    requires ClaimantInv(s', t)
    ensures Inv(s')
  {
    forall u | u in s'.claimants ensures ClaimantInv(s', u) {
      if u != t { assert ClaimantInv(s, u); }
    }
    forall p | p in s'.path ensures PathInv(s', p) {
      assert PathInv(s, p);
    }
    forall p | p in s'.bound ensures BoundInv(s', p) {
      if p in s.bound { assert BoundInv(s, p); }
    }
  }

  /** The bound socket makes a claimant the only one between `bind` and hand-off on its port. */
  lemma SocketIsExclusive(s: State, t: Token, u: Token)
    requires Inv(s) && t in s.claimants && u in s.claimants
    requires SocketOpen(s.claimants[t].pc) && SocketOpen(s.claimants[u].pc)
    requires s.claimants[t].port == s.claimants[u].port
    ensures t == u
  {
    assert ClaimantInv(s, t) && ClaimantInv(s, u);
  }

  lemma CreateKeepsInv(s: State, t: Token)
    requires Inv(s) && t in s.claimants && s.claimants[t].pc.Start? && s.claimants[t].port !in s.path
    ensures Inv(ActStep(s, t))
  {
    var s' := ActStep(s, t);
    assert ClaimantInv(s, t);
    forall u | u in s'.claimants ensures ClaimantInv(s', u) {
      assert ClaimantInv(s, u);
    }
    forall p | p in s'.path ensures PathInv(s', p) {
      if p in s.path { assert PathInv(s, p); }
    }
    forall p | p in s'.bound ensures BoundInv(s', p) {
      assert BoundInv(s, p);
    }
  }

  /** Reclaiming: the lease named a crashed claimant, so nobody who owns a lease loses it. */
  lemma ReclaimKeepsInv(s: State, t: Token)
    requires Inv(s) && t in s.claimants && s.claimants[t].pc.Unlinking?
    ensures Inv(ActStep(s, t))
  {
    var s' := ActStep(s, t);
    assert ClaimantInv(s, t);
    forall u | u in s'.claimants ensures ClaimantInv(s', u) {
      assert ClaimantInv(s, u);
    }
    forall p | p in s'.path ensures PathInv(s', p) {
      assert PathInv(s, p);
    }
    forall p | p in s'.bound ensures BoundInv(s', p) {
      if p in s.bound { assert BoundInv(s, p); }
    }
  }

  /** Releasing: the lease named the releaser, so nobody else owned it. */
  lemma ReleaseUnlinkKeepsInv(s: State, t: Token)
    requires Inv(s) && t in s.claimants && s.claimants[t].pc.RelUnlinking?
    ensures Inv(ActStep(s, t))
  {
    var s' := ActStep(s, t);
    var port := s.claimants[t].port;
    assert ClaimantInv(s, t);
    assert s' == Go(Unlink(s, port), t, Released);
    forall u | u in s'.claimants ensures ClaimantInv(s', u) {
      if u != t {
        assert ClaimantInv(s, u) && s'.claimants[u] == s.claimants[u];
        if s.claimants[u].port == port { assert !Owns(s.claimants[u].pc); }
      }
    }
    forall p | p in s'.path ensures PathInv(s', p) {
      assert PathInv(s, p) && p != port;
    }
    forall p | p in s'.bound ensures BoundInv(s', p) {
      assert BoundInv(s, p);
    }
  }

  lemma WriteKeepsInv(s: State, t: Token)
    requires Inv(s) && t in s.claimants && s.claimants[t].pc.Writing?
    ensures Inv(ActStep(s, t))
  {
    var s' := ActStep(s, t);
    assert ClaimantInv(s, t);
    forall u | u in s'.claimants ensures ClaimantInv(s', u) {
      assert ClaimantInv(s, u);
    }
    forall p | p in s'.path ensures PathInv(s', p) {
      assert PathInv(s, p);
    }
    forall p | p in s'.bound ensures BoundInv(s', p) {
      if p in s.bound { assert BoundInv(s, p); }
    }
  }

  /** What the reader concludes: the lease it named then is crashed by now, or belongs to `owner`. */
  lemma ReadKeepsInv(s: State, t: Token)
    requires Inv(s) && t in s.claimants && s.claimants[t].pc.Reading?
    ensures Inv(ActStep(s, t))
  {
    var c := s.claimants[t];
    assert ClaimantInv(s, t);
    if c.port in s.path {
      var owner := s.path[c.port];
      assert PathInv(s, c.port) && ClaimantInv(s, owner);
    }
    MoveKeepsInv(s, t, Testing(c.pc.attempt, OwnerPid(s, c.pc.inode)), ActStep(s, t));
  }

  lemma StartKeepsInv(s: State, t: Token)
    requires Inv(s) && t in s.claimants && s.claimants[t].pc.Start?
    ensures Inv(ActStep(s, t))
  {
    var c := s.claimants[t];
    assert ClaimantInv(s, t);
    if c.port !in s.path {
      CreateKeepsInv(s, t);
    } else {
      MoveKeepsInv(s, t, Opening(c.pc.attempt), ActStep(s, t));
    }
  }

  lemma OpenKeepsInv(s: State, t: Token)
    requires Inv(s) && t in s.claimants && s.claimants[t].pc.Opening?
    ensures Inv(ActStep(s, t))
  {
    var c := s.claimants[t];
    assert ClaimantInv(s, t);
    MoveKeepsInv(s, t, Reading(c.pc.attempt, Named(s, c.port)), ActStep(s, t));
  }

  /** A pid found dead at the test means the claimant that wrote it has crashed, for good. */
  lemma TestKeepsInv(s: State, t: Token)
    requires Inv(s) && t in s.claimants && s.claimants[t].pc.Testing?
    ensures Inv(ActStep(s, t))
  {
    var c := s.claimants[t];
    assert ClaimantInv(s, t);
    if c.port in s.path { assert ClaimantInv(s, s.path[c.port]); }
    MoveKeepsInv(s, t, if PidAlive(s, c.pc.owner) then Refused else Unlinking(c.pc.attempt), ActStep(s, t));
  }

  lemma RefusedKeepsInv(s: State, t: Token)
    requires Inv(s) && t in s.claimants && s.claimants[t].pc.Refused?
    ensures Inv(ActStep(s, t))
  {
    assert ClaimantInv(s, t);
    MoveKeepsInv(s, t, Rejected, ActStep(s, t));
  }

  lemma ReleaseOpenKeepsInv(s: State, t: Token)
    requires Inv(s) && t in s.claimants && s.claimants[t].pc.RelOpening?
    ensures Inv(ActStep(s, t))
  {
    var c := s.claimants[t];
    assert ClaimantInv(s, t);
    if c.port in s.path { assert PathInv(s, c.port); }
    MoveKeepsInv(s, t, RelReading(c.pc.again, Named(s, c.port)), ActStep(s, t));
  }

  lemma ReleaseReadKeepsInv(s: State, t: Token)
    requires Inv(s) && t in s.claimants && s.claimants[t].pc.RelReading?
    ensures Inv(ActStep(s, t))
  {
    var c := s.claimants[t];
    assert ClaimantInv(s, t);
    MoveKeepsInv(s, t, if TokenMatches(s, c.pc.inode, t) then RelUnlinking(c.pc.again) else Released, ActStep(s, t));
  }

  lemma ActKeepsInv(s: State, t: Token)
    requires Inv(s) && Enabled(s, Act(t))
    ensures Inv(ActStep(s, t))
  {
    match s.claimants[t].pc
    case Start(_) => StartKeepsInv(s, t);
    case Opening(_) => OpenKeepsInv(s, t);
    case Reading(_, _) => ReadKeepsInv(s, t);
    case Testing(_, _) => TestKeepsInv(s, t);
    case Writing => WriteKeepsInv(s, t);
    case Refused => RefusedKeepsInv(s, t);
    case RelOpening(_) => ReleaseOpenKeepsInv(s, t);
    case RelReading(_, _) => ReleaseReadKeepsInv(s, t);
    case Unlinking(_) => ReclaimKeepsInv(s, t);
    case _ => ReleaseUnlinkKeepsInv(s, t);
  }

  lemma StepKeepsInv(s: State, e: Event)
    requires Inv(s) && Enabled(s, e)
    ensures Inv(Step(s, e))
  {
    match e
    case Crash(pid) => CrashKeepsInv(s, pid);
    case Bind(t, pid, port) => BindKeepsInv(s, t, pid, port);
    case Act(t) => ActKeepsInv(s, t);
    case Handoff(t) =>
      assert ClaimantInv(s, t);
      MoveKeepsInv(s, t, Held(true), Step(s, e));
    case CallRelease(t) =>
      assert ClaimantInv(s, t);
      MoveKeepsInv(s, t, RelOpening(s.claimants[t].pc.Released?), Step(s, e));
    case _ => EnvironmentKeepsInv(s, e);
  }

  lemma {:induction false} RunKeepsInv(s: State, events: seq<Event>)
    requires Inv(s) && ValidRun(s, events)
    ensures Inv(Run(s, events))
    decreases |events|
  {
    if events != [] {
      StepKeepsInv(s, events[0]);
      RunKeepsInv(Step(s, events[0]), events[1..]);
    }
  }

  lemma ReachableInv(s: State)
    requires Reachable(s)
    ensures Inv(s)
  {
    var events :| ValidRun(INIT, events) && Run(INIT, events) == s;
    RunKeepsInv(INIT, events);
  }

  // ---------- What the lease promises ----------

  /** In every interleaving, a port has at most one owner, handed off or not. */
  lemma AtMostOneOwner(s: State, t: Token, u: Token)
    requires Reachable(s) && t in s.claimants && u in s.claimants
    requires Owns(s.claimants[t].pc) && Owns(s.claimants[u].pc)
    requires s.claimants[t].port == s.claimants[u].port
    ensures t == u
  {
    ReachableInv(s);
    assert ClaimantInv(s, t) && ClaimantInv(s, u);
  }

  /** The bound socket serialises `_claim_file`: two claims of one port never overlap. */
  lemma ClaimsAreSerialised(s: State, t: Token, u: Token)
    requires Reachable(s) && t in s.claimants && u in s.claimants
    requires SocketOpen(s.claimants[t].pc) && SocketOpen(s.claimants[u].pc)
    requires s.claimants[t].port == s.claimants[u].port
    ensures t == u
  {
    ReachableInv(s);
    SocketIsExclusive(s, t, u);
  }

  lemma ActTouchesOnlyItself(s: State, t: Token, u: Token)
    requires t in s.claimants && u in s.claimants && t != u
    ensures u in ActStep(s, t).claimants && ActStep(s, t).claimants[u] == s.claimants[u]
  {
    hide PidAlive, OwnerPid, TokenMatches, Named;
    var c := s.claimants[t];
    match c.pc
    case Start(_) =>
    case Opening(_) =>
    case Reading(_, _) =>
    case Testing(_, _) =>
    case Unlinking(_) =>
    case _ =>
  }

  lemma OwnActKeepsOwnership(s: State, t: Token)
    requires Inv(s) && Enabled(s, Act(t)) && Owns(s.claimants[t].pc) && !s.claimants[t].pc.RelUnlinking?
    ensures t in ActStep(s, t).claimants && Owns(ActStep(s, t).claimants[t].pc)
    ensures ActStep(s, t).claimants[t].port == s.claimants[t].port && ActStep(s, t).claimants[t].pid == s.claimants[t].pid
  {
    assert ClaimantInv(s, t);
  }

  lemma OwnershipKept(s: State, e: Event, t: Token)
    requires Inv(s) && Enabled(s, e) && t in s.claimants && Owns(s.claimants[t].pc)
    requires e != Crash(s.claimants[t].pid)
    requires !(e == Act(t) && s.claimants[t].pc.RelUnlinking?)
    ensures t in Step(s, e).claimants && Owns(Step(s, e).claimants[t].pc)
    ensures Step(s, e).claimants[t].port == s.claimants[t].port && Step(s, e).claimants[t].pid == s.claimants[t].pid
  {
    hide Inv, ActStep;
    match e
    case Act(u) =>
      if u == t { OwnActKeepsOwnership(s, t); } else { ActTouchesOnlyItself(s, u, t); }
    case _ =>
  }

  /** No socket is leaked: a socket is bound by a claimant exactly while its claim is under way or its
      reservation has not been handed off; refused, handed-off, released and crashed claimants hold none. */
  lemma SocketsAreNotLeaked(s: State, t: Token)
    requires Reachable(s) && t in s.claimants
    ensures (exists port :: port in s.bound && s.bound[port] == By(t)) <==> SocketOpen(s.claimants[t].pc)
    ensures forall port :: port in s.bound && s.bound[port] == By(t) ==> port == s.claimants[t].port
  {
    ReachableInv(s);
    assert ClaimantInv(s, t);
    forall port | port in s.bound && s.bound[port] == By(t)
      ensures SocketOpen(s.claimants[t].pc) && port == s.claimants[t].port
    {
      assert BoundInv(s, port);
    }
  }

  /** A lease survives everything but its owner's own release and its owner's crash. */
  lemma LeaseSurvives(s: State, e: Event, t: Token)
    requires Reachable(s) && Enabled(s, e) && t in s.claimants && Owns(s.claimants[t].pc)
    ensures
      var s' := Step(s, e);
      || (Owns(s'.claimants[t].pc) && Named(s', s.claimants[t].port) == Some(t) &&
          (s'.claimants[t].pc.Writing? || OwnerPid(s', Some(t)) == s.claimants[t].pid))
      || (e == Act(t) && s.claimants[t].pc.RelUnlinking?)
      || e == Crash(s.claimants[t].pid)
  {
    ReachableInv(s);
    if e != Crash(s.claimants[t].pid) && !(e == Act(t) && s.claimants[t].pc.RelUnlinking?) {
      StepKeepsInv(s, e);
      OwnershipKept(s, e, t);
      assert ClaimantInv(Step(s, e), t);
    }
  }

  /** A lease file disappears only when its creator has crashed or is itself releasing it. */
  lemma UnlinkHitsOwnOrDeadLease(s: State, e: Event, port: Port)
    requires Reachable(s) && Enabled(s, e) && port in s.path
    requires Named(Step(s, e), port) != Some(s.path[port])
    ensures
      var t := s.path[port];
      t in s.claimants && port !in Step(s, e).path &&
      (s.claimants[t].pc.Crashed? || (e == Act(t) && s.claimants[t].pc == RelUnlinking(false)))
  {
    ReachableInv(s);
    var t := e.t;
    assert ClaimantInv(s, t);
    assert PathInv(s, port);
  }

  /** A second `release` of the same reservation leaves every lease path alone, whatever was claimed since. */
  lemma SecondReleaseIsHarmless(s: State, t: Token)
    requires Reachable(s) && Enabled(s, Act(t))
    requires
      var pc := s.claimants[t].pc;
      (pc.RelOpening? || pc.RelReading? || pc.RelUnlinking?) && pc.again
    ensures !s.claimants[t].pc.RelUnlinking?
    ensures Step(s, Act(t)).path == s.path && Step(s, Act(t)).bound == s.bound
  {
    ReachableInv(s);
    assert ClaimantInv(s, t);
  }

  /** After a first `release` has run, the reservation's lease file is on no path, and no run puts it back on
      one: not a second release, nor a crash, nor a later claim of the port. */
  lemma ReleasedLeaseIsGone(s: State, t: Token, events: seq<Event>)
    requires Reachable(s) && t in s.claimants && s.claimants[t].pc.Released? && ValidRun(s, events)
    ensures t !in Run(s, events).path.Values
  {
    ReachableInv(s);
    forall p | p in s.path ensures s.path[p] != t { assert PathInv(s, p); }
    GoneForGood(s, events, t);
  }

  /** Past its creation, and on no path. */
  ghost predicate Gone(s: State, t: Token) {
    t in s.claimants && !Claiming(s.claimants[t].pc) && forall p :: p in s.path ==> s.path[p] != t
  }

  predicate Claiming(pc: Pc) { pc.Start? || pc.Opening? || pc.Reading? || pc.Testing? || pc.Unlinking? }

  lemma {:induction false} GoneForGood(s: State, events: seq<Event>, t: Token)
    requires Gone(s, t) && ValidRun(s, events)
    ensures Gone(Run(s, events), t)
    decreases |events|
  {
    if events != [] {
      StaysGone(s, events[0], t);
      GoneForGood(Step(s, events[0]), events[1..], t);
    }
  }

  lemma StaysGone(s: State, e: Event, t: Token)
    requires Gone(s, t) && Enabled(s, e)
    ensures Gone(Step(s, e), t)
  {
    hide ActStep;
    if e.Act? { ActKeepsGone(s, e.t, t); }
  }

  lemma ActKeepsGone(s: State, a: Token, t: Token)
    requires Gone(s, t) && a in s.claimants
    ensures Gone(ActStep(s, a), t)
  {
    hide OwnerPid, TokenMatches, PidAlive, Named;
  }

  /** Two attempts suffice: the retry loop never runs out, and the second O_EXCL always succeeds. */
  lemma SecondAttemptCreates(s: State, t: Token)
    requires Reachable(s) && t in s.claimants && s.claimants[t].pc.Start? && s.claimants[t].pc.attempt >= 1
    ensures s.claimants[t].pc.attempt == 1
    ensures Step(s, Act(t)).claimants[t].pc == Writing
  {
    ReachableInv(s);
    assert ClaimantInv(s, t);
  }

  /** `_claim_file` returns None exactly when the pid it read is alive at the test; and if the lease
      file is still there at that moment, that pid is its creator's or its creator has crashed. */
  lemma RefusedIffOwnerAlive(s: State, t: Token)
    requires Reachable(s) && Enabled(s, Act(t)) && !s.claimants[t].pc.Refused?
    ensures
      Step(s, Act(t)).claimants[t].pc.Refused? <==>
      s.claimants[t].pc.Testing? && s.claimants[t].pc.owner in s.live
    ensures
      s.claimants[t].pc.Testing? && s.claimants[t].pc.owner !in s.live ==> DeadLease(s, s.claimants[t].port)
  {
    ReachableInv(s);
    assert ClaimantInv(s, t);
    var c := s.claimants[t];
    if c.port in s.path { assert PathInv(s, c.port) && ClaimantInv(s, s.path[c.port]); }
  }

  // ---------- A claim that nobody disturbs ----------

  /** `n` system calls of claimant `t` in a row. */
  function Acts(t: Token, n: nat): seq<Event> { seq(n, i => Act(t)) }

  lemma ActThen(s: State, t: Token, n: nat)
    requires n > 0 && Enabled(s, Act(t)) && ValidRun(Step(s, Act(t)), Acts(t, n - 1))
    ensures ValidRun(s, Acts(t, n)) && Run(s, Acts(t, n)) == Run(Step(s, Act(t)), Acts(t, n - 1))
  {
    assert Acts(t, n)[1..] == Acts(t, n - 1);
  }

  /** The lease file at a port, if any, as `t` would read it: does it name a process that is running? */
  predicate LiveOwner(s: State, port: Port) {
    && port in s.path && s.path[port] in s.inodes && s.inodes[s.path[port]].Full?
    && s.inodes[s.path[port]].pid in s.live
  }

  ghost predicate HoldsLease(s: State, t: Token) {
    && t in s.claimants && s.claimants[t].pc == Held(false)
    && s.claimants[t].port in s.path && s.path[s.claimants[t].port] == t
    && t in s.inodes && s.inodes[t] == Full(s.claimants[t].pid)
  }

  /** From an empty path two calls make the lease. */
  lemma ClaimsFreePath(s: State, t: Token, k: nat)
    requires t in s.claimants && s.claimants[t].pc == Start(k) && k < 2 && s.claimants[t].port !in s.path
    ensures ValidRun(s, Acts(t, 2)) && HoldsLease(Run(s, Acts(t, 2)), t)
  {
    var s1 := Step(s, Act(t));
    NoActs(Step(s1, Act(t)), t);
    ActThen(s1, t, 1);
    ActThen(s, t, 2);
  }

  /** One call of a claimant of which only the program point has changed so far, and changes now. */
  lemma ReadStep(s: State, t: Token, pc: Pc, pc': Pc)
    requires t in s.claimants && s.claimants[t].port in s.path
    requires
      var inode := Some(s.path[s.claimants[t].port]);
      || (pc == Start(0) && pc' == Opening(0))
      || (pc == Opening(0) && pc' == Reading(0, inode))
      || (pc == Reading(0, inode) && pc' == Testing(0, OwnerPid(s, inode)))
      || (pc.Testing? && pc.attempt == 0 && pc' == if PidAlive(s, pc.owner) then Refused else Unlinking(0))
    ensures Enabled(Go(s, t, pc), Act(t)) && Step(Go(s, t, pc), Act(t)) == Go(s, t, pc')
  {
    assert Go(Go(s, t, pc), t, pc') == Go(s, t, pc');
  }

  lemma LiveOwnerIs(s: State, port: Port)
    requires Inv(s) && port in s.path
    ensures PidAlive(s, OwnerPid(s, Some(s.path[port]))) <==> LiveOwner(s, port)
  {
  }

  /** Four calls look at the lease file that is there, and leave it alone. */
  lemma ReadsLease(s: State, t: Token)
    requires Inv(s) && t in s.claimants && s.claimants[t].pc == Start(0) && s.claimants[t].port in s.path
    ensures ValidRun(s, Acts(t, 4))
    ensures Run(s, Acts(t, 4)) == Go(s, t, if LiveOwner(s, s.claimants[t].port) then Refused else Unlinking(0))
  {
    hide Step, Enabled, Inv, LiveOwner, OwnerPid, PidAlive, Acts;
    var port := s.claimants[t].port;
    var inode := Some(s.path[port]);
    LiveOwnerIs(s, port);
    var p1, p2, p3 := Opening(0), Reading(0, inode), Testing(0, OwnerPid(s, inode));
    var p4 := if LiveOwner(s, port) then Refused else Unlinking(0);
    ReadStep(s, t, Start(0), p1);
    ReadStep(s, t, p1, p2);
    ReadStep(s, t, p2, p3);
    ReadStep(s, t, p3, p4);
    assert Go(s, t, Start(0)) == s;
    NoActs(Go(s, t, p4), t);
    ActThen(Go(s, t, p3), t, 1);
    ActThen(Go(s, t, p2), t, 2);
    ActThen(Go(s, t, p1), t, 3);
    ActThen(s, t, 4);
  }

  lemma NoActs(s: State, t: Token)
    ensures Acts(t, 0) == [] && ValidRun(s, Acts(t, 0)) && Run(s, Acts(t, 0)) == s
  {
  }

  lemma {:induction false} ActsJoin(s: State, t: Token, m: nat, n: nat)
    requires ValidRun(s, Acts(t, m)) && ValidRun(Run(s, Acts(t, m)), Acts(t, n))
    ensures ValidRun(s, Acts(t, m + n)) && Run(s, Acts(t, m + n)) == Run(Run(s, Acts(t, m)), Acts(t, n))
    decreases m
  {
    hide Step, Possible;
    if m == 0 {
      assert Acts(t, 0) == [] && Acts(t, 0 + n) == Acts(t, n);
    } else {
      assert Acts(t, m)[1..] == Acts(t, m - 1) && Acts(t, m)[0] == Act(t);
      ActsJoin(Step(s, Act(t)), t, m - 1, n);
      ActThen(s, t, m + n);
    }
  }

  /** A claimant that nobody disturbs has the lease after two calls if there is no file; is refused after four,
      nothing touched, if the file names a running process; and otherwise - the file is half-written, or its
      owner is gone - has replaced it after seven. */
  lemma UndisturbedClaim(s: State, t: Token)
    requires Reachable(s) && t in s.claimants && s.claimants[t].pc == Start(0)
    ensures
      var port := s.claimants[t].port;
      if port !in s.path then ValidRun(s, Acts(t, 2)) && HoldsLease(Run(s, Acts(t, 2)), t)
      else if LiveOwner(s, port) then
        ValidRun(s, Acts(t, 4)) && Run(s, Acts(t, 4)) == Go(s, t, Refused)
      else ValidRun(s, Acts(t, 7)) && HoldsLease(Run(s, Acts(t, 7)), t)
  {
    hide ValidRun, Run, Step, Reachable, HoldsLease, LiveOwner, Inv;
    ReachableInv(s);
    var port := s.claimants[t].port;
    if port !in s.path {
      ClaimsFreePath(s, t, 0);
    } else {
      ReadsLease(s, t);
      if !LiveOwner(s, port) {
        var s4 := Go(s, t, Unlinking(0));
        Unlinks(s4, t);
        ClaimsFreePath(Run(s4, Acts(t, 1)), t, 1);
        ActsJoin(s4, t, 1, 2);
        ActsJoin(s, t, 4, 3);
      }
    }
  }

  /** A reservation that its holder releases undisturbed is gone after four events: its socket closed, and the
      port's lease path free; releasing it again takes three and changes nothing but the program point. */
  lemma UndisturbedRelease(s: State, t: Token)
    requires Reachable(s) && t in s.claimants
    requires s.claimants[t].pc.Held? || s.claimants[t].pc.Released?
    ensures
      var c := s.claimants[t];
      var events := [CallRelease(t)] + Acts(t, if c.pc.Held? then 3 else 2);
      && ValidRun(s, events)
      && var s' := Run(s, events);
      && t in s'.claimants && s'.claimants[t].pc.Released?
      && (c.pc.Held? ==> s'.path == s.path - {c.port} && (c.port in s'.bound ==> s'.bound[c.port] != By(t)))
      && (c.pc.Released? ==> s' == s)
  {
    hide ValidRun, Run, Step, Reachable, Inv, Enabled;
    ReachableInv(s);
    var again := s.claimants[t].pc.Released?;
    CallsRelease(s, t);
    var s0 := Step(s, CallRelease(t));
    ReleaseMatches(s, t);
    var base := s.(bound := s0.bound);
    assert s0 == Go(base, t, RelOpening(again));
    ReleaseReads(base, t, again);
    if again { assert Go(s, t, Released) == s; }
    RunHead(s, CallRelease(t), Acts(t, if again then 2 else 3));
  }

  lemma RunHead(s: State, e: Event, events: seq<Event>)
    requires Enabled(s, e) && ValidRun(Step(s, e), events)
    ensures ValidRun(s, [e] + events) && Run(s, [e] + events) == Run(Step(s, e), events)
  {
    assert ([e] + events)[1..] == events;
  }

  /** The first event of a release. */
  lemma CallsRelease(s: State, t: Token)
    requires Inv(s) && t in s.claimants && (s.claimants[t].pc.Held? || s.claimants[t].pc.Released?)
    ensures Enabled(s, CallRelease(t))
    ensures
      var s0 := Step(s, CallRelease(t));
      var c := s.claimants[t];
      && s0 == Go(s, t, RelOpening(c.pc.Released?)).(bound := s0.bound)
      && (c.port in s0.bound ==> s0.bound[c.port] != By(t)) && (c.pc.Released? ==> s0.bound == s.bound)
  {
    assert ClaimantInv(s, t);
    var port := s.claimants[t].port;
    if port in s.bound { assert BoundInv(s, port); }
  }

  /** One call of a release of which only the program point has changed so far, and changes now. */
  lemma ReleaseStep(s: State, t: Token, again: bool, pc: Pc, pc': Pc)
    requires t in s.claimants
    requires
      var inode := Named(s, s.claimants[t].port);
      || (pc == RelOpening(again) && pc' == RelReading(again, inode))
      || (pc == RelReading(again, inode) && pc' == if TokenMatches(s, inode, t) then RelUnlinking(again) else Released)
    ensures Enabled(Go(s, t, pc), Act(t)) && Step(Go(s, t, pc), Act(t)) == Go(s, t, pc')
  {
    assert Go(Go(s, t, pc), t, pc') == Go(s, t, pc');
  }

  lemma ReleaseUnlinks(s: State, t: Token)
    requires t in s.claimants
    ensures
      var s2 := Go(s, t, RelUnlinking(false));
      Enabled(s2, Act(t)) && Step(s2, Act(t)) == Go(Unlink(s, s.claimants[t].port), t, Released)
  {
    var s2 := Go(s, t, RelUnlinking(false));
    assert Step(s2, Act(t)) == Go(Unlink(s2, s.claimants[t].port), t, Released);
    assert Go(Unlink(s2, s.claimants[t].port), t, Released) == Go(Unlink(s, s.claimants[t].port), t, Released);
  }

  /** The rest of it: open, read and compare, and unlink on a match. */
  lemma ReleaseReads(s: State, t: Token, again: bool)
    requires t in s.claimants && (TokenMatches(s, Named(s, s.claimants[t].port), t) <==> !again)
    ensures
      var s0, events := Go(s, t, RelOpening(again)), Acts(t, if again then 2 else 3);
      && ValidRun(s0, events)
      && Run(s0, events) == Go(if again then s else Unlink(s, s.claimants[t].port), t, Released)
  {
    hide Step, Enabled, TokenMatches, Named, Acts;
    var inode := Named(s, s.claimants[t].port);
    var p1, p2 := RelReading(again, inode), if again then Released else RelUnlinking(false);
    ReleaseStep(s, t, again, RelOpening(again), p1);
    ReleaseStep(s, t, again, p1, p2);
    if again {
      NoActs(Go(s, t, p2), t);
      ActThen(Go(s, t, p1), t, 1);
      ActThen(Go(s, t, RelOpening(again)), t, 2);
    } else {
      ReleaseUnlinks(s, t);
      NoActs(Go(Unlink(s, s.claimants[t].port), t, Released), t);
      ActThen(Go(s, t, p2), t, 1);
      ActThen(Go(s, t, p1), t, 2);
      ActThen(Go(s, t, RelOpening(again)), t, 3);
    }
  }

  lemma ReleaseMatches(s: State, t: Token)
    requires Inv(s) && t in s.claimants && (s.claimants[t].pc.Held? || s.claimants[t].pc.Released?)
    ensures TokenMatches(s, Named(s, s.claimants[t].port), t) <==> s.claimants[t].pc.Held?
  {
    assert ClaimantInv(s, t);
    var port := s.claimants[t].port;
    if port in s.path { assert PathInv(s, port); }
  }

  /** Nothing but the operating system's rules keeps anybody from acting: any process may start or crash, any
      program may take a free port and give it up, and any live process may claim a free port. */
  lemma AnyoneMayAct(s: State, pid: Pid, port: Port, t: Token)
    ensures pid > 0 && pid !in s.live ==> Enabled(s, Spawn(pid)) && Step(s, Spawn(pid)).live == s.live + {pid}
    ensures pid in s.live ==> Enabled(s, Crash(pid)) && Step(s, Crash(pid)).live == s.live - {pid}
    ensures port !in s.bound ==>
      && Enabled(s, ForeignBind(port)) && Step(s, ForeignBind(port)).bound == s.bound[port := Foreign]
      && Enabled(Step(s, ForeignBind(port)), ForeignClose(port))
      && Step(Step(s, ForeignBind(port)), ForeignClose(port)).bound == s.bound
    ensures port !in s.bound && pid in s.live && t !in s.claimants ==>
      && Enabled(s, Bind(t, pid, port))
      && var s' := Step(s, Bind(t, pid, port));
      && s'.claimants == s.claimants[t := Claimant(pid, port, Start(0))] && s'.bound == s.bound[port := By(t)]
  {
  }

  lemma Unlinks(s: State, t: Token)
    requires t in s.claimants && s.claimants[t].pc == Unlinking(0)
    ensures ValidRun(s, Acts(t, 1)) && Run(s, Acts(t, 1)) == Go(Unlink(s, s.claimants[t].port), t, Start(1))
  {
    NoActs(Step(s, Act(t)), t);
    ActThen(s, t, 1);
  }

  // ---------- Why the socket has to be held ----------

  /** Runs in which two claimants may hold the port's socket at once. */
  least predicate UnguardedReach(s: State, s': State) {
    s == s' || exists m, e :: UnguardedReach(s, m) && Possible(m, e) && Step(m, e) == s'
  }

  lemma UnguardedStep(s: State, m: State, e: Event)
    requires UnguardedReach(s, m) && Possible(m, e)
    ensures UnguardedReach(s, Step(m, e))
  {
  }

  /** Claimant `t` runs from the top of `_claim_file` to the point of unlinking a half-written lease. */
  lemma ReachesUnlinking(s0: State, s: State, t: Token) returns (s': State)
    requires UnguardedReach(s0, s) && t in s.claimants && s.claimants[t].pc == Start(0)
    requires s.claimants[t].port in s.path && s.path[s.claimants[t].port] in s.inodes
    requires s.inodes[s.path[s.claimants[t].port]].Partial?
    ensures UnguardedReach(s0, s') && s' == Go(s, t, Unlinking(0))
  {
    hide UnguardedReach;
    var port := s.claimants[t].port;
    var s1 := Go(s, t, Opening(0));
    UnguardedStep(s0, s, Act(t));
    var s2 := Go(s1, t, Reading(0, Some(s.path[port])));
    UnguardedStep(s0, s1, Act(t));
    var s3 := Go(s2, t, Testing(0, -1));
    UnguardedStep(s0, s2, Act(t));
    s' := Go(s3, t, Unlinking(0));
    UnguardedStep(s0, s3, Act(t));
    assert s' == Go(s, t, Unlinking(0));
  }

  /** Claimant `t` runs from its unlink to holding the lease. */
  lemma UnlinksAndHolds(s0: State, s: State, t: Token) returns (s': State)
    requires UnguardedReach(s0, s) && t in s.claimants && s.claimants[t].pc == Unlinking(0)
    ensures UnguardedReach(s0, s')
    ensures s' == Go(s, t, Held(false)).(path := s.path[s.claimants[t].port := t], inodes := s.inodes[t := Full(s.claimants[t].pid)])
  {
    hide UnguardedReach;
    var c := s.claimants[t];
    var s1 := Go(Unlink(s, c.port), t, Start(1));
    UnguardedStep(s0, s, Act(t));
    var s2 := ActStep(s1, t);
    UnguardedStep(s0, s1, Act(t));
    s' := ActStep(s2, t);
    UnguardedStep(s0, s2, Act(t));
    assert s'.path == s.path[c.port := t];
    assert s'.claimants == Go(s, t, Held(false)).claimants;
    assert s'.inodes == s.inodes[t := Full(c.pid)];
  }

  /** A process crashes right after creating its lease file. */
  lemma StaleLease() returns (s: State)
    ensures UnguardedReach(INIT, s)
    ensures s == State(map[0 := Claimant(100, 6502, Crashed)], map[], map[6502 := 0], map[0 := Partial], {})
  {
    hide UnguardedReach;
    var s1 := Step(INIT, Spawn(100));
    UnguardedSelf(INIT);
    UnguardedStep(INIT, INIT, Spawn(100));
    var s2 := Step(s1, Bind(0, 100, 6502));
    UnguardedStep(INIT, s1, Bind(0, 100, 6502));
    var s3 := Step(s2, Act(0));
    UnguardedStep(INIT, s2, Act(0));
    s := Step(s3, Crash(100));
    UnguardedStep(INIT, s3, Crash(100));
    assert s.claimants == map[0 := Claimant(100, 6502, Crashed)] && s.bound == map[];
    assert s.live == {} && s.path == map[6502 := 0] && s.inodes == map[0 := Partial];
  }

  lemma UnguardedSelf(s: State)
    ensures UnguardedReach(s, s)
  {
  }

  /** Without the exclusive socket the lease file protects nothing: two live claimants that both find the
      lease of a crashed one can both end up holding the port, the second having unlinked the first's. */
  lemma LeaseAloneIsNotEnough() returns (s: State)
    ensures UnguardedReach(INIT, s)
    ensures 1 in s.claimants && 2 in s.claimants && s.claimants[1].port == s.claimants[2].port
    ensures s.claimants[1].pc.Held? && s.claimants[2].pc.Held?
    ensures s.claimants[1].pid in s.live && s.claimants[2].pid in s.live
  {
    hide UnguardedReach, ActStep;
    var s4 := StaleLease();
    var s5 := Step(s4, Spawn(101));
    UnguardedStep(INIT, s4, Spawn(101));
    var s6 := Step(s5, Bind(1, 101, 6502));
    UnguardedStep(INIT, s5, Bind(1, 101, 6502));
    var s7 := Step(s6, Bind(2, 101, 6502));
    UnguardedStep(INIT, s6, Bind(2, 101, 6502));
    var s8 := ReachesUnlinking(INIT, s7, 1);
    var s9 := ReachesUnlinking(INIT, s8, 2);
    var s10 := UnlinksAndHolds(INIT, s9, 1);
    s := UnlinksAndHolds(INIT, s10, 2);
  }
}
