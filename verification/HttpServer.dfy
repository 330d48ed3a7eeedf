/** The life of connections in the HTTP server: a registry keyed by the heap address of each
    connection's record, removal when a handler drops its guard, and shutdown in two phases.
    Tasks are interleaved step by step; addresses are reused as soon as they are free. */
module HttpServer {
  import opened Wrappers

  type Address = nat
  type Task = nat

  datatype Phase = Serving | Closing | Released

  /** A handler task: the id its guard will remove, and which connection it serves. */
  datatype Handler = Handler(addr: Address, serial: nat, phase: Phase)

  datatype ServerPc = Running | Draining | Graceful | Forced | Gone

  datatype Server = Server(
    pc: ServerPc,
    cancelled: bool,
    pending: set<nat>,                       // TLS handshakes under way
    registry: map<Address, nat>,             // id -> the connection registered under it
    starting: Option<(Address, nat)>,        // registered, handler not spawned yet
    handlers: map<Task, Handler>,
    nextSerial: nat,
    removed: seq<nat>)                       // connections whose entry was removed, in order

  datatype Step =
    | AcceptTls(p: nat)
    | TlsFailed(p: nat)
    | TlsReady(p: nat, addr: Address)
    | AcceptPlain(addr: Address)
    | Spawn(t: Task)
    | ConnectionEnds(t: Task)
    | DropGuard(t: Task)
    | Reap(t: Task)
    | Cancel
    | Break
    | AbortPending(p: nat)
    | PendingGone
    | GraceOver
    | Abort(t: Task)
    | Finish

  /** The serve loop is between two events. */
  predicate Idle(s: Server) {
    s.pc == Running && s.starting.None?
  }

  predicate Enabled(s: Server, step: Step) {
    match step
    case AcceptTls(p) => Idle(s) && p !in s.pending
    case TlsFailed(p) => Idle(s) && p in s.pending
    // The registry owns the only handle to a record, so the addresses in use are its keys; the
    // allocator may return any other.
    case TlsReady(p, addr) => Idle(s) && p in s.pending && addr !in s.registry
    case AcceptPlain(addr) => Idle(s) && addr !in s.registry
    case Spawn(t) => s.pc == Running && s.starting.Some? && t !in s.handlers
    case ConnectionEnds(t) => t in s.handlers && s.handlers[t].phase == Serving
    case DropGuard(t) => t in s.handlers && s.handlers[t].phase == Closing
    case Reap(t) => (Idle(s) || s.pc == Graceful || s.pc == Forced) && t in s.handlers && s.handlers[t].phase == Released
    case Cancel => true
    case Break => Idle(s) && s.cancelled
    case AbortPending(p) => s.pc == Draining && p in s.pending
    case PendingGone => s.pc == Draining && s.pending == {}
    case GraceOver => s.pc == Graceful
    case Abort(t) => s.pc == Forced && t in s.handlers && s.handlers[t].phase != Released
    case Finish => (s.pc == Graceful || s.pc == Forced) && s.handlers == map[]
  }

  function Register(s: Server, addr: Address): Server {
    s.(registry := s.registry[addr := s.nextSerial], starting := Some((addr, s.nextSerial)), nextSerial := s.nextSerial + 1)
  }

  /** Dropping a guard removes whatever is registered under its id. */
  function Release(s: Server, t: Task): Server
    requires t in s.handlers
  {
    var h := s.handlers[t];
    s.(registry := s.registry - {h.addr},
       handlers := s.handlers[t := h.(phase := Released)],
       removed := if h.addr in s.registry then s.removed + [s.registry[h.addr]] else s.removed)
  }

  function Apply(s: Server, step: Step): Server
    requires Enabled(s, step)
  {
    match step
    case AcceptTls(p) => s.(pending := s.pending + {p})
    case TlsFailed(p) => s.(pending := s.pending - {p})
    case TlsReady(p, addr) => Register(s.(pending := s.pending - {p}), addr)
    case AcceptPlain(addr) => Register(s, addr)
    case Spawn(t) =>
      s.(handlers := s.handlers[t := Handler(s.starting.value.0, s.starting.value.1, Serving)], starting := None)
    case ConnectionEnds(t) => s.(handlers := s.handlers[t := s.handlers[t].(phase := Closing)])
    case DropGuard(t) => Release(s, t)
    case Reap(t) => s.(handlers := s.handlers - {t})
    case Cancel => s.(cancelled := true)
    case Break => s.(pc := Draining, cancelled := true)
    case AbortPending(p) => s.(pending := s.pending - {p})
    case PendingGone => s.(pc := Graceful)
    case GraceOver => s.(pc := Forced)
    case Abort(t) => Release(s, t)
    case Finish => s.(pc := Gone)
  }

  const Fresh: Server := Server(Running, false, {}, map[], None, map[], 0, [])

  function Run(schedule: seq<Step>): Option<Server> {
    if schedule == [] then Some(Fresh)
    else
      var before := Run(schedule[..|schedule| - 1]);
      var step := schedule[|schedule| - 1];
      if before.Some? && Enabled(before.value, step) then Some(Apply(before.value, step)) else None
  }

  // ---------------------------------------------------------------------------
  // What every step keeps
  // ---------------------------------------------------------------------------

  /** A handler whose guard has not been dropped. */
  predicate Live(s: Server, t: Task) {
    t in s.handlers && s.handlers[t].phase != Released
  }

  /** Each live handler is registered under its own id and nobody else's. */
  ghost predicate HandlersRegistered(s: Server) {
    && (forall t :: Live(s, t) ==> s.handlers[t].addr in s.registry && s.registry[s.handlers[t].addr] == s.handlers[t].serial)
    && (forall t, u :: Live(s, t) && Live(s, u) && t != u ==> s.handlers[t].addr != s.handlers[u].addr)
  }

  ghost predicate StartingRegistered(s: Server) {
    s.starting.Some? ==>
      && s.pc == Running
      && s.starting.value.0 in s.registry && s.registry[s.starting.value.0] == s.starting.value.1
      && forall t :: Live(s, t) ==> s.handlers[t].addr != s.starting.value.0
  }

  /** Nothing is registered without a handler to remove it. */
  ghost predicate RegistryOwned(s: Server) {
    forall a :: a in s.registry ==>
      (s.starting.Some? && s.starting.value.0 == a) || exists t :: Live(s, t) && s.handlers[t].addr == a
  }

  /** Serial numbers: registered and removed connections never mix, and none is removed twice. */
  ghost predicate SerialsFresh(s: Server) {
    && (forall a :: a in s.registry ==> s.registry[a] < s.nextSerial && s.registry[a] !in s.removed)
    && (forall a, b :: a in s.registry && b in s.registry && a != b ==> s.registry[a] != s.registry[b])
    && (forall i :: 0 <= i < |s.removed| ==> s.removed[i] < s.nextSerial)
    && (forall i, j :: 0 <= i < j < |s.removed| ==> s.removed[i] != s.removed[j])
  }

  ghost predicate Inv(s: Server) {
    && HandlersRegistered(s) && StartingRegistered(s) && RegistryOwned(s) && SerialsFresh(s)
    && (s.pc == Gone ==> s.handlers == map[] && s.starting.None?)
  }

  lemma RegisterKeeps(s: Server, addr: Address)
    requires Inv(s) && Idle(s) && addr !in s.registry
    ensures Inv(Register(s, addr))
  {
    var s' := Register(s, addr);
    forall a | a in s'.registry && a != addr
      ensures exists t :: Live(s', t) && s'.handlers[t].addr == a
    {
      var t :| Live(s, t) && s.handlers[t].addr == a;
      assert Live(s', t);
    }
  }

  lemma ReleaseKeepsSerials(s: Server, t: Task)
    requires HandlersRegistered(s) && SerialsFresh(s) && Live(s, t)
    ensures SerialsFresh(Release(s, t)) && Release(s, t).removed == s.removed + [s.handlers[t].serial]
  {
  }

  lemma ReleaseEndsOne(s: Server, t: Task)
    requires Live(s, t)
    ensures forall u :: Live(Release(s, t), u) <==> Live(s, u) && u != t
  {
  }

  lemma ReleaseKeeps(s: Server, t: Task)
    requires Inv(s) && Live(s, t)
    ensures Inv(Release(s, t))
    ensures Release(s, t).registry == s.registry - {s.handlers[t].addr}
    ensures Release(s, t).removed == s.removed + [s.handlers[t].serial]
  {
    var s' := Release(s, t);
    ReleaseKeepsSerials(s, t);
    ReleaseEndsOne(s, t);
    forall a | a in s'.registry
      ensures (s'.starting.Some? && s'.starting.value.0 == a) || exists u :: Live(s', u) && s'.handlers[u].addr == a
    {
      if !(s.starting.Some? && s.starting.value.0 == a) {
        var u :| Live(s, u) && s.handlers[u].addr == a;
        assert Live(s', u);
      }
    }
  }

  lemma SpawnKeeps(s: Server, t: Task)
    requires Inv(s) && Enabled(s, Spawn(t))
    ensures Inv(Apply(s, Spawn(t)))
  {
    var s' := Apply(s, Spawn(t));
    assert forall u :: Live(s', u) <==> Live(s, u) || u == t;
    forall a | a in s'.registry ensures exists u :: Live(s', u) && s'.handlers[u].addr == a {
      if s.starting.value.0 == a {
        assert Live(s', t);
      } else {
        var u :| Live(s, u) && s.handlers[u].addr == a;
        assert Live(s', u);
      }
    }
  }

  /** Two states with the same entries, the same handover and the same live handlers. */
  ghost predicate SameConnections(s: Server, s': Server) {
    && s'.registry == s.registry && s'.starting == s.starting && s'.removed == s.removed && s'.nextSerial == s.nextSerial
    && (forall t :: Live(s', t) <==> Live(s, t))
    && (forall t :: Live(s, t) ==> s'.handlers[t].addr == s.handlers[t].addr && s'.handlers[t].serial == s.handlers[t].serial)
  }

  lemma SameConnectionsKeep(s: Server, s': Server)
    requires Inv(s) && SameConnections(s, s')
    requires s'.starting.Some? ==> s'.pc == Running
    requires s'.pc == Gone ==> s'.handlers == map[] && s'.starting.None?
    ensures Inv(s')
  {
    forall a | a in s'.registry
      ensures (s'.starting.Some? && s'.starting.value.0 == a) || exists u :: Live(s', u) && s'.handlers[u].addr == a
    {
      if !(s.starting.Some? && s.starting.value.0 == a) {
        var u :| Live(s, u) && s.handlers[u].addr == a;
        assert Live(s', u);
      }
    }
  }

  /** Steps that move no guard and no entry. */
  lemma QuietStepSame(s: Server, step: Step)
    requires Inv(s) && Enabled(s, step)
    requires !step.TlsReady? && !step.AcceptPlain? && !step.Spawn? && !step.DropGuard? && !step.Abort?
    ensures SameConnections(s, Apply(s, step))
  {
    var s' := Apply(s, step);
    forall t ensures Live(s', t) <==> Live(s, t) {
    }
  }

  lemma StepKeeps(s: Server, step: Step)
    requires Inv(s) && Enabled(s, step)
    ensures Inv(Apply(s, step))
  {
    match step
    case TlsReady(p, addr) =>
      var s0 := s.(pending := s.pending - {p});
      SameConnectionsKeep(s, s0);
      RegisterKeeps(s0, addr);
    case AcceptPlain(addr) => RegisterKeeps(s, addr);
    case Spawn(t) => SpawnKeeps(s, t);
    case DropGuard(t) => ReleaseKeeps(s, t);
    case Abort(t) => ReleaseKeeps(s, t);
    case _ =>
      QuietStepSame(s, step);
      SameConnectionsKeep(s, Apply(s, step));
  }

  lemma {:induction false} RunKeeps(schedule: seq<Step>, s: Server)
    requires Run(schedule) == Some(s)
    ensures Inv(s)
  {
    if schedule != [] {
      var n := |schedule| - 1;
      var before := Run(schedule[..n]).value;
      RunKeeps(schedule[..n], before);
      StepKeeps(before, schedule[n]);
    }
  }

  // ---------------------------------------------------------------------------
  // What a caller can rely on, in every panic-free run
  // ---------------------------------------------------------------------------

  /** The ids in the registry are exactly those of the live handlers (and of the connection the
      serve loop is just handing over), each under its own. */
  lemma RegistryIsLiveHandlers(schedule: seq<Step>, s: Server, a: Address)
    requires Run(schedule) == Some(s)
    ensures a in s.registry <==>
      (s.starting.Some? && s.starting.value.0 == a) || exists t :: Live(s, t) && s.handlers[t].addr == a
  {
    RunKeeps(schedule, s);
  }

  /** The server shuts down only after somebody asked it to; by the time it waits for its handlers no
      handshake is under way and nothing is being handed over. */
  lemma {:induction false} ShutdownIsAsked(schedule: seq<Step>, s: Server)
    requires Run(schedule) == Some(s)
    ensures s.cancelled ==> Cancel in schedule
    ensures s.pc != Running ==> s.cancelled && s.starting.None?
    ensures s.pc == Graceful || s.pc == Forced || s.pc == Gone ==> s.pending == {}
  {
    if schedule != [] {
      var n := |schedule| - 1;
      ShutdownIsAsked(schedule[..n], Run(schedule[..n]).value);
      assert schedule == schedule[..n] + [schedule[n]];
    }
  }

  /** A closing handler removes its own entry and only that one, although ids are reused. */
  lemma CloseRemovesOwn(schedule: seq<Step>, s: Server, step: Step)
    requires Run(schedule) == Some(s) && Enabled(s, step) && (step.DropGuard? || step.Abort?)
    ensures var h := s.handlers[step.t];
      && h.addr in s.registry && s.registry[h.addr] == h.serial
      && Apply(s, step).registry == s.registry - {h.addr}
      && (forall u :: u != step.t && Live(s, u) ==>
            s.handlers[u].addr in Apply(s, step).registry && Apply(s, step).registry[s.handlers[u].addr] == s.handlers[u].serial)
  {
    RunKeeps(schedule, s);
    assert Live(s, step.t);
    ReleaseKeeps(s, step.t);
  }

  /** No connection's entry is ever removed twice. */
  lemma RemovedOnce(schedule: seq<Step>, s: Server, i: nat, j: nat)
    requires Run(schedule) == Some(s) && i < j < |s.removed|
    ensures s.removed[i] != s.removed[j]
  {
    RunKeeps(schedule, s);
  }

  /** Once the server is shut down no connection is registered, and none can be again. */
  lemma ShutdownIsEmpty(schedule: seq<Step>, s: Server)
    requires Run(schedule) == Some(s) && s.pc == Gone
    ensures s.registry == map[]
    ensures forall step :: Enabled(s, step) ==> Apply(s, step).pc == Gone && Apply(s, step).registry == map[]
  {
    RunKeeps(schedule, s);
    assert forall t :: !Live(s, t);
  }

  function LiveTasks(s: Server): set<Task> {
    set t | t in s.handlers && s.handlers[t].phase != Released
  }

  function Remaining(s: Server): nat {
    |s.handlers.Keys| + |LiveTasks(s)|
  }

  function Rank(pc: ServerPc): nat {
    match pc
    case Running => 4
    case Draining => 3
    case Graceful => 2
    case Forced => 1
    case Gone => 0
  }

  /** What the serve loop still has to do before it can leave its loop. */
  function Unsettled(s: Server): nat {
    (if s.starting.Some? then 1 else 0) + (if s.cancelled then 0 else 1)
  }

  lemma {:induction false} FreshTask(tasks: set<Task>, from: Task) returns (t: Task)
    ensures t !in tasks && from <= t
    decreases |tasks|
  {
    if from !in tasks {
      t := from;
    } else {
      t := FreshTask(tasks - {from}, from + 1);
    }
  }

  ghost predicate Nearer(s: Server, s': Server) {
    || Rank(s'.pc) < Rank(s.pc)
    || (Rank(s'.pc) == Rank(s.pc) && Unsettled(s') < Unsettled(s))
    || (Rank(s'.pc) == Rank(s.pc) && Unsettled(s') == Unsettled(s) && |s'.pending| < |s.pending|)
    || (Rank(s'.pc) == Rank(s.pc) && Unsettled(s') == Unsettled(s) && s'.pending == s.pending && Remaining(s') < Remaining(s))
  }

  lemma NextWhenForced(s: Server) returns (step: Step)
    requires s.pc == Forced
    ensures Enabled(s, step) && Nearer(s, Apply(s, step))
  {
    if s.handlers == map[] {
      step := Finish;
    } else {
      var t :| t in s.handlers;
      RemainingShrinks(s, t);
      step := if s.handlers[t].phase == Released then Reap(t) else Abort(t);
    }
  }

  lemma NextWhenDraining(s: Server) returns (step: Step)
    requires s.pc == Draining
    ensures Enabled(s, step) && Nearer(s, Apply(s, step))
  {
    if s.pending == {} {
      step := PendingGone;
    } else {
      var p :| p in s.pending;
      step := AbortPending(p);
    }
  }

  /** The step that brings a shutdown nearer. */
  lemma NextTowardsEnd(s: Server) returns (step: Step)
    requires Inv(s) && s.pc != Gone
    ensures Enabled(s, step) && Nearer(s, Apply(s, step))
  {
    match s.pc
    case Running =>
      if s.starting.Some? {
        var t := FreshTask(s.handlers.Keys, 0);
        step := Spawn(t);
      } else if !s.cancelled {
        step := Cancel;
      } else {
        step := Break;
      }
    case Draining => step := NextWhenDraining(s);
    case Graceful => step := GraceOver;
    case Forced => step := NextWhenForced(s);
  }

  /** From any state the server can be driven to the end, whatever its connections are doing, and
      then nothing is registered: no handler can hold a shutdown up for ever. */
  lemma {:induction false} ShutdownIsReachable(s: Server) returns (steps: seq<Step>, s': Server)
    requires Inv(s)
    ensures RunFrom(s, steps) == Some(s') && s'.pc == Gone && s'.registry == map[]
    decreases Rank(s.pc), Unsettled(s), |s.pending|, Remaining(s)
  {
    if s.pc == Gone {
      assert forall t :: !Live(s, t);
      steps, s' := [], s;
    } else {
      var step := NextTowardsEnd(s);
      StepKeeps(s, step);
      var rest;
      rest, s' := ShutdownIsReachable(Apply(s, step));
      steps := [step] + rest;
      assert steps[1..] == rest;
    }
  }

  function RunFrom(s: Server, steps: seq<Step>): Option<Server>
    decreases |steps|
  {
    if steps == [] then Some(s)
    else if Enabled(s, steps[0]) then RunFrom(Apply(s, steps[0]), steps[1..])
    else None
  }

  lemma RemainingShrinks(s: Server, t: Task)
    requires s.pc == Forced && t in s.handlers
    ensures var step := if s.handlers[t].phase == Released then Reap(t) else Abort(t);
      Remaining(Apply(s, step)) < Remaining(s)
  {
    if s.handlers[t].phase == Released {
      var s' := Apply(s, Reap(t));
      assert LiveTasks(s') == LiveTasks(s);
      assert s'.handlers.Keys == s.handlers.Keys - {t};
    } else {
      var s' := Apply(s, Abort(t));
      assert LiveTasks(s') == LiveTasks(s) - {t};
      assert s'.handlers.Keys == s.handlers.Keys;
      assert t in LiveTasks(s);
    }
  }

  lemma FreshAddress(used: set<nat>) returns (a: nat)
    ensures a !in used && forall x :: x in used ==> x < a
  {
    a := 0;
    if x :| x in used {
      a := FreshAddress(used - {x});
      a := if a <= x then x + 1 else a;
      assert forall y :: y in used ==> y == x || y in used - {x};
    }
  }

  /** A server between two events can take a connection through its whole life, and is then as before
      but for the record of its removal. */
  lemma ServesAConnection(schedule: seq<Step>, s: Server) returns (steps: seq<Step>, s': Server)
    requires Run(schedule) == Some(s) && Idle(s)
    ensures RunFrom(s, steps) == Some(s')
    ensures s' == s.(nextSerial := s.nextSerial + 1, removed := s.removed + [s.nextSerial])
  {
    var addr := FreshAddress(s.registry.Keys);
    var t := FreshAddress(s.handlers.Keys);
    var s1 := Apply(s, AcceptPlain(addr));
    var s2 := Apply(s1, Spawn(t));
    var s3 := Apply(s2, ConnectionEnds(t));
    var s4 := Apply(s3, DropGuard(t));
    s' := Apply(s4, Reap(t));
    assert s'.registry == s.registry && s'.handlers == s.handlers;
    steps := First(s4, Reap(t), []);
    steps := First(s3, DropGuard(t), steps);
    steps := First(s2, ConnectionEnds(t), steps);
    steps := First(s1, Spawn(t), steps);
    steps := First(s, AcceptPlain(addr), steps);
  }

  lemma First(s: Server, step: Step, rest: seq<Step>) returns (steps: seq<Step>)
    requires Enabled(s, step)
    ensures RunFrom(s, steps) == RunFrom(Apply(s, step), rest)
  {
    steps := [step] + rest;
    assert steps[1..] == rest;
  }
}
