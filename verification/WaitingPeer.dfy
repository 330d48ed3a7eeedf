/** Waiting for a peer: subscribe, check, then wait on a broadcast subscription that may drop
    old events.  Every step of the caller can be interleaved with connects, disconnects,
    announcements, changes of the known peers, the clock and the network shutting down. */
module WaitingPeer {
  import opened Wrappers

  type PeerId = nat

  datatype PeerEvent = NewPeer(id: PeerId) | LostPeer(id: PeerId)

  datatype Failure = UnknownPeer | NetworkClosed | TimedOut

  /** How the request came to be made. */
  datatype Route = Immediate | AfterEvent | AfterLag

  datatype Pc =
    | Start
    | Subscribed        // about to look the peer up for the first time
    | LoopHead          // about to look the peer up among the known peers
    | Parked            // in the select
    | SawNewPeer        // about to look the peer up after its event
    | SawLag            // about to replace the subscription
    | Resubscribed      // about to look the peer up after lagging
    | Calling(route: Route)
    | Failed(reason: Failure)

  datatype Network = Network(
    log: seq<PeerEvent>,     // every event ever broadcast
    retained: nat,           // the broadcast buffer keeps the last so many
    connected: set<PeerId>,
    announcing: set<PeerId>, // connected, event not broadcast yet
    known: set<PeerId>,
    closed: bool,
    now: nat)

  datatype Caller = Caller(
    target: PeerId,
    timeout: Option<nat>,
    pc: Pc,
    start: nat,
    sleepFrom: nat,          // when the timeout's sleep was created
    pos: nat,                // next event of the subscription
    requestTimeout: Option<nat>,
    calledAt: nat,
    requests: nat)           // requests issued

  datatype State = State(net: Network, me: Caller)

  datatype Step =
    // the network
    | Connect(id: PeerId)
    | Announce(id: PeerId)
    | Disconnect(id: PeerId)
    | SetKnown(peers: set<PeerId>)
    | Shutdown
    | Tick
    // the caller
    | Subscribe
    | FirstLookup
    | CheckKnown
    | Receive
    | Expire
    | LookupAfterEvent
    | Resubscribe
    | LookupAfterLag

  predicate Lagging(s: State) {
    s.me.pos + s.net.retained < |s.net.log|
  }

  predicate Enabled(s: State, step: Step) {
    match step
    case Connect(id) => id !in s.net.connected && !s.net.closed
    case Announce(id) => id in s.net.announcing
    case Disconnect(id) => id in s.net.connected && id !in s.net.announcing
    case SetKnown(_) => true
    case Shutdown => true
    case Tick => true
    case Subscribe => s.me.pc == Start
    case FirstLookup => s.me.pc == Subscribed
    case CheckKnown => s.me.pc == LoopHead
    case Receive => s.me.pc == Parked && (s.me.pos < |s.net.log| || s.net.closed)
    case Expire => s.me.pc == Parked && s.me.timeout.Some? && s.me.sleepFrom + s.me.timeout.value <= s.net.now
    case LookupAfterEvent => s.me.pc == SawNewPeer
    case Resubscribe => s.me.pc == SawLag
    case LookupAfterLag => s.me.pc == Resubscribed
  }

  function Reduced(timeout: Option<nat>, elapsed: nat): Option<nat> {
    if timeout.None? then None
    else Some(if timeout.value < elapsed then 0 else timeout.value - elapsed)
  }

  function Issue(me: Caller, now: nat, route: Route, requestTimeout: Option<nat>): Caller {
    me.(pc := Calling(route), calledAt := now, requestTimeout := requestTimeout, requests := me.requests + 1)
  }

  function Elapsed(s: State): nat {
    if s.net.now < s.me.start then 0 else s.net.now - s.me.start
  }

  function ApplyNetwork(net: Network, step: Step): Network {
    match step
    case Connect(id) => net.(connected := net.connected + {id}, announcing := net.announcing + {id})
    case Announce(id) => net.(announcing := net.announcing - {id}, log := net.log + [NewPeer(id)])
    case Disconnect(id) => net.(connected := net.connected - {id}, log := net.log + [LostPeer(id)])
    case SetKnown(peers) => net.(known := peers)
    case Shutdown => net.(closed := true)
    case Tick => net.(now := net.now + 1)
    case _ => net
  }

  function ApplyCaller(s: State, step: Step): Caller
    requires Enabled(s, step)
  {
    var me := s.me;
    match step
    case Subscribe =>
      if s.net.closed then me.(pc := Failed(NetworkClosed))
      else me.(pc := Subscribed, start := s.net.now, pos := |s.net.log|)
    case FirstLookup =>
      if me.target in s.net.connected then Issue(me, s.net.now, Immediate, me.timeout)
      else me.(pc := LoopHead, sleepFrom := s.net.now)
    case CheckKnown =>
      if me.target in s.net.known then me.(pc := Parked) else me.(pc := Failed(UnknownPeer))
    case Receive =>
      if Lagging(s) then me.(pc := SawLag, pos := |s.net.log| - s.net.retained)
      else if me.pos < |s.net.log| then
        me.(pc := if s.net.log[me.pos] == NewPeer(me.target) then SawNewPeer else LoopHead, pos := me.pos + 1)
      else me.(pc := Failed(NetworkClosed))
    case Expire => me.(pc := Failed(TimedOut))
    case LookupAfterEvent =>
      if me.target in s.net.connected then Issue(me, s.net.now, AfterEvent, Reduced(me.timeout, Elapsed(s)))
      else me.(pc := LoopHead)
    case Resubscribe => me.(pc := Resubscribed, pos := |s.net.log|)
    // On this path the remaining time is not recomputed.
    case LookupAfterLag =>
      if me.target in s.net.connected then Issue(me, s.net.now, AfterLag, me.timeout) else me.(pc := LoopHead)
    case _ => me
  }

  function Apply(s: State, step: Step): State
    requires Enabled(s, step)
  {
    State(ApplyNetwork(s.net, step), ApplyCaller(s, step))
  }

  /** A call about to start, on any network. */
  predicate Initial(s: State) {
    && s.me.pc == Start && s.me.requests == 0
    && s.net.announcing <= s.net.connected
    && s.me.start <= s.net.now
  }

  function Run(s: State, schedule: seq<Step>): Option<State> {
    if schedule == [] then Some(s)
    else
      var before := Run(s, schedule[..|schedule| - 1]);
      var step := schedule[|schedule| - 1];
      if before.Some? && Enabled(before.value, step) then Some(Apply(before.value, step)) else None
  }

  // ---------------------------------------------------------------------------
  // No lost wakeup
  // ---------------------------------------------------------------------------

  /** A subscription at `pos` still holds the target's event, or has fallen behind. */
  ghost predicate Holds(log: seq<PeerEvent>, retained: nat, pos: nat, target: PeerId) {
    pos + retained < |log| || exists i :: pos <= i < |log| && log[i] == NewPeer(target)
  }

  ghost predicate WillWake(s: State) {
    Holds(s.net.log, s.net.retained, s.me.pos, s.me.target)
  }

  /** The caller has no lookup ahead of it before it waits again. */
  predicate Waiting(s: State) {
    s.me.pc == LoopHead || s.me.pc == Parked
  }

  /** The timeout each path hands to the request. */
  function Granted(me: Caller): Option<nat>
    requires me.pc.Calling? && me.start <= me.calledAt
  {
    if me.pc.route == AfterEvent then Reduced(me.timeout, me.calledAt - me.start) else me.timeout
  }

  /** Past the first lookup, with the sleep created. */
  predicate Asleep(pc: Pc) {
    pc == LoopHead || pc == Parked || pc == SawNewPeer || pc == SawLag || pc == Resubscribed
  }

  ghost predicate Inv(s: State) {
    && s.net.announcing <= s.net.connected
    && s.me.start <= s.net.now
    && (Asleep(s.me.pc) ==> s.me.start <= s.me.sleepFrom <= s.net.now)
    && (s.me.pc != Start && !s.me.pc.Failed? ==> s.me.pos <= |s.net.log|)
    && (Waiting(s) && s.me.target in s.net.connected - s.net.announcing ==> WillWake(s))
    && s.me.requests == (if s.me.pc.Calling? then 1 else 0)
    && (s.me.pc.Calling? ==> s.me.start <= s.me.calledAt <= s.net.now && s.me.requestTimeout == Granted(s.me))
  }

  /** More events never make a subscription miss what it had ahead. */
  lemma WakeSurvives(log: seq<PeerEvent>, retained: nat, pos: nat, target: PeerId, e: PeerEvent)
    requires Holds(log, retained, pos, target)
    ensures Holds(log + [e], retained, pos, target)
  {
    if pos + retained >= |log| {
      var i :| pos <= i < |log| && log[i] == NewPeer(target);
      assert (log + [e])[i] == NewPeer(target);
    }
  }

  /** Reading some other event leaves the target's event ahead. */
  lemma WakeStaysAhead(log: seq<PeerEvent>, retained: nat, pos: nat, target: PeerId)
    requires Holds(log, retained, pos, target) && pos < |log| <= pos + retained && log[pos] != NewPeer(target)
    ensures Holds(log, retained, pos + 1, target)
  {
    var i :| pos <= i < |log| && log[i] == NewPeer(target);
    assert pos + 1 <= i;
  }

  lemma NetworkStepKeeps(s: State, step: Step)
    requires Inv(s) && Enabled(s, step) && ApplyCaller(s, step) == s.me
    ensures Inv(Apply(s, step))
  {
    var log := s.net.log;
    if step.Announce? {
      if step.id == s.me.target {
        assert (log + [NewPeer(step.id)])[|log|] == NewPeer(s.me.target);
      } else if WillWake(s) {
        WakeSurvives(log, s.net.retained, s.me.pos, s.me.target, NewPeer(step.id));
      }
    } else if step.Disconnect? && WillWake(s) {
      WakeSurvives(log, s.net.retained, s.me.pos, s.me.target, LostPeer(step.id));
    }
  }

  lemma CallerStepKeeps(s: State, step: Step)
    requires Inv(s) && Enabled(s, step) && ApplyNetwork(s.net, step) == s.net
    ensures Inv(Apply(s, step))
  {
    if step.Receive? && !Lagging(s) && s.me.pos < |s.net.log| && WillWake(s) && s.net.log[s.me.pos] != NewPeer(s.me.target) {
      WakeStaysAhead(s.net.log, s.net.retained, s.me.pos, s.me.target);
    }
  }

  lemma {:induction false} RunKeeps(s: State, schedule: seq<Step>, s': State)
    requires Initial(s) && Run(s, schedule) == Some(s')
    ensures Inv(s')
    decreases |schedule|
  {
    if schedule != [] {
      var n := |schedule| - 1;
      var before := Run(s, schedule[..n]).value;
      RunKeeps(s, schedule[..n], before);
      if ApplyNetwork(before.net, schedule[n]) == before.net {
        CallerStepKeeps(before, schedule[n]);
      } else {
        NetworkStepKeeps(before, schedule[n]);
      }
    }
  }

  /** In every interleaving, a caller parked while its target is connected and announced has a
      wakeup coming; the receive it waits for can be taken; and at most one request is made. */
  lemma NoLostWakeup(s: State, schedule: seq<Step>, s': State)
    requires Initial(s) && Run(s, schedule) == Some(s')
    ensures s'.me.pc == Parked && s'.me.target in s'.net.connected - s'.net.announcing ==>
      WillWake(s') && Enabled(s', Receive)
    ensures s'.me.requests <= 1
  {
    RunKeeps(s, schedule, s');
  }

  // ---------------------------------------------------------------------------
  // From the wakeup to the request
  // ---------------------------------------------------------------------------

  /** The caller's own next step when it does not time out. */
  function OwnStep(pc: Pc): Step {
    match pc
    case Start => Subscribe
    case Subscribed => FirstLookup
    case LoopHead => CheckKnown
    case Parked => Receive
    case SawNewPeer => LookupAfterEvent
    case SawLag => Resubscribe
    case Resubscribed => LookupAfterLag
    case _ => Tick
  }

  ghost predicate Settled(s: State) {
    s.me.target in s.net.connected - s.net.announcing && s.me.target in s.net.known && Waiting(s) && Inv(s)
  }

  function OwnRun(s: State, n: nat): Option<State>
    decreases n
  {
    if n == 0 then Some(s)
    else if Enabled(s, OwnStep(s.me.pc)) then OwnRun(Apply(s, OwnStep(s.me.pc)), n - 1)
    else None
  }

  /** Left alone with a connected, known target, a waiting caller makes its request after
      finitely many steps of its own. */
  lemma {:induction false} ReachesTheRequest(s: State) returns (n: nat)
    requires Settled(s)
    ensures OwnRun(s, n).Some? && OwnRun(s, n).value.me.pc.Calling?
    decreases |s.net.log| - s.me.pos, s.me.pc == LoopHead
  {
    var s1 := Apply(s, OwnStep(s.me.pc));
    CallerStepKeeps(s, OwnStep(s.me.pc));
    if s.me.pc == LoopHead {
      var m := ReachesTheRequest(s1);
      n := m + 1;
    } else if Waiting(s1) {
      var m := ReachesTheRequest(s1);
      n := m + 1;
    } else if s1.me.pc == SawNewPeer {
      var s2 := Apply(s1, LookupAfterEvent);
      assert OwnRun(s2, 0) == Some(s2);
      assert OwnRun(s1, 1) == Some(s2);
      n := 2;
    } else {
      var s2 := Apply(s1, Resubscribe);
      var s3 := Apply(s2, LookupAfterLag);
      assert OwnRun(s3, 0) == Some(s3);
      assert OwnRun(s2, 1) == Some(s3);
      assert OwnRun(s1, 2) == Some(s3);
      n := 3;
    }
  }

  // ---------------------------------------------------------------------------
  // The caller's deadline
  // ---------------------------------------------------------------------------

  /** The request is over by the deadline the caller asked for, unless it was already past. */
  predicate DeadlineKept(me: Caller) {
    me.timeout.Some? && me.requestTimeout.Some? ==>
      me.calledAt + me.requestTimeout.value <= me.start + me.timeout.value || me.requestTimeout.value == 0
  }

  /** A request made on the target's event keeps the deadline.  One made after lagging, or at
      once, keeps it exactly when no time had passed or there was none to spend: the time already
      waited is not deducted on those paths. */
  lemma DeadlineExact(s: State, schedule: seq<Step>, s': State)
    requires Initial(s) && Run(s, schedule) == Some(s') && s'.me.pc.Calling? && s'.me.timeout.Some?
    ensures DeadlineKept(s'.me) <==>
      s'.me.pc.route == AfterEvent || s'.me.calledAt == s'.me.start || s'.me.timeout.value == 0
  {
    RunKeeps(s, schedule, s');
  }

  /** The time at which the n-th step of a run was taken. */
  function TimeOf(s: State, schedule: seq<Step>, n: nat): nat
    requires n < |schedule| && Run(s, schedule[..n]).Some?
  {
    Run(s, schedule[..n]).value.net.now
  }

  /** What the times of a caller are: the wait starts with the subscription, the sleep with the first
      lookup that finds nobody, and the request is made with the step that makes it. */
  lemma {:induction false} TimesExact(s: State, schedule: seq<Step>, s': State, n: nat)
    requires Initial(s) && Run(s, schedule) == Some(s') && n < |schedule| && Run(s, schedule[..n]).Some?
    ensures schedule[n] == Subscribe && !s'.me.pc.Failed? ==> s'.me.start == TimeOf(s, schedule, n)
    ensures schedule[n] == FirstLookup && Asleep(s'.me.pc) ==> s'.me.sleepFrom == TimeOf(s, schedule, n)
    ensures n == |schedule| - 1 && s'.me.pc.Calling? && !Run(s, schedule[..n]).value.me.pc.Calling? ==>
      s'.me.calledAt == TimeOf(s, schedule, n)
    decreases |schedule|
  {
    var m := |schedule| - 1;
    var before := Run(s, schedule[..m]).value;
    RunKeeps(s, schedule[..m], before);
    if n < m {
      assert schedule[..m][..n] == schedule[..n];
      TimesExact(s, schedule[..m], before, n);
      SubscribedOnce(s, schedule[..m], before, n);
    }
  }

  /** A caller subscribes once and looks up first once. */
  lemma {:induction false} SubscribedOnce(s: State, schedule: seq<Step>, s': State, n: nat)
    requires Initial(s) && Run(s, schedule) == Some(s') && n < |schedule|
    ensures schedule[n] == Subscribe ==> s'.me.pc != Start
    ensures schedule[n] == FirstLookup ==> s'.me.pc != Start && s'.me.pc != Subscribed
    decreases |schedule|
  {
    var m := |schedule| - 1;
    if n < m {
      SubscribedOnce(s, schedule[..m], Run(s, schedule[..m]).value, n);
    }
  }

  /** What the request is given: on the target's event, exactly the time left to the deadline or
      none; on the other two paths the whole timeout. */
  lemma RequestTimeout(s: State, schedule: seq<Step>, s': State)
    requires Initial(s) && Run(s, schedule) == Some(s') && s'.me.pc.Calling?
    ensures s'.me.timeout == None ==> s'.me.requestTimeout == None
    ensures s'.me.timeout.Some? && s'.me.pc.route != AfterEvent ==> s'.me.requestTimeout == s'.me.timeout
    ensures s'.me.timeout.Some? && s'.me.pc.route == AfterEvent ==>
      && s'.me.requestTimeout.Some?
      && (s'.me.calledAt - s'.me.start <= s'.me.timeout.value ==>
          s'.me.calledAt + s'.me.requestTimeout.value == s'.me.start + s'.me.timeout.value)
      && (s'.me.calledAt - s'.me.start > s'.me.timeout.value ==> s'.me.requestTimeout.value == 0)
  {
    RunKeeps(s, schedule, s');
  }

  // ---------------------------------------------------------------------------
  // Failures
  // ---------------------------------------------------------------------------

  /** The step a caller fails with: a peer that is not known, a sleep that is over, or a network that
      is closed with no event left. */
  ghost predicate FailsBy(s: State, step: Step, reason: Failure) {
    match reason
    case UnknownPeer => s.me.pc == LoopHead && step == CheckKnown && s.me.target !in s.net.known
    case TimedOut =>
      s.me.pc == Parked && step == Expire && s.me.timeout.Some? && s.net.now >= s.me.sleepFrom + s.me.timeout.value
    case NetworkClosed =>
      s.net.closed && ((s.me.pc == Start && step == Subscribe) || (s.me.pc == Parked && step == Receive && s.me.pos == |s.net.log|))
  }

  ghost predicate FailedAt(s: State, schedule: seq<Step>, n: nat, reason: Failure) {
    n < |schedule| && Run(s, schedule[..n]).Some? && FailsBy(Run(s, schedule[..n]).value, schedule[n], reason)
  }

  lemma StepFails(s: State, step: Step, reason: Failure)
    requires Inv(s) && Enabled(s, step) && s.me.pc != Failed(reason)
    ensures Apply(s, step).me.pc == Failed(reason) <==> FailsBy(s, step, reason)
  {
  }

  lemma FailedInFront(s: State, schedule: seq<Step>, front: seq<Step>, reason: Failure)
    requires schedule != [] && front == schedule[..|schedule| - 1]
    ensures (exists n :: FailedAt(s, schedule, n, reason)) <==>
      (exists n :: FailedAt(s, front, n, reason)) || FailedAt(s, schedule, |front|, reason)
  {
    forall n | 0 <= n < |front| ensures FailedAt(s, schedule, n, reason) <==> FailedAt(s, front, n, reason) {
      assert schedule[..n] == front[..n];
    }
  }

  /** A run has failed for a reason exactly when the caller took such a step in it: an unknown peer,
      an expired sleep and a closed network each give their own failure, and a failure stays. */
  lemma {:induction false} FailureIff(s: State, schedule: seq<Step>, s': State, reason: Failure)
    requires Initial(s) && Run(s, schedule) == Some(s')
    ensures s'.me.pc == Failed(reason) <==> exists n :: FailedAt(s, schedule, n, reason)
    decreases |schedule|
  {
    if schedule != [] {
      var front := schedule[..|schedule| - 1];
      var before := Run(s, front).value;
      FailureIff(s, front, before, reason);
      FailedInFront(s, schedule, front, reason);
      RunKeeps(s, front, before);
      if before.me.pc != Failed(reason) {
        StepFails(before, schedule[|front|], reason);
      }
    }
  }

  /** A parked caller with a timeout can always be timed out by waiting. */
  lemma WaitingTimesOut(s: State, schedule: seq<Step>, s': State) returns (schedule': seq<Step>, s'': State)
    requires Initial(s) && Run(s, schedule) == Some(s') && s'.me.pc == Parked && s'.me.timeout.Some?
    ensures Run(s, schedule') == Some(s'') && s''.me.pc == Failed(TimedOut)
    ensures s''.net.now <= s'.net.now + s'.me.timeout.value
  {
    RunKeeps(s, schedule, s');
    schedule', s'' := RunTicks(s, schedule, s', s'.me.timeout.value);
    schedule', s'' := RunOn(s, schedule', s'', Expire);
  }

  lemma RunOn(s: State, schedule: seq<Step>, s': State, step: Step) returns (schedule': seq<Step>, s'': State)
    requires Run(s, schedule) == Some(s') && Enabled(s', step)
    ensures schedule' == schedule + [step] && s'' == Apply(s', step) && Run(s, schedule') == Some(s'')
  {
    schedule', s'' := schedule + [step], Apply(s', step);
    assert schedule'[..|schedule'| - 1] == schedule;
  }

  /** Time passes. */
  lemma {:induction false} RunTicks(s: State, schedule: seq<Step>, s': State, ticks: nat) returns (schedule': seq<Step>, s'': State)
    requires Run(s, schedule) == Some(s')
    ensures Run(s, schedule') == Some(s'') && s'' == State(s'.net.(now := s'.net.now + ticks), s'.me)
  {
    schedule', s'' := schedule, s';
    if ticks > 0 {
      schedule', s'' := RunTicks(s, schedule, s', ticks - 1);
      schedule', s'' := RunOn(s, schedule', s'', Tick);
    }
  }

  /** A network that keeps one event, with the target 0 known and nobody connected. */
  function QuietNetwork(timeout: nat): State {
    State(Network([], 1, {}, {}, {0}, false, 0), Caller(0, Some(timeout), Start, 0, 0, 0, None, 0, 0))
  }

  /** The caller parks, and another peer comes and goes: two events, one more than are kept. */
  lemma RunUntilLag(timeout: nat) returns (schedule: seq<Step>, s: State)
    ensures Run(QuietNetwork(timeout), schedule) == Some(s)
    ensures s.net == Network([NewPeer(1), LostPeer(1)], 1, {}, {}, {0}, false, 0)
    ensures s.me == Caller(0, Some(timeout), Parked, 0, 0, 0, None, 0, 0)
  {
    var s0 := QuietNetwork(timeout);
    schedule, s := [], s0;
    schedule, s := RunOn(s0, schedule, s, Subscribe);
    schedule, s := RunOn(s0, schedule, s, FirstLookup);
    schedule, s := RunOn(s0, schedule, s, CheckKnown);
    schedule, s := RunOn(s0, schedule, s, Connect(1));
    schedule, s := RunOn(s0, schedule, s, Announce(1));
    schedule, s := RunOn(s0, schedule, s, Disconnect(1));
    assert s.net.log == [NewPeer(1)] + [LostPeer(1)];
  }

  /** And the deadline really is missed, by any amount: for every timeout and every delay there is a
      run that lags, resubscribes, and then gives the request the whole timeout again. */
  lemma DeadlineMissed(timeout: nat, delay: nat) returns (schedule: seq<Step>, s: State)
    requires timeout > 0 && delay > 0
    ensures Initial(QuietNetwork(timeout)) && Run(QuietNetwork(timeout), schedule) == Some(s)
    ensures s.me.pc == Calling(AfterLag) && s.me.timeout == Some(timeout) && s.me.requestTimeout == Some(timeout)
    ensures s.me.calledAt + timeout == s.me.start + timeout + delay && !DeadlineKept(s.me)
  {
    var s0 := QuietNetwork(timeout);
    schedule, s := RunUntilLag(timeout);
    schedule, s := RunTicks(s0, schedule, s, delay);
    schedule, s := RunOn(s0, schedule, s, Connect(0));
    schedule, s := RunOn(s0, schedule, s, Receive);
    schedule, s := RunOn(s0, schedule, s, Resubscribe);
    schedule, s := RunOn(s0, schedule, s, LookupAfterLag);
  }
}
