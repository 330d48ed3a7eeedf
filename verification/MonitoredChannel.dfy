/** The gauges around a bounded queue with reservations.  Queue operations and gauge updates
    are separate atomic steps, interleaved between any number of tasks. */
module MonitoredChannel {
  import opened Wrappers

  /** A send that has enqueued its value but not finished its two increments. */
  datatype SendPhase = Enqueued | Counted

  /** A permit, from the reservation to one of its two ends. */
  datatype PermitPhase = Acquired | Live | Pushed | Finished | Uncounted | Released

  datatype ReceiverPhase = Waiting | Popped | Decremented | Dropped

  /** Gauge updates made on behalf of one permit at its end. */
  datatype Tally = Tally(sentIncrements: nat, inflightDecrements: nat)

  datatype Channel<T> = Channel(
    capacity: Option<nat>,
    queue: seq<T>,
    closed: bool,
    sends: map<nat, SendPhase>,
    permits: map<nat, PermitPhase>,
    receiver: ReceiverPhase,
    // gauges
    inflight: int,
    sent: int,
    received: int,
    // history
    enqueued: seq<T>,
    delivered: seq<T>,
    lost: nat,
    tallies: map<nat, Tally>)

  datatype Step<T> =
    | SendPush(id: nat, x: T)
    | SendCountInflight(id: nat)
    | SendCountSent(id: nat)
    | Reserve(id: nat)
    | ReserveCount(id: nat)
    | PermitPush(id: nat, x: T)
    | PermitCountSent(id: nat)
    | PermitUncount(id: nat)
    | PermitRelease(id: nat)
    | Pop
    | ReceiveUncount
    | ReceiveCount
    | Close
    | DropReceiver

  /** Operations that are at a given point. */
  function AtPhase<P(==)>(m: map<nat, P>, p: P): set<nat> {
    set k | k in m && m[k] == p
  }

  function CountSends(m: map<nat, SendPhase>, p: SendPhase): nat {
    |AtPhase(m, p)|
  }

  function CountPermits(m: map<nat, PermitPhase>, p: PermitPhase): nat {
    |AtPhase(m, p)|
  }

  /** Slots of the queue taken by reservations. */
  function Held(m: map<nat, PermitPhase>): nat {
    CountPermits(m, Acquired) + CountPermits(m, Live) + CountPermits(m, Uncounted)
  }

  predicate HasRoom<T>(s: Channel<T>) {
    s.capacity.Some? ==> |s.queue| + Held(s.permits) < s.capacity.value
  }

  predicate Enabled<T>(s: Channel<T>, step: Step<T>) {
    match step
    case SendPush(id, _) => !s.closed && HasRoom(s) && id !in s.sends
    case SendCountInflight(id) => id in s.sends && s.sends[id] == Enqueued
    case SendCountSent(id) => id in s.sends && s.sends[id] == Counted
    case Reserve(id) => !s.closed && HasRoom(s) && id !in s.permits
    case ReserveCount(id) => id in s.permits && s.permits[id] == Acquired
    case PermitPush(id, _) => id in s.permits && s.permits[id] == Live
    case PermitCountSent(id) => id in s.permits && s.permits[id] == Pushed
    case PermitUncount(id) => id in s.permits && s.permits[id] == Live
    case PermitRelease(id) => id in s.permits && s.permits[id] == Uncounted
    case Pop => s.receiver == Waiting && |s.queue| > 0
    case ReceiveUncount => s.receiver == Popped
    case ReceiveCount => s.receiver == Decremented
    case Close => true
    case DropReceiver => s.receiver == Waiting
  }

  function Tallied(m: map<nat, Tally>, id: nat): Tally {
    if id in m then m[id] else Tally(0, 0)
  }

  function Apply<T>(s: Channel<T>, step: Step<T>): Channel<T>
    requires Enabled(s, step)
  {
    match step
    case SendPush(id, x) =>
      s.(queue := s.queue + [x], enqueued := s.enqueued + [x], sends := s.sends[id := Enqueued])
    case SendCountInflight(id) => s.(inflight := s.inflight + 1, sends := s.sends[id := Counted])
    case SendCountSent(id) => s.(sent := s.sent + 1, sends := s.sends - {id})
    case Reserve(id) => s.(permits := s.permits[id := Acquired], tallies := s.tallies[id := Tally(0, 0)])
    case ReserveCount(id) => s.(inflight := s.inflight + 1, permits := s.permits[id := Live])
    case PermitPush(id, x) =>
      if s.receiver == Dropped then
        s.(enqueued := s.enqueued + [x], lost := s.lost + 1, permits := s.permits[id := Pushed])
      else
        s.(queue := s.queue + [x], enqueued := s.enqueued + [x], permits := s.permits[id := Pushed])
    case PermitCountSent(id) =>
      var t := Tallied(s.tallies, id);
      s.(sent := s.sent + 1, permits := s.permits[id := Finished],
         tallies := s.tallies[id := Tally(t.sentIncrements + 1, t.inflightDecrements)])
    // Dropping an unused permit runs the gauge update before the slot is given back.
    case PermitUncount(id) =>
      var t := Tallied(s.tallies, id);
      s.(inflight := s.inflight - 1, permits := s.permits[id := Uncounted],
         tallies := s.tallies[id := Tally(t.sentIncrements, t.inflightDecrements + 1)])
    case PermitRelease(id) => s.(permits := s.permits[id := Released])
    case Pop => s.(queue := s.queue[1..], delivered := s.delivered + [s.queue[0]], receiver := Popped)
    case ReceiveUncount => s.(inflight := s.inflight - 1, receiver := Decremented)
    case ReceiveCount => s.(received := s.received + 1, receiver := Waiting)
    case Close => s.(closed := true)
    case DropReceiver => s.(closed := true, receiver := Dropped, queue := [], lost := s.lost + |s.queue|)
  }

  function Fresh<T>(capacity: Option<nat>): Channel<T> {
    Channel(capacity, [], false, map[], map[], Waiting, 0, 0, 0, [], [], 0, map[])
  }

  /** The state after a schedule, if every step was enabled in its turn. */
  function Run<T>(capacity: Option<nat>, schedule: seq<Step<T>>): Option<Channel<T>> {
    if schedule == [] then Some(Fresh(capacity))
    else
      var before := Run(capacity, schedule[..|schedule| - 1]);
      var step := schedule[|schedule| - 1];
      if before.Some? && Enabled(before.value, step) then Some(Apply(before.value, step)) else None
  }

  ghost predicate Reachable<T>(capacity: Option<nat>, schedule: seq<Step<T>>, s: Channel<T>) {
    Run(capacity, schedule) == Some(s)
  }

  // ---------------------------------------------------------------------------
  // Counting
  // ---------------------------------------------------------------------------

  lemma PhaseRemove<P>(m: map<nat, P>, id: nat, p: P)
    ensures |AtPhase(m - {id}, p)| == |AtPhase(m, p)| - (if id in m && m[id] == p then 1 else 0)
  {
    var others := AtPhase(m - {id}, p);
    if id in m && m[id] == p {
      assert AtPhase(m, p) == others + {id};
    } else {
      assert AtPhase(m, p) == others;
    }
  }

  lemma PhaseSet<P>(m: map<nat, P>, id: nat, a: P, p: P)
    ensures |AtPhase(m[id := a], p)| ==
      |AtPhase(m, p)| - (if id in m && m[id] == p then 1 else 0) + (if a == p then 1 else 0)
  {
    PhaseRemove(m, id, p);
    PhaseRemove(m[id := a], id, p);
    assert m[id := a] - {id} == m - {id};
  }

  // ---------------------------------------------------------------------------
  // What every step keeps
  // ---------------------------------------------------------------------------

  /** Each gauge, exactly: what the queue history says, corrected by the updates that tasks have
      started and not finished. */
  ghost predicate GaugesExact<T>(s: Channel<T>) {
    && s.inflight == |s.enqueued| - |s.delivered| + Held(s.permits)
         - CountSends(s.sends, Enqueued) - CountPermits(s.permits, Acquired) - CountPermits(s.permits, Uncounted)
         + (if s.receiver == Popped then 1 else 0)
    && s.sent == |s.enqueued| - CountSends(s.sends, Enqueued) - CountSends(s.sends, Counted) - CountPermits(s.permits, Pushed)
    && s.received == |s.delivered| - (if s.receiver == Popped || s.receiver == Decremented then 1 else 0)
  }

  /** Values come out in the order they went in, until the receiver is gone. */
  ghost predicate InOrder<T>(s: Channel<T>) {
    && |s.enqueued| == |s.delivered| + |s.queue| + s.lost
    && s.delivered <= s.enqueued
    && (if s.receiver == Dropped then s.queue == [] && s.closed
        else s.lost == 0 && s.enqueued == s.delivered + s.queue)
  }

  ghost predicate WithinCapacity<T>(s: Channel<T>) {
    s.capacity.Some? ==> |s.queue| + Held(s.permits) <= s.capacity.value
  }

  function TallyOf(p: PermitPhase): Tally {
    match p
    case Finished => Tally(1, 0)
    case Uncounted => Tally(0, 1)
    case Released => Tally(0, 1)
    case _ => Tally(0, 0)
  }

  ghost predicate TalliesRight<T>(s: Channel<T>) {
    forall id :: id in s.permits ==> id in s.tallies && s.tallies[id] == TallyOf(s.permits[id])
  }

  ghost predicate Inv<T>(s: Channel<T>) {
    GaugesExact(s) && InOrder(s) && WithinCapacity(s) && TalliesRight(s)
  }

  lemma GaugesStep<T>(s: Channel<T>, step: Step<T>)
    requires GaugesExact(s) && Enabled(s, step)
    ensures GaugesExact(Apply(s, step))
  {
    CountsStep(s, step);
  }

  /** How a step moves every count that the gauges depend on. */
  lemma CountsStep<T>(s: Channel<T>, step: Step<T>)
    requires Enabled(s, step)
    ensures var s' := Apply(s, step);
      && CountSends(s'.sends, Enqueued) == CountSends(s.sends, Enqueued) +
           (if step.SendPush? then 1 else if step.SendCountInflight? then -1 else 0)
      && CountSends(s'.sends, Counted) == CountSends(s.sends, Counted) +
           (if step.SendCountInflight? then 1 else if step.SendCountSent? then -1 else 0)
      && CountPermits(s'.permits, Acquired) == CountPermits(s.permits, Acquired) +
           (if step.Reserve? then 1 else if step.ReserveCount? then -1 else 0)
      && CountPermits(s'.permits, Live) == CountPermits(s.permits, Live) +
           (if step.ReserveCount? then 1 else if step.PermitPush? || step.PermitUncount? then -1 else 0)
      && CountPermits(s'.permits, Pushed) == CountPermits(s.permits, Pushed) +
           (if step.PermitPush? then 1 else if step.PermitCountSent? then -1 else 0)
      && CountPermits(s'.permits, Uncounted) == CountPermits(s.permits, Uncounted) +
           (if step.PermitUncount? then 1 else if step.PermitRelease? then -1 else 0)
  {
    match step
    case SendPush(id, _) => forall p { PhaseSet(s.sends, id, Enqueued, p); }
    case SendCountInflight(id) => forall p { PhaseSet(s.sends, id, Counted, p); }
    case SendCountSent(id) => forall p { PhaseRemove(s.sends, id, p); }
    case Reserve(id) => forall p { PhaseSet(s.permits, id, Acquired, p); }
    case ReserveCount(id) => forall p { PhaseSet(s.permits, id, Live, p); }
    case PermitPush(id, _) => forall p { PhaseSet(s.permits, id, Pushed, p); }
    case PermitCountSent(id) => forall p { PhaseSet(s.permits, id, Finished, p); }
    case PermitUncount(id) => forall p { PhaseSet(s.permits, id, Uncounted, p); }
    case PermitRelease(id) => forall p { PhaseSet(s.permits, id, Released, p); }
    case _ =>
  }

  lemma OrderStep<T>(s: Channel<T>, step: Step<T>)
    requires InOrder(s) && Enabled(s, step)
    ensures InOrder(Apply(s, step))
  {
    if step.Pop? {
      assert s.queue == [s.queue[0]] + s.queue[1..];
    }
  }

  lemma CapacityStep<T>(s: Channel<T>, step: Step<T>)
    requires WithinCapacity(s) && Enabled(s, step)
    ensures WithinCapacity(Apply(s, step))
  {
    CountsStep(s, step);
  }

  lemma {:induction false} ReachableInv<T>(capacity: Option<nat>, schedule: seq<Step<T>>, s: Channel<T>)
    requires Reachable(capacity, schedule, s)
    ensures Inv(s)
    decreases |schedule|
  {
    if schedule == [] {
      FreshInv<T>(capacity);
    } else {
      var n := |schedule| - 1;
      var s0 := Run(capacity, schedule[..n]).value;
      ReachableInv(capacity, schedule[..n], s0);
      GaugesStep(s0, schedule[n]);
      OrderStep(s0, schedule[n]);
      CapacityStep(s0, schedule[n]);
      TallyStep(s0, schedule[n]);
    }
  }

  lemma TallyStep<T>(s: Channel<T>, step: Step<T>)
    requires TalliesRight(s) && Enabled(s, step)
    ensures TalliesRight(Apply(s, step))
  {
  }

  lemma FreshInv<T>(capacity: Option<nat>)
    ensures Inv(Fresh<T>(capacity))
  {
    var m: map<nat, SendPhase> := map[];
    var n: map<nat, PermitPhase> := map[];
    assert forall p :: AtPhase(m, p) == {};
    assert forall p :: AtPhase(n, p) == {};
  }

  // ---------------------------------------------------------------------------
  // What the gauges mean, over every interleaving
  // ---------------------------------------------------------------------------

  /** Updates a task owes: increments of `inflight` and `sent`, the decrement and increment of a
      receive, and slots about to be given back. */
  ghost function Owed<T>(s: Channel<T>): int {
    CountSends(s.sends, Counted) + CountPermits(s.permits, Pushed) - (if s.receiver == Decremented then 1 else 0)
  }

  /** `inflight + received = sent + live permits`, up to exactly the updates still owed; and the
      gauge falls below zero by no more than the senders between enqueue and increment. */
  lemma Conservation<T>(capacity: Option<nat>, schedule: seq<Step<T>>, s: Channel<T>)
    requires Reachable(capacity, schedule, s)
    ensures s.inflight + s.received == s.sent + CountPermits(s.permits, Live) + Owed(s)
    ensures s.inflight >= 0 - CountSends(s.sends, Enqueued)
    ensures s.inflight <= |s.queue| + s.lost + CountPermits(s.permits, Live) + 1
  {
    ReachableInv(capacity, schedule, s);
  }

  /** With no operation under way the gauges say what is in the channel. */
  ghost predicate Quiet<T>(s: Channel<T>) {
    && s.sends == map[]
    && (s.receiver == Waiting || s.receiver == Dropped)
    && forall id :: id in s.permits ==> s.permits[id] in {Live, Finished, Released}
  }

  lemma QuietGauges<T>(capacity: Option<nat>, schedule: seq<Step<T>>, s: Channel<T>)
    requires Reachable(capacity, schedule, s) && Quiet(s)
    ensures s.inflight == |s.queue| + s.lost + CountPermits(s.permits, Live)
    ensures s.sent == |s.enqueued| && s.received == |s.delivered|
    ensures s.sent - s.received == |s.queue| + s.lost
  {
    ReachableInv(capacity, schedule, s);
    assert forall p :: AtPhase(s.sends, p) == {};
    assert AtPhase(s.permits, Acquired) == AtPhase(s.permits, Pushed) == AtPhase(s.permits, Uncounted) == {};
  }

  /** A permit that is over ended in one increment of `sent` or one decrement of `inflight`, never
      both and never neither. */
  lemma PermitEndsOnce<T>(capacity: Option<nat>, schedule: seq<Step<T>>, s: Channel<T>, id: nat)
    requires Reachable(capacity, schedule, s) && id in s.permits
    ensures id in s.tallies
    ensures s.permits[id] in {Finished, Released} ==>
      s.tallies[id].sentIncrements + s.tallies[id].inflightDecrements == 1 &&
      (s.tallies[id].sentIncrements == 1 <==> s.permits[id] == Finished)
    ensures s.permits[id] in {Acquired, Live, Pushed} ==> s.tallies[id] == Tally(0, 0)
  {
    ReachableInv(capacity, schedule, s);
  }

  /** What was received is a prefix of what was sent, and the bound holds with reservations counted. */
  lemma DeliveryInOrder<T>(capacity: Option<nat>, schedule: seq<Step<T>>, s: Channel<T>)
    requires Reachable(capacity, schedule, s)
    ensures s.delivered <= s.enqueued && |s.enqueued| == |s.delivered| + |s.queue| + s.lost
    ensures s.receiver != Dropped ==> s.enqueued == s.delivered + s.queue
    ensures s.capacity.Some? ==> |s.queue| + Held(s.permits) <= s.capacity.value
  {
    ReachableInv(capacity, schedule, s);
  }

  // ---------------------------------------------------------------------------
  // What can always happen
  // ---------------------------------------------------------------------------

  /** A slot is taken by every reservation that has been neither used nor given back. */
  lemma HeldExact(m: map<nat, PermitPhase>)
    ensures Held(m) == |set id | id in m && (m[id] == Acquired || m[id] == Live || m[id] == Uncounted)|
  {
    var a, b, c := AtPhase(m, Acquired), AtPhase(m, Live), AtPhase(m, Uncounted);
    assert (set id | id in m && (m[id] == Acquired || m[id] == Live || m[id] == Uncounted)) == a + b + c;
  }

  /** An open channel takes a value, or a reservation, exactly while fewer slots are taken than there
      are; and a permit can send whatever happened since. */
  lemma AcceptsIff<T>(s: Channel<T>, id: nat, x: T)
    ensures id !in s.sends ==> (Enabled(s, SendPush(id, x)) <==>
      !s.closed && (s.capacity == None || |s.queue| + Held(s.permits) < s.capacity.value))
    ensures id !in s.permits ==> (Enabled(s, Reserve(id)) <==>
      !s.closed && (s.capacity == None || |s.queue| + Held(s.permits) < s.capacity.value))
    ensures id in s.permits && s.permits[id] == Live ==> Enabled(s, PermitPush(id, x)) && Enabled(s, PermitUncount(id))
  {
  }

  lemma Extended<T>(capacity: Option<nat>, schedule: seq<Step<T>>, s: Channel<T>, step: Step<T>)
    requires Reachable(capacity, schedule, s) && Enabled(s, step)
    ensures Reachable(capacity, schedule + [step], Apply(s, step))
  {
    assert (schedule + [step])[..|schedule|] == schedule;
  }

  /** Updates left to do. */
  function Unfinished<T>(s: Channel<T>): nat {
    2 * CountSends(s.sends, Enqueued) + CountSends(s.sends, Counted) + CountPermits(s.permits, Acquired) +
    CountPermits(s.permits, Pushed) + CountPermits(s.permits, Uncounted) +
    (if s.receiver == Popped then 2 else if s.receiver == Decremented then 1 else 0)
  }

  /** A task in the middle of an operation can go on. */
  lemma NextUpdate<T>(s: Channel<T>) returns (step: Step<T>)
    requires !Quiet(s)
    ensures Enabled(s, step) && Unfinished(Apply(s, step)) < Unfinished(s)
    ensures var s' := Apply(s, step);
      s'.queue == s.queue && s'.enqueued == s.enqueued && s'.delivered == s.delivered &&
      (s.receiver == Dropped <==> s'.receiver == Dropped)
  {
    if s.receiver == Popped {
      step := ReceiveUncount;
    } else if s.receiver == Decremented {
      step := ReceiveCount;
    } else if s.sends != map[] {
      var id :| id in s.sends;
      step := if s.sends[id] == Enqueued then SendCountInflight(id) else SendCountSent(id);
    } else {
      var id :| id in s.permits && s.permits[id] !in {Live, Finished, Released};
      step := if s.permits[id] == Acquired then ReserveCount(id) else if s.permits[id] == Pushed then PermitCountSent(id) else PermitRelease(id);
    }
    CountsStep(s, step);
  }

  /** From every reachable state the tasks can finish what they are at, without touching the queue. */
  lemma {:induction false} QuietReachable<T>(capacity: Option<nat>, schedule: seq<Step<T>>, s: Channel<T>)
      returns (schedule': seq<Step<T>>, s': Channel<T>)
    requires Reachable(capacity, schedule, s)
    ensures Reachable(capacity, schedule', s') && Quiet(s') && s'.queue == s.queue && s'.enqueued == s.enqueued && s'.delivered == s.delivered
    ensures s.receiver == Dropped <==> s'.receiver == Dropped
    decreases Unfinished(s)
  {
    if Quiet(s) {
      schedule', s' := schedule, s;
    } else {
      var step := NextUpdate(s);
      Extended(capacity, schedule, s, step);
      schedule', s' := QuietReachable(capacity, schedule + [step], Apply(s, step));
    }
  }

  /** And as long as the receiver is there, everything sent can be received. */
  lemma {:induction false} EverythingArrives<T>(capacity: Option<nat>, schedule: seq<Step<T>>, s: Channel<T>)
      returns (schedule': seq<Step<T>>, s': Channel<T>)
    requires Reachable(capacity, schedule, s) && s.receiver != Dropped
    ensures Reachable(capacity, schedule', s') && s'.delivered == s.enqueued == s'.enqueued && s'.queue == [] && Quiet(s')
    decreases |s.queue|
  {
    schedule', s' := QuietReachable(capacity, schedule, s);
    ReachableInv(capacity, schedule', s');
    if s'.queue != [] {
      Extended(capacity, schedule', s', Pop);
      schedule', s' := EverythingArrives(capacity, schedule' + [Pop], Apply(s', Pop));
    }
  }
}
