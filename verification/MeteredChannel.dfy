/** The older wrapper, with one gauge and an optional total, and its equivalence with the
    monitored one. */
module MeteredChannel {
  import opened Wrappers
  import opened MonitoredChannel

  datatype MeteredPermit = Reserved | Held | Used | Discounted | Returned

  datatype Metered<T> = Metered(
    capacity: Option<nat>,
    queue: seq<T>,
    closed: bool,
    uncounted: set<nat>,
    permits: map<nat, MeteredPermit>,
    receiver: ReceiverPhase,
    gauge: int,
    total: int)

  datatype MeteredStep<T> =
    | Push(id: nat, x: T)
    | Count(id: nat)
    | Acquire(id: nat)
    | CountPermit(id: nat)
    | UsePermit(id: nat, x: T)
    | DiscountPermit(id: nat)
    | ReturnPermit(id: nat)
    | Take
    | TakeDiscount
    | TakeTotal
    | Shut
    | Abandon

  function Slots(m: map<nat, MeteredPermit>): nat {
    |AtPhase(m, Reserved)| + |AtPhase(m, Held)| + |AtPhase(m, Discounted)|
  }

  predicate Room<T>(s: Metered<T>) {
    s.capacity.Some? ==> |s.queue| + Slots(s.permits) < s.capacity.value
  }

  predicate CanStep<T>(s: Metered<T>, step: MeteredStep<T>) {
    match step
    case Push(id, _) => !s.closed && Room(s) && id !in s.uncounted
    case Count(id) => id in s.uncounted
    case Acquire(id) => !s.closed && Room(s) && id !in s.permits
    case CountPermit(id) => id in s.permits && s.permits[id] == Reserved
    case UsePermit(id, _) => id in s.permits && s.permits[id] == Held
    case DiscountPermit(id) => id in s.permits && s.permits[id] == Held
    case ReturnPermit(id) => id in s.permits && s.permits[id] == Discounted
    case Take => s.receiver == Waiting && |s.queue| > 0
    case TakeDiscount => s.receiver == Popped
    case TakeTotal => s.receiver == Decremented
    case Shut => true
    case Abandon => s.receiver == Waiting
  }

  function Do<T>(s: Metered<T>, step: MeteredStep<T>): Metered<T>
    requires CanStep(s, step)
  {
    match step
    case Push(id, x) => s.(queue := s.queue + [x], uncounted := s.uncounted + {id})
    case Count(id) => s.(gauge := s.gauge + 1, uncounted := s.uncounted - {id})
    case Acquire(id) => s.(permits := s.permits[id := Reserved])
    case CountPermit(id) => s.(gauge := s.gauge + 1, permits := s.permits[id := Held])
    case UsePermit(id, x) =>
      s.(queue := if s.receiver == Dropped then s.queue else s.queue + [x], permits := s.permits[id := Used])
    case DiscountPermit(id) => s.(gauge := s.gauge - 1, permits := s.permits[id := Discounted])
    case ReturnPermit(id) => s.(permits := s.permits[id := Returned])
    case Take => s.(queue := s.queue[1..], receiver := Popped)
    case TakeDiscount => s.(gauge := s.gauge - 1, receiver := Decremented)
    case TakeTotal => s.(total := s.total + 1, receiver := Waiting)
    case Shut => s.(closed := true)
    case Abandon => s.(closed := true, receiver := Dropped, queue := [])
  }

  function New<T>(capacity: Option<nat>): Metered<T> {
    Metered(capacity, [], false, {}, map[], Waiting, 0, 0)
  }

  // ---------------------------------------------------------------------------
  // The correspondence
  // ---------------------------------------------------------------------------

  function PermitView(p: PermitPhase): MeteredPermit {
    match p
    case Acquired => Reserved
    case Live => Held
    case Pushed => Used
    case Finished => Used
    case Uncounted => Discounted
    case Released => Returned
  }

  function ViewPermits(m: map<nat, PermitPhase>): map<nat, MeteredPermit> {
    map id | id in m :: PermitView(m[id])
  }

  /** A monitored channel seen through the metered one: the `sent` gauge is forgotten. */
  function View<T>(s: Channel<T>): Metered<T> {
    Metered(s.capacity, s.queue, s.closed, AtPhase(s.sends, Enqueued),
            ViewPermits(s.permits), s.receiver, s.inflight, s.received)
  }

  /** Increments of `sent` have no counterpart. */
  predicate Silent<T>(step: Step<T>) {
    step.SendCountSent? || step.PermitCountSent?
  }

  function StepView<T>(step: Step<T>): MeteredStep<T>
    requires !Silent(step)
  {
    match step
    case SendPush(id, x) => Push(id, x)
    case SendCountInflight(id) => Count(id)
    case Reserve(id) => Acquire(id)
    case ReserveCount(id) => CountPermit(id)
    case PermitPush(id, x) => UsePermit(id, x)
    case PermitUncount(id) => DiscountPermit(id)
    case PermitRelease(id) => ReturnPermit(id)
    case Pop => Take
    case ReceiveUncount => TakeDiscount
    case ReceiveCount => TakeTotal
    case Close => Shut
    case DropReceiver => Abandon
  }

  function StepOf<T>(m: MeteredStep<T>): (step: Step<T>)
    ensures !Silent(step) && StepView(step) == m
  {
    match m
    case Push(id, x) => SendPush(id, x)
    case Count(id) => SendCountInflight(id)
    case Acquire(id) => Reserve(id)
    case CountPermit(id) => ReserveCount(id)
    case UsePermit(id, x) => PermitPush(id, x)
    case DiscountPermit(id) => PermitUncount(id)
    case ReturnPermit(id) => PermitRelease(id)
    case Take => Pop
    case TakeDiscount => ReceiveUncount
    case TakeTotal => ReceiveCount
    case Shut => Close
    case Abandon => DropReceiver
  }

  lemma SlotsView<T>(s: Channel<T>)
    ensures Slots(View(s).permits) == MonitoredChannel.Held(s.permits)
  {
    var v := View(s).permits;
    assert AtPhase(v, Reserved) == AtPhase(s.permits, Acquired);
    assert AtPhase(v, MeteredPermit.Held) == AtPhase(s.permits, Live);
    assert AtPhase(v, Discounted) == AtPhase(s.permits, Uncounted);
  }

  lemma PermitsView(m: map<nat, PermitPhase>, id: nat, p: PermitPhase)
    ensures ViewPermits(m[id := p]) == ViewPermits(m)[id := PermitView(p)]
  {
  }

  lemma UncountedView(m: map<nat, SendPhase>, id: nat)
    ensures AtPhase(m[id := Enqueued], Enqueued) == AtPhase(m, Enqueued) + {id}
    ensures AtPhase(m[id := Counted], Enqueued) == AtPhase(m, Enqueued) - {id}
    ensures id in m && m[id] == Counted ==> AtPhase(m - {id}, Enqueued) == AtPhase(m, Enqueued)
  {
  }

  predicate IsPermitStep<T>(step: Step<T>) {
    step.Reserve? || step.ReserveCount? || step.PermitPush? || step.PermitUncount? || step.PermitRelease?
  }

  function PhaseAfter<T>(step: Step<T>): PermitPhase
    requires IsPermitStep(step)
  {
    match step
    case Reserve(_) => Acquired
    case ReserveCount(_) => Live
    case PermitPush(_, _) => Pushed
    case PermitUncount(_) => Uncounted
    case PermitRelease(_) => Released
  }

  lemma SimulatesPermit<T>(s: Channel<T>, step: Step<T>)
    requires Enabled(s, step) && IsPermitStep(step)
    ensures CanStep(View(s), StepView(step)) && View(Apply(s, step)) == Do(View(s), StepView(step))
  {
    SlotsView(s);
    PermitsView(s.permits, step.id, PhaseAfter(step));
    assert Apply(s, step).permits == s.permits[step.id := PhaseAfter(step)];
  }

  lemma SimulatesSend<T>(s: Channel<T>, step: Step<T>)
    requires Enabled(s, step) && (step.SendPush? || step.SendCountInflight?)
    ensures CanStep(View(s), StepView(step)) && View(Apply(s, step)) == Do(View(s), StepView(step))
  {
    SlotsView(s);
    UncountedView(s.sends, step.id);
  }

  lemma SilentIsInvisible<T>(s: Channel<T>, step: Step<T>)
    requires Enabled(s, step) && Silent(step)
    ensures View(Apply(s, step)) == View(s)
  {
    if step.SendCountSent? {
      UncountedView(s.sends, step.id);
    } else {
      PermitsView(s.permits, step.id, Finished);
      assert ViewPermits(s.permits)[step.id := Used] == ViewPermits(s.permits);
    }
  }

  /** Every monitored step is a metered step with the same effect on the gauge, or invisible. */
  lemma Simulates<T>(s: Channel<T>, step: Step<T>)
    requires Enabled(s, step)
    ensures Silent(step) ==> View(Apply(s, step)) == View(s)
    ensures !Silent(step) ==> CanStep(View(s), StepView(step)) && View(Apply(s, step)) == Do(View(s), StepView(step))
  {
    if Silent(step) {
      SilentIsInvisible(s, step);
    } else if IsPermitStep(step) {
      SimulatesPermit(s, step);
    } else if step.SendPush? || step.SendCountInflight? {
      SimulatesSend(s, step);
    }
  }

  /** The increment of `sent` that may have to be finished before an operation's name is free again. */
  function Unblock<T>(s: Channel<T>, m: MeteredStep<T>): seq<Step<T>> {
    if m.Push? && m.id in s.sends && s.sends[m.id] == Counted then [SendCountSent(m.id)] else []
  }

  /** Every metered step is matched by a monitored one, after at most one invisible step. */
  lemma Simulated<T>(s: Channel<T>, m: MeteredStep<T>)
    requires CanStep(View(s), m)
    ensures var ready := if Unblock(s, m) == [] then s else Apply(s, Unblock(s, m)[0]);
      && Enabled(ready, StepOf(m))
      && View(Apply(ready, StepOf(m))) == Do(View(s), m)
  {
    SlotsView(s);
    var ready := s;
    if Unblock(s, m) != [] {
      Simulates(s, Unblock(s, m)[0]);
      ready := Apply(s, Unblock(s, m)[0]);
      SlotsView(ready);
    }
    Simulates(ready, StepOf(m));
  }

  // ---------------------------------------------------------------------------
  // Runs
  // ---------------------------------------------------------------------------

  function RunMetered<T>(capacity: Option<nat>, schedule: seq<MeteredStep<T>>): Option<Metered<T>> {
    if schedule == [] then Some(New(capacity))
    else
      var before := RunMetered(capacity, schedule[..|schedule| - 1]);
      var step := schedule[|schedule| - 1];
      if before.Some? && CanStep(before.value, step) then Some(Do(before.value, step)) else None
  }

  /** A monitored schedule without the invisible steps. */
  function Visible<T>(schedule: seq<Step<T>>): seq<MeteredStep<T>> {
    if schedule == [] then []
    else
      var front := Visible(schedule[..|schedule| - 1]);
      var last := schedule[|schedule| - 1];
      if Silent(last) then front else front + [StepView(last)]
  }

  /** Under the same schedule the metered gauge is always `inflight` and its total always `received`. */
  lemma {:induction false} GaugesCoincide<T>(capacity: Option<nat>, schedule: seq<Step<T>>, s: Channel<T>)
    requires Reachable(capacity, schedule, s)
    ensures RunMetered(capacity, Visible(schedule)) == Some(View(s))
    ensures RunMetered(capacity, Visible(schedule)).value.gauge == s.inflight
    ensures RunMetered(capacity, Visible(schedule)).value.total == s.received
  {
    if schedule == [] {
      assert View(Fresh<T>(capacity)) == New(capacity);
    } else {
      var n := |schedule| - 1;
      var s0 := Run(capacity, schedule[..n]).value;
      GaugesCoincide(capacity, schedule[..n], s0);
      Simulates(s0, schedule[n]);
      if !Silent(schedule[n]) {
        assert Visible(schedule)[..|Visible(schedule)| - 1] == Visible(schedule[..n]);
      }
    }
  }

  /** And every schedule of the metered channel is the visible part of a monitored one. */
  lemma {:induction false} EveryRunIsMatched<T>(capacity: Option<nat>, schedule: seq<MeteredStep<T>>)
      returns (monitored: seq<Step<T>>, s: Channel<T>)
    requires RunMetered(capacity, schedule).Some?
    ensures Reachable(capacity, monitored, s) && Visible(monitored) == schedule
    ensures View(s) == RunMetered(capacity, schedule).value
  {
    if schedule == [] {
      monitored, s := [], Fresh(capacity);
    } else {
      var n := |schedule| - 1;
      monitored, s := EveryRunIsMatched(capacity, schedule[..n]);
      monitored, s := MatchStep(capacity, monitored, s, schedule[n]);
      assert schedule == schedule[..n] + [schedule[n]];
    }
  }

  lemma MatchStep<T>(capacity: Option<nat>, schedule: seq<Step<T>>, s: Channel<T>, m: MeteredStep<T>)
      returns (schedule': seq<Step<T>>, s': Channel<T>)
    requires Reachable(capacity, schedule, s) && CanStep(View(s), m)
    ensures Reachable(capacity, schedule', s') && Visible(schedule') == Visible(schedule) + [m]
    ensures View(s') == Do(View(s), m)
  {
    Simulated(s, m);
    schedule', s' := schedule, s;
    if Unblock(s, m) != [] {
      schedule', s' := Extend(capacity, schedule', s', Unblock(s, m)[0]);
    }
    schedule', s' := Extend(capacity, schedule', s', StepOf(m));
  }

  lemma Extend<T>(capacity: Option<nat>, schedule: seq<Step<T>>, s: Channel<T>, step: Step<T>)
      returns (schedule': seq<Step<T>>, s': Channel<T>)
    requires Reachable(capacity, schedule, s) && Enabled(s, step)
    ensures schedule' == schedule + [step] && s' == Apply(s, step) && Reachable(capacity, schedule', s')
    ensures Visible(schedule') == Visible(schedule) + if Silent(step) then [] else [StepView(step)]
  {
    schedule', s' := schedule + [step], Apply(s, step);
    assert schedule'[..|schedule'| - 1] == schedule;
  }
}
