/** Whole runs: the decision sequence a validator builds over its lifetime, across leader
    schedule changes, and the agreement of any two such sequences. */
module CommitSequence {
  import opened Committees
  import opened Dag
  import opened BaseCommitter
  import opened UniversalCommitter

  /** The schedule in force is computed from the committed leaders it was scored on. */
  type Elections = seq<BlockRef> -> Schedule

  function Committed(decided: seq<LeaderStatus>): seq<BlockRef> {
    if decided == [] then []
    else
      var front := Committed(decided[..|decided| - 1]);
      var last := decided[|decided| - 1];
      if last.Commit? then front + [last.leader] else front
  }

  lemma {:induction false} CommittedAppend(decided: seq<LeaderStatus>, more: seq<LeaderStatus>)
    ensures Committed(decided + more) == Committed(decided) + Committed(more)
  {
    if more == [] {
      assert decided + more == decided;
    } else {
      var front := more[..|more| - 1];
      assert (decided + more)[..|decided + more| - 1] == decided + front;
      CommittedAppend(decided, front);
    }
  }

  /** An ascending list of exactly the positions that commit, and the leaders taken from there. */
  ghost predicate TakenFrom(decided: seq<LeaderStatus>, at: seq<nat>, leaders: seq<BlockRef>) {
    && |at| == |leaders| && (forall i, j :: 0 <= i < j < |at| ==> at[i] < at[j])
    && (forall k :: 0 <= k < |at| ==> at[k] < |decided| && decided[at[k]].Commit? && decided[at[k]].leader == leaders[k])
    && (forall i :: 0 <= i < |decided| && decided[i].Commit? ==> i in at)
  }

  lemma TakenMore(decided: seq<LeaderStatus>, at: seq<nat>, leaders: seq<BlockRef>, last: LeaderStatus)
    requires TakenFrom(decided, at, leaders)
    ensures last.Commit? ==> TakenFrom(decided + [last], at + [|decided|], leaders + [last.leader])
    ensures !last.Commit? ==> TakenFrom(decided + [last], at, leaders)
  {
    var all := decided + [last];
    forall i | 0 <= i < |all| && all[i].Commit? ensures i in at + [|decided|] && (i < |decided| ==> i in at) {
      assert i < |decided| ==> all[i] == decided[i];
      assert i == |decided| ==> (at + [|decided|])[|at|] == i;
    }
  }

  /** Every committed status is sequenced and nothing else, in the order of the statuses. */
  lemma {:induction false} CommittedExact(decided: seq<LeaderStatus>) returns (at: seq<nat>)
    ensures TakenFrom(decided, at, Committed(decided))
  {
    at := [];
    if decided != [] {
      var n := |decided| - 1;
      at := CommittedExact(decided[..n]);
      TakenMore(decided[..n], at, Committed(decided[..n]), decided[n]);
      assert decided == decided[..n] + [decided[n]];
      at := if decided[n].Commit? then at + [n] else at;
    }
  }

  /** In particular these are the committed leaders. */
  lemma CommittedMembers(decided: seq<LeaderStatus>, leader: BlockRef)
    ensures leader in Committed(decided) <==> LeaderStatus.Commit(leader) in decided
  {
    var at := CommittedExact(decided);
    if leader in Committed(decided) {
      var k :| 0 <= k < |at| && Committed(decided)[k] == leader;
      assert decided[at[k]] == LeaderStatus.Commit(leader);
    }
    if LeaderStatus.Commit(leader) in decided {
      var i :| 0 <= i < |decided| && decided[i] == LeaderStatus.Commit(leader);
      var k :| 0 <= k < |at| && at[k] == i;
    }
  }

  lemma {:induction false} CommittedBounded(decided: seq<LeaderStatus>)
    ensures |Committed(decided)| <= |decided|
  {
    if decided != [] {
      CommittedBounded(decided[..|decided| - 1]);
    }
  }

  /** Of k commits, how many belong to completed scoring periods. */
  function Scored(k: nat, period: nat): (n: nat)
    requires period > 0
    ensures n <= k && k - n < period
  {
    if k < period then 0 else period + Scored(k - period, period)
  }

  lemma {:induction false} ScoredWithinPeriod(k: nat, more: nat, period: nat)
    requires period > 0 && k - Scored(k, period) + more < period
    ensures Scored(k + more, period) == Scored(k, period)
  {
    if k >= period {
      ScoredWithinPeriod(k - period, more, period);
    }
  }

  lemma {:induction false} ScoredAtBoundary(k: nat, period: nat)
    requires period > 0
    ensures Scored(Scored(k, period) + period, period) == Scored(k, period) + period
  {
    if k >= period {
      ScoredAtBoundary(k - period, period);
    }
  }

  /** Scored commits are the whole periods among them. */
  lemma {:induction false} ScoredIsWholePeriods(k: nat, period: nat) returns (periods: nat)
    requires period > 0
    ensures Scored(k, period) == periods * period <= k < periods * period + period
  {
    periods := 0;
    if k >= period {
      periods := ScoredIsWholePeriods(k - period, period);
      assert (periods + 1) * period == periods * period + period;
      periods := periods + 1;
    }
  }

  /** The committed leaders the schedule in force was computed from. */
  function ScheduleHistory(committed: seq<BlockRef>, period: nat): seq<BlockRef>
    requires period > 0
  {
    committed[..Scored(|committed|, period)]
  }

  // ---------------------------------------------------------------------------
  // Agreement of runs
  // ---------------------------------------------------------------------------

  /** A view, with whatever later rounds it knew, from which the commit rule gives this status. */
  ghost predicate DecidedFrom(c: Committee, dag: Blocks, schedule: Schedule, v: View, hi: Round, round: Round, s: LeaderStatus)
    requires c.Valid()
  {
    LocalView(c, dag, v) && v.gcRound < round && s == Status(c, v, schedule, hi, round)
  }

  ghost predicate DecidedSomewhere(c: Committee, dag: Blocks, schedule: Schedule, round: Round, s: LeaderStatus)
    requires c.Valid()
  {
    exists v: View, hi: Round :: DecidedFrom(c, dag, schedule, v, hi, round, s)
  }

  /** The decision for round i+1 was made by the commit rule, on some local view, under the
      schedule that the preceding decisions determine. */
  ghost predicate Justified(c: Committee, dag: Blocks, elections: Elections, period: nat, decided: seq<LeaderStatus>, i: nat)
    requires c.Valid() && period > 0 && i < |decided|
  {
    decided[i].IsDecided() &&
    DecidedSomewhere(c, dag, elections(ScheduleHistory(Committed(decided[..i]), period)), i + 1, decided[i])
  }

  ghost predicate Legitimate(c: Committee, dag: Blocks, elections: Elections, period: nat, decided: seq<LeaderStatus>)
    requires c.Valid() && period > 0
  {
    forall i :: 0 <= i < |decided| ==> Justified(c, dag, elections, period, decided, i)
  }

  lemma DecisionsAgree(c: Committee, dag: Blocks, faulty: set<Authority>, schedule: Schedule, round: Round,
                       s: LeaderStatus, s': LeaderStatus)
    requires Tolerated(c, dag, faulty) && s.IsDecided() && s'.IsDecided()
    requires DecidedSomewhere(c, dag, schedule, round, s) && DecidedSomewhere(c, dag, schedule, round, s')
    ensures s == s'
  {
    var v: View, hi: Round :| DecidedFrom(c, dag, schedule, v, hi, round, s);
    var v': View, hi': Round :| DecidedFrom(c, dag, schedule, v', hi', round, s');
    StatusAgreement(c, dag, faulty, schedule, v, hi, v', hi', round);
  }

  /** Total order: of two validators' decision sequences one is a prefix of the other, no
      matter how their views grew, how often they ran the rule, and across any number of
      schedule changes. */
  lemma {:induction false} SequencesAgree(c: Committee, dag: Blocks, faulty: set<Authority>, elections: Elections, period: nat,
                                          d: seq<LeaderStatus>, d': seq<LeaderStatus>)
    requires Tolerated(c, dag, faulty) && period > 0
    requires Legitimate(c, dag, elections, period, d) && Legitimate(c, dag, elections, period, d')
    requires |d| <= |d'|
    ensures d <= d'
    decreases |d|
  {
    if d != [] {
      var i := |d| - 1;
      LegitimatePrefix(c, dag, elections, period, d, i);
      SequencesAgree(c, dag, faulty, elections, period, d[..i], d');
      assert d[..i] == d'[..i];
      assert Justified(c, dag, elections, period, d, i) && Justified(c, dag, elections, period, d', i);
      var schedule := elections(ScheduleHistory(Committed(d[..i]), period));
      DecisionsAgree(c, dag, faulty, schedule, i + 1, d[i], d'[i]);
      assert d == d[..i] + [d[i]];
    }
  }

  lemma LegitimatePrefix(c: Committee, dag: Blocks, elections: Elections, period: nat, d: seq<LeaderStatus>, n: nat)
    requires c.Valid() && period > 0 && n <= |d| && Legitimate(c, dag, elections, period, d)
    ensures Legitimate(c, dag, elections, period, d[..n])
  {
    forall i | 0 <= i < n ensures Justified(c, dag, elections, period, d[..n], i) {
      assert Justified(c, dag, elections, period, d, i);
      assert d[..n][..i] == d[..i];
    }
  }

  /** The committed leaders follow suit: they are the input of the linearizer. */
  lemma CommittedAgree(c: Committee, dag: Blocks, faulty: set<Authority>, elections: Elections, period: nat,
                       d: seq<LeaderStatus>, d': seq<LeaderStatus>)
    requires Tolerated(c, dag, faulty) && period > 0
    requires Legitimate(c, dag, elections, period, d) && Legitimate(c, dag, elections, period, d')
    ensures Committed(d) <= Committed(d') || Committed(d') <= Committed(d)
  {
    if |d| <= |d'| {
      SequencesAgree(c, dag, faulty, elections, period, d, d');
      CommittedAppend(d, d'[|d|..]);
      assert d + d'[|d|..] == d';
    } else {
      SequencesAgree(c, dag, faulty, elections, period, d', d);
      CommittedAppend(d', d[|d'|..]);
      assert d' + d[|d'|..] == d;
    }
  }

  // ---------------------------------------------------------------------------
  // The validator's commit loop
  // ---------------------------------------------------------------------------

  /** Decisions made together stay within the scoring period, so one schedule covers them all. */
  lemma BatchKeepsSchedule(committed: seq<BlockRef>, decided: seq<LeaderStatus>, batch: seq<LeaderStatus>, k: nat, period: nat)
    requires period > 0 && k < |batch| && committed == Committed(decided)
    requires |committed| - Scored(|committed|, period) + |batch| <= period
    ensures ScheduleHistory(Committed(decided + batch[..k]), period) == ScheduleHistory(committed, period)
  {
    CommittedAppend(decided, batch[..k]);
    CommittedBounded(batch[..k]);
    ScoredWithinPeriod(|committed|, |Committed(batch[..k])|, period);
  }

  /** An entry of a decided batch is the status of its round. */
  lemma EntryIsStatus(c: Committee, v: View, schedule: Schedule, lastRound: Round, batch: seq<LeaderStatus>, k: nat)
    requires c.Valid() && ValidView(c, v) && v.gcRound <= lastRound
    requires batch <= Decided(c, v, schedule, lastRound) && k < |batch|
    ensures lastRound + 1 + k <= HighestDecidable(v) && batch[k].IsDecided()
    ensures batch[k] == Status(c, v, schedule, HighestDecidable(v), lastRound + 1 + k)
  {
    var leaders := Leaders(c, v, schedule, HighestDecidable(v), lastRound + 1);
    assert batch[k] == DecidedPrefix(leaders)[k] == leaders[k];
    LeadersAt(c, v, schedule, HighestDecidable(v), lastRound + 1, k);
  }

  lemma DecidedEntry(c: Committee, dag: Blocks, schedule: Schedule, v: View, lastRound: Round, batch: seq<LeaderStatus>, k: nat)
    requires c.Valid() && LocalView(c, dag, v) && v.gcRound <= lastRound
    requires batch <= Decided(c, v, schedule, lastRound) && k < |batch|
    ensures batch[k].IsDecided() && (batch[k].Commit? ==> batch[k].leader in v.blocks)
    ensures DecidedSomewhere(c, dag, schedule, lastRound + 1 + k, batch[k])
    ensures batch[k].Round() == lastRound + 1 + k <= v.highestRound
  {
    EntryIsStatus(c, v, schedule, lastRound, batch, k);
    StatusAbout(c, v, schedule, HighestDecidable(v), lastRound + 1 + k);
    assert DecidedFrom(c, dag, schedule, v, HighestDecidable(v), lastRound + 1 + k, batch[k]);
  }

  lemma BatchIsJustified(c: Committee, dag: Blocks, elections: Elections, period: nat, schedule: Schedule,
                         decided: seq<LeaderStatus>, v: View, batch: seq<LeaderStatus>)
    requires c.Valid() && period > 0 && Legitimate(c, dag, elections, period, decided)
    requires schedule == elections(ScheduleHistory(Committed(decided), period))
    requires LocalView(c, dag, v) && v.gcRound <= |decided|
    requires batch <= Decided(c, v, schedule, |decided|)
    requires |Committed(decided)| - Scored(|Committed(decided)|, period) + |batch| <= period
    ensures Legitimate(c, dag, elections, period, decided + batch)
  {
    var all := decided + batch;
    forall i | 0 <= i < |all| ensures Justified(c, dag, elections, period, all, i) {
      if i < |decided| {
        assert Justified(c, dag, elections, period, decided, i);
        assert all[..i] == decided[..i];
      } else {
        var k := i - |decided|;
        assert all[..i] == decided + batch[..k];
        BatchKeepsSchedule(Committed(decided), decided, batch, k, period);
        DecidedEntry(c, dag, schedule, v, |decided|, batch, k);
      }
    }
  }

  /** The round of the last leader, or the round before if there is none. */
  function LastRound(before: Round, leaders: seq<BlockRef>): Round {
    if leaders == [] then before else leaders[|leaders| - 1].round
  }

  /** Leaders held in the view, above a round, in ascending order. */
  ghost predicate NewLeaders(v: View, after: Round, leaders: seq<BlockRef>) {
    && (forall i :: 0 <= i < |leaders| ==> leaders[i] in v.blocks && leaders[i].round > after)
    && (forall i, j :: 0 <= i < j < |leaders| ==> leaders[i].round < leaders[j].round)
  }

  /** What a pass of the rule commits is held, new and ascending. */
  lemma {:induction false} BatchLeaders(c: Committee, dag: Blocks, v: View, schedule: Schedule, lastRound: Round, batch: seq<LeaderStatus>)
    requires c.Valid() && LocalView(c, dag, v) && v.gcRound <= lastRound && batch <= Decided(c, v, schedule, lastRound)
    ensures NewLeaders(v, lastRound, Committed(batch))
    ensures forall i :: 0 <= i < |Committed(batch)| ==> Committed(batch)[i].round <= lastRound + |batch|
  {
    if batch != [] {
      var n := |batch| - 1;
      BatchLeaders(c, dag, v, schedule, lastRound, batch[..n]);
      DecidedEntry(c, dag, schedule, v, lastRound, batch, n);
    }
  }

  /** The committed leaders of a batch, and the round of the last of them. */
  method SequenceLeaders(batch: seq<LeaderStatus>, lastCommit: Round) returns (committed: seq<BlockRef>, lastCommit': Round)
    ensures committed == Committed(batch)
    ensures lastCommit' == LastRound(lastCommit, committed)
  {
    committed := [];
    lastCommit' := lastCommit;
    for i := 0 to |batch|
      invariant committed == Committed(batch[..i])
      invariant lastCommit' == LastRound(lastCommit, committed)
    {
      assert batch[..i + 1][..i] == batch[..i];
      if batch[i].Commit? {
        committed := committed + [batch[i].leader];
        lastCommit' := batch[i].leader.round;
      }
    }
    assert batch[..|batch|] == batch;
  }

  lemma {:induction false} CommittedRounds(batch: seq<LeaderStatus>, lastRound: Round)
    requires forall i :: 0 <= i < |batch| ==> batch[i].Round() == lastRound + 1 + i
    ensures forall i :: 0 <= i < |Committed(batch)| ==> lastRound < Committed(batch)[i].round <= lastRound + |batch|
  {
    if batch != [] {
      CommittedRounds(batch[..|batch| - 1], lastRound);
    }
  }

  /** Commit state of the core: how the stored fields follow from the decisions. */
  datatype CommitState = CommitState(lastDecided: Slot, lastCommitRound: Round, schedule: Schedule, unscored: nat, sequenced: seq<BlockRef>)

  ghost predicate Consistent(elections: Elections, period: nat, s: CommitState, decided: seq<LeaderStatus>) {
    && period > 0
    && s.lastDecided.round == |decided| && s.lastCommitRound <= |decided|
    && s.sequenced == Committed(decided)
    && s.unscored <= period && s.unscored <= |s.sequenced|
    && s.schedule == elections(s.sequenced[..|s.sequenced| - s.unscored])
    && Scored(|s.sequenced|, period) == |s.sequenced| - (if s.unscored < period then s.unscored else 0)
  }

  /** Appending a batch that fits the period keeps the state consistent and the decisions legitimate. */
  lemma RecordKeeps(c: Committee, dag: Blocks, elections: Elections, period: nat, s: CommitState, decided: seq<LeaderStatus>,
                    v: View, batch: seq<LeaderStatus>, s': CommitState)
    requires c.Valid() && Consistent(elections, period, s, decided) && s.unscored < period
    requires Legitimate(c, dag, elections, period, decided)
    requires LocalView(c, dag, v) && v.gcRound <= |decided|
    requires batch <= Decided(c, v, s.schedule, |decided|) && 0 < |batch| <= period - s.unscored
    requires var last := batch[|batch| - 1]; s'.lastDecided == if last.Commit? then last.leader.AtSlot() else last.slot
    requires var m := Committed(batch);
      && s'.sequenced == s.sequenced + m && s'.unscored == s.unscored + |m| && s'.schedule == s.schedule
      && s'.lastCommitRound == LastRound(s.lastCommitRound, m)
    ensures Consistent(elections, period, s', decided + batch)
    ensures Legitimate(c, dag, elections, period, decided + batch)
    ensures s.lastDecided.round < s'.lastDecided.round <= v.highestRound
  {
    assert s.schedule == elections(ScheduleHistory(Committed(decided), period));
    BatchIsJustified(c, dag, elections, period, s.schedule, decided, v, batch);
    BatchRounds(c, dag, v, s.schedule, |decided|, batch);
    BatchIsCounted(elections, period, s, decided, batch, s');
  }

  lemma BatchIsCounted(elections: Elections, period: nat, s: CommitState, decided: seq<LeaderStatus>,
                       batch: seq<LeaderStatus>, s': CommitState)
    requires Consistent(elections, period, s, decided) && s.unscored < period && |batch| <= period - s.unscored
    requires s'.lastDecided.round == |decided + batch| && s'.lastCommitRound <= |decided + batch|
    requires s'.schedule == s.schedule
    requires s'.sequenced == s.sequenced + Committed(batch) && s'.unscored == s.unscored + |Committed(batch)|
    ensures Consistent(elections, period, s', decided + batch)
  {
    CommittedAppend(decided, batch);
    CommittedBounded(batch);
    UnscoredAdvance(|s.sequenced|, |Committed(batch)|, period);
    assert s'.sequenced[..|s'.sequenced| - s'.unscored] == s.sequenced[..|s.sequenced| - s.unscored];
  }

  // ---------------------------------------------------------------------------
  // Certified leaders
  // ---------------------------------------------------------------------------

  /** The decisions up to the m-th commit. */
  function UpTo(decided: seq<LeaderStatus>, m: nat): seq<LeaderStatus>
    requires m <= |Committed(decided)|
  {
    if decided == [] then []
    else
      var front := decided[..|decided| - 1];
      if m <= |Committed(front)| then UpTo(front, m) else decided
  }

  lemma {:induction false} UpToExact(decided: seq<LeaderStatus>, m: nat)
    requires m <= |Committed(decided)|
    ensures UpTo(decided, m) <= decided && Committed(UpTo(decided, m)) == Committed(decided)[..m]
    ensures m > 0 ==> var u := UpTo(decided, m); u != [] && u[|u| - 1].Commit? && u[|u| - 1].leader == Committed(decided)[m - 1]
  {
    if decided != [] {
      var front := decided[..|decided| - 1];
      if m <= |Committed(front)| {
        UpToExact(front, m);
        assert front <= decided;
      }
    }
  }

  lemma CommittedPrefix(d: seq<LeaderStatus>, d': seq<LeaderStatus>)
    requires d <= d'
    ensures Committed(d) <= Committed(d')
  {
    CommittedAppend(d, d'[|d|..]);
    assert d + d'[|d|..] == d';
  }

  /** The decisions of a validator that has committed more continue one's own. */
  lemma FurtherContinues(c: Committee, dag: Blocks, faulty: set<Authority>, elections: Elections, period: nat,
                         d: seq<LeaderStatus>, d': seq<LeaderStatus>, m: nat)
    requires Tolerated(c, dag, faulty) && period > 0 && |Committed(d)| < m <= |Committed(d')|
    requires Legitimate(c, dag, elections, period, d) && Legitimate(c, dag, elections, period, d')
    ensures d <= UpTo(d', m) && |d| < |UpTo(d', m)| && Committed(d) <= Committed(d')
    ensures Legitimate(c, dag, elections, period, UpTo(d', m))
  {
    var u := UpTo(d', m);
    UpToExact(d', m);
    LegitimatePrefix(c, dag, elections, period, d', |u|);
    assert d'[..|u|] == u;
    if |d| <= |u| {
      SequencesAgree(c, dag, faulty, elections, period, d, u);
      CommittedPrefix(d, u);
      assert d == u ==> |Committed(d)| == m;
    } else {
      SequencesAgree(c, dag, faulty, elections, period, u, d);
      CommittedPrefix(u, d);
    }
  }

  lemma LegitimateRound(c: Committee, dag: Blocks, elections: Elections, period: nat, d: seq<LeaderStatus>, i: nat)
    requires c.Valid() && period > 0 && i < |d| && Legitimate(c, dag, elections, period, d)
    ensures d[i].Round() == i + 1
  {
    assert Justified(c, dag, elections, period, d, i);
    var schedule := elections(ScheduleHistory(Committed(d[..i]), period));
    var v: View, hi: Round :| DecidedFrom(c, dag, schedule, v, hi, i + 1, d[i]);
    StatusAbout(c, v, schedule, hi, i + 1);
  }

  /** Taking over leaders that another validator committed, as many as fit the period, keeps the
      state consistent. */
  lemma TakeKeeps(c: Committee, dag: Blocks, faulty: set<Authority>, elections: Elections, period: nat, s: CommitState,
                  d: seq<LeaderStatus>, d': seq<LeaderStatus>, m: nat, s': CommitState)
    requires Tolerated(c, dag, faulty) && Consistent(elections, period, s, d) && s.unscored < period
    requires Legitimate(c, dag, elections, period, d) && Legitimate(c, dag, elections, period, d')
    requires |s.sequenced| < m <= |Committed(d')| && m - |s.sequenced| <= period - s.unscored
    requires s'.sequenced == Committed(d')[..m] && s'.unscored == s.unscored + m - |s.sequenced| && s'.schedule == s.schedule
    requires s'.lastDecided == Committed(d')[m - 1].AtSlot() && s'.lastCommitRound == Committed(d')[m - 1].round
    ensures Consistent(elections, period, s', UpTo(d', m)) && Legitimate(c, dag, elections, period, UpTo(d', m))
    ensures d <= UpTo(d', m) && s.sequenced <= s'.sequenced
  {
    var u := UpTo(d', m);
    UpToExact(d', m);
    FurtherContinues(c, dag, faulty, elections, period, d, d', m);
    LegitimateRound(c, dag, elections, period, u, |u| - 1);
    TakenIsCounted(elections, period, s, d, u, s');
  }

  lemma TakenIsCounted(elections: Elections, period: nat, s: CommitState, d: seq<LeaderStatus>, u: seq<LeaderStatus>, s': CommitState)
    requires Consistent(elections, period, s, d) && s.unscored < period && s'.sequenced == Committed(u) && s.sequenced <= s'.sequenced
    requires s'.unscored == s.unscored + |s'.sequenced| - |s.sequenced| <= period && s'.schedule == s.schedule
    requires s'.lastDecided.round == s'.lastCommitRound == |u|
    ensures Consistent(elections, period, s', u)
  {
    UnscoredAdvance(|s.sequenced|, |s'.sequenced| - |s.sequenced|, period);
    assert s'.sequenced[..|s'.sequenced| - s'.unscored] == s.sequenced[..|s.sequenced| - s.unscored];
  }

  /** The part of the consensus core that commits. */
  class Core {
    const committee: Committee
    const period: nat
    const gcDepth: nat
    const elections: Elections

    var state: CommitState
    ghost var decided: seq<LeaderStatus>

    /** The fields follow from the decisions, and the decisions are the commit rule's. */
    ghost predicate Valid(dag: Blocks)
      reads this
    {
      && committee.Valid()
      && Consistent(elections, period, state, decided)
      && Legitimate(committee, dag, elections, period, decided)
    }

    constructor (c: Committee, n: nat, depth: nat, e: Elections, genesisLeader: Authority, ghost dag: Blocks)
      requires c.Valid() && n > 0
      ensures Valid(dag) && decided == []
      ensures committee == c && period == n && gcDepth == depth && elections == e
    {
      committee, period, gcDepth, elections := c, n, depth, e;
      state := CommitState(Slot(GENESIS_ROUND, genesisLeader), 0, e([]), 0, []);
      decided := [];
      new;
      assert state.sequenced[..0] == [];
    }

    /** The state with the schedule recomputed, if a full period has been committed. */
    function Rescheduled(s: CommitState): CommitState {
      if s.unscored == period then s.(schedule := elections(s.sequenced), unscored := 0) else s
    }

    /** What one pass of the rule decides from n decisions on: the decided prefix, cut where the
        schedule would change if all of it were commits. */
    ghost function NextBatch(s: CommitState, n: nat, v: View): seq<LeaderStatus>
      requires committee.Valid() && ValidView(committee, v) && v.gcRound <= n && s.unscored <= period && period > 0
    {
      var s' := Rescheduled(s);
      var all := Decided(committee, v, s'.schedule, n);
      if |all| >= period - s'.unscored then all[..period - s'.unscored] else all
    }

    /** As much of the rule's answer, under the schedule due, as there are commits left before the
        next change. */
    lemma NextBatchExact(s: CommitState, n: nat, v: View)
      requires committee.Valid() && ValidView(committee, v) && v.gcRound <= n && s.unscored <= period && period > 0
      ensures var due, left := if s.unscored == period then elections(s.sequenced) else s.schedule,
                               if s.unscored == period then period else period - s.unscored;
        var all, batch := Decided(committee, v, due, n), NextBatch(s, n, v);
        batch <= all && |batch| <= left && (|batch| == |all| || |batch| == left)
    {
    }

    /** What the rule would decide next. */
    ghost function Left(v: View): seq<LeaderStatus>
      requires committee.Valid() && ValidView(committee, v) && v.gcRound <= |decided|
      reads this
    {
      Decided(committee, v, state.schedule, |decided|)
    }

    /** The loop stopped: the decisions from the n-th on, which commit nothing, are what the rule
        decided last, cut where the schedule would change; what was cut off is left. */
    ghost predicate Stopped(v: View, n: nat)
      requires committee.Valid() && ValidView(committee, v) && v.gcRound <= n <= |decided| && state.unscored < period
      reads this
    {
      var all, room := Decided(committee, v, state.schedule, n), period - state.unscored;
      && Committed(decided[n..]) == []
      && decided[n..] == (if |all| >= room then all[..room] else all)
      && Left(v) == all[|decided| - n..]
    }

    /** Nothing is left exactly when the last batch was not cut short. */
    lemma NothingLeftIff(v: View, n: nat)
      requires committee.Valid() && ValidView(committee, v) && v.gcRound <= n <= |decided| && state.unscored < period && Stopped(v, n)
      ensures Left(v) == [] <==> |Decided(committee, v, state.schedule, n)| <= period - state.unscored
    {
      assert |decided[n..]| == |decided| - n;
    }

    /** Recomputes the schedule once a full period has been committed. */
    method UpdateSchedule(ghost dag: Blocks) returns (commitsUntilUpdate: nat)
      requires Valid(dag)
      modifies this`state
      ensures Valid(dag) && state.unscored < period && commitsUntilUpdate == period - state.unscored
      ensures state == Rescheduled(old(state))
    {
      if state.unscored == period {
        state := state.(schedule := elections(state.sequenced), unscored := 0);
        assert state.sequenced[..|state.sequenced|] == state.sequenced;
      }
      commitsUntilUpdate := period - state.unscored;
    }

    /** Sequences the committed leaders of a batch and records the batch as decided. */
    method Record(batch: seq<LeaderStatus>, v: View, ghost dag: Blocks) returns (committed: seq<BlockRef>)
      requires Valid(dag) && state.unscored < period
      requires LocalView(committee, dag, v) && v.gcRound <= |decided|
      requires batch <= Decided(committee, v, state.schedule, |decided|)
      requires 0 < |batch| <= period - state.unscored
      modifies this
      ensures Valid(dag) && decided == old(decided) + batch
      ensures committed == Committed(batch) && state.sequenced == old(state.sequenced) + committed
      ensures state.schedule == old(state.schedule) && state.unscored == old(state.unscored) + |committed|
      ensures state.lastCommitRound == LastRound(old(state.lastCommitRound), committed)
      ensures old(state.lastDecided).round < state.lastDecided.round <= v.highestRound
      ensures state.lastDecided == var last := batch[|batch| - 1]; if last.Commit? then last.leader.AtSlot() else last.slot
    {
      var last := batch[|batch| - 1];
      var lastCommitRound;
      committed, lastCommitRound := SequenceLeaders(batch, state.lastCommitRound);
      var state' := CommitState(
        if last.Commit? then last.leader.AtSlot() else last.slot,
        lastCommitRound, state.schedule, state.unscored + |committed|, state.sequenced + committed);
      RecordKeeps(committee, dag, elections, period, state, decided, v, batch, state');
      state := state';
      decided := decided + batch;
    }

    /** Runs the rule under the schedule in force and cuts its answer at the next change. */
    method DecideBatch(v: View, ghost dag: Blocks, ghost faulty: set<Authority>) returns (batch: seq<LeaderStatus>)
      requires Valid(dag) && Tolerated(committee, dag, faulty)
      requires LocalView(committee, dag, v) && v.gcRound <= |decided|
      modifies this`state
      ensures Valid(dag) && state == Rescheduled(old(state)) && state.unscored < period
      ensures batch == NextBatch(old(state), |decided|, v)
      ensures batch <= Decided(committee, v, state.schedule, |decided|) && |batch| <= period - state.unscored
    {
      var commitsUntilUpdate := UpdateSchedule(dag);
      batch := TryDecide(committee, v, state.schedule, state.lastDecided, dag, faulty);
      if |batch| >= commitsUntilUpdate {
        batch := batch[..commitsUntilUpdate];
      }
    }

    /** One pass of the rule, cut at the next schedule change. */
    method CommitBatch(v: View, ghost dag: Blocks, ghost faulty: set<Authority>)
        returns (progress: bool, leaders: seq<BlockRef>)
      requires Valid(dag) && Tolerated(committee, dag, faulty)
      requires LocalView(committee, dag, v) && v.gcRound <= |decided|
      modifies this
      ensures Valid(dag) && decided == old(decided) + NextBatch(old(state), |old(decided)|, v)
      ensures leaders == Committed(NextBatch(old(state), |old(decided)|, v)) && state.sequenced == old(state.sequenced) + leaders
      ensures state.schedule == Rescheduled(old(state)).schedule && state.unscored == Rescheduled(old(state)).unscored + |leaders|
      ensures NewLeaders(v, old(state.lastDecided).round, leaders)
      ensures state.lastCommitRound == LastRound(old(state.lastCommitRound), leaders)
      ensures progress <==> NextBatch(old(state), |old(decided)|, v) != []
      ensures progress ==> old(state.lastDecided).round < state.lastDecided.round <= v.highestRound
    {
      var batch := DecideBatch(v, dag, faulty);
      if |batch| == 0 {
        return false, [];
      }
      BatchLeaders(committee, dag, v, state.schedule, |decided|, batch);
      leaders := Record(batch, v, dag);
      return true, leaders;
    }

    /** One turn of the commit loop; it goes on as long as leaders are committed. */
    method CommitPass(v: View, ghost dag: Blocks, ghost faulty: set<Authority>) returns (more: bool, leaders: seq<BlockRef>)
      requires Valid(dag) && Tolerated(committee, dag, faulty)
      requires LocalView(committee, dag, v) && v.gcRound <= |decided|
      modifies this
      ensures Valid(dag) && decided == old(decided) + NextBatch(old(state), |old(decided)|, v)
      ensures leaders == Committed(NextBatch(old(state), |old(decided)|, v)) && state.sequenced == old(state.sequenced) + leaders
      ensures NewLeaders(v, old(state.lastDecided).round, leaders)
      ensures state.lastCommitRound == LastRound(old(state.lastCommitRound), leaders)
      ensures more <==> leaders != []
      ensures more ==> old(state.lastDecided).round < state.lastDecided.round <= v.highestRound
      ensures !more ==> state.unscored < period && Stopped(v, old(|decided|))
    {
      ghost var n := |decided|;
      var progress;
      progress, leaders := CommitBatch(v, dag, faulty);
      more := progress && |leaders| > 0;
      if !more {
        StopsThere(v, n);
      }
    }

    /** Records leaders that another validator committed next, without running the rule.  Its
        decisions are taken over, the skipped leaders in between included. */
    method TakeCertified(leaders: seq<BlockRef>, ghost d: seq<LeaderStatus>, ghost dag: Blocks, ghost faulty: set<Authority>)
      requires Valid(dag) && Tolerated(committee, dag, faulty) && Legitimate(committee, dag, elections, period, d)
      requires 0 < |leaders| <= period - state.unscored && |state.sequenced| + |leaders| <= |Committed(d)|
      requires leaders == Committed(d)[|state.sequenced|..|state.sequenced| + |leaders|]
      modifies this
      ensures Valid(dag) && old(decided) <= decided <= d
      ensures state.sequenced == old(state.sequenced) + leaders && state.sequenced <= Committed(d)
      ensures state.schedule == old(state.schedule) && state.unscored == old(state.unscored) + |leaders|
      ensures state.lastDecided == leaders[|leaders| - 1].AtSlot() && state.lastCommitRound == leaders[|leaders| - 1].round == |decided|
    {
      ghost var m := |state.sequenced| + |leaders|;
      FurtherContinues(committee, dag, faulty, elections, period, decided, d, m);
      var last := leaders[|leaders| - 1];
      var state' := CommitState(last.AtSlot(), last.round, state.schedule, state.unscored + |leaders|, state.sequenced + leaders);
      assert state'.sequenced == Committed(d)[..m];
      TakeKeeps(committee, dag, faulty, elections, period, state, decided, d, m, state');
      UpToExact(d, m);
      state, decided := state', UpTo(d, m);
    }

    /** A pass without a commit leaves what it cut off. */
    lemma StopsThere(v: View, n: nat)
      requires committee.Valid() && ValidView(committee, v) && v.gcRound <= n <= |decided| && state.unscored < period
      requires Committed(decided[n..]) == []
      requires var all := Decided(committee, v, state.schedule, n); var room := period - state.unscored;
        decided[n..] == if |all| >= room then all[..room] else all
      ensures Stopped(v, n)
    {
      assert |decided[n..]| == |decided| - n;
      DecidedSuffix(committee, v, state.schedule, n, |decided| - n);
    }
  }

  lemma {:induction false} LeadersSuffix(c: Committee, v: View, schedule: Schedule, hi: Round, lo: Round, k: nat)
    requires c.Valid() && ValidView(c, v) && v.gcRound <= lo && k <= |Leaders(c, v, schedule, hi, lo)|
    ensures Leaders(c, v, schedule, hi, lo + k) == Leaders(c, v, schedule, hi, lo)[k..]
    decreases k
  {
    if k > 0 {
      LeadersSuffix(c, v, schedule, hi, lo + 1, k - 1);
    }
  }

  lemma {:induction false} PrefixSuffix(leaders: seq<LeaderStatus>, k: nat)
    requires k <= |DecidedPrefix(leaders)|
    ensures DecidedPrefix(leaders[k..]) == DecidedPrefix(leaders)[k..]
    decreases k
  {
    if k == 0 {
      assert leaders[0..] == leaders;
    } else {
      PrefixSuffix(leaders[1..], k - 1);
      assert leaders[1..][k - 1..] == leaders[k..];
      assert DecidedPrefix(leaders) == [leaders[0]] + DecidedPrefix(leaders[1..]);
    }
  }

  /** Once k decisions are taken, the rule decides the rest on the same view. */
  lemma DecidedSuffix(c: Committee, v: View, schedule: Schedule, n: nat, k: nat)
    requires c.Valid() && ValidView(c, v) && v.gcRound <= n && k <= |Decided(c, v, schedule, n)|
    ensures Decided(c, v, schedule, n + k) == Decided(c, v, schedule, n)[k..]
  {
    var leaders := Leaders(c, v, schedule, HighestDecidable(v), n + 1);
    LeadersSuffix(c, v, schedule, HighestDecidable(v), n + 1, k);
    PrefixSuffix(leaders, k);
  }

  lemma BatchRounds(c: Committee, dag: Blocks, v: View, schedule: Schedule, lastRound: Round, batch: seq<LeaderStatus>)
    requires c.Valid() && LocalView(c, dag, v) && v.gcRound <= lastRound
    requires batch <= Decided(c, v, schedule, lastRound)
    ensures forall i :: 0 <= i < |batch| ==> lastRound < batch[i].Round() == lastRound + 1 + i <= v.highestRound
    ensures forall i :: 0 <= i < |Committed(batch)| ==> lastRound < Committed(batch)[i].round <= lastRound + |batch|
  {
    forall i | 0 <= i < |batch| ensures lastRound < batch[i].Round() == lastRound + 1 + i <= v.highestRound {
      DecidedEntry(c, dag, schedule, v, lastRound, batch, i);
    }
    CommittedRounds(batch, lastRound);
  }

  lemma UnscoredAdvance(total: nat, more: nat, period: nat)
    requires period > 0 && total - Scored(total, period) + more <= period
    ensures total - Scored(total, period) + more < period ==> Scored(total + more, period) == Scored(total, period)
    ensures total - Scored(total, period) + more == period ==> Scored(total + more, period) == total + more
  {
    if total - Scored(total, period) + more < period {
      ScoredWithinPeriod(total, more, period);
    } else {
      ScoredAtBoundary(total, period);
    }
  }
}
