/** A validator: the block manager feeds the commit rule, the commit rule feeds the linearizer, and
    committing moves the garbage-collection round under the block manager.  What honest validators
    hand to execution never differs. */
module Validators {
  import opened Wrappers
  import opened Committees
  import opened Dag
  import opened BaseCommitter
  import opened CommitSequence
  import Suspension
  import BlockManager
  import Linearizer
  import opened Execution
  import opened CertifiedCommits

  /** What verification says of the rounds of a block and of its ancestors. */
  ghost predicate Verified(genesis: set<BlockRef>, blocks: seq<Block>) {
    (forall b :: b in blocks ==> b.ref.round != GENESIS_ROUND) && BlockManager.AllGenesisKnown(genesis, blocks)
  }

  class Validator {
    const core: Core
    const linearizer: Linearizer.Linearizer
    const manager: BlockManager.BlockManager
    const genesis: set<BlockRef>
    var executed: seq<seq<BlockRef>>       // the sub-dags handed to execution, in order
    ghost var views: seq<Blocks>           // what was stored when each of them was cut

    /** Each part is in order, and they agree on where they stand. */
    ghost predicate Valid(dag: Blocks)
      reads this, core, linearizer, manager
    {
      && InStep(dag) && manager.Valid(dag)
      && genesis <= manager.held.Keys && linearizer.committed <= manager.held.Keys
      && manager.gcRound == Linearizer.GcOf(core.state.lastCommitRound, core.gcDepth)
    }

    constructor (c: Committee, period: nat, depth: nat, elections: Elections, genesisLeader: Authority,
                 own: Authority, maxSuspended: nat, first: Blocks, ghost dag: Blocks)
      requires c.Valid() && period > 0 && Suspension.Within(dag, first)
      requires forall r :: r in first ==> first[r].ancestors == []
      ensures Valid(dag) && executed == [] && genesis == first.Keys
      ensures fresh(core) && fresh(linearizer) && fresh(manager)
      ensures core.committee == c && core.period == period && core.gcDepth == depth && core.elections == elections
      ensures manager.own == own && manager.limit == maxSuspended
    {
      core := new Core(c, period, depth, elections, genesisLeader, dag);
      linearizer := new Linearizer.Linearizer(c, depth);
      manager := new BlockManager.BlockManager(own, maxSuspended, first, dag);
      genesis := first.Keys;
      executed, views := [], [];
    }

    /** Takes in blocks that passed verification. */
    method AddBlocks(blocks: seq<Block>, ghost dag: Blocks) returns (missing: set<BlockRef>)
      requires Valid(dag) && Suspension.Named(dag) && Suspension.AllWithin(dag, blocks)
      requires Verified(genesis, blocks)
      modifies manager
      ensures Valid(dag)
      ensures old(manager.Received()) <= manager.Received() <= old(manager.Received()) + Suspension.Refs(blocks)
      ensures old(|manager.suspended|) + |blocks| <= manager.limit ==>
        forall b :: b in blocks && b.ref.round > manager.gcRound ==> b.ref in manager.Received()
      ensures old(|manager.suspended|) + |blocks| <= manager.limit && Suspension.OwnOnce(dag, manager.own) ==>
        forall a :: a in missing <==>
          a !in manager.Received() && exists b :: b in blocks && Suspension.Lacks(b, old(manager.Received()), manager.gcRound, a)
    {
      ghost var held := manager.held;
      var accepted;
      accepted, missing := manager.TryAcceptBlocks(blocks, dag);
      Suspension.StoreAllBounds(held, manager.own, accepted);
    }

    /** What the commit rule sees of the store. */
    method CurrentView(ghost dag: Blocks, ghost faulty: set<Authority>) returns (v: View)
      requires Valid(dag) && Tolerated(core.committee, dag, faulty) && manager.own !in faulty
      ensures v.blocks == manager.held && v.gcRound == manager.gcRound && v.lastCommitRound == core.state.lastCommitRound
      ensures LocalView(core.committee, dag, v) && v.gcRound <= |core.decided|
      ensures IsHighest(manager.held.Keys, v.highestRound)
    {
      var highest := HighestRound(manager.held.Keys);
      v := View(manager.held, manager.gcRound, core.state.lastCommitRound, highest);
      BlockManager.StoredViewIsLocal(core.committee, dag, faulty, manager, core.state.lastCommitRound, highest);
    }

    /** Cuts the sub-dag of one leader and hands it over. */
    method Execute(leader: BlockRef, ghost done: seq<BlockRef>, ghost done': seq<BlockRef>, ghost v: View, ghost dag: Blocks)
      requires done' == done + [leader]
      requires Produces(linearizer.committee, dag, linearizer.gcDepth, views, done, linearizer.State(), executed)
      requires LocalView(linearizer.committee, dag, v) && v.blocks == manager.held
      requires v.gcRound <= Linearizer.GcOf(linearizer.lastLeader, linearizer.gcDepth) && leader in v.blocks && leader.round > linearizer.lastLeader
      requires linearizer.committed <= manager.held.Keys
      modifies this, linearizer
      ensures linearizer.committed <= manager.held.Keys
      ensures Produces(linearizer.committee, dag, linearizer.gcDepth, views, done', linearizer.State(), executed)
      ensures linearizer.lastLeader == leader.round && old(executed) <= executed
    {
      NextSubDag(linearizer.committee, dag, linearizer.gcDepth, views, done, linearizer.State(), executed, v, leader, done');
      HandOver(leader, dag);
      views := views + [manager.held];
    }

    method HandOver(leader: BlockRef, ghost dag: Blocks)
      requires linearizer.committee.Valid() && WellFormed(linearizer.committee, manager.held) && leader in manager.held
      requires leader !in linearizer.committed && leader.round > Linearizer.GcRound(linearizer.State(), linearizer.gcDepth)
      modifies this`executed, linearizer
      ensures linearizer.State() == Linearizer.Commit(linearizer.gcDepth, old(linearizer.State()), manager.held, leader)
      ensures executed == old(executed) + [Linearizer.SubDag(linearizer.gcDepth, old(linearizer.State()), manager.held, leader)]
    {
      var subDag := linearizer.LinearizeSubDag(manager.held, leader, dag);
      executed := executed + [subDag];
    }

    /** The sub-dags of the first n leaders of a batch have been handed over. */
    ghost predicate Executing(leaders: seq<BlockRef>, n: nat, sequenced: seq<BlockRef>, handed: seq<seq<BlockRef>>, before: Round, dag: Blocks)
      requires n <= |leaders|
      reads this, linearizer, manager
    {
      && Produces(linearizer.committee, dag, linearizer.gcDepth, views, sequenced + leaders[..n], linearizer.State(), executed)
      && before <= linearizer.lastLeader == LastRound(before, leaders[..n]) && handed <= executed
      && linearizer.committed <= manager.held.Keys
    }

    method ExecuteNth(leaders: seq<BlockRef>, n: nat, ghost sequenced: seq<BlockRef>, ghost handed: seq<seq<BlockRef>>, ghost before: Round,
                      ghost v: View, ghost dag: Blocks)
      requires n < |leaders| && Executing(leaders, n, sequenced, handed, before, dag)
      requires LocalView(linearizer.committee, dag, v) && v.blocks == manager.held
      requires v.gcRound <= Linearizer.GcOf(before, linearizer.gcDepth) && NewLeaders(v, before, leaders)
      modifies this, linearizer
      ensures Executing(leaders, n + 1, sequenced, handed, before, dag)
    {
      NextLeader(v, before, leaders, n, sequenced, linearizer.gcDepth);
      Execute(leaders[n], sequenced + leaders[..n], sequenced + leaders[..n + 1], v, dag);
    }

    /** Hands over the sub-dags of the leaders of a batch, one after the other. */
    method ExecuteAll(leaders: seq<BlockRef>, ghost sequenced: seq<BlockRef>, ghost v: View, ghost dag: Blocks)
      requires Executing(leaders, 0, sequenced, executed, linearizer.lastLeader, dag)
      requires LocalView(linearizer.committee, dag, v) && v.blocks == manager.held
      requires v.gcRound <= Linearizer.GcOf(linearizer.lastLeader, linearizer.gcDepth) && NewLeaders(v, linearizer.lastLeader, leaders)
      modifies this, linearizer
      ensures Executing(leaders, |leaders|, sequenced, old(executed), old(linearizer.lastLeader), dag)
    {
      ghost var handed, before := executed, linearizer.lastLeader;
      for i := 0 to |leaders|
        invariant Executing(leaders, i, sequenced, handed, before, dag)
      {
        ExecuteNth(leaders, i, sequenced, handed, before, v, dag);
      }
    }

    /** The garbage-collection round follows the last committed leader. */
    method FollowGc(ghost loose: set<BlockRef>, ghost dag: Blocks)
      requires manager.Sound(dag, loose) && manager.gcRound <= Linearizer.GcOf(core.state.lastCommitRound, core.gcDepth)
      requires forall r :: r in loose && r in manager.held ==>
        Suspension.HasAncestors(manager.Known(), Linearizer.GcOf(core.state.lastCommitRound, core.gcDepth), manager.held[r])
      modifies manager
      ensures manager.Valid(dag) && manager.gcRound == Linearizer.GcOf(core.state.lastCommitRound, core.gcDepth)
      ensures manager.Received() == old(manager.Received()) && old(manager.held.Keys) <= manager.held.Keys
    {
      var round := if core.state.lastCommitRound < core.gcDepth then 0 else core.state.lastCommitRound - core.gcDepth;
      manager.AdvanceGc(round, loose, dag);
      manager.TryUnsuspendForLatestGc(dag);
    }

    /** Core and linearizer are in order and stand at the same leader. */
    ghost predicate InStep(dag: Blocks)
      reads this, core, linearizer
    {
      && core.Valid(dag)
      && linearizer.committee == core.committee && linearizer.gcDepth == core.gcDepth
      && Produces(core.committee, dag, core.gcDepth, views, core.state.sequenced, linearizer.State(), executed)
      && linearizer.lastLeader == core.state.lastCommitRound
    }

    /** Runs the rule once and hands over what it committed. */
    method DecideAndExecute(v: View, ghost dag: Blocks, ghost faulty: set<Authority>) returns (more: bool)
      requires InStep(dag) && Tolerated(core.committee, dag, faulty) && LocalView(core.committee, dag, v)
      requires v.blocks == manager.held && v.gcRound <= Linearizer.GcOf(core.state.lastCommitRound, core.gcDepth)
      requires linearizer.committed <= manager.held.Keys
      modifies this, core, linearizer
      ensures linearizer.committed <= manager.held.Keys
      ensures InStep(dag) && old(core.decided) <= core.decided && old(executed) <= executed
      ensures more ==> old(core.state.lastDecided).round < core.state.lastDecided.round <= v.highestRound
      ensures core.state.lastCommitRound >= old(core.state.lastCommitRound)
      ensures !more ==> core.state.lastCommitRound == old(core.state.lastCommitRound)
      ensures !more ==> Halted(v, old(|core.decided|))
    {
      ghost var sequenced := core.state.sequenced;
      var leaders;
      more, leaders := Decide(v, dag, faulty);
      WholeBatch(sequenced, leaders);
      ExecuteAll(leaders, sequenced, v, dag);
      AllExecuted(leaders, sequenced, old(executed), old(linearizer.lastLeader), dag);
    }

    lemma AllExecuted(leaders: seq<BlockRef>, sequenced: seq<BlockRef>, handed: seq<seq<BlockRef>>, before: Round, dag: Blocks)
      requires Executing(leaders, |leaders|, sequenced, handed, before, dag)
      ensures Produces(linearizer.committee, dag, linearizer.gcDepth, views, sequenced + leaders, linearizer.State(), executed)
      ensures before <= linearizer.lastLeader == LastRound(before, leaders) && handed <= executed
    {
      WholeBatch(sequenced, leaders);
    }

    /** Runs the rule once; the linearizer is behind by the leaders returned. */
    method Decide(v: View, ghost dag: Blocks, ghost faulty: set<Authority>) returns (more: bool, leaders: seq<BlockRef>)
      requires core.Valid(dag) && linearizer.lastLeader == core.state.lastCommitRound
      requires Tolerated(core.committee, dag, faulty) && LocalView(core.committee, dag, v)
      requires v.gcRound <= Linearizer.GcOf(core.state.lastCommitRound, core.gcDepth)
      modifies core
      ensures core.Valid(dag) && old(core.decided) <= core.decided
      ensures core.state.sequenced == old(core.state.sequenced) + leaders && NewLeaders(v, linearizer.lastLeader, leaders)
      ensures core.state.lastCommitRound == LastRound(linearizer.lastLeader, leaders)
      ensures more ==> old(core.state.lastDecided).round < core.state.lastDecided.round <= v.highestRound
      ensures !more ==> leaders == [] && Halted(v, old(|core.decided|))
    {
      ghost var after := core.state.lastDecided.round;
      more, leaders := core.CommitPass(v, dag, faulty);
      NewLeadersAbove(v, after, linearizer.lastLeader, leaders);
    }

    /** One turn of the commit loop: decide, hand over, and give up what fell below the
        garbage-collection round.  Without a commit nothing moves. */
    method CommitTurn(ghost dag: Blocks, ghost faulty: set<Authority>) returns (more: bool, ghost v: View, ghost n: nat)
      requires Valid(dag) && Tolerated(core.committee, dag, faulty) && manager.own !in faulty
      modifies this, core, linearizer, manager
      ensures Valid(dag) && Since(old(core.decided), old(executed), old(manager.Received()))
      ensures more ==> old(core.state.lastDecided).round < core.state.lastDecided.round <= v.highestRound
      ensures more ==> IsHighest(old(manager.held.Keys), v.highestRound)
      ensures !more ==> Idle(v, n, dag)
    {
      var current := CurrentView(dag, faulty);
      v, n := current, |core.decided|;
      ghost var received := manager.Received();
      more := DecideAndExecute(current, dag, faulty);
      assert manager.Received() == received;
      if more {
        FollowGc({}, dag);
      }
    }

    /** Decisions and sub-dags were only appended since, and no block was received or lost. */
    ghost predicate Since(decided: seq<LeaderStatus>, handed: seq<seq<BlockRef>>, received: set<BlockRef>)
      reads this, core, manager
    {
      decided <= core.decided && handed <= executed && manager.Received() == received
    }

    /** Runs the commit loop until nothing more is committed.  The loop ends although giving up
        blocks may store new ones under way. */
    method TryCommit(ghost dag: Blocks, ghost faulty: set<Authority>) returns (ghost v: View, ghost n: nat)
      requires Valid(dag) && Tolerated(core.committee, dag, faulty) && manager.own !in faulty
      modifies this, core, linearizer, manager
      ensures Valid(dag) && Since(old(core.decided), old(executed), old(manager.Received()))
      ensures Idle(v, n, dag)
    {
      ghost var received := manager.Received();
      ghost var bound := BoundOf(received);
      v, n := View(manager.held, manager.gcRound, core.state.lastCommitRound, 0), 0;
      var more := true;
      while more
        invariant Valid(dag) && Since(old(core.decided), old(executed), received)
        invariant !more ==> Idle(v, n, dag)
        decreases if core.state.lastDecided.round <= bound then bound - core.state.lastDecided.round else 0, more
      {
        HeldIsBounded(manager, bound);
        more, v, n := CommitTurn(dag, faulty);
      }
    }

    // -- Certified commits --

    /** The first n commits of the peer have been repeated, and their blocks are held. */
    ghost predicate Repeated(peer: Peer, n: nat, past: seq<BlockRef>, dag: Blocks)
      reads this, linearizer, manager
    {
      && CaughtUp(linearizer.committee, dag, linearizer.gcDepth, peer, n, views, past, linearizer.State(), executed)
      && linearizer.committed <= manager.held.Keys
    }

    /** Repeats one commit of the peer on the local store, which need not be complete. */
    method Repeat(commit: CertifiedCommit, ghost peer: Peer, ghost n: nat, ghost views': seq<Blocks>, ghost past': seq<BlockRef>, ghost dag: Blocks)
      requires linearizer.committee.Valid() && WellFormed(linearizer.committee, manager.held)
      requires Repeatable(linearizer.committee, dag, linearizer.gcDepth, peer, n, commit, linearizer.State(), executed, views', past', manager.held)
      requires linearizer.committed <= manager.held.Keys && Suspension.Refs(commit.blocks) <= manager.held.Keys
      modifies this, linearizer
      ensures Repeated(peer, n, past', dag) && executed == old(executed) + [Listed(commit.blocks)]
      ensures linearizer.committed == old(linearizer.committed) + Suspension.Refs(commit.blocks)
    {
      HandOver(commit.leader, dag);
      views := views';
    }

    /** Some of the certified commits, all of the peer, with their blocks held. */
    ghost predicate Ready(commits: seq<CertifiedCommit>, peer: Peer, dag: Blocks)
      reads this, linearizer, manager
    {
      && MadeBy(linearizer.committee, dag, core.elections, core.period, linearizer.gcDepth, peer, commits) && Consecutive(commits)
      && WellFormed(linearizer.committee, manager.held) && Suspension.Within(dag, manager.held)
      && Suspension.Refs(AllBlocks(commits)) <= manager.held.Keys
    }

    method RepeatNth(commits: seq<CertifiedCommit>, i: nat, ghost peer: Peer, ghost n: nat, ghost past: seq<BlockRef>, ghost past': seq<BlockRef>,
                     ghost dag: Blocks)
      requires i < |commits| && Ready(commits, peer, dag)
      requires commits[i].index == n + 1 <= |peer.leaders| && past' == peer.leaders[..n + 1] && Repeated(peer, n, past, dag)
      modifies this, linearizer
      ensures Repeated(peer, n + 1, past', dag) && executed == old(executed) + [Listed(commits[i].blocks)]
      ensures linearizer.committed == old(linearizer.committed) + Suspension.Refs(commits[i].blocks)
    {
      OneOfThem(commits, i);
      ghost var views' := PeerViews(linearizer.committee, dag, core.elections, core.period, linearizer.gcDepth, peer, n + 1);
      CatchUp(linearizer.committee, dag, core.elections, core.period, linearizer.gcDepth, peer, commits[i], n,
              views, past, linearizer.State(), executed, views', past', manager.held);
      Repeat(commits[i], peer, n + 1, views', past', dag);
    }

    /** The first i of the commits have been repeated, and before them n. */
    ghost predicate RepeatedTo(commits: seq<CertifiedCommit>, i: nat, peer: Peer, n: nat, handed: seq<seq<BlockRef>>, dag: Blocks)
      requires i <= |commits|
      reads this, linearizer, manager
    {
      && n + i <= |peer.leaders| && Repeated(peer, n + i, peer.leaders[..n + i], dag)
      && handed <= executed && Suspension.Refs(AllBlocks(commits[..i])) <= linearizer.committed
    }

    /** Repeats commits of the peer one after the other. */
    method RepeatAll(commits: seq<CertifiedCommit>, ghost peer: Peer, ghost n: nat, ghost dag: Blocks)
      requires commits != [] && Ready(commits, peer, dag) && commits[0].index == n + 1 && n + |commits| <= |peer.leaders|
      requires Repeated(peer, n, peer.leaders[..n], dag)
      modifies this, linearizer
      ensures RepeatedTo(commits, |commits|, peer, n, old(executed), dag)
    {
      for i := 0 to |commits|
        invariant RepeatedTo(commits, i, peer, n, old(executed), dag)
      {
        RepeatMore(commits, i, peer, n, old(executed), dag);
      }
    }

    method RepeatMore(commits: seq<CertifiedCommit>, i: nat, ghost peer: Peer, ghost n: nat, ghost handed: seq<seq<BlockRef>>, ghost dag: Blocks)
      requires i < |commits| && Ready(commits, peer, dag) && commits[0].index == n + 1 && n + |commits| <= |peer.leaders|
      requires RepeatedTo(commits, i, peer, n, handed, dag)
      modifies this, linearizer
      ensures RepeatedTo(commits, i + 1, peer, n, handed, dag)
    {
      OneOfThem(commits, i);
      RepeatNth(commits, i, peer, n + i, peer.leaders[..n + i], peer.leaders[..n + i + 1], dag);
    }

    /** Takes in the blocks of certified commits. */
    method AcceptCertified(commits: seq<CertifiedCommit>, ghost peer: Peer, ghost dag: Blocks, ghost faulty: set<Authority>)
      requires manager.Sound(dag, {}) && Tolerated(linearizer.committee, dag, faulty) && manager.own !in faulty
      requires MadeBy(linearizer.committee, dag, core.elections, core.period, linearizer.gcDepth, peer, commits) && Consecutive(commits)
      modifies manager
      ensures Ready(commits, peer, dag) && manager.Sound(dag, Suspension.Refs(AllBlocks(commits)))
      ensures old(manager.held.Keys) <= manager.held.Keys && manager.gcRound == old(manager.gcRound)
    {
      ghost var held := manager.held;
      BlocksOfAll(linearizer.committee, dag, core.elections, core.period, linearizer.gcDepth, peer, commits);
      var accepted := manager.TryAcceptCommittedBlocks(AllBlocks(commits), dag);
      Suspension.StoreAllBounds(held, manager.own, accepted);
      BlockManager.StoredIsWellFormed(linearizer.committee, dag, faulty, manager, Suspension.Refs(AllBlocks(commits)));
    }

    /** Records leaders that the peer, which decided d and committed `all`, committed next. */
    method RecordLeaders(leaders: seq<BlockRef>, ghost d: seq<LeaderStatus>, ghost all: seq<BlockRef>, ghost n: nat,
                         ghost dag: Blocks, ghost faulty: set<Authority>)
      requires core.Valid(dag) && Tolerated(core.committee, dag, faulty) && 0 < |leaders| <= core.period - core.state.unscored
      requires Legitimate(core.committee, dag, core.elections, core.period, d) && all == Committed(d)
      requires n == |core.state.sequenced| && n + |leaders| <= |all| && leaders == all[n..n + |leaders|]
      modifies core
      ensures core.Valid(dag) && old(core.decided) <= core.decided && core.state.lastCommitRound >= old(core.state.lastCommitRound)
      ensures core.state.sequenced == all[..n + |leaders|] && core.state.lastCommitRound == all[n + |leaders| - 1].round
    {
      ghost var sequenced := core.state.sequenced;
      core.TakeCertified(leaders, d, dag, faulty);
      RecordedFollow(sequenced, leaders, all, n);
    }

    method RecordCertified(commits: seq<CertifiedCommit>, ghost peer: Peer, ghost n: nat, ghost dag: Blocks, ghost faulty: set<Authority>)
      requires core.Valid(dag) && Tolerated(core.committee, dag, faulty) && |commits| <= core.period - core.state.unscored
      requires Legitimate(core.committee, dag, core.elections, core.period, peer.decided) && peer.leaders == Committed(peer.decided)
      requires (forall k :: k in commits ==> Quotes(dag, peer, k)) && Consecutive(commits)
      requires commits != [] && commits[0].index == n + 1 && n == |core.state.sequenced|
      modifies core
      ensures core.Valid(dag) && old(core.decided) <= core.decided && core.state.lastCommitRound >= old(core.state.lastCommitRound)
      ensures n + |commits| <= |peer.leaders| && core.state.sequenced == peer.leaders[..n + |commits|]
      ensures core.state.lastCommitRound == peer.leaders[n + |commits| - 1].round
    {
      var leaders := LeadersOf(commits);
      LeadersFollow(dag, peer, commits, n);
      RecordLeaders(leaders, peer.decided, peer.leaders, n, dag, faulty);
    }

    /** Repeats certified commits, up to where the core stands. */
    method CatchUpWithCore(commits: seq<CertifiedCommit>, ghost peer: Peer, ghost n: nat, ghost dag: Blocks)
      requires commits != [] && Ready(commits, peer, dag) && commits[0].index == n + 1 && n + |commits| <= |peer.leaders|
      requires n <= |peer.views| && linearizer.committed <= manager.held.Keys
      requires CaughtUp(linearizer.committee, dag, linearizer.gcDepth, peer, n, peer.views[..n], peer.leaders[..n], linearizer.State(), executed)
      modifies this, linearizer
      ensures Produces(linearizer.committee, dag, linearizer.gcDepth, views, peer.leaders[..n + |commits|], linearizer.State(), executed)
      ensures linearizer.lastLeader == peer.leaders[n + |commits| - 1].round && old(executed) <= executed
      ensures Suspension.Refs(AllBlocks(commits)) <= linearizer.committed <= manager.held.Keys
    {
      views := peer.views[..n];
      RepeatAll(commits, peer, n, dag);
      Arrived(commits, peer, n, old(executed), dag);
    }

    lemma Arrived(commits: seq<CertifiedCommit>, peer: Peer, n: nat, handed: seq<seq<BlockRef>>, dag: Blocks)
      requires commits != [] && RepeatedTo(commits, |commits|, peer, n, handed, dag)
      ensures Produces(linearizer.committee, dag, linearizer.gcDepth, views, peer.leaders[..n + |commits|], linearizer.State(), executed)
      ensures linearizer.lastLeader == peer.leaders[n + |commits| - 1].round && handed <= executed
      ensures Suspension.Refs(AllBlocks(commits)) <= linearizer.committed <= manager.held.Keys
    {
      AllOfThem(commits);
      StandsAt(linearizer.committee, dag, linearizer.gcDepth, peer, n + |commits|, views, peer.leaders[..n + |commits|],
               linearizer.State(), executed);
    }

    /** Records the leaders of certified commits and repeats the commits. */
    method TakeOver(commits: seq<CertifiedCommit>, ghost peer: Peer, ghost n: nat, ghost dag: Blocks, ghost faulty: set<Authority>)
      requires InStep(dag) && Tolerated(core.committee, dag, faulty) && linearizer.committed <= manager.held.Keys
      requires commits != [] && Ready(commits, peer, dag) && commits[0].index == n + 1 && n == |core.state.sequenced|
      requires |commits| <= core.period - core.state.unscored
      modifies this, core, linearizer
      ensures InStep(dag) && Suspension.Refs(AllBlocks(commits)) <= linearizer.committed <= manager.held.Keys
      ensures old(core.decided) <= core.decided && old(executed) <= executed && |core.state.sequenced| == n + |commits|
      ensures core.state.lastCommitRound >= old(core.state.lastCommitRound)
    {
      ghost var decided, sequenced := core.decided, core.state.sequenced;
      RecordCertified(commits, peer, n, dag, faulty);
      FollowsPeer(core.committee, dag, faulty, core.elections, core.period, core.gcDepth, peer, decided, n, views, sequenced,
                  linearizer.State(), executed);
      CatchUpWithCore(commits, peer, n, dag);
    }

    /** The certified commits still to be taken over: commits of the peer, the next one first. */
    ghost predicate Expected(commits: seq<CertifiedCommit>, peer: Peer, dag: Blocks)
      reads this, core
    {
      && MadeBy(core.committee, dag, core.elections, core.period, core.gcDepth, peer, commits) && Consecutive(commits)
      && (commits != [] ==> commits[0].index == |core.state.sequenced| + 1)
    }

    /** A turn of the commit loop on certified commits: as many as the period allows are taken over,
        their blocks stored without regard to their ancestors.  Committing them moves the
        garbage-collection round to where the store is complete again. */
    method CertifiedTurn(commits: seq<CertifiedCommit>, ghost peer: Peer, ghost dag: Blocks, ghost faulty: set<Authority>)
        returns (rest: seq<CertifiedCommit>)
      requires Valid(dag) && Tolerated(core.committee, dag, faulty) && manager.own !in faulty
      requires commits != [] && Expected(commits, peer, dag)
      modifies this, core, linearizer, manager
      ensures Valid(dag) && Expected(rest, peer, dag) && |rest| < |commits|
      ensures old(core.decided) <= core.decided && old(executed) <= executed
      ensures |core.state.sequenced| + |rest| == old(|core.state.sequenced|) + |commits|
    {
      var limit := core.UpdateSchedule(dag);
      var taken;
      taken, rest := SelectCertified(commits, limit);
      AcceptCertified(taken, peer, dag, faulty);
      TakeOver(taken, peer, |core.state.sequenced|, dag, faulty);
      SettleCertified(Suspension.Refs(AllBlocks(taken)), dag, faulty);
    }

    method SettleCertified(ghost loose: set<BlockRef>, ghost dag: Blocks, ghost faulty: set<Authority>)
      requires InStep(dag) && Tolerated(core.committee, dag, faulty) && manager.own !in faulty && manager.Sound(dag, loose)
      requires loose <= linearizer.committed <= manager.held.Keys && genesis <= manager.held.Keys
      requires manager.gcRound <= Linearizer.GcOf(core.state.lastCommitRound, core.gcDepth)
      modifies manager
      ensures Valid(dag)
    {
      CompleteAgain(loose, dag, faulty);
      FollowGc(loose, dag);
    }

    /** Above the garbage-collection round that follows the last commit, committed blocks have their
        ancestors stored. */
    lemma CompleteAgain(loose: set<BlockRef>, dag: Blocks, faulty: set<Authority>)
      requires InStep(dag) && Tolerated(core.committee, dag, faulty) && manager.own !in faulty && manager.Sound(dag, loose)
      requires loose <= linearizer.committed <= manager.held.Keys
      ensures forall r :: r in loose && r in manager.held ==>
        Suspension.HasAncestors(manager.Known(), Linearizer.GcOf(core.state.lastCommitRound, core.gcDepth), manager.held[r])
    {
      Linearizer.RunIsOrdered(core.committee, dag, core.gcDepth, views, core.state.sequenced);
      BlockManager.StoredIsWellFormed(core.committee, dag, faulty, manager, loose);
      CommittedIsClosed(dag, core.gcDepth, linearizer.State(), manager.held, manager.Known(), loose);
    }

    /** Takes over certified commits, turn by turn. */
    method CommitCertified(commits: seq<CertifiedCommit>, ghost peer: Peer, ghost dag: Blocks, ghost faulty: set<Authority>)
      requires Valid(dag) && Tolerated(core.committee, dag, faulty) && manager.own !in faulty && Expected(commits, peer, dag)
      modifies this, core, linearizer, manager
      ensures Valid(dag) && old(core.decided) <= core.decided && old(executed) <= executed
      ensures |core.state.sequenced| == old(|core.state.sequenced|) + |commits|
    {
      var rest := commits;
      while rest != []
        invariant Valid(dag) && Expected(rest, peer, dag) && old(core.decided) <= core.decided && old(executed) <= executed
        invariant |core.state.sequenced| + |rest| == old(|core.state.sequenced|) + |commits|
        decreases |rest|
      {
        rest := CertifiedTurn(rest, peer, dag, faulty);
      }
    }

    /** Takes over those of the certified commits that are new, and goes on committing.  The answer
        is false, where the source panics, if a commit is missing in between. */
    method AddCertifiedCommits(commits: seq<CertifiedCommit>, votes: seq<Block>, ghost dag: Blocks, ghost faulty: set<Authority>) returns (ok: bool)
      requires Valid(dag) && Tolerated(core.committee, dag, faulty) && manager.own !in faulty
      requires Certified(core.committee, dag, core.elections, core.period, core.gcDepth, commits)
      requires Suspension.AllWithin(dag, votes) && Verified(genesis, votes)
      modifies this, core, linearizer, manager
      ensures Valid(dag) && old(core.decided) <= core.decided && old(executed) <= executed
      ensures ok <==> commits == [] || commits[0].index <= old(|executed|) + 1
      ensures ok ==> Executed(commits, executed)
    {
      ghost var peer: Peer :| MadeBy(core.committee, dag, core.elections, core.period, core.gcDepth, peer, commits);
      var behind := FilterNewCommits(commits, |core.state.sequenced|);
      if behind == None {
        return false;
      }
      CommitAll(behind.value, votes, peer, dag, faulty);
      Agrees(peer, commits, dag, faulty);
      return true;
    }

    method CommitAll(commits: seq<CertifiedCommit>, votes: seq<Block>, ghost peer: Peer, ghost dag: Blocks, ghost faulty: set<Authority>)
      requires Valid(dag) && Tolerated(core.committee, dag, faulty) && manager.own !in faulty && Expected(commits, peer, dag)
      requires Suspension.AllWithin(dag, votes) && Verified(genesis, votes)
      modifies this, core, linearizer, manager
      ensures Valid(dag) && old(core.decided) <= core.decided && old(executed) <= executed
      ensures |core.state.sequenced| >= old(|core.state.sequenced|) + |commits|
    {
      TakeVotes(votes, dag, faulty);
      CommitCertified(commits, peer, dag, faulty);
      CommitRest(dag, faulty);
    }

    method TakeVotes(votes: seq<Block>, ghost dag: Blocks, ghost faulty: set<Authority>)
      requires Valid(dag) && Tolerated(core.committee, dag, faulty) && Suspension.AllWithin(dag, votes) && Verified(genesis, votes)
      modifies manager
      ensures Valid(dag)
    {
      BlockManager.FromTolerated(core.committee, dag, faulty, manager.own);
      var _ := AddBlocks(votes, dag);
    }

    method CommitRest(ghost dag: Blocks, ghost faulty: set<Authority>)
      requires Valid(dag) && Tolerated(core.committee, dag, faulty) && manager.own !in faulty
      modifies this, core, linearizer, manager
      ensures Valid(dag) && old(core.decided) <= core.decided && old(executed) <= executed
      ensures |core.state.sequenced| >= old(|core.state.sequenced|)
    {
      ghost var committed := core.decided;
      ghost var _, _ := TryCommit(dag, faulty);
      CommittedPrefix(committed, core.decided);
    }

    /** The validator as another one sees it. */
    ghost function AsPeer(): Peer
      reads this, core
    {
      Peer(core.decided, views, core.state.sequenced, executed)
    }

    lemma IsHonest(dag: Blocks)
      requires Valid(dag)
      ensures Honest(core.committee, dag, core.elections, core.period, core.gcDepth, AsPeer())
    {
    }

    /** Certified commits are what this validator executed at their indices, however it came to. */
    lemma Agrees(peer: Peer, commits: seq<CertifiedCommit>, dag: Blocks, faulty: set<Authority>)
      requires Valid(dag) && Tolerated(core.committee, dag, faulty) && NoneAbove(commits, |core.state.sequenced|)
      requires MadeBy(core.committee, dag, core.elections, core.period, core.gcDepth, peer, commits)
      ensures Executed(commits, executed)
    {
      IsHonest(dag);
      forall k | k in commits ensures 1 <= k.index <= |executed| && executed[k.index - 1] == Listed(k.blocks) {
        CertifiedIsExecuted(core.committee, dag, faulty, core.elections, core.period, core.gcDepth, AsPeer(), peer, k);
      }
    }

    /** The loop stopped on the current store: from n decisions on the rule committed nothing, and
        what it decided beyond the end of the period is left. */
    ghost predicate Idle(v: View, n: nat, dag: Blocks)
      reads this, core, manager
    {
      && v.blocks == manager.held && v.gcRound == manager.gcRound && v.lastCommitRound == core.state.lastCommitRound
      && IsHighest(manager.held.Keys, v.highestRound)
      && Halted(v, n) && LocalView(core.committee, dag, v)
    }

    ghost predicate Halted(v: View, n: nat)
      reads this, core
    {
      && core.committee.Valid() && ValidView(core.committee, v) && v.gcRound <= n <= |core.decided|
      && core.state.unscored < core.period && core.Stopped(v, n)
    }
  }

  lemma NextLeader(v: View, before: Round, leaders: seq<BlockRef>, n: nat, sequenced: seq<BlockRef>, depth: nat)
    requires NewLeaders(v, before, leaders) && n < |leaders|
    ensures leaders[n] in v.blocks && leaders[n].round > LastRound(before, leaders[..n])
    ensures LastRound(before, leaders[..n + 1]) == leaders[n].round > before
    ensures sequenced + leaders[..n + 1] == sequenced + leaders[..n] + [leaders[n]]
    ensures Linearizer.GcOf(before, depth) <= Linearizer.GcOf(LastRound(before, leaders[..n]), depth)
  {
  }

  lemma NewLeadersAbove(v: View, after: Round, below: Round, leaders: seq<BlockRef>)
    requires NewLeaders(v, after, leaders) && below <= after
    ensures NewLeaders(v, below, leaders)
  {
  }

  lemma {:induction false} BoundOf(refs: set<BlockRef>) returns (h: Round)
    ensures Below(refs, h)
  {
    h := 0;
    if r :| r in refs {
      h := BoundOf(refs - {r});
      h := if r.round > h then r.round else h;
    }
  }

  lemma WholeBatch(sequenced: seq<BlockRef>, leaders: seq<BlockRef>)
    ensures sequenced + leaders[..0] == sequenced && leaders[..|leaders|] == leaders
  {
  }

  lemma HeldIsBounded(m: BlockManager.BlockManager, h: Round)
    requires Below(m.Received(), h)
    ensures forall x: nat :: IsHighest(m.held.Keys, x) ==> x <= h
  {
  }

  ghost predicate Below(refs: set<BlockRef>, h: Round) {
    forall r :: r in refs ==> r.round <= h
  }

  /** The highest round among the references, zero if there are none. */
  ghost predicate IsHighest(refs: set<BlockRef>, h: Round) {
    Below(refs, h) && (h == 0 || exists r :: r in refs && r.round == h)
  }

  method HighestRound(refs: set<BlockRef>) returns (h: Round)
    ensures IsHighest(refs, h)
  {
    h := 0;
    var rest := refs;
    while rest != {}
      invariant rest <= refs && (forall r :: r in refs - rest ==> r.round <= h)
      invariant h == 0 || exists r :: r in refs && r.round == h
      decreases rest
    {
      var r :| r in rest;
      if r.round > h {
        h := r.round;
      }
      rest := rest - {r};
    }
  }

  /** A leader that the view holds, above the last one, can be linearized next. */
  lemma NextSubDag(c: Committee, dag: Blocks, depth: nat, views: seq<Blocks>, done: seq<BlockRef>, ordered: Linearizer.Ordered,
                   executed: seq<seq<BlockRef>>, v: View, leader: BlockRef, done': seq<BlockRef>)
    requires Produces(c, dag, depth, views, done, ordered, executed) && done' == done + [leader]
    requires LocalView(c, dag, v) && v.gcRound <= Linearizer.GcRound(ordered, depth) && leader in v.blocks && leader.round > ordered.lastLeader
    ensures WellFormed(c, v.blocks) && leader !in ordered.committed && leader.round > Linearizer.GcRound(ordered, depth)
    ensures forall r :: r in Linearizer.SubDag(depth, ordered, v.blocks, leader) ==> r in v.blocks
    ensures Produces(c, dag, depth, views + [v.blocks], done', Linearizer.Commit(depth, ordered, v.blocks, leader),
                     executed + [Linearizer.SubDag(depth, ordered, v.blocks, leader)])
  {
    Linearizer.RunIsOrdered(c, dag, depth, views, done);
    ProducesNext(c, dag, depth, views, done, ordered, executed, v.blocks, leader, views + [v.blocks], done');
    Linearizer.SubDagIsStored(c, depth, ordered, v.blocks, leader);
  }

  // ---------------------------------------------------------------------------
  // Agreement
  // ---------------------------------------------------------------------------

  /** The safety of the whole node.  Take two validators of one epoch, in any states their methods
      can bring them to, whatever blocks each was given, in whatever order, and however often each
      ran the commit loop.  With at most the tolerated stake faulty, what one has handed to
      execution is a prefix of what the other has. */
  lemma ValidatorsExecuteTheSame(a: Validator, b: Validator, dag: Blocks, faulty: set<Authority>)
    requires a.Valid(dag) && b.Valid(dag) && Tolerated(a.core.committee, dag, faulty)
    requires a.core.committee == b.core.committee && a.core.elections == b.core.elections
    requires a.core.period == b.core.period && a.core.gcDepth == b.core.gcDepth
    ensures a.executed <= b.executed || b.executed <= a.executed
  {
    RunsExecuteTheSame(a.core.committee, dag, faulty, a.core.elections, a.core.period, a.core.gcDepth,
                                 a.core.decided, a.views, b.core.decided, b.views);
  }

  /** At rest the block manager has given up exactly the rounds that lie the depth or more below the
      last committed leader. */
  lemma GcFollowsLeader(a: Validator, dag: Blocks)
    requires a.Valid(dag)
    ensures var sequenced := a.core.state.sequenced;
      var last := if sequenced == [] then GENESIS_ROUND else sequenced[|sequenced| - 1].round;
      && a.core.state.lastCommitRound == a.linearizer.lastLeader == last
      && a.manager.gcRound == if last <= a.core.gcDepth then 0 else last - a.core.gcDepth
  {
    Linearizer.GcIsDepthBelow(a.core.state.lastCommitRound, a.core.gcDepth);
    StandsAtLeader(a.core.committee, dag, a.core.gcDepth, a.views, a.core.state.sequenced, a.linearizer.State(), a.executed);
  }

  lemma StandsAtLeader(c: Committee, dag: Blocks, depth: nat, views: seq<Blocks>, leaders: seq<BlockRef>, ordered: Linearizer.Ordered,
                       executed: seq<seq<BlockRef>>)
    requires Produces(c, dag, depth, views, leaders, ordered, executed)
    ensures ordered.lastLeader == if leaders == [] then GENESIS_ROUND else leaders[|leaders| - 1].round
  {
    StandsAtLast(depth, views, leaders);
  }

  /** What a validator hands over, leader by leader, said of the DAG alone. */
  lemma ExecutedExactly(a: Validator, dag: Blocks, i: nat, r: BlockRef)
    requires a.Valid(dag)
    ensures var leaders, executed := Committed(a.core.decided), a.executed;
      && |executed| == |leaders|
      && (i < |leaders| ==>
          (r in executed[i] <==>
           && (r == leaders[i] || Linked(dag, leaders[i], r))
           && r.round > GENESIS_ROUND && r.round + a.core.gcDepth > (if i == 0 then GENESIS_ROUND else leaders[i - 1].round)
           && forall j :: 0 <= j < i ==> r !in executed[j]))
  {
    if i < |a.core.state.sequenced| {
      RunExact(a.core.committee, dag, a.core.gcDepth, a.views, a.core.state.sequenced, a.executed, i, r);
    }
  }

  /** And no validator hands a block over twice. */
  lemma ExecutedOnce(a: Validator, dag: Blocks)
    requires a.Valid(dag)
    ensures Linearizer.Distinct(Linearizer.Flatten(a.executed))
  {
    Linearizer.RunOrdersOnce(a.core.committee, dag, a.core.gcDepth, a.views, a.core.state.sequenced);
  }

  // ---------------------------------------------------------------------------
  // Runs
  // ---------------------------------------------------------------------------

  /** Whatever a validator has committed may be handed to another one as certified. */
  lemma ValidatorCertifies(a: Validator, dag: Blocks, commits: seq<CertifiedCommit>)
    requires a.Valid(dag) && Consecutive(commits) && forall k :: k in commits ==> Quotes(dag, a.AsPeer(), k)
    ensures Certified(a.core.committee, dag, a.core.elections, a.core.period, a.core.gcDepth, commits)
  {
    a.IsHonest(dag);
    assert MadeBy(a.core.committee, dag, a.core.elections, a.core.period, a.core.gcDepth, a.AsPeer(), commits);
  }

  /** What can happen to a validator: verified blocks arrive, references are looked up, the commit
      loop runs, and certified commits arrive with the blocks that vote for them. */
  datatype Input = Deliver(blocks: seq<Block>) | Find(refs: seq<BlockRef>) | Commit | Certify(commits: seq<CertifiedCommit>, votes: seq<Block>)

  /** One epoch: what its validators have in common. */
  datatype Epoch = Epoch(committee: Committee, period: nat, depth: nat, elections: Elections, genesis: Blocks)

  /** Delivered blocks are blocks that exist and that verification lets through, and certified
      commits are commits of an honest validator. */
  ghost predicate Deliverable(e: Epoch, dag: Blocks, input: Input) {
    && (input.Deliver? ==> Suspension.AllWithin(dag, input.blocks) && Verified(e.genesis.Keys, input.blocks))
    && (input.Certify? ==>
        && Suspension.AllWithin(dag, input.votes) && Verified(e.genesis.Keys, input.votes)
        && Certified(e.committee, dag, e.elections, e.period, e.depth, input.commits))
  }

  ghost predicate BelongsTo(v: Validator, e: Epoch) {
    && v.core.committee == e.committee && v.core.period == e.period && v.core.gcDepth == e.depth && v.core.elections == e.elections
    && v.genesis == e.genesis.Keys
  }

  /** Handles one input; the answer is false if the source panics. */
  method Handle(v: Validator, input: Input, ghost e: Epoch, ghost dag: Blocks, ghost faulty: set<Authority>) returns (ok: bool)
    requires v.Valid(dag) && BelongsTo(v, e) && Tolerated(v.core.committee, dag, faulty) && v.manager.own !in faulty
    requires Deliverable(e, dag, input)
    modifies v, v.core, v.linearizer, v.manager
    ensures v.Valid(dag) && old(v.executed) <= v.executed && old(v.core.decided) <= v.core.decided
    ensures input.Deliver? && old(|v.manager.suspended|) + |input.blocks| <= v.manager.limit ==>
      forall b :: b in input.blocks && b.ref.round > v.manager.gcRound ==> b.ref in v.manager.Received()
    ensures input.Commit? ==> exists view, n :: v.Idle(view, n, dag)
    ensures input.Certify? ==>
      && (ok <==> input.commits == [] || input.commits[0].index <= old(|v.executed|) + 1)
      && (ok ==> Executed(input.commits, v.executed))
  {
    ok := true;
    match input
    case Deliver(blocks) =>
      BlockManager.FromTolerated(v.core.committee, dag, faulty, v.manager.own);
      var _ := v.AddBlocks(blocks, dag);
    case Find(refs) =>
      var _ := v.manager.TryFindBlocks(refs, dag);
    case Commit =>
      ghost var _, _ := v.TryCommit(dag, faulty);
    case Certify(commits, votes) =>
      ok := v.AddCertifiedCommits(commits, votes, dag, faulty);
  }

  /** Handles inputs until they end or the validator stops. */
  method Operate(v: Validator, inputs: seq<Input>, ghost e: Epoch, ghost dag: Blocks, ghost faulty: set<Authority>)
    requires v.Valid(dag) && BelongsTo(v, e) && Tolerated(v.core.committee, dag, faulty) && v.manager.own !in faulty
    requires forall i :: 0 <= i < |inputs| ==> Deliverable(e, dag, inputs[i])
    modifies v, v.core, v.linearizer, v.manager
    ensures v.Valid(dag)
  {
    var ok := true;
    for i := 0 to |inputs|
      invariant v.Valid(dag)
    {
      if ok {
        ok := Handle(v, inputs[i], e, dag, faulty);
      }
    }
  }

  ghost predicate Starts(e: Epoch, dag: Blocks, faulty: set<Authority>) {
    && Tolerated(e.committee, dag, faulty) && e.period > 0 && Suspension.Within(dag, e.genesis)
    && forall r :: r in e.genesis ==> e.genesis[r].ancestors == []
  }

  /** An honest validator's whole life: started from genesis, fed with any inputs. */
  method Live(e: Epoch, genesisLeader: Authority, own: Authority, maxSuspended: nat, inputs: seq<Input>, ghost dag: Blocks, ghost faulty: set<Authority>)
      returns (v: Validator)
    requires Starts(e, dag, faulty) && own !in faulty
    requires forall i :: 0 <= i < |inputs| ==> Deliverable(e, dag, inputs[i])
    ensures fresh(v) && v.Valid(dag) && BelongsTo(v, e)
  {
    v := new Validator(e.committee, e.period, e.depth, e.elections, genesisLeader, own, maxSuspended, e.genesis, dag);
    Operate(v, inputs, e, dag, faulty);
  }

  /** Any two honest validators, fed with any inputs, in any order, hand to execution sequences of
      sub-dags of which one is a prefix of the other; and neither hands a block over twice. */
  method AnyTwoRunsAgree(e: Epoch, genesisLeader: Authority, own: Authority, maxSuspended: nat, inputs: seq<Input>,
                         own': Authority, maxSuspended': nat, inputs': seq<Input>, ghost dag: Blocks, ghost faulty: set<Authority>)
      returns (executed: seq<seq<BlockRef>>, executed': seq<seq<BlockRef>>)
    requires Starts(e, dag, faulty) && own !in faulty && own' !in faulty
    requires forall i :: 0 <= i < |inputs| ==> Deliverable(e, dag, inputs[i])
    requires forall i :: 0 <= i < |inputs'| ==> Deliverable(e, dag, inputs'[i])
    ensures executed <= executed' || executed' <= executed
    ensures Linearizer.Distinct(Linearizer.Flatten(executed)) && Linearizer.Distinct(Linearizer.Flatten(executed'))
  {
    var a := Live(e, genesisLeader, own, maxSuspended, inputs, dag, faulty);
    executed := a.executed;
    ghost var decided, views := a.core.decided, a.views;
    ExecutedOnce(a, dag);
    var b := Live(e, genesisLeader, own', maxSuspended', inputs', dag, faulty);
    executed' := b.executed;
    ExecutedOnce(b, dag);
    RunsExecuteTheSame(e.committee, dag, faulty, e.elections, e.period, e.depth, decided, views, b.core.decided, b.views);
  }
}
