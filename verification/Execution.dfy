/** What leaves consensus: the same numbered sequence of sub-dags at every validator. */
module Execution {
  import opened Committees
  import opened Dag
  import opened BaseCommitter
  import opened CommitSequence
  import Linearizer

  /** Two consensus cores of one epoch hold comparable commit sequences at all times. */
  lemma CoresAgree(a: Core, b: Core, dag: Blocks, faulty: set<Authority>)
    requires a.Valid(dag) && b.Valid(dag) && Tolerated(a.committee, dag, faulty)
    requires a.committee == b.committee && a.elections == b.elections && a.period == b.period
    ensures a.state.sequenced <= b.state.sequenced || b.state.sequenced <= a.state.sequenced
    ensures a.decided <= b.decided || b.decided <= a.decided
  {
    CommittedAgree(a.committee, dag, faulty, a.elections, a.period, a.decided, b.decided);
    if |a.decided| <= |b.decided| {
      SequencesAgree(a.committee, dag, faulty, a.elections, a.period, a.decided, b.decided);
    } else {
      SequencesAgree(a.committee, dag, faulty, a.elections, a.period, b.decided, a.decided);
    }
  }

  /** The sub-dags of a run on the given views, and the order they leave behind. */
  ghost predicate Produces(c: Committee, dag: Blocks, depth: nat, views: seq<Blocks>, leaders: seq<BlockRef>,
                           ordered: Linearizer.Ordered, executed: seq<seq<BlockRef>>) {
    && c.Valid() && Linearizer.RunOk(c, dag, depth, views, leaders)
    && ordered == Linearizer.After(depth, views, leaders)
    && executed == Linearizer.SubDags(depth, views, leaders)
  }

  lemma RunDropLast(c: Committee, dag: Blocks, depth: nat, views: seq<Blocks>, leaders: seq<BlockRef>)
    requires c.Valid() && Linearizer.RunOk(c, dag, depth, views, leaders) && leaders != []
    ensures Linearizer.RunOk(c, dag, depth, views[..|leaders| - 1], leaders[..|leaders| - 1])
  {
  }

  lemma {:induction false} RunPrefix(c: Committee, dag: Blocks, depth: nat, views: seq<Blocks>, leaders: seq<BlockRef>,
                                     views': seq<Blocks>, leaders': seq<BlockRef>)
    requires c.Valid() && Linearizer.RunOk(c, dag, depth, views, leaders)
    requires views' <= views && leaders' <= leaders && |views'| == |leaders'|
    ensures Linearizer.RunOk(c, dag, depth, views', leaders')
    decreases |leaders|
  {
    if |leaders'| == |leaders| {
      assert views' == views && leaders' == leaders;
    } else {
      var m := |leaders| - 1;
      RunDropLast(c, dag, depth, views, leaders);
      RunPrefix(c, dag, depth, views[..m], leaders[..m], views', leaders');
    }
  }

  /** One more leader on one more view. */
  ghost predicate Extends(views: seq<Blocks>, leaders: seq<BlockRef>, views': seq<Blocks>, leaders': seq<BlockRef>) {
    && |views| == |leaders| && |views'| == |leaders'| == |leaders| + 1
    && views'[..|leaders|] == views && leaders'[..|leaders|] == leaders
  }

  lemma Appended(views: seq<Blocks>, leaders: seq<BlockRef>, blocks: Blocks, leader: BlockRef)
    requires |views| == |leaders|
    ensures Extends(views, leaders, views + [blocks], leaders + [leader])
    ensures (views + [blocks])[|leaders|] == blocks && (leaders + [leader])[|leaders|] == leader
  {
  }

  lemma StillHeld(views: seq<Blocks>, leaders: seq<BlockRef>, views': seq<Blocks>, leaders': seq<BlockRef>)
    requires Extends(views, leaders, views', leaders') && (forall i :: 0 <= i < |leaders| ==> leaders[i] in views[i])
    requires leaders'[|leaders|] in views'[|leaders|]
    ensures forall i :: 0 <= i < |leaders'| ==> leaders'[i] in views'[i]
  {
    forall i | 0 <= i < |leaders| ensures leaders'[i] in views'[i] {
      assert leaders'[..|leaders|][i] == leaders[i] && views'[..|leaders|][i] == views[i];
    }
  }

  /** A run goes on with every leader that can be linearized next. */
  lemma RunExtends(c: Committee, dag: Blocks, depth: nat, views: seq<Blocks>, leaders: seq<BlockRef>, st: Linearizer.Ordered,
                   views': seq<Blocks>, leaders': seq<BlockRef>)
    requires c.Valid() && Linearizer.RunOk(c, dag, depth, views, leaders) && st == Linearizer.After(depth, views, leaders)
    requires Extends(views, leaders, views', leaders')
    requires Linearizer.CanLinearize(c, dag, depth, st, views'[|leaders|], leaders'[|leaders|])
    ensures Linearizer.RunOk(c, dag, depth, views', leaders')
    ensures Linearizer.After(depth, views', leaders') == Linearizer.Commit(depth, st, views'[|leaders|], leaders'[|leaders|])
    ensures Linearizer.SubDags(depth, views', leaders') ==
      Linearizer.SubDags(depth, views, leaders) + [Linearizer.SubDag(depth, st, views'[|leaders|], leaders'[|leaders|])]
  {
    StillHeld(views, leaders, views', leaders');
  }

  lemma SubDagsDropLast(depth: nat, views: seq<Blocks>, leaders: seq<BlockRef>, views': seq<Blocks>, leaders': seq<BlockRef>, n: nat)
    requires |views| == |leaders| && n < |leaders| && (forall i :: 0 <= i < |leaders| ==> leaders[i] in views[i])
    requires views' == views[..|leaders| - 1] && leaders' == leaders[..|leaders| - 1]
    ensures Linearizer.SubDags(depth, views, leaders)[..n] == Linearizer.SubDags(depth, views', leaders')[..n]
    ensures n < |leaders'| ==> Linearizer.SubDags(depth, views, leaders)[n] == Linearizer.SubDags(depth, views', leaders')[n]
  {
  }

  lemma {:induction false} SubDagsPrefix(depth: nat, views: seq<Blocks>, leaders: seq<BlockRef>, n: nat, done: seq<Blocks>, past: seq<BlockRef>)
    requires |views| == |leaders| && n <= |leaders| && (forall i :: 0 <= i < |leaders| ==> leaders[i] in views[i])
    requires done == views[..n] && past == leaders[..n]
    ensures Linearizer.SubDags(depth, views, leaders)[..n] == Linearizer.SubDags(depth, done, past)
    decreases |leaders|
  {
    if n == |leaders| {
      assert done == views && past == leaders;
    } else {
      var m := |leaders| - 1;
      Reslice(views, leaders, m, n);
      SubDagsPrefix(depth, views[..m], leaders[..m], n, done, past);
      SubDagsDropLast(depth, views, leaders, views[..m], leaders[..m], n);
    }
  }

  lemma Reslice(views: seq<Blocks>, leaders: seq<BlockRef>, m: nat, n: nat)
    requires n <= m <= |leaders| && |views| == |leaders|
    ensures views[..m][..n] == views[..n] && leaders[..m][..n] == leaders[..n]
    ensures n < m ==> views[..m][n] == views[n] && leaders[..m][n] == leaders[n]
  {
  }

  /** The n-th step of a run. */
  lemma {:induction false} RunAt(c: Committee, dag: Blocks, depth: nat, views: seq<Blocks>, leaders: seq<BlockRef>, n: nat,
                                 done: seq<Blocks>, past: seq<BlockRef>)
    requires c.Valid() && Linearizer.RunOk(c, dag, depth, views, leaders) && n < |leaders|
    requires done == views[..n] && past == leaders[..n]
    ensures Linearizer.RunOk(c, dag, depth, done, past)
    ensures var st := Linearizer.After(depth, done, past);
      && Linearizer.OrderedOk(dag, depth, st) && Linearizer.CanLinearize(c, dag, depth, st, views[n], leaders[n])
      && Linearizer.SubDags(depth, views, leaders)[n] == Linearizer.SubDag(depth, st, views[n], leaders[n])
    decreases |leaders|
  {
    var m := |leaders| - 1;
    if n == m {
      LastStep(c, dag, depth, views, leaders, done, past);
      LastSubDag(depth, views, leaders, done, past);
    } else {
      RunDropLast(c, dag, depth, views, leaders);
      Reslice(views, leaders, m, n);
      RunAt(c, dag, depth, views[..m], leaders[..m], n, done, past);
      SubDagsDropLast(depth, views, leaders, views[..m], leaders[..m], n);
    }
  }

  lemma LastStep(c: Committee, dag: Blocks, depth: nat, views: seq<Blocks>, leaders: seq<BlockRef>, views': seq<Blocks>, leaders': seq<BlockRef>)
    requires c.Valid() && Linearizer.RunOk(c, dag, depth, views, leaders) && leaders != []
    requires views' == views[..|leaders| - 1] && leaders' == leaders[..|leaders| - 1]
    ensures Linearizer.RunOk(c, dag, depth, views', leaders')
    ensures var st := Linearizer.After(depth, views', leaders');
      && Linearizer.OrderedOk(dag, depth, st)
      && Linearizer.CanLinearize(c, dag, depth, st, views[|leaders| - 1], leaders[|leaders| - 1])
  {
    Linearizer.RunIsOrdered(c, dag, depth, views', leaders');
  }

  lemma LastSubDag(depth: nat, views: seq<Blocks>, leaders: seq<BlockRef>, views': seq<Blocks>, leaders': seq<BlockRef>)
    requires |views| == |leaders| && leaders != [] && forall i :: 0 <= i < |leaders| ==> leaders[i] in views[i]
    requires views' == views[..|leaders| - 1] && leaders' == leaders[..|leaders| - 1]
    ensures Linearizer.SubDags(depth, views, leaders)[|leaders| - 1] ==
      Linearizer.SubDag(depth, Linearizer.After(depth, views', leaders'), views[|leaders| - 1], leaders[|leaders| - 1])
  {
  }

  lemma ProducesNext(c: Committee, dag: Blocks, depth: nat, views: seq<Blocks>, leaders: seq<BlockRef>, ordered: Linearizer.Ordered,
                     executed: seq<seq<BlockRef>>, blocks: Blocks, leader: BlockRef, views': seq<Blocks>, leaders': seq<BlockRef>)
    requires Produces(c, dag, depth, views, leaders, ordered, executed)
    requires Linearizer.CanLinearize(c, dag, depth, ordered, blocks, leader)
    requires views' == views + [blocks] && leaders' == leaders + [leader]
    ensures Produces(c, dag, depth, views', leaders', Linearizer.Commit(depth, ordered, blocks, leader),
                     executed + [Linearizer.SubDag(depth, ordered, blocks, leader)])
  {
    Appended(views, leaders, blocks, leader);
    RunExtends(c, dag, depth, views, leaders, ordered, views', leaders');
  }

  /** Above the floor, the history of a block in a complete view is its history in the whole DAG. */
  lemma {:induction false} HistoryInView(c: Committee, dag: Blocks, view: Blocks, floor: Round, from: BlockRef, to: BlockRef)
    requires c.Valid() && WellFormed(c, view) && ClosedAbove(view, floor) && from in view && to.round >= floor
    requires forall r :: r in view ==> r in dag && dag[r] == view[r]
    ensures Linked(view, from, to) <==> Linked(dag, from, to)
    decreases from.round
  {
    forall a | a in view[from].ancestors && to.round < a.round < from.round
      ensures Linked(view, a, to) <==> Linked(dag, a, to)
    {
      HistoryInView(c, dag, view, floor, a, to);
    }
  }

  lemma {:induction false} InFlatten(parts: seq<seq<BlockRef>>, r: BlockRef)
    ensures r in Linearizer.Elements(Linearizer.Flatten(parts)) <==> exists j :: 0 <= j < |parts| && r in parts[j]
  {
    if parts != [] {
      var n := |parts| - 1;
      InFlatten(parts[..n], r);
      assert parts == parts[..n] + [parts[n]];
    }
  }

  /** Over a whole run, on whatever views: the i-th sub-dag is exactly what lies in the history of
      the i-th leader, is not genesis, is less than the depth below the leader before, and is in no
      earlier sub-dag. */
  lemma RunExact(c: Committee, dag: Blocks, depth: nat, views: seq<Blocks>, leaders: seq<BlockRef>, subDags: seq<seq<BlockRef>>, i: nat, r: BlockRef)
    requires c.Valid() && Linearizer.RunOk(c, dag, depth, views, leaders) && i < |leaders|
    requires subDags == Linearizer.SubDags(depth, views, leaders)
    ensures r in subDags[i] <==>
      && (r == leaders[i] || Linked(dag, leaders[i], r))
      && r.round > GENESIS_ROUND && r.round + depth > (if i == 0 then GENESIS_ROUND else leaders[i - 1].round)
      && forall j :: 0 <= j < i ==> r !in subDags[j]
  {
    RunAt(c, dag, depth, views, leaders, i, views[..i], leaders[..i]);
    LastOf(leaders, i);
    TakenBefore(depth, views, leaders, subDags, i, views[..i], leaders[..i], r);
    NextExact(c, dag, depth, views[..i], leaders[..i], views[i], leaders[i], r);
  }

  lemma LastOf(leaders: seq<BlockRef>, i: nat)
    requires i < |leaders|
    ensures |leaders[..i]| == i && (i > 0 ==> leaders[..i][i - 1] == leaders[i - 1])
  {
  }

  lemma NextExact(c: Committee, dag: Blocks, depth: nat, done: seq<Blocks>, past: seq<BlockRef>, view: Blocks, leader: BlockRef, r: BlockRef)
    requires c.Valid() && Linearizer.RunOk(c, dag, depth, done, past)
    requires Linearizer.OrderedOk(dag, depth, Linearizer.After(depth, done, past))
    requires Linearizer.CanLinearize(c, dag, depth, Linearizer.After(depth, done, past), view, leader)
    ensures r in Linearizer.SubDag(depth, Linearizer.After(depth, done, past), view, leader) <==>
      && (r == leader || Linked(dag, leader, r))
      && r.round > GENESIS_ROUND && r.round + depth > (if past == [] then GENESIS_ROUND else past[|past| - 1].round)
      && r !in Linearizer.After(depth, done, past).committed
  {
    StepExact(c, dag, depth, Linearizer.After(depth, done, past), view, leader, r);
    StandsAtLast(depth, done, past);
  }

  lemma StepExact(c: Committee, dag: Blocks, depth: nat, st: Linearizer.Ordered, view: Blocks, leader: BlockRef, r: BlockRef)
    requires c.Valid() && Linearizer.OrderedOk(dag, depth, st) && Linearizer.CanLinearize(c, dag, depth, st, view, leader)
    ensures r in Linearizer.SubDag(depth, st, view, leader) <==>
      (r == leader || Linked(dag, leader, r)) && r.round > GENESIS_ROUND && r.round + depth > st.lastLeader && r !in st.committed
  {
    Linearizer.SubDagExact(c, dag, depth, st, view, leader, r);
    if r.round + depth > st.lastLeader && r.round > GENESIS_ROUND {
      Linearizer.GcIsDepthBelow(st.lastLeader, depth);
      HistoryInView(c, dag, view, Linearizer.GcRound(st, depth), leader, r);
    }
  }

  lemma TakenBefore(depth: nat, views: seq<Blocks>, leaders: seq<BlockRef>, subDags: seq<seq<BlockRef>>, i: nat,
                    done: seq<Blocks>, past: seq<BlockRef>, r: BlockRef)
    requires |views| == |leaders| && i <= |leaders| && (forall k :: 0 <= k < |leaders| ==> leaders[k] in views[k])
    requires subDags == Linearizer.SubDags(depth, views, leaders) && done == views[..i] && past == leaders[..i]
    ensures r in Linearizer.After(depth, done, past).committed <==> exists j :: 0 <= j < i && r in subDags[j]
  {
    SubDagsPrefix(depth, views, leaders, i, done, past);
    Linearizer.FlattenIsCommitted(depth, done, past);
    InPrefix(subDags, i, Linearizer.SubDags(depth, done, past), r);
  }

  lemma InPrefix(subDags: seq<seq<BlockRef>>, i: nat, parts: seq<seq<BlockRef>>, r: BlockRef)
    requires i <= |subDags| && parts == subDags[..i]
    ensures r in Linearizer.Elements(Linearizer.Flatten(parts)) <==> exists j :: 0 <= j < i && r in subDags[j]
  {
    InFlatten(parts, r);
    assert forall j :: 0 <= j < i ==> parts[j] == subDags[j];
  }

  lemma StandsAtLast(depth: nat, views: seq<Blocks>, leaders: seq<BlockRef>)
    requires |views| == |leaders| && forall i :: 0 <= i < |leaders| ==> leaders[i] in views[i]
    ensures Linearizer.After(depth, views, leaders).lastLeader == if leaders == [] then GENESIS_ROUND else leaders[|leaders| - 1].round
  {
  }

  /** A run over a prefix of the leaders yields a prefix of the sub-dags, on whatever views. */
  lemma PrefixRunsAgree(c: Committee, dag: Blocks, depth: nat, views: seq<Blocks>, leaders: seq<BlockRef>,
                        views': seq<Blocks>, leaders': seq<BlockRef>)
    requires c.Valid() && leaders <= leaders'
    requires Linearizer.RunOk(c, dag, depth, views, leaders) && Linearizer.RunOk(c, dag, depth, views', leaders')
    ensures Linearizer.SubDags(depth, views, leaders) <= Linearizer.SubDags(depth, views', leaders')
  {
    var n := |leaders|;
    assert leaders == leaders'[..n];
    RunPrefix(c, dag, depth, views', leaders', views'[..n], leaders);
    SubDagsPrefix(depth, views', leaders', n, views'[..n], leaders);
    Linearizer.RunsAgree(c, dag, depth, views, views'[..n], leaders);
  }

  /** Legitimate decisions, linearized on whatever views, give sub-dag sequences of which one is a
      prefix of the other. */
  lemma RunsExecuteTheSame(c: Committee, dag: Blocks, faulty: set<Authority>, elections: Elections, period: nat, depth: nat,
                           d: seq<LeaderStatus>, views: seq<Blocks>, d': seq<LeaderStatus>, views': seq<Blocks>)
    requires Tolerated(c, dag, faulty) && period > 0
    requires Legitimate(c, dag, elections, period, d) && Legitimate(c, dag, elections, period, d')
    requires Linearizer.RunOk(c, dag, depth, views, Committed(d)) && Linearizer.RunOk(c, dag, depth, views', Committed(d'))
    ensures
      || Linearizer.SubDags(depth, views, Committed(d)) <= Linearizer.SubDags(depth, views', Committed(d'))
      || Linearizer.SubDags(depth, views', Committed(d')) <= Linearizer.SubDags(depth, views, Committed(d))
  {
    CommittedAgree(c, dag, faulty, elections, period, d, d');
    if Committed(d) <= Committed(d') {
      PrefixRunsAgree(c, dag, depth, views, Committed(d), views', Committed(d'));
    } else {
      PrefixRunsAgree(c, dag, depth, views', Committed(d'), views, Committed(d));
    }
  }

  // ---------------------------------------------------------------------------
  // Global execution index
  // ---------------------------------------------------------------------------

  /** The index a commit is executed under. */
  function GlobalExecIndex(commitIndex: nat, epochBase: nat): nat {
    epochBase + commitIndex
  }

  /** Base of an epoch: the last index of the epoch before, from the commits each epoch had. */
  function EpochBase(commits: seq<nat>, epoch: nat): nat
    requires epoch <= |commits|
  {
    if epoch == 0 then 0 else EpochBase(commits, epoch - 1) + commits[epoch - 1]
  }

  ghost predicate IsCommit(commits: seq<nat>, epoch: nat, commit: nat) {
    epoch < |commits| && 1 <= commit <= commits[epoch]
  }

  lemma {:induction false} BaseMonotone(commits: seq<nat>, e: nat, e': nat)
    requires e < e' <= |commits|
    ensures EpochBase(commits, e) + commits[e] <= EpochBase(commits, e')
    decreases e'
  {
    if e + 1 < e' {
      BaseMonotone(commits, e, e' - 1);
    }
  }

  /** Later commits get larger indices, within an epoch and across epochs, so no index is used twice. */
  lemma IndexIncreases(commits: seq<nat>, e: nat, k: nat, e': nat, k': nat)
    requires IsCommit(commits, e, k) && IsCommit(commits, e', k')
    ensures e < e' || (e == e' && k < k') <==>
      GlobalExecIndex(k, EpochBase(commits, e)) < GlobalExecIndex(k', EpochBase(commits, e'))
  {
    if e < e' {
      BaseMonotone(commits, e, e');
    } else if e' < e {
      BaseMonotone(commits, e', e);
    }
  }

  /** And none is skipped: every index up to the total belongs to a commit. */
  lemma {:induction false} IndexCovers(commits: seq<nat>, index: nat) returns (e: nat, k: nat)
    requires 1 <= index <= EpochBase(commits, |commits|)
    ensures IsCommit(commits, e, k) && GlobalExecIndex(k, EpochBase(commits, e)) == index
    decreases |commits|
  {
    var n := |commits| - 1;
    BasePrefix(commits, n);
    if index > EpochBase(commits, n) {
      e, k := n, index - EpochBase(commits, n);
    } else {
      e, k := IndexCovers(commits[..n], index);
      assert commits[..n][..e] == commits[..e];
      BasePrefix(commits, e);
      BasePrefix(commits[..n], e);
    }
  }

  lemma {:induction false} BasePrefix(commits: seq<nat>, e: nat)
    requires e <= |commits|
    ensures EpochBase(commits[..e], e) == EpochBase(commits, e)
    decreases e
  {
    if e > 0 {
      BasePrefix(commits, e - 1);
      assert commits[..e][..e - 1] == commits[..e - 1];
      BasePrefix(commits[..e], e - 1);
    }
  }

  /** The counter of the replaced rule, "last + 1": how many of the first n commits of the epoch a
      node saw, on top of the base. */
  function LocalIndex(base: nat, seen: seq<bool>, n: nat): nat
    requires n <= |seen|
  {
    if n == 0 then base else LocalIndex(base, seen, n - 1) + (if seen[n - 1] then 1 else 0)
  }

  /** It never runs ahead, and it is right about a commit exactly when the node saw that commit and
      every commit of the epoch before it. */
  lemma {:induction false} LocalTrackerAgrees(base: nat, seen: seq<bool>, n: nat)
    requires n <= |seen|
    ensures LocalIndex(base, seen, n) <= GlobalExecIndex(n, base)
    ensures LocalIndex(base, seen, n) == GlobalExecIndex(n, base) <==> forall i :: 0 <= i < n ==> seen[i]
  {
    if n > 0 {
      LocalTrackerAgrees(base, seen, n - 1);
    }
  }
}
