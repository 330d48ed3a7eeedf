/** Commits fetched from other validators: a quorum voted for the last of them, so that an honest
    validator has made them all. */
module CertifiedCommits {
  import opened Wrappers
  import opened Committees
  import opened Dag
  import opened BaseCommitter
  import opened CommitSequence
  import opened Execution
  import Suspension
  import Linearizer

  datatype CertifiedCommit = CertifiedCommit(index: nat, leader: BlockRef, blocks: seq<Block>)

  /** The references of the blocks, in order. */
  function Listed(blocks: seq<Block>): (refs: seq<BlockRef>) {
    if blocks == [] then [] else Listed(blocks[..|blocks| - 1]) + [blocks[|blocks| - 1].ref]
  }

  lemma {:induction false} ListedRefs(blocks: seq<Block>, r: BlockRef)
    ensures r in Listed(blocks) <==> r in Suspension.Refs(blocks)
  {
    if blocks != [] {
      ListedRefs(blocks[..|blocks| - 1], r);
    }
  }

  /** One reference for each block, at its place. */
  lemma {:induction false} ListedExact(blocks: seq<Block>)
    ensures |Listed(blocks)| == |blocks| && forall i :: 0 <= i < |blocks| ==> Listed(blocks)[i] == blocks[i].ref
  {
    if blocks != [] {
      ListedExact(blocks[..|blocks| - 1]);
    }
  }

  /** Fetched commits have consecutive indices. */
  ghost predicate Consecutive(commits: seq<CertifiedCommit>) {
    forall i :: 0 <= i < |commits| ==> commits[i].index == commits[0].index + i
  }

  /** A validator: its decisions, the views it linearized its leaders on, and the sub-dags that gave. */
  datatype Peer = Peer(decided: seq<LeaderStatus>, views: seq<Blocks>, leaders: seq<BlockRef>, subDags: seq<seq<BlockRef>>)

  ghost predicate Honest(c: Committee, dag: Blocks, elections: Elections, period: nat, depth: nat, peer: Peer) {
    && c.Valid() && period > 0 && Legitimate(c, dag, elections, period, peer.decided) && peer.leaders == Committed(peer.decided)
    && Linearizer.RunOk(c, dag, depth, peer.views, peer.leaders)
    && peer.subDags == Linearizer.SubDags(depth, peer.views, peer.leaders)
  }

  /** The commit is the one the peer made at that index. */
  ghost predicate Quotes(dag: Blocks, peer: Peer, k: CertifiedCommit) {
    && 1 <= k.index <= |peer.leaders| && k.index <= |peer.subDags| && k.leader == peer.leaders[k.index - 1]
    && Listed(k.blocks) == peer.subDags[k.index - 1] && Suspension.AllWithin(dag, k.blocks)
  }

  ghost predicate MadeBy(c: Committee, dag: Blocks, elections: Elections, period: nat, depth: nat, peer: Peer, commits: seq<CertifiedCommit>) {
    Honest(c, dag, elections, period, depth, peer) && forall k :: k in commits ==> Quotes(dag, peer, k)
  }

  ghost predicate Certified(c: Committee, dag: Blocks, elections: Elections, period: nat, depth: nat, commits: seq<CertifiedCommit>) {
    Consecutive(commits) && exists peer: Peer :: MadeBy(c, dag, elections, period, depth, peer, commits)
  }

  /** No index is above n. */
  ghost predicate NoneAbove(commits: seq<CertifiedCommit>, n: nat) {
    forall k :: k in commits ==> k.index <= n
  }

  lemma KeptIsSuffix(commits: seq<CertifiedCommit>, n: nat, last: nat)
    requires Consecutive(commits) && n <= |commits|
    requires forall j :: 0 <= j < |commits| ==> (commits[j].index > last <==> j >= n)
    ensures Consecutive(commits[n..]) && forall k :: k in commits[n..] <==> k in commits && k.index > last
    ensures n < |commits| && commits[n].index == last + 1 ==> NoneAbove(commits, last + |commits| - n)
    ensures n == |commits| ==> NoneAbove(commits, last)
    ensures n < |commits| && commits[n].index != last + 1 <==> commits != [] && commits[0].index > last + 1
  {
    forall i | 0 <= i < |commits[n..]| ensures commits[n..][i].index == commits[n..][0].index + i {
      assert commits[n..][i] == commits[n + i] && commits[n..][0] == commits[n];
    }
    if 0 < n < |commits| {
      assert commits[n - 1].index <= last && commits[n].index == commits[n - 1].index + 1;
    }
  }

  /** Keeps the commits behind the last one made; nothing is returned if one is missing in between,
      on which the source panics. */
  method FilterNewCommits(commits: seq<CertifiedCommit>, last: nat) returns (behind: Option<seq<CertifiedCommit>>)
    requires Consecutive(commits)
    ensures behind == None <==> commits != [] && commits[0].index > last + 1
    ensures behind.Some? ==>
      && Consecutive(behind.value) && (forall k :: k in behind.value <==> k in commits && k.index > last)
      && (behind.value != [] ==> behind.value[0].index == last + 1) && NoneAbove(commits, last + |behind.value|)
  {
    var kept := [];
    ghost var skipped := 0;
    for i := 0 to |commits|
      invariant skipped <= i && kept == commits[skipped..i]
      invariant forall j :: 0 <= j < i ==> (commits[j].index > last <==> j >= skipped)
    {
      assert skipped < i ==> last < commits[skipped].index < commits[i].index;
      if commits[i].index > last {
        kept := kept + [commits[i]];
      } else {
        skipped := i + 1;
      }
    }
    assert kept == commits[skipped..];
    KeptIsSuffix(commits, skipped, last);
    if kept != [] && kept[0].index != last + 1 {
      return None;
    }
    return Some(kept);
  }

  // ---------------------------------------------------------------------------
  // Repeating what the peer did
  // ---------------------------------------------------------------------------

  /** One's own run might as well have been made on the peer's views. */
  lemma OnPeerViews(c: Committee, dag: Blocks, depth: nat, views: seq<Blocks>, leaders: seq<BlockRef>, ordered: Linearizer.Ordered,
                    executed: seq<seq<BlockRef>>, views': seq<Blocks>, leaders': seq<BlockRef>)
    requires Produces(c, dag, depth, views, leaders, ordered, executed)
    requires leaders <= leaders' && Linearizer.RunOk(c, dag, depth, views', leaders')
    ensures Produces(c, dag, depth, views'[..|leaders|], leaders, ordered, executed)
  {
    RunPrefix(c, dag, depth, views', leaders', views'[..|leaders|], leaders);
    Linearizer.RunsAgree(c, dag, depth, views, views'[..|leaders|], leaders);
  }

  lemma PeerStep(c: Committee, dag: Blocks, depth: nat, views: seq<Blocks>, leaders: seq<BlockRef>, n: nat,
                 done: seq<Blocks>, past: seq<BlockRef>, done': seq<Blocks>, past': seq<BlockRef>,
                 ordered: Linearizer.Ordered, executed: seq<seq<BlockRef>>, subDag: seq<BlockRef>, held: Blocks)
    requires c.Valid() && Linearizer.RunOk(c, dag, depth, views, leaders) && n < |leaders|
    requires done == views[..n] && past == leaders[..n] && done' == done + [views[n]] && past' == past + [leaders[n]]
    requires Produces(c, dag, depth, done, past, ordered, executed)
    requires subDag == Linearizer.SubDags(depth, views, leaders)[n]
    requires Suspension.Within(dag, held) && forall r :: r in subDag ==> r in held
    ensures leaders[n] in held && leaders[n] !in ordered.committed && leaders[n].round > ordered.lastLeader
    ensures Linearizer.SubDag(depth, ordered, held, leaders[n]) == subDag
    ensures Produces(c, dag, depth, done', past', Linearizer.Commit(depth, ordered, held, leaders[n]), executed + [subDag])
  {
    PeerAt(c, dag, depth, views, leaders, n, done, past, ordered, subDag);
    StepOn(c, dag, depth, done, past, ordered, executed, views[n], leaders[n], done', past', subDag, held);
  }

  /** The first n commits of the peer have been repeated. */
  ghost predicate CaughtUp(c: Committee, dag: Blocks, depth: nat, peer: Peer, n: nat, views: seq<Blocks>, past: seq<BlockRef>,
                           ordered: Linearizer.Ordered, executed: seq<seq<BlockRef>>) {
    && n <= |peer.leaders| && n <= |peer.views| && views == peer.views[..n] && past == peer.leaders[..n]
    && Produces(c, dag, depth, views, past, ordered, executed)
  }

  lemma StepTaken(peer: Peer, n: nat, views: seq<Blocks>, past: seq<BlockRef>, views': seq<Blocks>, past': seq<BlockRef>)
    requires n < |peer.leaders| && n < |peer.views| && views == peer.views[..n] && past == peer.leaders[..n]
    requires views' == peer.views[..n + 1] && past' == peer.leaders[..n + 1]
    ensures views' == views + [peer.views[n]] && past' == past + [peer.leaders[n]]
  {
  }

  /** What was committed so far are the peer's first commits, and might have been linearized on its
      views. */
  lemma FollowsPeer(c: Committee, dag: Blocks, faulty: set<Authority>, elections: Elections, period: nat, depth: nat, peer: Peer,
                    d: seq<LeaderStatus>, n: nat, views: seq<Blocks>, leaders: seq<BlockRef>, ordered: Linearizer.Ordered,
                    executed: seq<seq<BlockRef>>)
    requires Tolerated(c, dag, faulty) && Honest(c, dag, elections, period, depth, peer) && Legitimate(c, dag, elections, period, d)
    requires Produces(c, dag, depth, views, leaders, ordered, executed) && leaders == Committed(d) && n == |leaders| < |peer.leaders|
    ensures |peer.views| == |peer.leaders| && leaders == peer.leaders[..n]
    ensures CaughtUp(c, dag, depth, peer, n, peer.views[..n], leaders, ordered, executed)
  {
    AreFirst(c, dag, faulty, elections, period, d, peer.decided, leaders, peer.leaders);
    OnPeerViews(c, dag, depth, views, leaders, ordered, executed, peer.views, peer.leaders);
  }

  lemma AreFirst(c: Committee, dag: Blocks, faulty: set<Authority>, elections: Elections, period: nat,
                 d: seq<LeaderStatus>, d': seq<LeaderStatus>, leaders: seq<BlockRef>, leaders': seq<BlockRef>)
    requires Tolerated(c, dag, faulty) && period > 0 && leaders == Committed(d) && leaders' == Committed(d') && |leaders| < |leaders'|
    requires Legitimate(c, dag, elections, period, d) && Legitimate(c, dag, elections, period, d')
    ensures leaders <= leaders' && leaders == leaders'[..|leaders|]
  {
    FurtherContinues(c, dag, faulty, elections, period, d, d', |leaders| + 1);
  }

  /** Having repeated m commits is standing at the peer's m-th leader. */
  lemma StandsAt(c: Committee, dag: Blocks, depth: nat, peer: Peer, m: nat, views: seq<Blocks>, past: seq<BlockRef>,
                 ordered: Linearizer.Ordered, executed: seq<seq<BlockRef>>)
    requires CaughtUp(c, dag, depth, peer, m, views, past, ordered, executed) && m > 0
    ensures Produces(c, dag, depth, views, past, ordered, executed) && ordered.lastLeader == peer.leaders[m - 1].round
  {
    LastLeader(depth, views, past);
  }

  lemma LastLeader(depth: nat, views: seq<Blocks>, leaders: seq<BlockRef>)
    requires |views| == |leaders| > 0 && forall i :: 0 <= i < |leaders| ==> leaders[i] in views[i]
    ensures Linearizer.After(depth, views, leaders).lastLeader == leaders[|leaders| - 1].round
  {
  }

  /** Linearizing the leader of the commit on this store gives the blocks of the commit, and catches
      up with the peer's n-th. */
  ghost predicate Repeatable(c: Committee, dag: Blocks, depth: nat, peer: Peer, n: nat, k: CertifiedCommit, ordered: Linearizer.Ordered,
                             executed: seq<seq<BlockRef>>, views: seq<Blocks>, past: seq<BlockRef>, held: Blocks) {
    && k.leader in held && k.leader !in ordered.committed && k.leader.round > Linearizer.GcRound(ordered, depth)
    && Linearizer.SubDag(depth, ordered, held, k.leader) == Listed(k.blocks)
    && Linearizer.Commit(depth, ordered, held, k.leader).committed == ordered.committed + Suspension.Refs(k.blocks)
    && CaughtUp(c, dag, depth, peer, n, views, past, Linearizer.Commit(depth, ordered, held, k.leader), executed + [Listed(k.blocks)])
  }

  /** The next commit of the peer can be repeated on any store that holds its blocks, and gives those
      blocks. */
  lemma CatchUp(c: Committee, dag: Blocks, elections: Elections, period: nat, depth: nat, peer: Peer, k: CertifiedCommit, n: nat,
                views: seq<Blocks>, past: seq<BlockRef>, ordered: Linearizer.Ordered, executed: seq<seq<BlockRef>>,
                views': seq<Blocks>, past': seq<BlockRef>, held: Blocks)
    requires Honest(c, dag, elections, period, depth, peer) && Quotes(dag, peer, k) && k.index == n + 1
    requires CaughtUp(c, dag, depth, peer, n, views, past, ordered, executed)
    requires n < |peer.views| && views' == peer.views[..n + 1] && past' == peer.leaders[..n + 1]
    requires Suspension.Within(dag, held) && Suspension.Refs(k.blocks) <= held.Keys
    ensures Repeatable(c, dag, depth, peer, n + 1, k, ordered, executed, views', past', held)
  {
    ListedIsRefs(k.blocks);
    StepTaken(peer, n, views, past, views', past');
    PeerStep(c, dag, depth, peer.views, peer.leaders, n, views, past, views', past', ordered, executed, Listed(k.blocks), held);
  }

  lemma ListedIsRefs(blocks: seq<Block>)
    ensures Linearizer.Elements(Listed(blocks)) == Suspension.Refs(blocks)
  {
    forall r ensures r in Listed(blocks) <==> r in Suspension.Refs(blocks) {
      ListedRefs(blocks, r);
    }
  }

  lemma PeerAt(c: Committee, dag: Blocks, depth: nat, views: seq<Blocks>, leaders: seq<BlockRef>, n: nat,
               done: seq<Blocks>, past: seq<BlockRef>, ordered: Linearizer.Ordered, subDag: seq<BlockRef>)
    requires c.Valid() && Linearizer.RunOk(c, dag, depth, views, leaders) && n < |leaders|
    requires done == views[..n] && past == leaders[..n]
    requires ordered == Linearizer.After(depth, done, past) && subDag == Linearizer.SubDags(depth, views, leaders)[n]
    ensures Linearizer.OrderedOk(dag, depth, ordered) && Linearizer.CanLinearize(c, dag, depth, ordered, views[n], leaders[n])
    ensures subDag == Linearizer.SubDag(depth, ordered, views[n], leaders[n])
  {
    RunAt(c, dag, depth, views, leaders, n, done, past);
  }

  lemma StepOn(c: Committee, dag: Blocks, depth: nat, views: seq<Blocks>, leaders: seq<BlockRef>, ordered: Linearizer.Ordered,
               executed: seq<seq<BlockRef>>, view: Blocks, leader: BlockRef, views': seq<Blocks>, leaders': seq<BlockRef>,
               subDag: seq<BlockRef>, held: Blocks)
    requires Produces(c, dag, depth, views, leaders, ordered, executed)
    requires Linearizer.OrderedOk(dag, depth, ordered) && Linearizer.CanLinearize(c, dag, depth, ordered, view, leader)
    requires views' == views + [view] && leaders' == leaders + [leader] && subDag == Linearizer.SubDag(depth, ordered, view, leader)
    requires Suspension.Within(dag, held) && forall r :: r in subDag ==> r in held
    ensures leader in held && leader !in ordered.committed && leader.round > ordered.lastLeader
    ensures Linearizer.SubDag(depth, ordered, held, leader) == subDag
    ensures Produces(c, dag, depth, views', leaders', Linearizer.Commit(depth, ordered, held, leader), executed + [subDag])
  {
    Linearizer.SubDagOn(c, dag, depth, ordered, view, held, leader);
    ProducesNext(c, dag, depth, views, leaders, ordered, executed, view, leader, views', leaders');
  }

  /** A commit names its leader among its blocks, and no genesis block. */
  lemma PeerBlocks(c: Committee, dag: Blocks, depth: nat, views: seq<Blocks>, leaders: seq<BlockRef>, n: nat, r: BlockRef)
    requires c.Valid() && Linearizer.RunOk(c, dag, depth, views, leaders) && n < |leaders|
    ensures leaders[n] in Linearizer.SubDags(depth, views, leaders)[n]
    ensures r in Linearizer.SubDags(depth, views, leaders)[n] ==> r.round != GENESIS_ROUND
  {
    RunAt(c, dag, depth, views, leaders, n, views[..n], leaders[..n]);
    var st := Linearizer.After(depth, views[..n], leaders[..n]);
    Linearizer.SubDagMembers(c, dag, depth, st, views[n], leaders[n], leaders[n]);
    Linearizer.SubDagMembers(c, dag, depth, st, views[n], leaders[n], r);
  }

  lemma CommitBlock(c: Committee, dag: Blocks, elections: Elections, period: nat, depth: nat, peer: Peer, k: CertifiedCommit, r: BlockRef)
    requires Honest(c, dag, elections, period, depth, peer) && Quotes(dag, peer, k)
    ensures k.leader in Suspension.Refs(k.blocks) && (r in Suspension.Refs(k.blocks) ==> r.round != GENESIS_ROUND)
  {
    ListedRefs(k.blocks, k.leader);
    ListedRefs(k.blocks, r);
    PeerBlocks(c, dag, depth, peer.views, peer.leaders, k.index - 1, r);
  }

  lemma PeerViews(c: Committee, dag: Blocks, elections: Elections, period: nat, depth: nat, peer: Peer, n: nat) returns (views: seq<Blocks>)
    requires Honest(c, dag, elections, period, depth, peer) && n <= |peer.leaders|
    ensures n <= |peer.views| && views == peer.views[..n]
  {
    views := peer.views[..n];
  }

  /** The blocks of all the commits. */
  function AllBlocks(commits: seq<CertifiedCommit>): seq<Block> {
    if commits == [] then [] else AllBlocks(commits[..|commits| - 1]) + commits[|commits| - 1].blocks
  }

  lemma {:induction false} InAllBlocks(commits: seq<CertifiedCommit>)
    ensures forall b :: b in AllBlocks(commits) <==> exists k :: k in commits && b in k.blocks
  {
    if commits != [] {
      var n := |commits| - 1;
      InAllBlocks(commits[..n]);
      assert commits == commits[..n] + [commits[n]];
    }
  }

  lemma RefsOfAll(commits: seq<CertifiedCommit>, k: CertifiedCommit)
    requires k in commits
    ensures Suspension.Refs(k.blocks) <= Suspension.Refs(AllBlocks(commits))
  {
    InAllBlocks(commits);
    forall r | r in Suspension.Refs(k.blocks) ensures r in Suspension.Refs(AllBlocks(commits)) {
      Suspension.RefsOf(k.blocks, r);
      Suspension.RefsOf(AllBlocks(commits), r);
    }
  }

  lemma BlocksOfAll(c: Committee, dag: Blocks, elections: Elections, period: nat, depth: nat, peer: Peer, commits: seq<CertifiedCommit>)
    requires MadeBy(c, dag, elections, period, depth, peer, commits)
    ensures Suspension.AllWithin(dag, AllBlocks(commits)) && forall b :: b in AllBlocks(commits) ==> b.ref.round != GENESIS_ROUND
  {
    InAllBlocks(commits);
    forall b | b in AllBlocks(commits) ensures b.ref in dag && dag[b.ref] == b && b.ref.round != GENESIS_ROUND {
      var k :| k in commits && b in k.blocks;
      Suspension.RefsOf(k.blocks, b.ref);
      CommitBlock(c, dag, elections, period, depth, peer, k, b.ref);
    }
  }

  lemma OneOfThem(commits: seq<CertifiedCommit>, i: nat)
    requires i < |commits|
    ensures Suspension.Refs(commits[i].blocks) <= Suspension.Refs(AllBlocks(commits))
    ensures Suspension.Refs(AllBlocks(commits[..i + 1])) == Suspension.Refs(AllBlocks(commits[..i])) + Suspension.Refs(commits[i].blocks)
  {
    assert commits[i] in commits;
    RefsOfAll(commits, commits[i]);
    assert commits[..i + 1][..i] == commits[..i];
    Suspension.RefsConcat(AllBlocks(commits[..i]), commits[i].blocks);
  }

  lemma AllOfThem(commits: seq<CertifiedCommit>)
    ensures AllBlocks(commits[..|commits|]) == AllBlocks(commits)
  {
    assert commits[..|commits|] == commits;
  }

  function LeadersOf(commits: seq<CertifiedCommit>): seq<BlockRef> {
    seq(|commits|, i requires 0 <= i < |commits| => commits[i].leader)
  }

  /** Takes as many commits as the limit allows; the rest is left for the next turn. */
  method SelectCertified(commits: seq<CertifiedCommit>, limit: nat) returns (taken: seq<CertifiedCommit>, rest: seq<CertifiedCommit>)
    requires limit > 0 && Consecutive(commits)
    ensures commits == taken + rest && |taken| <= limit && (rest == [] || |taken| == limit)
    ensures Consecutive(taken) && Consecutive(rest)
    ensures rest != [] ==> rest[0].index == commits[0].index + |taken|
  {
    if |commits| >= limit {
      taken, rest := commits[..limit], commits[limit..];
      forall i | 0 <= i < |rest| ensures rest[i].index == rest[0].index + i {
        assert rest[i] == commits[limit + i];
      }
    } else {
      taken, rest := commits, [];
    }
  }

  /** The next commits of the peer name its next leaders. */
  lemma LeadersFollow(dag: Blocks, peer: Peer, commits: seq<CertifiedCommit>, n: nat)
    requires (forall k :: k in commits ==> Quotes(dag, peer, k)) && Consecutive(commits) && commits != [] && commits[0].index == n + 1
    ensures n + |commits| <= |peer.leaders| && LeadersOf(commits) == peer.leaders[n..n + |commits|]
  {
    assert commits[|commits| - 1] in commits;
    forall i | 0 <= i < |commits| ensures LeadersOf(commits)[i] == peer.leaders[n..n + |commits|][i] {
      assert commits[i] in commits;
    }
  }

  /** Recording them takes the core to the same point of the peer's sequence. */
  lemma RecordedFollow(sequenced: seq<BlockRef>, leaders: seq<BlockRef>, all: seq<BlockRef>, n: nat)
    requires n == |sequenced| && n + |leaders| <= |all| && leaders == all[n..n + |leaders|] && sequenced + leaders <= all
    ensures sequenced + leaders == all[..n + |leaders|]
    ensures leaders != [] ==> leaders[|leaders| - 1] == all[n + |leaders| - 1]
  {
  }

  /** What was committed has its ancestors above the garbage-collection round committed, and so
      held. */
  lemma CommittedIsClosed(dag: Blocks, depth: nat, ordered: Linearizer.Ordered, held: Blocks, known: set<BlockRef>, loose: set<BlockRef>)
    requires Linearizer.OrderedOk(dag, depth, ordered) && Suspension.Within(dag, held)
    requires loose <= ordered.committed <= held.Keys <= known
    ensures forall r :: r in loose && r in held ==> Suspension.HasAncestors(known, Linearizer.GcRound(ordered, depth), held[r])
  {
  }

  /** The commits are what was executed at their indices. */
  ghost predicate Executed(commits: seq<CertifiedCommit>, executed: seq<seq<BlockRef>>) {
    forall k :: k in commits ==> 1 <= k.index <= |executed| && executed[k.index - 1] == Listed(k.blocks)
  }

  /** A commit made by an honest validator is what any other executes at that index. */
  lemma CertifiedIsExecuted(c: Committee, dag: Blocks, faulty: set<Authority>, elections: Elections, period: nat, depth: nat,
                            mine: Peer, peer: Peer, k: CertifiedCommit)
    requires Tolerated(c, dag, faulty) && Honest(c, dag, elections, period, depth, mine)
    requires Honest(c, dag, elections, period, depth, peer) && Quotes(dag, peer, k) && k.index <= |mine.subDags|
    ensures mine.subDags[k.index - 1] == Listed(k.blocks)
  {
    PeersAgree(c, dag, faulty, elections, period, depth, mine, peer);
    SameAt(mine.subDags, peer.subDags, k.index - 1);
  }

  lemma PeersAgree(c: Committee, dag: Blocks, faulty: set<Authority>, elections: Elections, period: nat, depth: nat, a: Peer, b: Peer)
    requires Tolerated(c, dag, faulty) && Honest(c, dag, elections, period, depth, a) && Honest(c, dag, elections, period, depth, b)
    ensures a.subDags <= b.subDags || b.subDags <= a.subDags
  {
    RunsExecuteTheSame(c, dag, faulty, elections, period, depth, a.decided, a.views, b.decided, b.views);
  }

  lemma SameAt(a: seq<seq<BlockRef>>, b: seq<seq<BlockRef>>, i: nat)
    requires (a <= b || b <= a) && i < |a| && i < |b|
    ensures a[i] == b[i]
  {
  }
}
