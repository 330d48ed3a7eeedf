/** A run of the commit loop that stops although a leader could be committed. */
module CommitExamples {
  import opened Committees
  import opened Dag
  import opened BaseCommitter
  import opened UniversalCommitter
  import opened CommitSequence

  /** Two authorities, of which the first has a quorum alone. */
  const PAIR: Committee := Committee([3, 1])

  function Ref(r: Round): BlockRef {
    BlockRef(r, 0, 0)
  }

  /** The chain of authority 0; authority 1 is silent. */
  function ChainBlock(r: Round): Block {
    Block(Ref(r), if r == 0 then [] else [Ref(r - 1)])
  }

  function ChainTo(n: Round): Blocks {
    if n == 0 then map[Ref(0) := ChainBlock(0)] else ChainTo(n - 1)[Ref(n) := ChainBlock(n)]
  }

  lemma {:induction false} InChain(n: Round, r: BlockRef)
    ensures r in ChainTo(n) <==> r == Ref(r.round) && r.round <= n
    ensures r in ChainTo(n) ==> ChainTo(n)[r] == ChainBlock(r.round)
  {
    if n > 0 {
      InChain(n - 1, r);
    }
  }

  function Chain(): Blocks {
    ChainTo(4)
  }

  function ChainView(): View {
    View(Chain(), 0, 0, 4)
  }

  /** Authority 1 leads round one. */
  function Lead(round: Round, offset: nat): Authority {
    if round == 1 then 1 else 0
  }

  lemma PairStakes(group: set<Authority>)
    ensures PAIR.Valid() && PAIR.Total() == 4 && PAIR.QuorumThreshold() == 3
    ensures PAIR.IsQuorum(group) <==> 0 in group
  {
    assert SumAll(PAIR.stakes, 1) == 3 && SumAll(PAIR.stakes, 2) == 4;
    assert SumUpTo(PAIR.stakes, 1, group) == if 0 in group then 3 else 0;
    assert SumUpTo(PAIR.stakes, 2, group) == SumUpTo(PAIR.stakes, 1, group) + if 1 in group then 1 else 0;
  }

  lemma ChainIsAdmissible(r: Round)
    requires r > 0
    ensures PAIR.Valid() && Admissible(PAIR, ChainBlock(r))
  {
    var b := ChainBlock(r);
    assert Ref(r - 1) in b.ancestors;
    assert 0 in Parents(b);
    PairStakes(Parents(b));
  }

  lemma ChainIsWellFormed()
    ensures PAIR.Valid() && WellFormed(PAIR, Chain())
  {
    PairStakes({});
    forall r | r in Chain()
      ensures Chain()[r].ref == r && (if r.round == GENESIS_ROUND then Chain()[r].ancestors == [] else Admissible(PAIR, Chain()[r]))
    {
      InChain(4, r);
      if r.round > 0 {
        ChainIsAdmissible(r.round);
      }
    }
  }

  lemma ChainIsView()
    ensures PAIR.Valid() && LocalView(PAIR, Chain(), ChainView())
  {
    ChainIsWellFormed();
    forall r | r in Chain() ensures r.round <= 4 {
      InChain(4, r);
    }
    forall r, a | r in Chain() && a in Chain()[r].ancestors && a.round > 0 ensures a in Chain() {
      InChain(4, r);
      InChain(4, a);
    }
  }

  lemma ChainIsTolerated()
    ensures Tolerated(PAIR, Chain(), {}) && LocalView(PAIR, Chain(), ChainView())
  {
    ChainIsView();
    PairStakes({});
    EmptyStake(PAIR);
    forall r, s ensures OneHonestBlock(Chain(), {}, r, s) {
      InChain(4, r);
      InChain(4, s);
    }
  }

  /** Round one is skipped: the one voter has no block of its leader. */
  lemma RoundOneSkipped()
    ensures LocalView(PAIR, Chain(), ChainView()) && DirectStatus(PAIR, ChainView(), Slot(1, 1)) == Skip(Slot(1, 1))
  {
    ChainIsView();
    InChain(4, Ref(2));
    var v := ChainView();
    assert Ref(2) in UncommittedAtRound(v, 2);
    assert IsBlame(v.blocks[Ref(2)], 1);
    assert Ref(2) in Blames(v, Slot(1, 1));
    PairStakes(Authors(Blames(v, Slot(1, 1))));
  }

  lemma RoundTwoCertified()
    ensures LocalView(PAIR, Chain(), ChainView()) && CertificateFor(PAIR, ChainView(), Ref(4), Ref(2))
  {
    ChainIsView();
    var dag := Chain();
    InChain(4, Ref(3));
    InChain(4, Ref(4));
    assert Ref(3) in dag[Ref(4)].ancestors && Ref(2) in dag[Ref(3)].ancestors;
    assert 0 in Voters(dag, Ref(4), Ref(2));
    PairStakes(Voters(dag, Ref(4), Ref(2)));
    CertificateIsGlobal(PAIR, dag, ChainView(), Ref(4), Ref(2));
  }

  lemma RoundTwoNotBlamed()
    ensures PAIR.Valid() && !EnoughBlame(PAIR, ChainView(), Slot(2, 0))
  {
    var v := ChainView();
    forall r ensures r !in Blames(v, Slot(2, 0)) {
      if r in UncommittedAtRound(v, 3) {
        InChain(4, r);
        assert r == Ref(3) && Ref(2) in v.blocks[r].ancestors;
      }
    }
    PairStakes(Authors(Blames(v, Slot(2, 0))));
  }

  lemma RoundTwoSupported()
    ensures LocalView(PAIR, Chain(), ChainView()) && SupportedAt(PAIR, ChainView(), Slot(2, 0), Ref(2))
  {
    RoundTwoCertified();
    InChain(4, Ref(2));
    InChain(4, Ref(4));
    var v := ChainView();
    assert Ref(4) in Certificates(PAIR, v, 4, Ref(2));
    PairStakes(Authors(Certificates(PAIR, v, 4, Ref(2))));
  }

  /** Round two is committed. */
  lemma RoundTwoCommitted()
    ensures LocalView(PAIR, Chain(), ChainView()) && DirectStatus(PAIR, ChainView(), Slot(2, 0)) == Commit(Ref(2))
  {
    RoundTwoNotBlamed();
    RoundTwoSupported();
    forall l | SupportedAt(PAIR, ChainView(), Slot(2, 0), l) ensures l == Ref(2) {
      assert l in UncommittedAtSlot(ChainView(), Slot(2, 0));
      InChain(4, l);
    }
  }

  lemma ChainLeaders()
    ensures LocalView(PAIR, Chain(), ChainView())
    ensures Leaders(PAIR, ChainView(), Lead, 2, 1) == [Skip(Slot(1, 1)), Commit(Ref(2))]
  {
    RoundOneSkipped();
    RoundTwoCommitted();
    DirectlyDecided(PAIR, ChainView(), Lead, 2, 2);
    DirectlyDecided(PAIR, ChainView(), Lead, 2, 1);
  }

  lemma DirectlyDecided(c: Committee, v: View, schedule: Schedule, hi: Round, lo: Round)
    requires c.Valid() && ValidView(c, v) && v.gcRound <= lo <= hi && DirectStatus(c, v, LeaderSlot(schedule, lo)).IsDecided()
    ensures Leaders(c, v, schedule, hi, lo) == [DirectStatus(c, v, LeaderSlot(schedule, lo))] + Leaders(c, v, schedule, hi, lo + 1)
    ensures lo == hi ==> Leaders(c, v, schedule, hi, lo + 1) == []
  {
  }

  lemma BothDecided(leaders: seq<LeaderStatus>)
    requires |leaders| == 2 && leaders[0].IsDecided() && leaders[1].IsDecided()
    ensures DecidedPrefix(leaders) == leaders
  {
    assert leaders[1..] == [leaders[1]] && leaders[1..][1..] == [];
    assert DecidedPrefix(leaders[1..]) == [leaders[1]];
  }

  lemma ChainDecisions()
    ensures LocalView(PAIR, Chain(), ChainView())
    ensures Decided(PAIR, ChainView(), Lead, 0) == [Skip(Slot(1, 1)), Commit(Ref(2))]
  {
    ChainLeaders();
    BothDecided(Leaders(PAIR, ChainView(), Lead, 2, 1));
  }

  /** With one commit left in the scoring period the decisions are cut behind the skipped round. */
  lemma CutBatch(core: Core)
    requires core.committee == PAIR && core.period == 1 && core.Valid(Chain()) && core.decided == []
    requires forall history :: core.elections(history) == Lead
    ensures LocalView(PAIR, Chain(), ChainView()) && core.NextBatch(core.state, 0, ChainView()) == [Skip(Slot(1, 1))]
  {
    ChainDecisions();
    assert core.state.sequenced == [];
  }

  /** The part kept commits nothing, so the loop stops, and the leader of round two, which the rule
      commits on the same view, stays behind. */
  method SkipOnlyCut() returns (core: Core, more: bool, leaders: seq<BlockRef>)
    ensures !more && leaders == []
    ensures core.committee == PAIR && Tolerated(PAIR, Chain(), {}) && LocalView(PAIR, Chain(), ChainView()) && core.Valid(Chain())
    ensures core.decided == [Skip(Slot(1, 1))] && core.Left(ChainView()) == [Commit(Ref(2))]
  {
    core := new Core(PAIR, 1, 60, (history: seq<BlockRef>) => Lead, 0, Chain());
    ChainIsTolerated();
    CutBatch(core);
    more, leaders := core.CommitPass(ChainView(), Chain(), {});
    ChainDecisions();
    assert core.decided[0..] == core.decided;
  }
}
