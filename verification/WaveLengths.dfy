/** Why waves have three rounds: with longer ones, which the options allow, the direct rule skips a
    leader in one view and commits it in another. */
module WaveLengths {
  import opened Wrappers
  import opened Committees
  import opened Dag
  import opened BaseCommitter

  /** In one view of an epoch the direct rule skips the slot, in another it commits a block of it. */
  ghost predicate Disagree(w: nat, c: Committee, dag: Blocks, faulty: set<Authority>, v: View, v': View, slot: Slot, leader: BlockRef) {
    && w > 0 && Tolerated(c, dag, faulty) && LocalView(c, dag, v) && LocalView(c, dag, v')
    && v.gcRound <= slot.round && v'.gcRound <= slot.round
    && DirectOutcome(c, v, slot.round + w - 1, slot, Some(Skip(slot)))
    && DirectOutcome(c, v', slot.round + w - 1, slot, Some(Commit(leader)))
  }

  ghost predicate DirectAgreement(w: nat) {
    forall c, dag, faulty, v, v', slot, leader :: !Disagree(w, c, dag, faulty, v, v', slot, leader)
  }

  /** The direct rule is consistent across views for exactly one of the admitted wave lengths. */
  lemma AgreementIffThree(w: nat)
    requires w >= 3
    ensures DirectAgreement(w) <==> w == DEFAULT_WAVE_LENGTH
  {
    if w == 3 {
      forall c, dag, faulty, v, v', slot, leader ensures !Disagree(w, c, dag, faulty, v, v', slot, leader) {
        ThreeAgrees(c, dag, faulty, v, v', slot, leader);
      }
    } else {
      LongerDisagrees(w);
    }
  }

  lemma ThreeAgrees(c: Committee, dag: Blocks, faulty: set<Authority>, v: View, v': View, slot: Slot, leader: BlockRef)
    ensures !Disagree(3, c, dag, faulty, v, v', slot, leader)
  {
    if Disagree(3, c, dag, faulty, v, v', slot, leader) {
      var cert := SupportHasCertificate(c, dag, faulty, v', slot, leader);
      BlameExcludesCertificate(c, dag, faulty, Blames(v, slot), cert, leader);
      assert false;
    }
  }

  // ---------------------------------------------------------------------------
  // A run without any fault
  // ---------------------------------------------------------------------------

  /** Three authorities; two of them have a quorum if authority 1 is one of them. */
  const TRIO: Committee := Committee([1, 2, 1])

  /** The leader of round one is authority 0. */
  const SLOT: Slot := Slot(1, 0)
  const LEADER: BlockRef := BlockRef(1, 0, 0)

  function Ref(r: Round, a: Authority): BlockRef {
    BlockRef(r, a, 0)
  }

  /** Authorities 0 and 1 build on each other's blocks, except that in round two authorities 1 and 2
      know nothing of authority 0's; authority 2 stops there. */
  function Ancestors(r: Round, a: Authority): seq<BlockRef> {
    if r == 0 then []
    else if a == 0 then [Ref(r - 1, 0), Ref(r - 1, 1)]
    else if a == 2 then [Ref(r - 1, 2), Ref(r - 1, 1)]
    else if r == 2 then [Ref(1, 1), Ref(1, 2)]
    else [Ref(r - 1, 1), Ref(r - 1, 0)]
  }

  /** The block of authority 2 in round two may be known or not. */
  predicate Present(n: Round, late: bool, r: BlockRef) {
    r.digest == 0 && r.round <= n && (r.author < 2 || (r.author == 2 && r.round <= if late then 2 else 1))
  }

  function RoundRefs(r: Round, late: bool): set<BlockRef> {
    {Ref(r, 0), Ref(r, 1)} + (if r <= 1 || (r == 2 && late) then {Ref(r, 2)} else {})
  }

  function RefsTo(n: Round, late: bool): set<BlockRef> {
    if n == 0 then RoundRefs(0, late) else RefsTo(n - 1, late) + RoundRefs(n, late)
  }

  lemma {:induction false} InRefs(n: Round, late: bool, r: BlockRef)
    ensures r in RefsTo(n, late) <==> Present(n, late, r)
  {
    if n > 0 {
      InRefs(n - 1, late, r);
    }
  }

  function Known(n: Round, late: bool): Blocks {
    map r | r in RefsTo(n, late) :: Block(r, Ancestors(r.round, r.author))
  }

  function Seen(n: Round, late: bool): View {
    View(Known(n, late), 0, 0, n)
  }

  lemma InKnown(n: Round, late: bool, r: BlockRef)
    ensures r in Known(n, late) <==> Present(n, late, r)
    ensures r in Known(n, late) ==> Known(n, late)[r] == Block(r, Ancestors(r.round, r.author))
  {
    InRefs(n, late, r);
  }

  lemma TrioStakes(group: set<Authority>)
    ensures TRIO.Valid() && TRIO.Total() == 4 && TRIO.QuorumThreshold() == 3
    ensures TRIO.IsQuorum(group) <==> 1 in group && (0 in group || 2 in group)
  {
    assert SumAll(TRIO.stakes, 1) == 1 && SumAll(TRIO.stakes, 2) == 3 && SumAll(TRIO.stakes, 3) == 4;
    assert SumUpTo(TRIO.stakes, 1, group) == if 0 in group then 1 else 0;
    assert SumUpTo(TRIO.stakes, 2, group) == SumUpTo(TRIO.stakes, 1, group) + if 1 in group then 2 else 0;
    assert SumUpTo(TRIO.stakes, 3, group) == SumUpTo(TRIO.stakes, 2, group) + if 2 in group then 1 else 0;
  }

  lemma BlockIsAdmissible(r: Round, a: Authority)
    requires r > 0 && a <= 2
    ensures TRIO.Valid() && Admissible(TRIO, Block(Ref(r, a), Ancestors(r, a)))
  {
    var b := Block(Ref(r, a), Ancestors(r, a));
    var x, y := b.ancestors[0], b.ancestors[1];
    assert x in b.ancestors && y in b.ancestors;
    assert x.author in Parents(b) && y.author in Parents(b);
    TrioStakes(Parents(b));
  }

  lemma KnownIsWellFormed(n: Round, late: bool)
    ensures TRIO.Valid() && WellFormed(TRIO, Known(n, late))
  {
    TrioStakes({});
    var blocks := Known(n, late);
    forall r | r in blocks
      ensures blocks[r].ref == r && (if r.round == GENESIS_ROUND then blocks[r].ancestors == [] else Admissible(TRIO, blocks[r]))
    {
      InKnown(n, late, r);
      if r.round > 0 {
        BlockIsAdmissible(r.round, r.author);
      }
    }
  }

  lemma AncestorsPresent(n: Round, late: bool, r: BlockRef, a: BlockRef)
    requires Present(n, late, r) && a in Ancestors(r.round, r.author)
    ensures Present(n, late, a)
  {
  }

  lemma SeenIsLocal(n: Round, late: bool)
    ensures TRIO.Valid() && LocalView(TRIO, Known(n, true), Seen(n, late))
  {
    KnownIsWellFormed(n, late);
    var blocks := Known(n, late);
    forall r, a | r in blocks && a in blocks[r].ancestors && a.round > 0 ensures a in blocks {
      InKnown(n, late, r);
      InKnown(n, late, a);
      AncestorsPresent(n, late, r, a);
    }
    forall r | r in blocks ensures r.round <= n && r in Known(n, true) && Known(n, true)[r] == blocks[r] {
      InKnown(n, late, r);
      InKnown(n, true, r);
    }
  }

  lemma NobodyIsFaulty(n: Round)
    ensures Tolerated(TRIO, Known(n, true), {})
  {
    KnownIsWellFormed(n, true);
    EmptyStake(TRIO);
    forall r, s ensures OneHonestBlock(Known(n, true), {}, r, s) {
      InKnown(n, true, r);
      InKnown(n, true, s);
    }
  }

  /** With the late block two authorities blame the leader, without it one. */
  lemma BlameDependsOnLate(n: Round, late: bool)
    requires n >= 2
    ensures TRIO.Valid() && (EnoughBlame(TRIO, Seen(n, late), SLOT) <==> late)
  {
    var v := Seen(n, late);
    var authors := Authors(Blames(v, SLOT));
    TrioStakes(authors);
    assert Ref(1, 0) in Ancestors(2, 0);
    forall r | r in Blames(v, SLOT) ensures r.author != 0 && (late || r.author != 2) {
      InKnown(n, late, r);
    }
    InKnown(n, late, Ref(2, 1));
    InKnown(n, late, Ref(2, 2));
    assert Ref(2, 1) in Blames(v, SLOT);
    if late {
      assert Ref(2, 2) in Blames(v, SLOT);
    }
  }

  lemma KnownHas(n: Round, late: bool, k: Round, a: Authority)
    requires k <= n && a < 2
    ensures Ref(k, a) in Known(n, late) && Known(n, late)[Ref(k, a)].ancestors == Ancestors(k, a)
  {
    InKnown(n, late, Ref(k, a));
  }

  /** The search stops at the first ancestor that supports a block of the slot. */
  lemma FirstDecides(c: Committee, blocks: Blocks, slot: Slot, from: BlockRef, leader: BlockRef)
    requires c.Valid() && WellFormed(c, blocks) && ClosedAbove(blocks, 0) && from in blocks && from.round > slot.round
    requires |blocks[from].ancestors| > 0 && blocks[from].ancestors[0] in blocks && blocks[from].ancestors[0].round > slot.round
    requires FindSupportedBlock(c, blocks, 0, slot, blocks[from].ancestors[0]) == Some(leader)
    ensures FindSupportedBlock(c, blocks, 0, slot, from) == Some(leader)
  {
  }

  lemma SecondDecides(c: Committee, blocks: Blocks, slot: Slot, from: BlockRef, x: BlockRef, y: BlockRef, leader: BlockRef)
    requires c.Valid() && WellFormed(c, blocks) && ClosedAbove(blocks, 0) && from in blocks && from.round > slot.round
    requires blocks[from].ancestors == [x, y] && x in blocks && y in blocks && x.round > slot.round && y.round > slot.round
    requires FindSupportedBlock(c, blocks, 0, slot, x) == None && FindSupportedBlock(c, blocks, 0, slot, y) == Some(leader)
    ensures FindSupportedBlock(c, blocks, 0, slot, from) == Some(leader)
  {
    assert FindAmongAncestors(c, blocks, 0, slot, from, 1) == Some(leader);
  }

  /** From round three on every block of authorities 0 and 1 supports the leader, although authority
      1 blamed it in round two. */
  lemma {:induction false} LaterBlocksVote(n: Round, late: bool, k: Round, a: Authority)
    requires 2 <= k <= n && a < 2 && (k == 2 ==> a == 0)
    ensures TRIO.Valid() && LocalView(TRIO, Known(n, true), Seen(n, late)) && Ref(k, a) in Known(n, late)
    ensures FindSupportedBlock(TRIO, Known(n, late), 0, SLOT, Ref(k, a)) == Some(LEADER)
  {
    SeenIsLocal(n, late);
    KnownHas(n, late, k, a);
    if k == 2 {
      LeaderVotesForItself(n, late);
    } else if k == 3 && a == 1 {
      LaterBlocksVote(n, late, 2, 0);
      BlamerIsSilent(n, late);
      SecondDecides(TRIO, Known(n, late), SLOT, Ref(3, 1), Ref(2, 1), Ref(2, 0), LEADER);
    } else {
      LaterBlocksVote(n, late, k - 1, a);
      FirstDecides(TRIO, Known(n, late), SLOT, Ref(k, a), LEADER);
    }
  }

  lemma LeaderVotesForItself(n: Round, late: bool)
    requires n >= 2
    ensures TRIO.Valid() && LocalView(TRIO, Known(n, true), Seen(n, late)) && Ref(2, 0) in Known(n, late)
    ensures FindSupportedBlock(TRIO, Known(n, late), 0, SLOT, Ref(2, 0)) == Some(LEADER)
  {
    SeenIsLocal(n, late);
    KnownHas(n, late, 2, 0);
    assert Known(n, late)[Ref(2, 0)].ancestors[0] == LEADER;
  }

  lemma BlamerIsSilent(n: Round, late: bool)
    requires n >= 2
    ensures TRIO.Valid() && LocalView(TRIO, Known(n, true), Seen(n, late)) && Ref(2, 1) in Known(n, late)
    ensures FindSupportedBlock(TRIO, Known(n, late), 0, SLOT, Ref(2, 1)) == None
  {
    SeenIsLocal(n, late);
    KnownHas(n, late, 2, 1);
    var blocks := Known(n, late);
    assert blocks[Ref(2, 1)].ancestors == [Ref(1, 1), Ref(1, 2)];
    assert FindAmongAncestors(TRIO, blocks, 0, SLOT, Ref(2, 1), 2) == None;
    assert FindAmongAncestors(TRIO, blocks, 0, SLOT, Ref(2, 1), 1) == None;
  }

  lemma TwoVoters(c: Committee, v: View, certificate: BlockRef, leader: BlockRef, x: BlockRef, y: BlockRef) returns (voters: set<Authority>)
    requires c.Valid() && ValidView(c, v) && v.gcRound <= leader.round && certificate in v.blocks
    requires v.blocks[certificate].ancestors == [x, y] && x in v.blocks && y in v.blocks
    requires IsVote(c, v, x, leader) && IsVote(c, v, y, leader)
    ensures x.author in voters && y.author in voters && (c.IsQuorum(voters) ==> CertificateFor(c, v, certificate, leader))
  {
    var b := v.blocks[certificate];
    voters := VotersUpTo(c, v, b, |b.ancestors|, leader);
    assert b.ancestors[0] == x && b.ancestors[1] == y;
  }

  lemma LaterBlockCertifies(n: Round, late: bool, k: Round, a: Authority)
    requires 4 <= k <= n && a < 2
    ensures TRIO.Valid() && LocalView(TRIO, Known(n, true), Seen(n, late)) && Ref(k, a) in Known(n, late)
    ensures CertificateFor(TRIO, Seen(n, late), Ref(k, a), LEADER)
  {
    SeenIsLocal(n, late);
    KnownHas(n, late, k, a);
    LaterBlocksVote(n, late, k - 1, a);
    LaterBlocksVote(n, late, k - 1, 1 - a);
    var voters := TwoVoters(TRIO, Seen(n, late), Ref(k, a), LEADER, Ref(k - 1, a), Ref(k - 1, 1 - a));
    TrioStakes(voters);
  }

  lemma LeaderIsSupported(w: nat, late: bool)
    requires w >= 4
    ensures TRIO.Valid() && LocalView(TRIO, Known(w, true), Seen(w, late)) && SupportedIn(TRIO, Seen(w, late), w, SLOT, LEADER)
  {
    var v := Seen(w, late);
    SeenIsLocal(w, late);
    KnownHas(w, late, 1, 0);
    LaterBlockCertifies(w, late, w, 0);
    LaterBlockCertifies(w, late, w, 1);
    var certificates := Certificates(TRIO, v, w, LEADER);
    assert Ref(w, 0) in certificates && Ref(w, 1) in certificates;
    TrioStakes(Authors(certificates));
  }

  lemma CommitsWithoutLate(w: nat)
    requires w >= 4
    ensures TRIO.Valid() && LocalView(TRIO, Known(w, true), Seen(w, false))
    ensures DirectOutcome(TRIO, Seen(w, false), w, SLOT, Some(Commit(LEADER)))
  {
    BlameDependsOnLate(w, false);
    LeaderIsSupported(w, false);
    forall l | SupportedIn(TRIO, Seen(w, false), w, SLOT, l) ensures l == LEADER {
      InKnown(w, false, l);
    }
  }

  /** For every longer wave: all three authorities are honest, and whether the leader is skipped or
      committed depends on a block that nobody builds on. */
  lemma LongerDisagrees(w: nat)
    requires w >= 4
    ensures Disagree(w, TRIO, Known(w, true), {}, Seen(w, true), Seen(w, false), SLOT, LEADER)
  {
    NobodyIsFaulty(w);
    SeenIsLocal(w, true);
    BlameDependsOnLate(w, true);
    CommitsWithoutLate(w);
  }
}
