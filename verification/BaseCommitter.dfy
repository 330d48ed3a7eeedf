/** The commit rule for one leader slot: the queries on the local DAG that decide it. */
module BaseCommitter {
  import opened Wrappers
  import opened Committees
  import opened Dag

  const DEFAULT_WAVE_LENGTH: nat := 3

  /** Wave geometry of one committer. */
  datatype Options = Options(waveLength: nat, leaderOffset: nat, roundOffset: nat) {
    predicate Valid() {
      waveLength >= 3
    }

    function WaveNumber(round: Round): nat
      requires Valid()
    {
      (if round < roundOffset then 0 else round - roundOffset) / waveLength
    }

    function LeaderRound(wave: nat): Round {
      wave * waveLength + roundOffset
    }

    function DecisionRound(wave: nat): Round
      requires Valid()
    {
      wave * waveLength + waveLength - 1 + roundOffset
    }
  }

  datatype LeaderStatus = Commit(leader: BlockRef) | Skip(slot: Slot) | Undecided(slot: Slot) {
    predicate IsDecided() {
      !Undecided?
    }

    function Round(): Round {
      if Commit? then leader.round else slot.round
    }
  }

  // ---------------------------------------------------------------------------
  // Votes and certificates
  // ---------------------------------------------------------------------------

  /** The block of `slot` that `from` supports: the first one met by following ancestors in
      order, depth first, never below the slot's round. */
  function FindSupportedBlock(c: Committee, blocks: Blocks, floor: Round, slot: Slot, from: BlockRef): Option<BlockRef>
    requires c.Valid() && WellFormed(c, blocks) && ClosedAbove(blocks, floor)
    requires floor <= slot.round && from in blocks
    decreases from.round, |blocks[from].ancestors| + 1
  {
    if from.round < slot.round then None else FindAmongAncestors(c, blocks, floor, slot, from, 0)
  }

  function FindAmongAncestors(c: Committee, blocks: Blocks, floor: Round, slot: Slot, from: BlockRef, i: nat): Option<BlockRef>
    requires c.Valid() && WellFormed(c, blocks) && ClosedAbove(blocks, floor)
    requires floor <= slot.round && from in blocks && i <= |blocks[from].ancestors|
    decreases from.round, |blocks[from].ancestors| - i
  {
    if i == |blocks[from].ancestors| then None
    else
      var ancestor := blocks[from].ancestors[i];
      if ancestor.AtSlot() == slot then Some(ancestor)
      else if ancestor.round <= slot.round then FindAmongAncestors(c, blocks, floor, slot, from, i + 1)
      else
        var support := FindSupportedBlock(c, blocks, floor, slot, ancestor);
        if support.Some? then support else FindAmongAncestors(c, blocks, floor, slot, from, i + 1)
  }

  predicate IsVote(c: Committee, v: View, potentialVote: BlockRef, leader: BlockRef)
    requires c.Valid() && ValidView(c, v) && v.gcRound <= leader.round
    requires potentialVote in v.blocks
  {
    FindSupportedBlock(c, v.blocks, v.gcRound, leader.AtSlot(), potentialVote) == Some(leader)
  }

  /** Authors of the votes for `leader` among the first n ancestors of a block. */
  function VotersUpTo(c: Committee, v: View, b: Block, n: nat, leader: BlockRef): set<Authority>
    requires c.Valid() && ValidView(c, v) && v.gcRound <= leader.round && n <= |b.ancestors|
  {
    set i | 0 <= i < n && b.ancestors[i] in v.blocks && IsVote(c, v, b.ancestors[i], leader) :: b.ancestors[i].author
  }

  predicate CertificateFor(c: Committee, v: View, certificate: BlockRef, leader: BlockRef)
    requires c.Valid() && ValidView(c, v) && v.gcRound <= leader.round && certificate in v.blocks
  {
    var b := v.blocks[certificate];
    c.IsQuorum(VotersUpTo(c, v, b, |b.ancestors|, leader))
  }

  /** Remembered answers are right ones. */
  ghost predicate CacheSound(c: Committee, v: View, leader: BlockRef, allVotes: map<BlockRef, bool>)
    requires c.Valid() && ValidView(c, v) && v.gcRound <= leader.round
  {
    forall r :: r in allVotes ==> allVotes[r] == (r in v.blocks && IsVote(c, v, r, leader))
  }

  /** Counts votes until a quorum, consulting and extending a cache of earlier answers. */
  method IsCertificate(c: Committee, v: View, certificate: BlockRef, leader: BlockRef, allVotes: map<BlockRef, bool>)
      returns (result: bool, allVotes': map<BlockRef, bool>)
    requires c.Valid() && ValidView(c, v) && v.gcRound <= leader.round && certificate in v.blocks
    requires CacheSound(c, v, leader, allVotes)
    ensures result == CertificateFor(c, v, certificate, leader)
    ensures CacheSound(c, v, leader, allVotes')
  {
    allVotes' := allVotes;
    var b := v.blocks[certificate];
    var votes := new StakeAggregator(c);
    NoVotesNoQuorum(c);
    for i := 0 to |b.ancestors|
      invariant CacheSound(c, v, leader, allVotes')
      invariant votes.Valid() && votes.committee == c && fresh(votes)
      invariant votes.votes == VotersUpTo(c, v, b, i, leader)
      invariant !c.IsQuorum(votes.votes)
    {
      var reference := b.ancestors[i];
      var isVote;
      if reference in allVotes' {
        isVote := allVotes'[reference];
      } else {
        isVote := if reference in v.blocks then IsVote(c, v, reference, leader) else false;
        allVotes' := allVotes'[reference := isVote];
      }
      VotersStep(c, v, b, i, leader);
      if isVote {
        AncestorIsOlder(c, v.blocks, certificate, reference);
        var reached := votes.Add(reference.author);
        if reached {
          VotersMonotone(c, v, b, i + 1, leader);
          return true, allVotes';
        }
      }
    }
    return false, allVotes';
  }

  lemma NoVotesNoQuorum(c: Committee)
    requires c.Valid()
    ensures !c.IsQuorum({})
  {
    EmptyStake(c);
  }

  lemma VotersStep(c: Committee, v: View, b: Block, i: nat, leader: BlockRef)
    requires c.Valid() && ValidView(c, v) && v.gcRound <= leader.round && i < |b.ancestors|
    ensures VotersUpTo(c, v, b, i + 1, leader) == VotersUpTo(c, v, b, i, leader) +
      if b.ancestors[i] in v.blocks && IsVote(c, v, b.ancestors[i], leader) then {b.ancestors[i].author} else {}
  {
  }

  lemma VotersMonotone(c: Committee, v: View, b: Block, i: nat, leader: BlockRef)
    requires c.Valid() && ValidView(c, v) && v.gcRound <= leader.round && i <= |b.ancestors|
    requires c.IsQuorum(VotersUpTo(c, v, b, i, leader))
    ensures c.IsQuorum(VotersUpTo(c, v, b, |b.ancestors|, leader))
  {
    assert VotersUpTo(c, v, b, i, leader) <= VotersUpTo(c, v, b, |b.ancestors|, leader);
    StakeMonotone(c, VotersUpTo(c, v, b, i, leader), VotersUpTo(c, v, b, |b.ancestors|, leader));
  }

  // ---------------------------------------------------------------------------
  // What a vote and a certificate are in waves of three rounds
  // ---------------------------------------------------------------------------

  /** With all remaining ancestors at or below the slot's round the search is a plain lookup. */
  lemma {:induction false} SearchIsLookup(c: Committee, v: View, from: BlockRef, i: nat, leader: BlockRef)
    requires c.Valid() && ValidView(c, v) && v.gcRound <= leader.round
    requires from in v.blocks && from.round == leader.round + 1 && i <= |v.blocks[from].ancestors|
    ensures FindAmongAncestors(c, v.blocks, v.gcRound, leader.AtSlot(), from, i) == Some(leader) <==>
      leader in v.blocks[from].ancestors[i..]
    decreases |v.blocks[from].ancestors| - i
  {
    var ancestors := v.blocks[from].ancestors;
    if i < |ancestors| {
      SearchIsLookup(c, v, from, i + 1, leader);
      AncestorIsOlder(c, v.blocks, from, ancestors[i]);
      assert ancestors[i..] == [ancestors[i]] + ancestors[i + 1..];
      if ancestors[i].AtSlot() == leader.AtSlot() && leader in ancestors {
        AncestorAtSlotUnique(c, v.blocks[from], ancestors[i], leader);
      }
    }
  }

  lemma VoteIsInclusion(c: Committee, v: View, from: BlockRef, leader: BlockRef)
    requires c.Valid() && ValidView(c, v) && v.gcRound <= leader.round
    requires from in v.blocks && from.round == leader.round + 1
    ensures IsVote(c, v, from, leader) <==> leader in v.blocks[from].ancestors
  {
    SearchIsLookup(c, v, from, 0, leader);
    assert v.blocks[from].ancestors[0..] == v.blocks[from].ancestors;
  }

  lemma {:induction false} NoVoteFromBelow(c: Committee, v: View, from: BlockRef, i: nat, leader: BlockRef)
    requires c.Valid() && ValidView(c, v) && v.gcRound <= leader.round
    requires from in v.blocks && from.round <= leader.round && i <= |v.blocks[from].ancestors|
    ensures FindAmongAncestors(c, v.blocks, v.gcRound, leader.AtSlot(), from, i) == None
    decreases |v.blocks[from].ancestors| - i
  {
    if i < |v.blocks[from].ancestors| {
      NoVoteFromBelow(c, v, from, i + 1, leader);
      AncestorIsOlder(c, v.blocks, from, v.blocks[from].ancestors[i]);
    }
  }

  /** Authors of the next-round blocks included in `certificate` that include `leader`. */
  ghost function Voters(dag: Blocks, certificate: BlockRef, leader: BlockRef): set<Authority>
    requires certificate in dag
  {
    set a | a in dag[certificate].ancestors && a.round == leader.round + 1 && a in dag && leader in dag[a].ancestors :: a.author
  }

  /** The certificate relation, a fact about the blocks themselves and not about any view. */
  ghost predicate Certifies(c: Committee, dag: Blocks, certificate: BlockRef, leader: BlockRef)
    requires c.Valid()
  {
    certificate in dag && certificate.round == leader.round + 2 && c.IsQuorum(Voters(dag, certificate, leader))
  }

  /** Every view that holds a decision-round block reads it the same way. */
  lemma CertificateIsGlobal(c: Committee, dag: Blocks, v: View, certificate: BlockRef, leader: BlockRef)
    requires c.Valid() && LocalView(c, dag, v) && v.gcRound <= leader.round
    requires certificate in v.blocks && certificate.round == leader.round + 2
    ensures CertificateFor(c, v, certificate, leader) <==> Certifies(c, dag, certificate, leader)
  {
    var b := v.blocks[certificate];
    var n := |b.ancestors|;
    forall i | 0 <= i < n
      ensures b.ancestors[i] in v.blocks && IsVote(c, v, b.ancestors[i], leader) <==>
        b.ancestors[i].round == leader.round + 1 && b.ancestors[i] in dag && leader in dag[b.ancestors[i]].ancestors
    {
      var a := b.ancestors[i];
      AncestorIsOlder(c, v.blocks, certificate, a);
      if a in v.blocks {
        if a.round == leader.round + 1 {
          VoteIsInclusion(c, v, a, leader);
        } else {
          NoVoteFromBelow(c, v, a, 0, leader);
        }
      }
    }
    assert VotersUpTo(c, v, b, n, leader) == Voters(dag, certificate, leader);
  }

  // ---------------------------------------------------------------------------
  // The three facts behind the commit rule
  // ---------------------------------------------------------------------------

  /** A slot has at most one certified block, however many its author produced. */
  lemma CertifiedLeaderUnique(c: Committee, dag: Blocks, faulty: set<Authority>,
                              cert: BlockRef, leader: BlockRef, cert': BlockRef, leader': BlockRef)
    requires Tolerated(c, dag, faulty)
    requires Certifies(c, dag, cert, leader) && Certifies(c, dag, cert', leader')
    requires leader.AtSlot() == leader'.AtSlot()
    ensures leader == leader'
  {
    var h := QuorumsShareHonest(c, Voters(dag, cert, leader), Voters(dag, cert', leader'), faulty);
    var a :| a in dag[cert].ancestors && a.round == leader.round + 1 && a in dag && leader in dag[a].ancestors && a.author == h;
    var a' :| a' in dag[cert'].ancestors && a'.round == leader.round + 1 && a' in dag && leader' in dag[a'].ancestors && a'.author == h;
    assert OneHonestBlock(dag, faulty, a, a');
    AncestorAtSlotUnique(c, dag[a], leader, leader');
  }

  ghost predicate IsBlame(b: Block, leader: Authority) {
    forall a :: a in b.ancestors ==> a.author != leader
  }

  /** A quorum of blames in any one view rules out a certificate anywhere. */
  lemma BlameExcludesCertificate(c: Committee, dag: Blocks, faulty: set<Authority>,
                                 blames: set<BlockRef>, cert: BlockRef, leader: BlockRef)
    requires Tolerated(c, dag, faulty)
    requires forall b :: b in blames ==> b in dag && b.round == leader.round + 1 && IsBlame(dag[b], leader.author)
    requires c.IsQuorum(set b | b in blames :: b.author)
    ensures !Certifies(c, dag, cert, leader)
  {
    if Certifies(c, dag, cert, leader) {
      var h := QuorumsShareHonest(c, Voters(dag, cert, leader), set b | b in blames :: b.author, faulty);
      var a :| a in dag[cert].ancestors && a.round == leader.round + 1 && a in dag && leader in dag[a].ancestors && a.author == h;
      var b :| b in blames && b.author == h;
      HonestBlocksCoincide(c, dag, faulty, a, b);
      assert false;
    }
  }

  /** A quorum of certificates is met by every block from the next wave on: some certificate
      lies in its history. */
  lemma {:induction false} SupportIsInherited(c: Committee, dag: Blocks, faulty: set<Authority>,
                                              certs: set<BlockRef>, leader: BlockRef, v: View, block: BlockRef)
      returns (cert: BlockRef)
    requires Tolerated(c, dag, faulty) && LocalView(c, dag, v) && v.gcRound <= leader.round
    requires forall r :: r in certs ==> Certifies(c, dag, r, leader)
    requires c.IsQuorum(Authors(certs))
    requires block in v.blocks && block.round >= leader.round + 3
    ensures cert in certs && cert in v.blocks && Linked(v.blocks, block, cert)
    decreases block.round
  {
    var b := v.blocks[block];
    if block.round == leader.round + 3 {
      var h := QuorumsShareHonest(c, Parents(b), Authors(certs), faulty);
      var a :| a in b.ancestors && a.round + 1 == block.round && a.author == h;
      cert :| cert in certs && cert.author == h;
      assert a in v.blocks && OneHonestBlock(dag, faulty, a, cert);
    } else {
      var h := QuorumNonEmpty(c, Parents(b), faulty);
      var a :| a in b.ancestors && a.round + 1 == block.round && a.author == h;
      assert a in v.blocks;
      cert := SupportIsInherited(c, dag, faulty, certs, leader, v, a);
    }
  }

  // ---------------------------------------------------------------------------
  // Direct decision
  // ---------------------------------------------------------------------------

  function UncommittedAtRound(v: View, round: Round): set<BlockRef> {
    if round <= v.lastCommitRound then {} else set r | r in v.blocks && r.round == round
  }

  function UncommittedAtSlot(v: View, slot: Slot): set<BlockRef> {
    set r | r in v.blocks && r.AtSlot() == slot
  }

  function Authors(refs: set<BlockRef>): set<Authority> {
    set r | r in refs :: r.author
  }

  ghost function Blames(v: View, slot: Slot): set<BlockRef> {
    set r | r in UncommittedAtRound(v, slot.round + 1) && IsBlame(v.blocks[r], slot.authority)
  }

  ghost predicate EnoughBlame(c: Committee, v: View, slot: Slot)
    requires c.Valid()
  {
    c.IsQuorum(Authors(Blames(v, slot)))
  }

  method EnoughLeaderBlame(c: Committee, v: View, votingRound: Round, leader: Authority) returns (enough: bool)
    requires c.Valid() && ValidView(c, v) && votingRound > 0
    ensures enough <==> EnoughBlame(c, v, Slot(votingRound - 1, leader))
  {
    ghost var slot := Slot(votingRound - 1, leader);
    var blames := new StakeAggregator(c);
    NoVotesNoQuorum(c);
    var todo := UncommittedAtRound(v, votingRound);
    ghost var counted: set<BlockRef> := {};
    while todo != {}
      invariant todo <= UncommittedAtRound(v, votingRound)
      invariant counted == set r | r in Blames(v, slot) && r !in todo
      invariant blames.Valid() && blames.committee == c && fresh(blames)
      invariant blames.votes == Authors(counted) && !c.IsQuorum(blames.votes)
      decreases todo
    {
      var votingBlock :| votingBlock in todo;
      var ancestors := v.blocks[votingBlock].ancestors;
      var blame := forall i :: 0 <= i < |ancestors| ==> ancestors[i].author != leader;
      assert blame <==> IsBlame(v.blocks[votingBlock], leader);
      if blame {
        counted := counted + {votingBlock};
        var reached := blames.Add(votingBlock.author);
        if reached {
          StakeMonotone(c, blames.votes, Authors(Blames(v, slot)));
          return true;
        }
      }
      todo := todo - {votingBlock};
    }
    assert counted == Blames(v, slot);
    return false;
  }

  ghost function Certificates(c: Committee, v: View, decisionRound: Round, leader: BlockRef): set<BlockRef>
    requires c.Valid() && ValidView(c, v) && v.gcRound <= leader.round
  {
    set r | r in UncommittedAtRound(v, decisionRound) && CertificateFor(c, v, r, leader)
  }

  ghost predicate EnoughSupport(c: Committee, v: View, decisionRound: Round, leader: BlockRef)
    requires c.Valid() && ValidView(c, v) && v.gcRound <= leader.round
  {
    c.IsQuorum(Authors(Certificates(c, v, decisionRound, leader)))
  }

  /** Stake of a round's blocks, one summand per block: never less than the stake of their authors. */
  method TotalBlockStake(c: Committee, v: View, round: Round) returns (total: nat)
    requires c.Valid() && ValidView(c, v)
    ensures total >= c.StakeOf(Authors(UncommittedAtRound(v, round)))
  {
    total := 0;
    EmptyStake(c);
    var todo := UncommittedAtRound(v, round);
    ghost var done: set<BlockRef> := {};
    assert Authors(done) == {};
    while todo != {}
      invariant done + todo == UncommittedAtRound(v, round)
      invariant total >= c.StakeOf(Authors(done))
      decreases todo
    {
      var block :| block in todo;
      AuthorIsMember(c, v, block);
      assert Authors(done + {block}) == Authors(done) + {block.author};
      if block.author !in Authors(done) {
        SumAdd(c.stakes, |c.stakes|, Authors(done), block.author);
      } else {
        assert Authors(done) + {block.author} == Authors(done);
      }
      total := total + c.stakes[block.author];
      done := done + {block};
      todo := todo - {block};
    }
    assert done == UncommittedAtRound(v, round);
  }

  lemma AuthorIsMember(c: Committee, v: View, r: BlockRef)
    requires c.Valid() && ValidView(c, v) && r in v.blocks && r.round > 0
    ensures c.IsValidIndex(r.author)
  {
  }

  /** The support test with its quick rejection and vote cache equals the plain quorum condition. */
  method EnoughLeaderSupport(c: Committee, v: View, decisionRound: Round, leader: BlockRef) returns (enough: bool)
    requires c.Valid() && ValidView(c, v) && v.gcRound <= leader.round
    ensures enough <==> EnoughSupport(c, v, decisionRound, leader)
  {
    var totalStake := TotalBlockStake(c, v, decisionRound);
    if !c.ReachedQuorum(totalStake) {
      StakeMonotone(c, Authors(Certificates(c, v, decisionRound, leader)), Authors(UncommittedAtRound(v, decisionRound)));
      return false;
    }
    var supporters := new StakeAggregator(c);
    NoVotesNoQuorum(c);
    var allVotes: map<BlockRef, bool> := map[];
    var todo := UncommittedAtRound(v, decisionRound);
    ghost var counted: set<BlockRef> := {};
    while todo != {}
      invariant todo <= UncommittedAtRound(v, decisionRound)
      invariant CacheSound(c, v, leader, allVotes)
      invariant counted == set r | r in Certificates(c, v, decisionRound, leader) && r !in todo
      invariant supporters.Valid() && supporters.committee == c && fresh(supporters)
      invariant supporters.votes == Authors(counted) && !c.IsQuorum(supporters.votes)
      decreases todo
    {
      var decisionBlock :| decisionBlock in todo;
      var isCertificate;
      isCertificate, allVotes := IsCertificate(c, v, decisionBlock, leader, allVotes);
      if isCertificate {
        AuthorIsMember(c, v, decisionBlock);
        counted := counted + {decisionBlock};
        var reached := supporters.Add(decisionBlock.author);
        if reached {
          StakeMonotone(c, supporters.votes, Authors(Certificates(c, v, decisionRound, leader)));
          return true;
        }
      }
      todo := todo - {decisionBlock};
    }
    assert counted == Certificates(c, v, decisionRound, leader);
    return false;
  }

  ghost predicate SupportedAt(c: Committee, v: View, slot: Slot, leader: BlockRef)
    requires c.Valid() && ValidView(c, v) && v.gcRound <= slot.round
  {
    leader in UncommittedAtSlot(v, slot) && EnoughSupport(c, v, slot.round + 2, leader)
  }

  /** The direct rule: skip on a quorum of blames, commit on a quorum of certificates. */
  ghost function DirectStatus(c: Committee, v: View, slot: Slot): LeaderStatus
    requires c.Valid() && ValidView(c, v) && v.gcRound <= slot.round
  {
    if EnoughBlame(c, v, slot) then Skip(slot)
    else if exists l :: SupportedAt(c, v, slot, l) then
      var l :| SupportedAt(c, v, slot, l);
      Commit(l)
    else Undecided(slot)
  }

  lemma SupportIsGlobal(c: Committee, dag: Blocks, v: View, slot: Slot, leader: BlockRef)
    requires c.Valid() && WellFormed(c, dag) && LocalView(c, dag, v) && v.gcRound <= slot.round
    requires SupportedAt(c, v, slot, leader)
    ensures forall r :: r in Certificates(c, v, slot.round + 2, leader) ==> Certifies(c, dag, r, leader)
  {
    forall r | r in Certificates(c, v, slot.round + 2, leader) ensures Certifies(c, dag, r, leader) {
      CertificateIsGlobal(c, dag, v, r, leader);
    }
  }

  lemma SupportHasCertificate(c: Committee, dag: Blocks, faulty: set<Authority>, v: View, slot: Slot, leader: BlockRef)
      returns (cert: BlockRef)
    requires Tolerated(c, dag, faulty) && LocalView(c, dag, v) && v.gcRound <= slot.round
    requires SupportedAt(c, v, slot, leader)
    ensures Certifies(c, dag, cert, leader)
  {
    SupportIsGlobal(c, dag, v, slot, leader);
    var h := QuorumNonEmpty(c, Authors(Certificates(c, v, slot.round + 2, leader)), faulty);
    cert :| cert in Certificates(c, v, slot.round + 2, leader) && cert.author == h;
  }

  lemma SupportUnique(c: Committee, dag: Blocks, faulty: set<Authority>, v: View, slot: Slot, l: BlockRef, l': BlockRef)
    requires Tolerated(c, dag, faulty) && LocalView(c, dag, v) && v.gcRound <= slot.round
    requires SupportedAt(c, v, slot, l) && SupportedAt(c, v, slot, l')
    ensures l == l'
  {
    var cert := SupportHasCertificate(c, dag, faulty, v, slot, l);
    var cert' := SupportHasCertificate(c, dag, faulty, v, slot, l');
    CertifiedLeaderUnique(c, dag, faulty, cert, l, cert', l');
  }

  lemma ElectedDecisionRound(opts: Options, round: Round)
    requires opts.Valid() && opts.LeaderRound(opts.WaveNumber(round)) == round
    ensures opts.DecisionRound(opts.WaveNumber(round)) == round + opts.waveLength - 1
  {
  }

  /** The block of the slot has a quorum of certificates in the decision round. */
  ghost predicate SupportedIn(c: Committee, v: View, decisionRound: Round, slot: Slot, leader: BlockRef)
    requires c.Valid() && ValidView(c, v) && v.gcRound <= slot.round
  {
    leader in UncommittedAtSlot(v, slot) && EnoughSupport(c, v, decisionRound, leader)
  }

  /** The direct rule for any decision round; no answer means that two blocks of the slot are
      supported, on which the source panics. */
  ghost predicate DirectOutcome(c: Committee, v: View, decisionRound: Round, slot: Slot, status: Option<LeaderStatus>)
    requires c.Valid() && ValidView(c, v) && v.gcRound <= slot.round
  {
    if EnoughBlame(c, v, slot) then status == Some(Skip(slot))
    else match status
      case None => exists l, l' :: l != l' && SupportedIn(c, v, decisionRound, slot, l) && SupportedIn(c, v, decisionRound, slot, l')
      case Some(Commit(l)) => SupportedIn(c, v, decisionRound, slot, l) && forall l' :: SupportedIn(c, v, decisionRound, slot, l') ==> l' == l
      case Some(Undecided(s)) => s == slot && forall l :: !SupportedIn(c, v, decisionRound, slot, l)
      case Some(Skip(_)) => false
  }

  /** The direct decision, for any wave length. */
  method TryDirectDecide(c: Committee, v: View, opts: Options, leader: Slot) returns (status: Option<LeaderStatus>)
    requires c.Valid() && ValidView(c, v) && v.gcRound <= leader.round
    requires opts.Valid() && opts.LeaderRound(opts.WaveNumber(leader.round)) == leader.round
    ensures DirectOutcome(c, v, leader.round + opts.waveLength - 1, leader, status)
  {
    var blamed := EnoughLeaderBlame(c, v, leader.round + 1, leader.authority);
    if blamed {
      return Some(Skip(leader));
    }
    var decisionRound := opts.DecisionRound(opts.WaveNumber(leader.round));
    ElectedDecisionRound(opts, leader.round);
    var todo := UncommittedAtSlot(v, leader);
    var supported: seq<BlockRef> := [];
    while todo != {}
      invariant todo <= UncommittedAtSlot(v, leader)
      invariant forall l :: l in supported <==> SupportedIn(c, v, decisionRound, leader, l) && l !in todo
      invariant |supported| > 1 ==> supported[0] != supported[1]
      decreases todo
    {
      var l :| l in todo;
      var enough := EnoughLeaderSupport(c, v, decisionRound, l);
      if enough {
        assert |supported| > 0 ==> supported[0] in supported;
        supported := supported + [l];
      }
      todo := todo - {l};
    }
    if |supported| > 1 {
      assert supported[0] in supported && supported[1] in supported;
      return None;
    }
    status := Some(if |supported| == 0 then Undecided(leader) else Commit(supported[0]));
    assert |supported| > 0 ==> supported[0] in supported;
  }

  /** Under the fault assumption waves of three rounds never meet the panic. */
  lemma DirectIsStatus(c: Committee, dag: Blocks, faulty: set<Authority>, v: View, slot: Slot, status: Option<LeaderStatus>)
    requires Tolerated(c, dag, faulty) && LocalView(c, dag, v) && v.gcRound <= slot.round
    requires DirectOutcome(c, v, slot.round + 2, slot, status)
    ensures status == Some(DirectStatus(c, v, slot))
  {
    forall l ensures SupportedIn(c, v, slot.round + 2, slot, l) <==> SupportedAt(c, v, slot, l) {
    }
    if !EnoughBlame(c, v, slot) && status == None {
      var l, l' :| l != l' && SupportedIn(c, v, slot.round + 2, slot, l) && SupportedIn(c, v, slot.round + 2, slot, l');
      SupportUnique(c, dag, faulty, v, slot, l, l');
      assert false;
    } else if !EnoughBlame(c, v, slot) && status.value.Commit? {
      assert SupportedAt(c, v, slot, status.value.leader);
      assert SupportedAt(c, v, slot, DirectStatus(c, v, slot).leader);
    }
  }

  // ---------------------------------------------------------------------------
  // Indirect decision
  // ---------------------------------------------------------------------------

  ghost function AncestorsAt(v: View, anchor: BlockRef, round: Round): set<BlockRef> {
    set r | r in v.blocks && r.round == round && Linked(v.blocks, anchor, r)
  }

  lemma {:induction false} HighestRef(refs: set<BlockRef>) returns (top: BlockRef)
    requires refs != {}
    ensures top in refs && forall r :: r in refs ==> r.round <= top.round
  {
    var r :| r in refs;
    if refs == {r} {
      top := r;
    } else {
      top := HighestRef(refs - {r});
      if top.round < r.round {
        top := r;
      }
    }
  }

  /** Blocks of `round` still to be found below the frontier. */
  ghost predicate Pending(v: View, frontier: set<BlockRef>, round: Round, r: BlockRef) {
    r in frontier || exists y :: y in frontier && y.round > round && Linked(v.blocks, y, r)
  }

  function AncestorSet(b: Block): set<BlockRef> {
    set i | 0 <= i < |b.ancestors| :: b.ancestors[i]
  }

  /** The frontier accounts for exactly the blocks of the round in the anchor's history. */
  ghost predicate FrontierComplete(v: View, anchor: BlockRef, frontier: set<BlockRef>, round: Round) {
    forall r :: r in v.blocks && r.round == round ==> (Linked(v.blocks, anchor, r) <==> Pending(v, frontier, round, r))
  }

  /** Expanded blocks lie at or above the whole frontier and never come back. */
  ghost predicate FrontierBelow(frontier: set<BlockRef>, expanded: set<BlockRef>) {
    frontier !! expanded && forall r, e :: r in frontier && e in expanded ==> r.round <= e.round
  }

  /** Pops the highest reference above the round and puts its ancestors in its place; a
      reference whose block is not stored is dropped. */
  method ExpandHighest(c: Committee, v: View, anchor: BlockRef, linked: set<BlockRef>, earlierRound: Round,
                       ghost expanded: set<BlockRef>)
      returns (done: bool, linked': set<BlockRef>, ghost expanded': set<BlockRef>)
    requires c.Valid() && ValidView(c, v) && linked != {}
    requires FrontierComplete(v, anchor, linked, earlierRound) && FrontierBelow(linked, expanded)
    ensures FrontierComplete(v, anchor, linked', earlierRound) && FrontierBelow(linked', expanded')
    ensures done ==> linked' == linked && forall r :: r in linked ==> r.round <= earlierRound
    ensures !done ==>
      |v.blocks.Keys - expanded'| < |v.blocks.Keys - expanded| || (expanded' == expanded && |linked'| < |linked|)
  {
    ghost var top := HighestRef(linked);
    var blockRef :| blockRef in linked && forall r :: r in linked ==> r.round <= blockRef.round;
    if blockRef.round <= earlierRound {
      return true, linked, expanded;
    }
    if blockRef in v.blocks {
      FrontierExpand(c, v, anchor, linked, blockRef, expanded, earlierRound);
      return false, linked - {blockRef} + AncestorSet(v.blocks[blockRef]), expanded + {blockRef};
    }
    FrontierDropMissing(v, anchor, linked, blockRef, earlierRound);
    return false, linked - {blockRef}, expanded;
  }

  /** The frontier descends round by round, expanding the highest reference first. */
  method AncestorsAtRound(c: Committee, v: View, anchor: BlockRef, earlierRound: Round) returns (found: set<BlockRef>)
    requires c.Valid() && ValidView(c, v) && anchor in v.blocks && earlierRound < anchor.round
    ensures found == AncestorsAt(v, anchor, earlierRound)
  {
    var linked := AncestorSet(v.blocks[anchor]);
    ghost var expanded: set<BlockRef> := {};
    FrontierOfAnchor(c, v, anchor, earlierRound);
    while linked != {}
      invariant FrontierComplete(v, anchor, linked, earlierRound) && FrontierBelow(linked, expanded)
      decreases |v.blocks.Keys - expanded|, |linked|
    {
      var done;
      done, linked, expanded := ExpandHighest(c, v, anchor, linked, earlierRound, expanded);
      if done {
        break;
      }
    }
    FrontierDone(v, anchor, linked, earlierRound);
    found := set r | r in linked && r.round == earlierRound && r in v.blocks;
  }

  lemma FrontierDone(v: View, anchor: BlockRef, frontier: set<BlockRef>, round: Round)
    requires FrontierComplete(v, anchor, frontier, round)
    requires forall r :: r in frontier ==> r.round <= round
    ensures (set r | r in frontier && r.round == round && r in v.blocks) == AncestorsAt(v, anchor, round)
  {
  }

  lemma FrontierOfAnchor(c: Committee, v: View, anchor: BlockRef, round: Round)
    requires c.Valid() && ValidView(c, v) && anchor in v.blocks && round < anchor.round
    ensures FrontierComplete(v, anchor, AncestorSet(v.blocks[anchor]), round)
  {
    forall r | r in v.blocks && r.round == round
      ensures Linked(v.blocks, anchor, r) <==> Pending(v, AncestorSet(v.blocks[anchor]), round, r)
    {
      LinkedUnfold(c, v, anchor, r);
    }
  }

  /** A block reaches r through one of its ancestors. */
  lemma LinkedUnfold(c: Committee, v: View, from: BlockRef, r: BlockRef)
    requires c.Valid() && ValidView(c, v) && from in v.blocks
    ensures Linked(v.blocks, from, r) <==> Pending(v, AncestorSet(v.blocks[from]), r.round, r)
  {
    var ancestors := AncestorSet(v.blocks[from]);
    assert forall a :: a in v.blocks[from].ancestors <==> a in ancestors;
    if Pending(v, ancestors, r.round, r) && r !in ancestors {
      var y :| y in ancestors && y.round > r.round && Linked(v.blocks, y, r);
      AncestorIsOlder(c, v.blocks, from, y);
    }
  }

  /** Replacing a block above the round by its ancestors loses no block of the round and adds none. */
  lemma PendingThroughAncestors(c: Committee, v: View, before: set<BlockRef>, top: BlockRef, r: BlockRef)
    requires c.Valid() && ValidView(c, v) && top in before && top in v.blocks && top.round > r.round
    ensures Pending(v, before, r.round, r) <==> Pending(v, before - {top} + AncestorSet(v.blocks[top]), r.round, r)
  {
    LinkedUnfold(c, v, top, r);
    if Pending(v, before, r.round, r) && r !in before {
      var y :| y in before && y.round > r.round && Linked(v.blocks, y, r);
      if y == top && r !in AncestorSet(v.blocks[top]) {
        var z :| z in AncestorSet(v.blocks[top]) && z.round > r.round && Linked(v.blocks, z, r);
      }
    }
  }

  lemma FrontierExpand(c: Committee, v: View, anchor: BlockRef, before: set<BlockRef>, top: BlockRef,
                       expanded: set<BlockRef>, round: Round)
    requires c.Valid() && ValidView(c, v) && top in before && top in v.blocks && top.round > round
    requires forall r :: r in before ==> r.round <= top.round
    requires FrontierComplete(v, anchor, before, round) && FrontierBelow(before, expanded)
    ensures FrontierComplete(v, anchor, before - {top} + AncestorSet(v.blocks[top]), round)
    ensures FrontierBelow(before - {top} + AncestorSet(v.blocks[top]), expanded + {top})
    ensures |v.blocks.Keys - (expanded + {top})| < |v.blocks.Keys - expanded|
  {
    var after := before - {top} + AncestorSet(v.blocks[top]);
    forall r | r in v.blocks && r.round == round
      ensures Linked(v.blocks, anchor, r) <==> Pending(v, after, round, r)
    {
      PendingThroughAncestors(c, v, before, top, r);
    }
    FrontierStaysBelow(c, v, before, top, expanded);
    assert v.blocks.Keys - expanded == v.blocks.Keys - (expanded + {top}) + {top};
  }

  lemma FrontierStaysBelow(c: Committee, v: View, before: set<BlockRef>, top: BlockRef, expanded: set<BlockRef>)
    requires c.Valid() && ValidView(c, v) && top in before && top in v.blocks
    requires forall r :: r in before ==> r.round <= top.round
    requires FrontierBelow(before, expanded)
    ensures FrontierBelow(before - {top} + AncestorSet(v.blocks[top]), expanded + {top})
  {
    forall a | a in AncestorSet(v.blocks[top]) ensures a.round < top.round {
      AncestorIsOlder(c, v.blocks, top, a);
    }
  }

  lemma FrontierDropMissing(v: View, anchor: BlockRef, before: set<BlockRef>, top: BlockRef, round: Round)
    requires top in before && top !in v.blocks && top.round > round
    requires FrontierComplete(v, anchor, before, round)
    ensures FrontierComplete(v, anchor, before - {top}, round)
  {
    forall r | r in v.blocks && r.round == round
      ensures Pending(v, before, round, r) <==> Pending(v, before - {top}, round, r)
    {
    }
  }

  // ---------------------------------------------------------------------------

  ghost predicate CertifiedFrom(c: Committee, v: View, anchor: BlockRef, slot: Slot, leader: BlockRef)
    requires c.Valid() && ValidView(c, v) && v.gcRound <= slot.round
  {
    leader in UncommittedAtSlot(v, slot) &&
    exists cert :: cert in AncestorsAt(v, anchor, slot.round + 2) && CertificateFor(c, v, cert, leader)
  }

  /** The indirect rule: commit what the anchor's history certifies, otherwise skip. */
  ghost function AnchorStatus(c: Committee, v: View, anchor: BlockRef, slot: Slot): LeaderStatus
    requires c.Valid() && ValidView(c, v) && v.gcRound <= slot.round
  {
    if exists l :: CertifiedFrom(c, v, anchor, slot, l) then
      var l :| CertifiedFrom(c, v, anchor, slot, l);
      Commit(l)
    else Skip(slot)
  }

  lemma CertifiedFromGlobal(c: Committee, dag: Blocks, v: View, anchor: BlockRef, slot: Slot, leader: BlockRef)
      returns (cert: BlockRef)
    requires c.Valid() && LocalView(c, dag, v) && v.gcRound <= slot.round
    requires CertifiedFrom(c, v, anchor, slot, leader)
    ensures Certifies(c, dag, cert, leader) && cert in v.blocks && Linked(v.blocks, anchor, cert)
  {
    cert :| cert in AncestorsAt(v, anchor, slot.round + 2) && CertificateFor(c, v, cert, leader);
    CertificateIsGlobal(c, dag, v, cert, leader);
  }

  lemma CertifiedFromUnique(c: Committee, dag: Blocks, faulty: set<Authority>, v: View, anchor: BlockRef, slot: Slot,
                            l: BlockRef, l': BlockRef)
    requires Tolerated(c, dag, faulty) && LocalView(c, dag, v) && v.gcRound <= slot.round
    requires CertifiedFrom(c, v, anchor, slot, l) && CertifiedFrom(c, v, anchor, slot, l')
    ensures l == l'
  {
    var cert := CertifiedFromGlobal(c, dag, v, anchor, slot, l);
    var cert' := CertifiedFromGlobal(c, dag, v, anchor, slot, l');
    CertifiedLeaderUnique(c, dag, faulty, cert, l, cert', l');
  }

  ghost predicate HasCertificate(c: Committee, v: View, candidates: set<BlockRef>, leader: BlockRef)
    requires c.Valid() && ValidView(c, v) && v.gcRound <= leader.round
  {
    exists cert :: cert in candidates && cert in v.blocks && CertificateFor(c, v, cert, leader)
  }

  /** Is some potential certificate a certificate for this leader block? */
  method AnyCertificate(c: Committee, v: View, candidates: set<BlockRef>, leader: BlockRef) returns (found: bool)
    requires c.Valid() && ValidView(c, v) && v.gcRound <= leader.round
    requires forall r :: r in candidates ==> r in v.blocks
    ensures found <==> HasCertificate(c, v, candidates, leader)
  {
    var allVotes: map<BlockRef, bool> := map[];
    var todo := candidates;
    while todo != {}
      invariant todo <= candidates
      invariant CacheSound(c, v, leader, allVotes)
      invariant forall r :: r in candidates && r !in todo ==> !CertificateFor(c, v, r, leader)
      decreases todo
    {
      var candidate :| candidate in todo;
      var isCertificate;
      isCertificate, allVotes := IsCertificate(c, v, candidate, leader, allVotes);
      if isCertificate {
        return true;
      }
      todo := todo - {candidate};
    }
    return false;
  }

  /** The candidates certify this block of the slot. */
  ghost predicate CertifiedIn(c: Committee, v: View, candidates: set<BlockRef>, slot: Slot, leader: BlockRef)
    requires c.Valid() && ValidView(c, v) && v.gcRound <= slot.round
  {
    leader in UncommittedAtSlot(v, slot) && HasCertificate(c, v, candidates, leader)
  }

  /** The decision from potential certificates; no answer means that two blocks of the slot are
      certified, on which the source panics. */
  ghost predicate CertifiedOutcome(c: Committee, v: View, candidates: set<BlockRef>, slot: Slot, status: Option<LeaderStatus>)
    requires c.Valid() && ValidView(c, v) && v.gcRound <= slot.round
  {
    match status
    case None => exists l, l' :: l != l' && CertifiedIn(c, v, candidates, slot, l) && CertifiedIn(c, v, candidates, slot, l')
    case Some(Commit(l)) => CertifiedIn(c, v, candidates, slot, l) && forall l' :: CertifiedIn(c, v, candidates, slot, l') ==> l' == l
    case Some(Skip(s)) => s == slot && forall l :: !CertifiedIn(c, v, candidates, slot, l)
    case Some(Undecided(_)) => false
  }

  /** The indirect rule for any decision round: the candidates are in the anchor's history. */
  ghost predicate AnchorOutcome(c: Committee, v: View, anchor: BlockRef, decisionRound: Round, slot: Slot, status: Option<LeaderStatus>)
    requires c.Valid() && ValidView(c, v) && v.gcRound <= slot.round
  {
    CertifiedOutcome(c, v, AncestorsAt(v, anchor, decisionRound), slot, status)
  }

  /** The indirect decision from an anchor, for any wave length. */
  method DecideLeaderFromAnchor(c: Committee, v: View, opts: Options, anchor: BlockRef, slot: Slot) returns (status: Option<LeaderStatus>)
    requires c.Valid() && ValidView(c, v) && v.gcRound <= slot.round
    requires opts.Valid() && opts.LeaderRound(opts.WaveNumber(slot.round)) == slot.round
    requires anchor in v.blocks && slot.round + opts.waveLength <= anchor.round
    ensures AnchorOutcome(c, v, anchor, slot.round + opts.waveLength - 1, slot, status)
  {
    var candidates := PotentialCertificates(c, v, opts, anchor, slot);
    status := DecideFromCertificates(c, v, candidates, slot);
  }

  method PotentialCertificates(c: Committee, v: View, opts: Options, anchor: BlockRef, slot: Slot) returns (candidates: set<BlockRef>)
    requires c.Valid() && ValidView(c, v) && anchor in v.blocks && slot.round + opts.waveLength <= anchor.round
    requires opts.Valid() && opts.LeaderRound(opts.WaveNumber(slot.round)) == slot.round
    ensures candidates == AncestorsAt(v, anchor, slot.round + opts.waveLength - 1)
  {
    var decisionRound := opts.DecisionRound(opts.WaveNumber(slot.round));
    ElectedDecisionRound(opts, slot.round);
    candidates := AncestorsAtRound(c, v, anchor, decisionRound);
  }

  method DecideFromCertificates(c: Committee, v: View, candidates: set<BlockRef>, slot: Slot) returns (status: Option<LeaderStatus>)
    requires c.Valid() && ValidView(c, v) && v.gcRound <= slot.round && forall r :: r in candidates ==> r in v.blocks
    ensures CertifiedOutcome(c, v, candidates, slot, status)
  {
    var todo := UncommittedAtSlot(v, slot);
    var certified: seq<BlockRef> := [];
    while todo != {}
      invariant todo <= UncommittedAtSlot(v, slot)
      invariant forall l :: l in certified <==> CertifiedIn(c, v, candidates, slot, l) && l !in todo
      invariant |certified| > 1 ==> certified[0] != certified[1]
      decreases todo
    {
      var l :| l in todo;
      var found := AnyCertificate(c, v, candidates, l);
      if found {
        assert |certified| > 0 ==> certified[0] in certified;
        certified := certified + [l];
      }
      todo := todo - {l};
    }
    if |certified| > 1 {
      assert certified[0] in certified && certified[1] in certified;
      return None;
    }
    status := Some(if |certified| == 0 then Skip(slot) else Commit(certified[0]));
    assert |certified| > 0 ==> certified[0] in certified;
  }

  lemma AnchorIsStatus(c: Committee, dag: Blocks, faulty: set<Authority>, v: View, anchor: BlockRef, slot: Slot, status: Option<LeaderStatus>)
    requires Tolerated(c, dag, faulty) && LocalView(c, dag, v) && v.gcRound <= slot.round
    requires AnchorOutcome(c, v, anchor, slot.round + 2, slot, status)
    ensures status == Some(AnchorStatus(c, v, anchor, slot))
  {
    forall l ensures CertifiedIn(c, v, AncestorsAt(v, anchor, slot.round + 2), slot, l) <==> CertifiedFrom(c, v, anchor, slot, l) {
    }
    if status == None {
      var l, l' :| l != l' && CertifiedIn(c, v, AncestorsAt(v, anchor, slot.round + 2), slot, l) && CertifiedIn(c, v, AncestorsAt(v, anchor, slot.round + 2), slot, l');
      CertifiedFromUnique(c, dag, faulty, v, anchor, slot, l, l');
      assert false;
    } else if status.value.Commit? {
      assert CertifiedFrom(c, v, anchor, slot, status.value.leader);
      assert CertifiedFrom(c, v, anchor, slot, AnchorStatus(c, v, anchor, slot).leader);
    }
  }

  /** Statuses of the slots above, in order; the anchors among them are those a wave away. */
  ghost predicate LeadersKnown(v: View, leaders: seq<LeaderStatus>) {
    forall i :: 0 <= i < |leaders| && leaders[i].Commit? ==> leaders[i].leader in v.blocks
  }

  /** Decide from the first committed anchor, unless an undecided slot comes first. */
  ghost function IndirectStatus(c: Committee, v: View, slot: Slot, leaders: seq<LeaderStatus>): LeaderStatus
    requires c.Valid() && ValidView(c, v) && v.gcRound <= slot.round
  {
    if leaders == [] then Undecided(slot)
    else if leaders[0].Round() < slot.round + 3 || leaders[0].Skip? then IndirectStatus(c, v, slot, leaders[1..])
    else if leaders[0].Commit? then AnchorStatus(c, v, leaders[0].leader, slot)
    else Undecided(slot)
  }

  /** The first slot from the given round on that is not skipped. */
  function FirstAnchor(round: Round, leaders: seq<LeaderStatus>): Option<LeaderStatus> {
    if leaders == [] then None
    else if leaders[0].Round() < round || leaders[0].Skip? then FirstAnchor(round, leaders[1..])
    else Some(leaders[0])
  }

  /** The indirect rule for any wave length. */
  ghost predicate IndirectOutcome(c: Committee, v: View, waveLength: nat, slot: Slot, leaders: seq<LeaderStatus>, status: Option<LeaderStatus>)
    requires c.Valid() && ValidView(c, v) && v.gcRound <= slot.round && waveLength > 0
  {
    match FirstAnchor(slot.round + waveLength, leaders)
    case Some(Commit(anchor)) => AnchorOutcome(c, v, anchor, slot.round + waveLength - 1, slot, status)
    case _ => status == Some(Undecided(slot))
  }

  method TryIndirectDecide(c: Committee, v: View, opts: Options, slot: Slot, leaders: seq<LeaderStatus>) returns (status: Option<LeaderStatus>)
    requires c.Valid() && ValidView(c, v) && v.gcRound <= slot.round
    requires opts.Valid() && opts.LeaderRound(opts.WaveNumber(slot.round)) == slot.round
    requires LeadersKnown(v, leaders)
    ensures IndirectOutcome(c, v, opts.waveLength, slot, leaders, status)
  {
    for i := 0 to |leaders|
      invariant FirstAnchor(slot.round + opts.waveLength, leaders) == FirstAnchor(slot.round + opts.waveLength, leaders[i..])
    {
      assert leaders[i..][1..] == leaders[i + 1..];
      var anchor := leaders[i];
      if slot.round + opts.waveLength <= anchor.Round() {
        match anchor
        case Commit(block) =>
          status := DecideLeaderFromAnchor(c, v, opts, block, slot);
          return;
        case Skip(_) =>
        case Undecided(_) =>
          return Some(Undecided(slot));
      }
    }
    return Some(Undecided(slot));
  }

  lemma {:induction false} IndirectByAnchor(c: Committee, v: View, slot: Slot, leaders: seq<LeaderStatus>)
    requires c.Valid() && ValidView(c, v) && v.gcRound <= slot.round
    ensures IndirectStatus(c, v, slot, leaders) ==
      match FirstAnchor(slot.round + 3, leaders)
      case Some(Commit(anchor)) => AnchorStatus(c, v, anchor, slot)
      case _ => Undecided(slot)
  {
    if leaders != [] {
      IndirectByAnchor(c, v, slot, leaders[1..]);
    }
  }

  /** Under the fault assumption waves of three rounds never meet the panic. */
  lemma IndirectIsStatus(c: Committee, dag: Blocks, faulty: set<Authority>, v: View, slot: Slot, leaders: seq<LeaderStatus>,
                         status: Option<LeaderStatus>)
    requires Tolerated(c, dag, faulty) && LocalView(c, dag, v) && v.gcRound <= slot.round
    requires IndirectOutcome(c, v, 3, slot, leaders, status)
    ensures status == Some(IndirectStatus(c, v, slot, leaders))
  {
    IndirectByAnchor(c, v, slot, leaders);
    match FirstAnchor(slot.round + 3, leaders)
    case Some(Commit(anchor)) => AnchorIsStatus(c, dag, faulty, v, anchor, slot, status);
    case _ =>
  }
}
