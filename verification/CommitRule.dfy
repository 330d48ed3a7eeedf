/** What the commit rule decides, said of the stored blocks alone: which blocks and votes make it
    skip, commit or wait, and how far it gets. */
module CommitRule {
  import opened Wrappers
  import opened Committees
  import opened Dag
  import opened BaseCommitter
  import opened UniversalCommitter

  // ---------------------------------------------------------------------------
  // Support in a history
  // ---------------------------------------------------------------------------

  /** A supported block is a block of the slot in the history of the supporter. */
  lemma {:induction false} SearchFindsHistory(c: Committee, blocks: Blocks, floor: Round, slot: Slot, from: BlockRef, i: nat)
    requires c.Valid() && WellFormed(c, blocks) && ClosedAbove(blocks, floor)
    requires floor <= slot.round && from in blocks && i <= |blocks[from].ancestors|
    ensures var found := FindAmongAncestors(c, blocks, floor, slot, from, i);
      found.Some? ==> found.value.AtSlot() == slot && Linked(blocks, from, found.value)
    decreases from.round, |blocks[from].ancestors| - i
  {
    if i < |blocks[from].ancestors| {
      var a := blocks[from].ancestors[i];
      AncestorIsOlder(c, blocks, from, a);
      if a.AtSlot() != slot {
        SearchFindsHistory(c, blocks, floor, slot, from, i + 1);
        if a.round > slot.round {
          SearchFindsHistory(c, blocks, floor, slot, a, 0);
        }
      }
    }
  }

  /** And one is found whenever there is one. */
  lemma {:induction false} SearchMissesNothing(c: Committee, blocks: Blocks, floor: Round, from: BlockRef, i: nat, j: nat, leader: BlockRef)
    requires c.Valid() && WellFormed(c, blocks) && ClosedAbove(blocks, floor)
    requires floor <= leader.round && from in blocks && i <= j < |blocks[from].ancestors|
    requires var a := blocks[from].ancestors[j]; a == leader || (a.round > leader.round && Linked(blocks, a, leader))
    ensures FindAmongAncestors(c, blocks, floor, leader.AtSlot(), from, i).Some?
    decreases from.round, |blocks[from].ancestors| - i
  {
    var a := blocks[from].ancestors[i];
    AncestorIsOlder(c, blocks, from, a);
    if i < j {
      SearchMissesNothing(c, blocks, floor, from, i + 1, j, leader);
    } else if a != leader {
      var b :| b in blocks[a].ancestors && (b == leader || (b.round > leader.round && Linked(blocks, b, leader)));
      var k :| 0 <= k < |blocks[a].ancestors| && blocks[a].ancestors[k] == b;
      SearchMissesNothing(c, blocks, floor, a, 0, k, leader);
    }
  }

  /** A block supports some block of a slot exactly when one is in its history. */
  lemma SupportsIff(c: Committee, v: View, slot: Slot, from: BlockRef)
    requires c.Valid() && ValidView(c, v) && v.gcRound <= slot.round < from.round && from in v.blocks
    ensures FindSupportedBlock(c, v.blocks, v.gcRound, slot, from).Some? <==>
      exists leader: BlockRef :: leader.AtSlot() == slot && Linked(v.blocks, from, leader)
  {
    SearchFindsHistory(c, v.blocks, v.gcRound, slot, from, 0);
    if leader: BlockRef :| leader.AtSlot() == slot && Linked(v.blocks, from, leader) {
      var b :| b in v.blocks[from].ancestors && (b == leader || (b.round > leader.round && Linked(v.blocks, b, leader)));
      var k :| 0 <= k < |v.blocks[from].ancestors| && v.blocks[from].ancestors[k] == b;
      SearchMissesNothing(c, v.blocks, v.gcRound, from, 0, k, leader);
    }
  }

  // ---------------------------------------------------------------------------
  // The direct rule
  // ---------------------------------------------------------------------------

  /** The authors of these blocks are a quorum. */
  ghost predicate ByQuorum(c: Committee, refs: set<BlockRef>)
    requires c.Valid()
  {
    c.IsQuorum(set r: BlockRef | r in refs :: r.author)
  }

  /** Blocks of the next round, above the last commit, with no ancestor of the leader's. */
  ghost predicate Blaming(v: View, slot: Slot, blames: set<BlockRef>) {
    forall b :: b in blames ==>
      && b in v.blocks && b.round == slot.round + 1 && b.round > v.lastCommitRound
      && forall a :: a in v.blocks[b].ancestors ==> a.author != slot.authority
  }

  /** A slot is skipped directly exactly when a quorum of authorities have such a block. */
  lemma DirectSkipIff(c: Committee, v: View, slot: Slot)
    requires c.Valid() && ValidView(c, v) && v.gcRound <= slot.round
    ensures DirectStatus(c, v, slot) == Skip(slot) <==>
      exists blames: set<BlockRef> :: Blaming(v, slot, blames) && ByQuorum(c, blames)
  {
    if EnoughBlame(c, v, slot) {
      var blames := Blames(v, slot);
      assert Blaming(v, slot, blames);
      assert Authors(blames) == set b: BlockRef | b in blames :: b.author;
    }
    if blames: set<BlockRef> :| Blaming(v, slot, blames) && ByQuorum(c, blames) {
      assert blames <= Blames(v, slot);
      StakeMonotone(c, set b: BlockRef | b in blames :: b.author, Authors(Blames(v, slot)));
    }
  }

  /** Ancestors of a block, one round above the leader, that include the leader. */
  ghost predicate Voting(v: View, certificate: BlockRef, leader: BlockRef, votes: set<BlockRef>)
    requires certificate in v.blocks
  {
    forall x :: x in votes ==>
      x in v.blocks[certificate].ancestors && x in v.blocks && x.round == leader.round + 1 && leader in v.blocks[x].ancestors
  }

  /** A stored block two rounds above the leader that includes the votes of a quorum. */
  ghost predicate CertifiedBy(c: Committee, v: View, leader: BlockRef, certificate: BlockRef)
    requires c.Valid()
  {
    && certificate in v.blocks && certificate.round == leader.round + 2
    && exists votes: set<BlockRef> :: Voting(v, certificate, leader, votes) && ByQuorum(c, votes)
  }

  lemma CertificateIff(c: Committee, dag: Blocks, v: View, certificate: BlockRef, leader: BlockRef)
    requires c.Valid() && LocalView(c, dag, v) && v.gcRound <= leader.round
    requires certificate in v.blocks && certificate.round == leader.round + 2
    ensures CertificateFor(c, v, certificate, leader) <==> CertifiedBy(c, v, leader, certificate)
  {
    CertificateIsGlobal(c, dag, v, certificate, leader);
    if CertificateFor(c, v, certificate, leader) {
      var votes := set a | a in v.blocks[certificate].ancestors && a.round == leader.round + 1 && a in v.blocks && leader in v.blocks[a].ancestors;
      assert Voting(v, certificate, leader, votes);
      assert Voters(dag, certificate, leader) == set x: BlockRef | x in votes :: x.author;
    }
    if votes: set<BlockRef> :| Voting(v, certificate, leader, votes) && ByQuorum(c, votes) {
      StakeMonotone(c, set x: BlockRef | x in votes :: x.author, Voters(dag, certificate, leader));
    }
  }

  ghost predicate Certifying(c: Committee, v: View, leader: BlockRef, certs: set<BlockRef>)
    requires c.Valid()
  {
    forall r :: r in certs ==> CertifiedBy(c, v, leader, r) && r.round > v.lastCommitRound
  }

  lemma SupportIff(c: Committee, dag: Blocks, v: View, slot: Slot, leader: BlockRef)
    requires c.Valid() && LocalView(c, dag, v) && v.gcRound <= slot.round
    ensures SupportedAt(c, v, slot, leader) <==>
      leader in v.blocks && leader.AtSlot() == slot && exists certs: set<BlockRef> :: Certifying(c, v, leader, certs) && ByQuorum(c, certs)
  {
    if leader in v.blocks && leader.AtSlot() == slot {
      var all := Certificates(c, v, slot.round + 2, leader);
      forall r | r in v.blocks && r.round == slot.round + 2 ensures CertificateFor(c, v, r, leader) <==> CertifiedBy(c, v, leader, r) {
        CertificateIff(c, dag, v, r, leader);
      }
      assert Certifying(c, v, leader, all) && Authors(all) == set r: BlockRef | r in all :: r.author;
      if certs: set<BlockRef> :| Certifying(c, v, leader, certs) && ByQuorum(c, certs) {
        assert certs <= all;
        StakeMonotone(c, set r: BlockRef | r in certs :: r.author, Authors(all));
      }
    }
  }

  /** A block is committed directly exactly when it is not skipped directly and a quorum of
      authorities have a certificate for it. */
  lemma DirectCommitIff(c: Committee, dag: Blocks, faulty: set<Authority>, v: View, slot: Slot, leader: BlockRef)
    requires Tolerated(c, dag, faulty) && LocalView(c, dag, v) && v.gcRound <= slot.round
    ensures DirectStatus(c, v, slot) == Commit(leader) <==>
      && DirectStatus(c, v, slot) != Skip(slot) && leader in v.blocks && leader.AtSlot() == slot
      && exists certs: set<BlockRef> :: Certifying(c, v, leader, certs) && ByQuorum(c, certs)
  {
    SupportIff(c, dag, v, slot, leader);
    if SupportedAt(c, v, slot, leader) && !EnoughBlame(c, v, slot) {
      SupportUnique(c, dag, faulty, v, slot, leader, DirectStatus(c, v, slot).leader);
    }
  }

  // ---------------------------------------------------------------------------
  // The indirect rule
  // ---------------------------------------------------------------------------

  lemma CertifiedFromIff(c: Committee, dag: Blocks, v: View, anchor: BlockRef, slot: Slot, leader: BlockRef)
    requires c.Valid() && LocalView(c, dag, v) && v.gcRound <= slot.round
    ensures CertifiedFrom(c, v, anchor, slot, leader) <==>
      && leader in v.blocks && leader.AtSlot() == slot
      && exists cert :: CertifiedBy(c, v, leader, cert) && Linked(v.blocks, anchor, cert)
  {
    if CertifiedFrom(c, v, anchor, slot, leader) {
      var cert :| cert in AncestorsAt(v, anchor, slot.round + 2) && CertificateFor(c, v, cert, leader);
      CertificateIff(c, dag, v, cert, leader);
    } else if leader in v.blocks && leader.AtSlot() == slot {
      forall cert | CertifiedBy(c, v, leader, cert) ensures !Linked(v.blocks, anchor, cert) {
        CertificateIff(c, dag, v, cert, leader);
        assert cert !in AncestorsAt(v, anchor, slot.round + 2);
      }
    }
  }

  /** An anchor commits the block for which its history holds a certificate, and skips the slot if
      there is none. */
  lemma AnchorCommitIff(c: Committee, dag: Blocks, faulty: set<Authority>, v: View, anchor: BlockRef, slot: Slot, leader: BlockRef)
    requires Tolerated(c, dag, faulty) && LocalView(c, dag, v) && v.gcRound <= slot.round
    ensures AnchorStatus(c, v, anchor, slot) == Commit(leader) <==>
      && leader in v.blocks && leader.AtSlot() == slot
      && exists cert :: CertifiedBy(c, v, leader, cert) && Linked(v.blocks, anchor, cert)
    ensures AnchorStatus(c, v, anchor, slot).Commit? || AnchorStatus(c, v, anchor, slot) == Skip(slot)
  {
    CertifiedFromIff(c, dag, v, anchor, slot, leader);
    AnchorTakesCertified(c, dag, faulty, v, anchor, slot, leader);
  }

  lemma AnchorTakesCertified(c: Committee, dag: Blocks, faulty: set<Authority>, v: View, anchor: BlockRef, slot: Slot, leader: BlockRef)
    requires Tolerated(c, dag, faulty) && LocalView(c, dag, v) && v.gcRound <= slot.round
    ensures AnchorStatus(c, v, anchor, slot) == Commit(leader) <==> CertifiedFrom(c, v, anchor, slot, leader)
  {
    if CertifiedFrom(c, v, anchor, slot, leader) {
      CertifiedFromUnique(c, dag, faulty, v, anchor, slot, leader, AnchorStatus(c, v, anchor, slot).leader);
    }
  }

  lemma {:induction false} AnchorIsFirst(c: Committee, v: View, schedule: Schedule, hi: Round, round: Round, from: Round, anchor: Round)
    requires c.Valid() && ValidView(c, v) && v.gcRound <= round < from <= anchor && IsAnchor(c, v, schedule, hi, round, anchor)
    ensures FirstAnchor(round + 3, Leaders(c, v, schedule, hi, from)) == Some(Status(c, v, schedule, hi, anchor))
    decreases anchor - from
  {
    LeadersAt(c, v, schedule, hi, from, 0);
    StatusAbout(c, v, schedule, hi, from);
    if from < anchor {
      assert Leaders(c, v, schedule, hi, from)[1..] == Leaders(c, v, schedule, hi, from + 1);
      AnchorIsFirst(c, v, schedule, hi, round, from + 1, anchor);
    }
  }

  /** A round below the horizon that the direct rule leaves open is decided by its anchor, and is
      open without one. */
  lemma StatusByAnchor(c: Committee, v: View, schedule: Schedule, hi: Round, round: Round, anchor: Round)
    requires c.Valid() && ValidView(c, v) && v.gcRound <= round <= hi
    ensures var slot, s := LeaderSlot(schedule, round), Status(c, v, schedule, hi, round);
      && (DirectStatus(c, v, slot).IsDecided() ==> s == DirectStatus(c, v, slot))
      && (!DirectStatus(c, v, slot).IsDecided() && IsAnchor(c, v, schedule, hi, round, anchor) ==>
          s == AnchorStatus(c, v, Status(c, v, schedule, hi, anchor).leader, slot))
      && (!DirectStatus(c, v, slot).IsDecided() && s.IsDecided() ==> exists a :: IsAnchor(c, v, schedule, hi, round, a))
  {
    var slot := LeaderSlot(schedule, round);
    if !DirectStatus(c, v, slot).IsDecided() {
      IndirectByAnchor(c, v, slot, Leaders(c, v, schedule, hi, round + 1));
      if IsAnchor(c, v, schedule, hi, round, anchor) {
        AnchorIsFirst(c, v, schedule, hi, round, round + 1, anchor);
      } else if Status(c, v, schedule, hi, round).IsDecided() {
        var a := IndirectUsesAnchor(c, v, schedule, hi, slot, round + 1);
      }
    }
  }

  // ---------------------------------------------------------------------------
  // How far the rule gets
  // ---------------------------------------------------------------------------

  /** The k-th decision is the status of its round, all decisions are at least two rounds below the
      highest stored block, and the first round without a decision is undecided or too high. */
  lemma DecidedExact(c: Committee, v: View, schedule: Schedule, lastRound: Round, k: nat)
    requires c.Valid() && ValidView(c, v) && v.gcRound <= lastRound
    ensures var d, round := Decided(c, v, schedule, lastRound), lastRound + 1 + k;
      && (k < |d| ==> round + 2 <= v.highestRound && d[k] == Status(c, v, schedule, v.highestRound - 2, round) && d[k].IsDecided())
      && (k == |d| && round + 2 <= v.highestRound ==> !Status(c, v, schedule, v.highestRound - 2, round).IsDecided())
  {
    var leaders := Leaders(c, v, schedule, HighestDecidable(v), lastRound + 1);
    if k < |leaders| {
      LeadersAt(c, v, schedule, HighestDecidable(v), lastRound + 1, k);
    }
  }

  /** So rounds that are all decided, up to two below the highest, are all returned. */
  lemma DecidesThrough(c: Committee, v: View, schedule: Schedule, lastRound: Round, r: Round, hi: Round)
    requires c.Valid() && ValidView(c, v) && v.gcRound <= lastRound <= r <= hi && hi + 2 == v.highestRound
    requires forall k :: lastRound < k <= r ==> Status(c, v, schedule, hi, k).IsDecided()
    ensures |Decided(c, v, schedule, lastRound)| >= r - lastRound
  {
    DecidedExact(c, v, schedule, lastRound, |Decided(c, v, schedule, lastRound)|);
  }

  /** Each decision is about the leader the schedule names for its round. */
  lemma DecidedAbout(c: Committee, v: View, schedule: Schedule, lastRound: Round, k: nat)
    requires c.Valid() && ValidView(c, v) && v.gcRound <= lastRound && k < |Decided(c, v, schedule, lastRound)|
    ensures var s := Decided(c, v, schedule, lastRound)[k];
      if s.Commit? then s.leader in v.blocks && s.leader.round == lastRound + 1 + k && s.leader.author == schedule(lastRound + 1 + k, 0)
      else s == Skip(Slot(lastRound + 1 + k, schedule(lastRound + 1 + k, 0)))
  {
    DecidedExact(c, v, schedule, lastRound, k);
    StatusAbout(c, v, schedule, v.highestRound - 2, lastRound + 1 + k);
  }

  // ---------------------------------------------------------------------------
  // Waves
  // ---------------------------------------------------------------------------

  /** Waves follow each other without a gap, from the offset on, each as long as the options say. */
  lemma WavesFollow(opts: Options, round: Round)
    requires opts.Valid() && opts.roundOffset <= round
    ensures var wave := opts.WaveNumber(round);
      && opts.LeaderRound(0) == opts.roundOffset && opts.LeaderRound(wave) <= round <= opts.DecisionRound(wave)
      && opts.DecisionRound(wave) + 1 == opts.LeaderRound(wave + 1) == opts.LeaderRound(wave) + opts.waveLength
  {
    var wave := opts.WaveNumber(round);
    assert round - opts.roundOffset == wave * opts.waveLength + (round - opts.roundOffset) % opts.waveLength;
    assert (wave + 1) * opts.waveLength == wave * opts.waveLength + opts.waveLength;
  }
}
