/** The sequence of leader decisions, and why no two validators disagree on it. */
module UniversalCommitter {
  import opened Wrappers
  import opened Committees
  import opened Dag
  import opened BaseCommitter

  /** Leader of a round, per leader offset, under the leader schedule in force. */
  type Schedule = (Round, nat) -> Authority

  // ---------------------------------------------------------------------------
  // Committers and leader slots
  // ---------------------------------------------------------------------------

  /** The committers of one pipeline stage, by leader offset. */
  function StageCommitters(waveLength: nat, roundOffset: nat, leaders: nat): seq<Options> {
    if leaders == 0 then [] else StageCommitters(waveLength, roundOffset, leaders - 1) + [Options(waveLength, leaders - 1, roundOffset)]
  }

  /** All committers, stage by stage. */
  function Committers(waveLength: nat, stages: nat, leaders: nat): seq<Options> {
    if stages == 0 then [] else Committers(waveLength, stages - 1, leaders) + StageCommitters(waveLength, stages - 1, leaders)
  }

  method Build(waveLength: nat, leaders: nat, pipeline: bool) returns (committers: seq<Options>)
    requires waveLength >= 3
    ensures committers == Committers(waveLength, if pipeline then waveLength else 1, leaders)
  {
    committers := [];
    var stages := if pipeline then waveLength else 1;
    for roundOffset := 0 to stages
      invariant committers == Committers(waveLength, roundOffset, leaders)
    {
      ghost var before := committers;
      for leaderOffset := 0 to leaders
        invariant committers == before + StageCommitters(waveLength, roundOffset, leaderOffset)
      {
        committers := committers + [Options(waveLength, leaderOffset, roundOffset)];
      }
    }
  }

  lemma {:induction false} StageHolds(waveLength: nat, roundOffset: nat, leaders: nat, opts: Options)
    ensures |StageCommitters(waveLength, roundOffset, leaders)| == leaders
    ensures opts in StageCommitters(waveLength, roundOffset, leaders) <==>
      opts.waveLength == waveLength && opts.roundOffset == roundOffset && opts.leaderOffset < leaders
  {
    if leaders > 0 {
      StageHolds(waveLength, roundOffset, leaders - 1, opts);
    }
  }

  /** One committer for each pipeline stage and leader of a round, and no other. */
  lemma {:induction false} CommittersHold(waveLength: nat, stages: nat, leaders: nat, opts: Options)
    ensures |Committers(waveLength, stages, leaders)| == stages * leaders
    ensures opts in Committers(waveLength, stages, leaders) <==>
      opts.waveLength == waveLength && opts.roundOffset < stages && opts.leaderOffset < leaders
  {
    if stages > 0 {
      CommittersHold(waveLength, stages - 1, leaders, opts);
      StageHolds(waveLength, stages - 1, leaders, opts);
      assert stages * leaders == (stages - 1) * leaders + leaders;
    }
  }

  function ElectLeader(opts: Options, schedule: Schedule, round: Round): Option<Slot>
    requires opts.Valid()
  {
    if opts.LeaderRound(opts.WaveNumber(round)) != round then None
    else Some(Slot(round, schedule(round, opts.leaderOffset)))
  }

  function LeaderSlot(schedule: Schedule, round: Round): Slot {
    Slot(round, schedule(round, 0))
  }

  /** With pipelining and one leader a round, every round has a leader and exactly one stage elects it. */
  lemma OneStageLeads(schedule: Schedule, round: Round, stage: nat)
    requires stage < DEFAULT_WAVE_LENGTH
    ensures ElectLeader(Options(DEFAULT_WAVE_LENGTH, 0, stage), schedule, round) ==
      if stage == round % DEFAULT_WAVE_LENGTH then Some(LeaderSlot(schedule, round)) else None
  {
    var opts := Options(DEFAULT_WAVE_LENGTH, 0, stage);
    var wave := round / 3;
    if round < stage {
      ThirdOf(0, 0, 0);
    } else if stage <= round % 3 {
      ThirdOf(round - stage, wave, round % 3 - stage);
    } else {
      ThirdOf(round - stage, wave - 1, 3 + round % 3 - stage);
    }
  }

  lemma ThirdOf(n: nat, q: nat, m: nat)
    requires n == 3 * q + m && m < 3
    ensures n / 3 == q
  {
  }

  // ---------------------------------------------------------------------------
  // Statuses of all slots, highest first
  // ---------------------------------------------------------------------------

  /** Direct rule first, then the indirect rule over the slots above. */
  ghost function StatusOver(c: Committee, v: View, slot: Slot, above: seq<LeaderStatus>): LeaderStatus
    requires c.Valid() && ValidView(c, v) && v.gcRound <= slot.round
  {
    var direct := DirectStatus(c, v, slot);
    if direct.IsDecided() then direct else IndirectStatus(c, v, slot, above)
  }

  /** Statuses of the rounds lo..hi. */
  ghost function Leaders(c: Committee, v: View, schedule: Schedule, hi: Round, lo: Round): seq<LeaderStatus>
    requires c.Valid() && ValidView(c, v) && v.gcRound <= lo
    ensures |Leaders(c, v, schedule, hi, lo)| == if lo <= hi then hi - lo + 1 else 0
    decreases hi + 1 - lo
  {
    if lo > hi then []
    else
      var above := Leaders(c, v, schedule, hi, lo + 1);
      [StatusOver(c, v, LeaderSlot(schedule, lo), above)] + above
  }

  ghost function Status(c: Committee, v: View, schedule: Schedule, hi: Round, round: Round): LeaderStatus
    requires c.Valid() && ValidView(c, v) && v.gcRound <= round
  {
    if round > hi then Undecided(LeaderSlot(schedule, round))
    else StatusOver(c, v, LeaderSlot(schedule, round), Leaders(c, v, schedule, hi, round + 1))
  }

  lemma {:induction false} LeadersAt(c: Committee, v: View, schedule: Schedule, hi: Round, lo: Round, i: nat)
    requires c.Valid() && ValidView(c, v) && v.gcRound <= lo && lo + i <= hi
    ensures Leaders(c, v, schedule, hi, lo)[i] == Status(c, v, schedule, hi, lo + i)
    decreases i
  {
    if i > 0 {
      LeadersAt(c, v, schedule, hi, lo + 1, i - 1);
    }
  }

  /** A status speaks about its own slot, and a committed block is a stored block of that slot. */
  ghost predicate About(v: View, slot: Slot, s: LeaderStatus) {
    if s.Commit? then s.leader in v.blocks && s.leader.AtSlot() == slot else s.slot == slot
  }

  lemma {:induction false} IndirectAbout(c: Committee, v: View, slot: Slot, above: seq<LeaderStatus>)
    requires c.Valid() && ValidView(c, v) && v.gcRound <= slot.round
    ensures About(v, slot, IndirectStatus(c, v, slot, above))
  {
    if above != [] {
      IndirectAbout(c, v, slot, above[1..]);
    }
  }

  lemma StatusAbout(c: Committee, v: View, schedule: Schedule, hi: Round, round: Round)
    requires c.Valid() && ValidView(c, v) && v.gcRound <= round
    ensures About(v, LeaderSlot(schedule, round), Status(c, v, schedule, hi, round))
  {
    if round <= hi {
      IndirectAbout(c, v, LeaderSlot(schedule, round), Leaders(c, v, schedule, hi, round + 1));
    }
  }

  lemma LeadersAreKnown(c: Committee, v: View, schedule: Schedule, hi: Round, lo: Round)
    requires c.Valid() && ValidView(c, v) && v.gcRound <= lo
    ensures LeadersKnown(v, Leaders(c, v, schedule, hi, lo))
  {
    var leaders := Leaders(c, v, schedule, hi, lo);
    forall i | 0 <= i < |leaders| ensures leaders[i].Commit? ==> leaders[i].leader in v.blocks {
      LeadersAt(c, v, schedule, hi, lo, i);
      StatusAbout(c, v, schedule, hi, lo + i);
    }
  }

  /** An indirect decision comes from an anchor: the first slot a wave or more above that is
      not skipped, and it is committed. */
  ghost predicate IsAnchor(c: Committee, v: View, schedule: Schedule, hi: Round, round: Round, anchor: Round)
    requires c.Valid() && ValidView(c, v) && v.gcRound <= round
  {
    && round + 3 <= anchor <= hi
    && Status(c, v, schedule, hi, anchor).Commit?
    && forall r :: round + 3 <= r < anchor ==> Status(c, v, schedule, hi, r).Skip?
  }

  lemma {:induction false} IndirectUsesAnchor(c: Committee, v: View, schedule: Schedule, hi: Round, slot: Slot, from: Round)
      returns (anchor: Round)
    requires c.Valid() && ValidView(c, v) && v.gcRound <= slot.round < from
    requires forall r :: slot.round + 3 <= r < from ==> Status(c, v, schedule, hi, r).Skip?
    requires IndirectStatus(c, v, slot, Leaders(c, v, schedule, hi, from)).IsDecided()
    ensures IsAnchor(c, v, schedule, hi, slot.round, anchor)
    ensures IndirectStatus(c, v, slot, Leaders(c, v, schedule, hi, from)) ==
      AnchorStatus(c, v, Status(c, v, schedule, hi, anchor).leader, slot)
    decreases hi + 1 - from
  {
    var leaders := Leaders(c, v, schedule, hi, from);
    assert leaders != [];
    LeadersAt(c, v, schedule, hi, from, 0);
    StatusAbout(c, v, schedule, hi, from);
    if leaders[0].Round() < slot.round + 3 || leaders[0].Skip? {
      assert leaders[1..] == Leaders(c, v, schedule, hi, from + 1);
      anchor := IndirectUsesAnchor(c, v, schedule, hi, slot, from + 1);
    } else {
      anchor := from;
    }
  }

  // ---------------------------------------------------------------------------
  // Agreement
  // ---------------------------------------------------------------------------

  /** The history of a block above the garbage-collection floor is the same in every view. */
  lemma {:induction false} LinkedEverywhere(c: Committee, dag: Blocks, v: View, v': View, from: BlockRef, to: BlockRef)
    requires c.Valid() && LocalView(c, dag, v) && LocalView(c, dag, v')
    requires from in v'.blocks && Linked(v.blocks, from, to) && to.round > v'.gcRound
    ensures to in v'.blocks && Linked(v'.blocks, from, to)
    decreases from.round
  {
    if to !in v.blocks[from].ancestors {
      var a :| a in v.blocks[from].ancestors && to.round < a.round < from.round && Linked(v.blocks, a, to);
      assert a in v'.blocks[from].ancestors;
      LinkedEverywhere(c, dag, v, v', a, to);
    } else {
      assert to in v'.blocks[from].ancestors;
    }
  }

  /** A certificate brings the certified block with it. */
  lemma CertifiedIsStored(c: Committee, dag: Blocks, faulty: set<Authority>, v: View, cert: BlockRef, leader: BlockRef)
    requires Tolerated(c, dag, faulty) && LocalView(c, dag, v) && v.gcRound < leader.round
    requires cert in v.blocks && Certifies(c, dag, cert, leader)
    ensures leader in v.blocks
  {
    var h := QuorumNonEmpty(c, Voters(dag, cert, leader), faulty);
    var a :| a in dag[cert].ancestors && a.round == leader.round + 1 && a in dag && leader in dag[a].ancestors && a.author == h;
    assert a in v.blocks[cert].ancestors;
    assert a in v.blocks;
  }

  lemma CertifiedFromEverywhere(c: Committee, dag: Blocks, faulty: set<Authority>, v: View, v': View,
                                anchor: BlockRef, slot: Slot, leader: BlockRef)
    requires Tolerated(c, dag, faulty) && LocalView(c, dag, v) && LocalView(c, dag, v')
    requires v.gcRound < slot.round && v'.gcRound < slot.round
    requires anchor in v'.blocks && CertifiedFrom(c, v, anchor, slot, leader)
    ensures CertifiedFrom(c, v', anchor, slot, leader)
  {
    var cert := CertifiedFromGlobal(c, dag, v, anchor, slot, leader);
    LinkedEverywhere(c, dag, v, v', anchor, cert);
    LinkedCertificateCertifies(c, dag, faulty, v', anchor, leader, cert);
  }

  /** From the same anchor, every view reaches the same verdict. */
  lemma AnchorAgreement(c: Committee, dag: Blocks, faulty: set<Authority>, v: View, v': View, anchor: BlockRef, slot: Slot)
    requires Tolerated(c, dag, faulty) && LocalView(c, dag, v) && LocalView(c, dag, v')
    requires v.gcRound < slot.round && v'.gcRound < slot.round
    requires anchor in v.blocks && anchor in v'.blocks
    ensures AnchorStatus(c, v, anchor, slot) == AnchorStatus(c, v', anchor, slot)
  {
    var s, s' := AnchorStatus(c, v, anchor, slot), AnchorStatus(c, v', anchor, slot);
    if s.Commit? {
      CertifiedFromEverywhere(c, dag, faulty, v, v', anchor, slot, s.leader);
      CertifiedFromUnique(c, dag, faulty, v', anchor, slot, s.leader, s'.leader);
    } else if s'.Commit? {
      CertifiedFromEverywhere(c, dag, faulty, v', v, anchor, slot, s'.leader);
      assert false;
    }
  }

  /** A direct skip in one view excludes a commit in any other, direct or indirect. */
  lemma DirectSkipExcludesCommit(c: Committee, dag: Blocks, faulty: set<Authority>, v: View, v': View, schedule: Schedule,
                                 hi: Round, round: Round)
    requires Tolerated(c, dag, faulty) && LocalView(c, dag, v) && LocalView(c, dag, v')
    requires v.gcRound < round && v'.gcRound < round
    requires EnoughBlame(c, v, LeaderSlot(schedule, round))
    ensures !Status(c, v', schedule, hi, round).Commit?
  {
    var slot := LeaderSlot(schedule, round);
    var s := Status(c, v', schedule, hi, round);
    if s.Commit? {
      var cert;
      if DirectStatus(c, v', slot).IsDecided() {
        cert := SupportHasCertificate(c, dag, faulty, v', slot, s.leader);
      } else {
        var a := IndirectUsesAnchor(c, v', schedule, hi, slot, round + 1);
        cert := CertifiedFromGlobal(c, dag, v', Status(c, v', schedule, hi, a).leader, slot, s.leader);
      }
      StatusAbout(c, v', schedule, hi, round);
      BlameExcludesCertificate(c, dag, faulty, Blames(v, slot), cert, s.leader);
      assert false;
    }
  }

  lemma SupportCertificates(c: Committee, dag: Blocks, faulty: set<Authority>, v: View, slot: Slot, leader: BlockRef)
      returns (certs: set<BlockRef>)
    requires Tolerated(c, dag, faulty) && LocalView(c, dag, v) && v.gcRound <= slot.round
    requires SupportedAt(c, v, slot, leader)
    ensures leader.AtSlot() == slot && c.IsQuorum(Authors(certs))
    ensures forall r :: r in certs ==> Certifies(c, dag, r, leader)
  {
    certs := Certificates(c, v, slot.round + 2, leader);
    SupportIsGlobal(c, dag, v, slot, leader);
  }

  /** Every anchor, in any view, finds a directly committed block certified in its history. */
  lemma AnchorSeesSupport(c: Committee, dag: Blocks, faulty: set<Authority>, v: View, v': View, slot: Slot,
                          leader: BlockRef, anchor: BlockRef)
    requires Tolerated(c, dag, faulty) && LocalView(c, dag, v) && LocalView(c, dag, v')
    requires v.gcRound < slot.round && v'.gcRound < slot.round
    requires SupportedAt(c, v, slot, leader)
    requires anchor in v'.blocks && anchor.round >= slot.round + 3
    ensures CertifiedFrom(c, v', anchor, slot, leader)
  {
    var certs := SupportCertificates(c, dag, faulty, v, slot, leader);
    var cert := SupportIsInherited(c, dag, faulty, certs, leader, v', anchor);
    LinkedCertificateCertifies(c, dag, faulty, v', anchor, leader, cert);
  }

  lemma LinkedCertificateCertifies(c: Committee, dag: Blocks, faulty: set<Authority>, v: View, anchor: BlockRef,
                                   leader: BlockRef, cert: BlockRef)
    requires Tolerated(c, dag, faulty) && LocalView(c, dag, v) && v.gcRound < leader.round
    requires cert in v.blocks && Linked(v.blocks, anchor, cert) && Certifies(c, dag, cert, leader)
    ensures CertifiedFrom(c, v, anchor, leader.AtSlot(), leader)
  {
    CertifiedIsStored(c, dag, faulty, v, cert, leader);
    CertificateIsGlobal(c, dag, v, cert, leader);
    assert cert in AncestorsAt(v, anchor, leader.round + 2);
  }

  /** Support is unique across views, not only within one. */
  lemma SupportUniqueAcross(c: Committee, dag: Blocks, faulty: set<Authority>, v: View, v': View, slot: Slot,
                            leader: BlockRef, leader': BlockRef)
    requires Tolerated(c, dag, faulty) && LocalView(c, dag, v) && LocalView(c, dag, v')
    requires v.gcRound < slot.round && v'.gcRound < slot.round
    requires SupportedAt(c, v, slot, leader) && SupportedAt(c, v', slot, leader')
    ensures leader == leader'
  {
    var cert := SupportHasCertificate(c, dag, faulty, v, slot, leader);
    var cert' := SupportHasCertificate(c, dag, faulty, v', slot, leader');
    CertifiedLeaderUnique(c, dag, faulty, cert, leader, cert', leader');
  }

  lemma AnchorForces(c: Committee, dag: Blocks, faulty: set<Authority>, v: View, v': View, slot: Slot,
                     leader: BlockRef, anchor: BlockRef)
    requires Tolerated(c, dag, faulty) && LocalView(c, dag, v) && LocalView(c, dag, v')
    requires v.gcRound < slot.round && v'.gcRound < slot.round
    requires SupportedAt(c, v, slot, leader)
    requires anchor in v'.blocks && anchor.round >= slot.round + 3
    ensures AnchorStatus(c, v', anchor, slot) == Commit(leader)
  {
    AnchorSeesSupport(c, dag, faulty, v, v', slot, leader, anchor);
    CertifiedFromUnique(c, dag, faulty, v', anchor, slot, leader, AnchorStatus(c, v', anchor, slot).leader);
  }

  /** A direct commit in one view forces the same block in every other decided view. */
  lemma DirectCommitForces(c: Committee, dag: Blocks, faulty: set<Authority>, v: View, v': View, schedule: Schedule,
                           hi: Round, round: Round, leader: BlockRef)
    requires Tolerated(c, dag, faulty) && LocalView(c, dag, v) && LocalView(c, dag, v')
    requires v.gcRound < round && v'.gcRound < round
    requires SupportedAt(c, v, LeaderSlot(schedule, round), leader)
    requires !EnoughBlame(c, v', LeaderSlot(schedule, round))
    requires Status(c, v', schedule, hi, round).IsDecided()
    ensures Status(c, v', schedule, hi, round) == Commit(leader)
  {
    var slot := LeaderSlot(schedule, round);
    if DirectStatus(c, v', slot).IsDecided() {
      SupportUniqueAcross(c, dag, faulty, v, v', slot, leader, DirectStatus(c, v', slot).leader);
    } else {
      IndirectDecisionForced(c, dag, faulty, v, v', schedule, hi, slot, leader);
    }
  }

  lemma IndirectDecisionForced(c: Committee, dag: Blocks, faulty: set<Authority>, v: View, v': View, schedule: Schedule,
                               hi: Round, slot: Slot, leader: BlockRef)
    requires Tolerated(c, dag, faulty) && LocalView(c, dag, v) && LocalView(c, dag, v')
    requires v.gcRound < slot.round && v'.gcRound < slot.round && SupportedAt(c, v, slot, leader)
    requires IndirectStatus(c, v', slot, Leaders(c, v', schedule, hi, slot.round + 1)).IsDecided()
    ensures IndirectStatus(c, v', slot, Leaders(c, v', schedule, hi, slot.round + 1)) == Commit(leader)
  {
    var a := IndirectUsesAnchor(c, v', schedule, hi, slot, slot.round + 1);
    StatusAbout(c, v', schedule, hi, a);
    AnchorForces(c, dag, faulty, v, v', slot, leader, Status(c, v', schedule, hi, a).leader);
  }

  /** Two indirect decisions whose anchors agree at the lower of the two rounds come out alike. */
  lemma SameAnchor(c: Committee, dag: Blocks, faulty: set<Authority>, schedule: Schedule,
                   v: View, hi: Round, v': View, hi': Round, slot: Slot, a: Round, a': Round)
    requires Tolerated(c, dag, faulty) && LocalView(c, dag, v) && LocalView(c, dag, v')
    requires v.gcRound < slot.round && v'.gcRound < slot.round
    requires IsAnchor(c, v, schedule, hi, slot.round, a) && IsAnchor(c, v', schedule, hi', slot.round, a')
    requires var least := if a <= a' then a else a'; Status(c, v, schedule, hi, least) == Status(c, v', schedule, hi', least)
    ensures AnchorStatus(c, v, Status(c, v, schedule, hi, a).leader, slot) ==
      AnchorStatus(c, v', Status(c, v', schedule, hi', a').leader, slot)
  {
    assert a == a';
    StatusAbout(c, v, schedule, hi, a);
    StatusAbout(c, v', schedule, hi', a);
    AnchorAgreement(c, dag, faulty, v, v', Status(c, v, schedule, hi, a).leader, slot);
  }

  lemma DirectDecisionAgrees(c: Committee, dag: Blocks, faulty: set<Authority>, schedule: Schedule,
                             v: View, hi: Round, v': View, hi': Round, round: Round)
    requires Tolerated(c, dag, faulty) && LocalView(c, dag, v) && LocalView(c, dag, v')
    requires v.gcRound < round && v'.gcRound < round && round <= hi
    requires DirectStatus(c, v, LeaderSlot(schedule, round)).IsDecided() && Status(c, v', schedule, hi', round).IsDecided()
    ensures Status(c, v, schedule, hi, round) == Status(c, v', schedule, hi', round)
  {
    var slot := LeaderSlot(schedule, round);
    StatusAbout(c, v', schedule, hi', round);
    if EnoughBlame(c, v, slot) {
      DirectSkipExcludesCommit(c, dag, faulty, v, v', schedule, hi', round);
    } else {
      if EnoughBlame(c, v', slot) {
        DirectSkipExcludesCommit(c, dag, faulty, v', v, schedule, hi, round);
        assert false;
      }
      DirectCommitForces(c, dag, faulty, v, v', schedule, hi', round, DirectStatus(c, v, slot).leader);
    }
  }

  /** How far the higher of two horizons is from a round. */
  function Distance(hi: Round, hi': Round, round: Round): int {
    (if hi < hi' then hi' else hi) - round
  }

  /** Any two validators that decide a round decide it alike: same block, or both skip.  Their
      views, their knowledge of later rounds and the rule that decided may all differ. */
  lemma {:induction false} StatusAgreement(c: Committee, dag: Blocks, faulty: set<Authority>, schedule: Schedule,
                                           v: View, hi: Round, v': View, hi': Round, round: Round)
    requires Tolerated(c, dag, faulty) && LocalView(c, dag, v) && LocalView(c, dag, v')
    requires v.gcRound < round && v'.gcRound < round
    requires Status(c, v, schedule, hi, round).IsDecided() && Status(c, v', schedule, hi', round).IsDecided()
    ensures Status(c, v, schedule, hi, round) == Status(c, v', schedule, hi', round)
    decreases Distance(hi, hi', round), 1
  {
    var slot := LeaderSlot(schedule, round);
    if DirectStatus(c, v, slot).IsDecided() {
      DirectDecisionAgrees(c, dag, faulty, schedule, v, hi, v', hi', round);
    } else if DirectStatus(c, v', slot).IsDecided() {
      DirectDecisionAgrees(c, dag, faulty, schedule, v', hi', v, hi, round);
    } else {
      IndirectDecisionsAgree(c, dag, faulty, schedule, v, hi, v', hi', round);
    }
  }

  /** Both decided by an anchor: the anchors are the same round, by agreement on the lower of them. */
  lemma {:induction false} IndirectDecisionsAgree(c: Committee, dag: Blocks, faulty: set<Authority>, schedule: Schedule,
                                                  v: View, hi: Round, v': View, hi': Round, round: Round)
    requires Tolerated(c, dag, faulty) && LocalView(c, dag, v) && LocalView(c, dag, v')
    requires v.gcRound < round && v'.gcRound < round && round <= hi && round <= hi'
    requires var slot := LeaderSlot(schedule, round);
      && IndirectStatus(c, v, slot, Leaders(c, v, schedule, hi, round + 1)).IsDecided()
      && IndirectStatus(c, v', slot, Leaders(c, v', schedule, hi', round + 1)).IsDecided()
    ensures var slot := LeaderSlot(schedule, round);
      IndirectStatus(c, v, slot, Leaders(c, v, schedule, hi, round + 1)) == IndirectStatus(c, v', slot, Leaders(c, v', schedule, hi', round + 1))
    decreases Distance(hi, hi', round), 0
  {
    var slot := LeaderSlot(schedule, round);
    var a := IndirectUsesAnchor(c, v, schedule, hi, slot, round + 1);
    var a' := IndirectUsesAnchor(c, v', schedule, hi', slot, round + 1);
    StatusAgreement(c, dag, faulty, schedule, v, hi, v', hi', if a <= a' then a else a');
    SameAnchor(c, dag, faulty, schedule, v, hi, v', hi', slot, a, a');
  }

  // ---------------------------------------------------------------------------
  // try_decide
  // ---------------------------------------------------------------------------

  function HighestDecidable(v: View): Round {
    if v.highestRound < 2 then 0 else v.highestRound - 2
  }

  /** The longest prefix without an undecided slot. */
  function DecidedPrefix(leaders: seq<LeaderStatus>): (decided: seq<LeaderStatus>)
    ensures decided <= leaders
    ensures forall i :: 0 <= i < |decided| ==> decided[i].IsDecided()
    ensures |decided| < |leaders| ==> !leaders[|decided|].IsDecided()
  {
    if leaders == [] || !leaders[0].IsDecided() then []
    else [leaders[0]] + DecidedPrefix(leaders[1..])
  }

  ghost function Decided(c: Committee, v: View, schedule: Schedule, lastRound: Round): seq<LeaderStatus>
    requires c.Valid() && ValidView(c, v) && v.gcRound <= lastRound
  {
    DecidedPrefix(Leaders(c, v, schedule, HighestDecidable(v), lastRound + 1))
  }

  /** Decides the rounds after `lastDecided` from the highest down, then keeps the decided prefix. */
  method TryDecide(c: Committee, v: View, schedule: Schedule, lastDecided: Slot, ghost dag: Blocks, ghost faulty: set<Authority>)
      returns (decided: seq<LeaderStatus>)
    requires Tolerated(c, dag, faulty) && LocalView(c, dag, v) && v.gcRound <= lastDecided.round
    ensures decided == Decided(c, v, schedule, lastDecided.round)
  {
    var committers := Build(DEFAULT_WAVE_LENGTH, 1, true);
    SingleLeaders(DEFAULT_WAVE_LENGTH, DEFAULT_WAVE_LENGTH);
    var leaders := DecideDown(c, v, schedule, committers, lastDecided.round + 1, HighestDecidable(v), dag, faulty);
    decided := TakeDecided(leaders);
  }

  /** The descent, from the highest round that can be decided. */
  method DecideDown(c: Committee, v: View, schedule: Schedule, committers: seq<Options>, lo: Round, hi: Round,
                    ghost dag: Blocks, ghost faulty: set<Authority>)
      returns (leaders: seq<LeaderStatus>)
    requires Tolerated(c, dag, faulty) && LocalView(c, dag, v) && v.gcRound <= lo
    requires |committers| == DEFAULT_WAVE_LENGTH
    requires forall i :: 0 <= i < |committers| ==> committers[i] == Options(DEFAULT_WAVE_LENGTH, 0, i)
    ensures leaders == Leaders(c, v, schedule, hi, lo)
  {
    leaders := [];
    var round := hi + 1;
    while round > lo
      invariant lo <= round <= hi + 1 || hi + 1 == round
      invariant leaders == Leaders(c, v, schedule, hi, if round < lo then lo else round)
      decreases round
    {
      round := round - 1;
      leaders := DecideRound(c, v, schedule, committers, round, hi, leaders, dag, faulty);
    }
  }

  lemma PrefixStep(leaders: seq<LeaderStatus>, i: nat, decided: seq<LeaderStatus>)
    requires i < |leaders| && leaders[i].IsDecided()
    ensures decided + DecidedPrefix(leaders[i..]) == decided + [leaders[i]] + DecidedPrefix(leaders[i + 1..])
  {
    var rest := leaders[i..];
    assert rest[0] == leaders[i] && rest[1..] == leaders[i + 1..];
    assert DecidedPrefix(rest) == [leaders[i]] + DecidedPrefix(leaders[i + 1..]);
  }

  method TakeDecided(leaders: seq<LeaderStatus>) returns (decided: seq<LeaderStatus>)
    ensures decided == DecidedPrefix(leaders)
  {
    var i := 0;
    decided := [];
    while i < |leaders| && leaders[i].IsDecided()
      invariant 0 <= i <= |leaders|
      invariant DecidedPrefix(leaders) == decided + DecidedPrefix(leaders[i..])
    {
      PrefixStep(leaders, i, decided);
      decided := decided + [leaders[i]];
      i := i + 1;
    }
    assert DecidedPrefix(leaders[i..]) == [];
  }

  /** With one leader a round the stages are the committers. */
  lemma {:induction false} SingleLeaders(waveLength: nat, stages: nat)
    ensures |Committers(waveLength, stages, 1)| == stages
    ensures forall i :: 0 <= i < stages ==> Committers(waveLength, stages, 1)[i] == Options(waveLength, 0, i)
  {
    if stages > 0 {
      SingleLeaders(waveLength, stages - 1);
      assert StageCommitters(waveLength, stages - 1, 0) == [];
      assert StageCommitters(waveLength, stages - 1, 1) == [Options(waveLength, 0, stages - 1)];
    }
  }

  /** One round of the descent: ask every committer for its slot, decide it, put it in front. */
  method DecideRound(c: Committee, v: View, schedule: Schedule, committers: seq<Options>, round: Round, hi: Round,
                     above: seq<LeaderStatus>, ghost dag: Blocks, ghost faulty: set<Authority>)
      returns (leaders: seq<LeaderStatus>)
    requires Tolerated(c, dag, faulty) && LocalView(c, dag, v) && v.gcRound <= round <= hi
    requires |committers| == DEFAULT_WAVE_LENGTH
    requires forall i :: 0 <= i < |committers| ==> committers[i] == Options(DEFAULT_WAVE_LENGTH, 0, i)
    requires above == Leaders(c, v, schedule, hi, round + 1)
    ensures leaders == Leaders(c, v, schedule, hi, round)
  {
    leaders := above;
    var i := |committers|;
    while i > 0
      invariant 0 <= i <= |committers|
      invariant leaders == if round % DEFAULT_WAVE_LENGTH < i then above else Leaders(c, v, schedule, hi, round)
    {
      i := i - 1;
      OneStageLeads(schedule, round, i);
      var elected := ElectLeader(committers[i], schedule, round);
      if elected.Some? {
        var status := DecideSlot(c, v, schedule, committers[i], elected.value, hi, leaders, dag, faulty);
        leaders := [status] + leaders;
      }
    }
  }

  /** The direct rule, and the indirect one where that leaves the slot undecided. */
  method DecideSlot(c: Committee, v: View, schedule: Schedule, committer: Options, slot: Slot, hi: Round, above: seq<LeaderStatus>,
                    ghost dag: Blocks, ghost faulty: set<Authority>)
      returns (status: LeaderStatus)
    requires Tolerated(c, dag, faulty) && LocalView(c, dag, v) && v.gcRound <= slot.round <= hi && slot == LeaderSlot(schedule, slot.round)
    requires committer.waveLength == DEFAULT_WAVE_LENGTH && committer.LeaderRound(committer.WaveNumber(slot.round)) == slot.round
    requires above == Leaders(c, v, schedule, hi, slot.round + 1)
    ensures status == Status(c, v, schedule, hi, slot.round)
  {
    var direct := TryDirectDecide(c, v, committer, slot);
    DirectIsStatus(c, dag, faulty, v, slot, direct);
    if direct.value.IsDecided() {
      return direct.value;
    }
    LeadersAreKnown(c, v, schedule, hi, slot.round + 1);
    var indirect := TryIndirectDecide(c, v, committer, slot, above);
    IndirectIsStatus(c, dag, faulty, v, slot, above, indirect);
    return indirect.value;
  }
}
