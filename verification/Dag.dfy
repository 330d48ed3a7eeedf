/** Blocks, block verification, and one validator's view of the DAG. */
module Dag {
  import opened Wrappers
  import opened Committees

  type Round = nat

  const GENESIS_ROUND: Round := 0

  datatype Slot = Slot(round: Round, authority: Authority)

  datatype BlockRef = BlockRef(round: Round, author: Authority, digest: nat) {
    function AtSlot(): Slot {
      Slot(round, author)
    }
  }

  datatype Block = Block(ref: BlockRef, ancestors: seq<BlockRef>)

  /** A block as received: what signature verification and the epoch field say is carried along, and
      the sizes of its transactions. */
  datatype SignedBlock = SignedBlock(block: Block, epoch: nat, signatureValid: bool, transactions: seq<nat>)

  /** Limits on transactions; zero means no limit. */
  datatype Limits = Limits(transactionBytes: nat, transactions: nat, blockBytes: nat)

  datatype Verdict =
    | Accepted
    | WrongEpoch
    | UnexpectedGenesisBlock
    | InvalidAuthorityIndex(index: Authority)
    | SignatureInvalid
    | TooManyAncestors
    | InsufficientParentStakes(parentStakes: nat)
    | InvalidAncestorPosition(position: nat)
    | InvalidAncestorRound(position: nat)
    | InvalidGenesisAncestor(ancestor: BlockRef)
    | DuplicatedAncestorsAuthority(author: Authority)
    | TransactionTooLarge(size: nat)
    | TooManyTransactions(count: nat)
    | TooManyTransactionBytes(size: nat)

  /** Authors of the blocks of the previous round that b includes. */
  function Parents(b: Block): set<Authority> {
    set a | a in b.ancestors && a.round + 1 == b.ref.round :: a.author
  }

  /** Exactly the authors of ancestors of the round before. */
  lemma ParentsExact(b: Block, author: Authority)
    ensures author in Parents(b) <==> exists i :: 0 <= i < |b.ancestors| && b.ancestors[i].author == author && b.ancestors[i].round + 1 == b.ref.round
  {
    if author in Parents(b) {
      var a :| a in b.ancestors && a.round + 1 == b.ref.round && a.author == author;
      var i :| 0 <= i < |b.ancestors| && b.ancestors[i] == a;
    }
  }

  /** What the protocol relies on: the block extends its author's own chain first, includes
      each authority once, only looks back, and sits on a quorum of the previous round. */
  ghost predicate Admissible(c: Committee, b: Block)
    requires c.Valid()
  {
    && b.ref.round > GENESIS_ROUND
    && c.IsValidIndex(b.ref.author)
    && |b.ancestors| > 0
    && b.ancestors[0].author == b.ref.author
    && (forall i :: 0 <= i < |b.ancestors| ==> c.IsValidIndex(b.ancestors[i].author) && b.ancestors[i].round < b.ref.round)
    && (forall i, j :: 0 <= i < j < |b.ancestors| ==> b.ancestors[i].author != b.ancestors[j].author)
    && c.IsQuorum(Parents(b))
  }

  ghost predicate GenesisKnown(genesis: set<BlockRef>, b: Block) {
    forall a :: a in b.ancestors && a.round == GENESIS_ROUND ==> a in genesis
  }

  /** Distinct committee members are at most as many as the committee. */
  lemma DistinctAuthorsBounded(c: Committee, refs: seq<BlockRef>)
    requires forall i :: 0 <= i < |refs| ==> c.IsValidIndex(refs[i].author)
    requires forall i, j :: 0 <= i < j < |refs| ==> refs[i].author != refs[j].author
    ensures |refs| <= c.Size()
  {
    AuthorsCount(refs);
    BoundedSetSize(set i | 0 <= i < |refs| :: refs[i].author, c.Size());
  }

  lemma {:induction false} BoundedSetSize(s: set<nat>, n: nat)
    requires forall x :: x in s ==> x < n
    ensures |s| <= n
  {
    if n == 0 {
      assert s == {};
    } else {
      BoundedSetSize(s - {n - 1}, n - 1);
    }
  }

  lemma {:induction false} AuthorsCount(refs: seq<BlockRef>)
    requires forall i, j :: 0 <= i < j < |refs| ==> refs[i].author != refs[j].author
    ensures |set i | 0 <= i < |refs| :: refs[i].author| == |refs|
  {
    if |refs| > 0 {
      var n := |refs| - 1;
      var front := refs[..n];
      AuthorsCount(front);
      var before := set i | 0 <= i < |front| :: front[i].author;
      var after := set i | 0 <= i < |refs| :: refs[i].author;
      assert forall i :: 0 <= i < n ==> front[i] == refs[i];
      assert refs[n].author !in before;
      assert after == before + {refs[n].author};
    }
  }

  /** Authors of the parents among the first n ancestors. */
  function ParentsUpTo(b: Block, n: nat): set<Authority>
    requires n <= |b.ancestors|
  {
    set i | 0 <= i < n && b.ancestors[i].round + 1 == b.ref.round :: b.ancestors[i].author
  }

  /** One ancestor reference is acceptable at its position. */
  ghost predicate AncestorOk(c: Committee, genesis: set<BlockRef>, b: Block, i: nat)
    requires i < |b.ancestors|
  {
    var a := b.ancestors[i];
    && c.IsValidIndex(a.author)
    && (i == 0 <==> a.author == b.ref.author)
    && a.round < b.ref.round
    && (a.round == GENESIS_ROUND ==> a in genesis)
  }

  ghost predicate AncestorsOk(c: Committee, genesis: set<BlockRef>, b: Block, n: nat)
    requires n <= |b.ancestors|
  {
    && (forall i :: 0 <= i < n ==> AncestorOk(c, genesis, b, i))
    && (forall i, j :: 0 <= i < j < n ==> b.ancestors[i].author != b.ancestors[j].author)
  }

  lemma AncestorsInCommittee(c: Committee, genesis: set<BlockRef>, b: Block)
    requires AncestorsOk(c, genesis, b, |b.ancestors|)
    ensures forall i :: 0 <= i < |b.ancestors| ==> c.IsValidIndex(b.ancestors[i].author) && b.ancestors[i].round < b.ref.round
  {
    forall i | 0 <= i < |b.ancestors|
      ensures c.IsValidIndex(b.ancestors[i].author) && b.ancestors[i].round < b.ref.round
    {
      assert AncestorOk(c, genesis, b, i);
    }
  }

  lemma AdmissibleByAncestors(c: Committee, genesis: set<BlockRef>, b: Block)
    requires c.Valid() && b.ref.round > GENESIS_ROUND && c.IsValidIndex(b.ref.author)
    ensures Admissible(c, b) && GenesisKnown(genesis, b) <==>
      |b.ancestors| > 0 && AncestorsOk(c, genesis, b, |b.ancestors|) && c.IsQuorum(Parents(b))
  {
    if |b.ancestors| > 0 && AncestorsOk(c, genesis, b, |b.ancestors|) {
      assert AncestorOk(c, genesis, b, 0);
      AncestorsInCommittee(c, genesis, b);
      forall a | a in b.ancestors && a.round == GENESIS_ROUND ensures a in genesis {
        var i :| 0 <= i < |b.ancestors| && b.ancestors[i] == a;
        assert AncestorOk(c, genesis, b, i);
      }
    }
  }

  /** The violation a rejection reports is present in the block. */
  ghost predicate Justified(c: Committee, genesis: set<BlockRef>, b: Block, v: Verdict)
    requires c.Valid()
  {
    match v
    case InvalidAncestorRound(i) => i < |b.ancestors| && b.ancestors[i].round >= b.ref.round
    case InvalidAncestorPosition(i) =>
      i < |b.ancestors| && (i == 0 <==> b.ancestors[i].author != b.ref.author)
    case InvalidGenesisAncestor(a) => a in b.ancestors && a.round == GENESIS_ROUND && a !in genesis
    case DuplicatedAncestorsAuthority(author) =>
      exists i, j :: 0 <= i < j < |b.ancestors| && b.ancestors[i].author == b.ancestors[j].author == author
    case InvalidAuthorityIndex(index) =>
      !c.IsValidIndex(index) && (index == b.ref.author || exists i :: 0 <= i < |b.ancestors| && b.ancestors[i].author == index)
    case InsufficientParentStakes(stakes) => stakes == c.StakeOf(Parents(b)) < c.QuorumThreshold()
    case TooManyAncestors => |b.ancestors| > c.Size()
    case UnexpectedGenesisBlock => b.ref.round == GENESIS_ROUND
    case _ => true
  }

  /** The verdict is about the ancestor at this position, the first that is not acceptable. */
  ghost predicate FirstAt(c: Committee, genesis: set<BlockRef>, b: Block, v: Verdict, i: nat) {
    && i < |b.ancestors| && AncestorsOk(c, genesis, b, i) && !AncestorsOk(c, genesis, b, i + 1)
    && match v
       case InvalidAncestorRound(k) => k == i
       case InvalidAncestorPosition(k) => k == i
       case InvalidGenesisAncestor(a) => a == b.ancestors[i]
       case DuplicatedAncestorsAuthority(author) => author == b.ancestors[i].author
       case InvalidAuthorityIndex(index) => index == b.ancestors[i].author
       case _ => false
  }

  /** The pass over the ancestor list, summing the stake of the parents on the way. */
  method CheckAncestors(c: Committee, genesis: set<BlockRef>, b: Block) returns (v: Verdict, parentStakes: nat)
    requires c.Valid() && b.ref.round > GENESIS_ROUND
    ensures v == Accepted <==> AncestorsOk(c, genesis, b, |b.ancestors|)
    ensures v == Accepted ==> parentStakes == c.StakeOf(Parents(b))
    ensures v.Accepted? || v.InvalidAuthorityIndex? || v.InvalidAncestorPosition? || v.InvalidAncestorRound? ||
      v.InvalidGenesisAncestor? || v.DuplicatedAncestorsAuthority?
    ensures Justified(c, genesis, b, v) && (v != Accepted ==> exists i :: FirstAt(c, genesis, b, v, i))
  {
    var seen: set<Authority> := {};
    parentStakes := 0;
    EmptyStake(c);
    assert ParentsUpTo(b, 0) == {};
    for i := 0 to |b.ancestors|
      invariant seen == set k | 0 <= k < i :: b.ancestors[k].author
      invariant AncestorsOk(c, genesis, b, i)
      invariant parentStakes == c.StakeOf(ParentsUpTo(b, i))
    {
      var ancestor := b.ancestors[i];
      if !c.IsValidIndex(ancestor.author) {
        assert !AncestorOk(c, genesis, b, i);
        assert FirstAt(c, genesis, b, InvalidAuthorityIndex(ancestor.author), i);
        return InvalidAuthorityIndex(ancestor.author), parentStakes;
      }
      if (i == 0 && ancestor.author != b.ref.author) || (i > 0 && ancestor.author == b.ref.author) {
        assert !AncestorOk(c, genesis, b, i);
        assert FirstAt(c, genesis, b, InvalidAncestorPosition(i), i);
        return InvalidAncestorPosition(i), parentStakes;
      }
      if ancestor.round >= b.ref.round {
        assert !AncestorOk(c, genesis, b, i);
        assert FirstAt(c, genesis, b, InvalidAncestorRound(i), i);
        return InvalidAncestorRound(i), parentStakes;
      }
      if ancestor.round == GENESIS_ROUND && ancestor !in genesis {
        assert !AncestorOk(c, genesis, b, i);
        assert FirstAt(c, genesis, b, InvalidGenesisAncestor(ancestor), i);
        return InvalidGenesisAncestor(ancestor), parentStakes;
      }
      if ancestor.author in seen {
        assert FirstAt(c, genesis, b, DuplicatedAncestorsAuthority(ancestor.author), i);
        return DuplicatedAncestorsAuthority(ancestor.author), parentStakes;
      }
      seen := seen + {ancestor.author};
      ParentsStep(c, b, i);
      if ancestor.round == b.ref.round - 1 {
        parentStakes := parentStakes + c.stakes[ancestor.author];
      }
    }
    assert ParentsUpTo(b, |b.ancestors|) == Parents(b);
    return Accepted, parentStakes;
  }

  lemma ParentsStep(c: Committee, b: Block, i: nat)
    requires i < |b.ancestors| && c.IsValidIndex(b.ancestors[i].author)
    requires forall k :: 0 <= k < i ==> b.ancestors[k].author != b.ancestors[i].author
    ensures c.StakeOf(ParentsUpTo(b, i + 1)) == c.StakeOf(ParentsUpTo(b, i)) +
      if b.ancestors[i].round + 1 == b.ref.round then c.stakes[b.ancestors[i].author] else 0
  {
    if b.ancestors[i].round + 1 == b.ref.round {
      assert ParentsUpTo(b, i + 1) == ParentsUpTo(b, i) + {b.ancestors[i].author};
      SumAdd(c.stakes, |c.stakes|, ParentsUpTo(b, i), b.ancestors[i].author);
    } else {
      assert ParentsUpTo(b, i + 1) == ParentsUpTo(b, i);
    }
  }

  function TotalBytes(sizes: seq<nat>): nat {
    if sizes == [] then 0 else TotalBytes(sizes[..|sizes| - 1]) + sizes[|sizes| - 1]
  }

  /** The bytes of two lists are counted together. */
  lemma {:induction false} TotalBytesAdd(sizes: seq<nat>, more: seq<nat>)
    ensures TotalBytes(sizes + more) == TotalBytes(sizes) + TotalBytes(more)
    ensures |more| == 1 ==> TotalBytes(more) == more[0]
  {
    if more == [] {
      assert sizes + more == sizes;
    } else {
      var n := |more| - 1;
      assert (sizes + more)[..|sizes| + n] == sizes + more[..n];
      TotalBytesAdd(sizes, more[..n]);
    }
  }

  ghost predicate WithinLimits(limits: Limits, sizes: seq<nat>) {
    && (limits.transactionBytes > 0 ==> forall i :: 0 <= i < |sizes| ==> sizes[i] <= limits.transactionBytes)
    && (limits.transactions > 0 ==> |sizes| <= limits.transactions)
    && (limits.blockBytes > 0 ==> TotalBytes(sizes) <= limits.blockBytes)
  }

  /** The limits, one after the other.  The last verdict carries the number of transactions where
      one would expect their bytes. */
  method CheckTransactions(limits: Limits, sizes: seq<nat>) returns (v: Verdict)
    ensures v == Accepted <==> WithinLimits(limits, sizes)
    ensures v.Accepted? || v.TransactionTooLarge? || v.TooManyTransactions? || v.TooManyTransactionBytes?
    ensures v.TransactionTooLarge? ==> v.size in sizes && v.size > limits.transactionBytes > 0
    ensures v.TooManyTransactions? ==> v.count == |sizes| > limits.transactions > 0
    ensures v.TooManyTransactionBytes? ==> v.size == |sizes| && TotalBytes(sizes) > limits.blockBytes > 0
  {
    var total := 0;
    for i := 0 to |sizes|
      invariant total == TotalBytes(sizes[..i])
      invariant limits.transactionBytes > 0 ==> forall k :: 0 <= k < i ==> sizes[k] <= limits.transactionBytes
    {
      if sizes[i] > limits.transactionBytes && limits.transactionBytes > 0 {
        return TransactionTooLarge(sizes[i]);
      }
      assert sizes[..i + 1][..i] == sizes[..i];
      total := total + sizes[i];
    }
    assert sizes[..|sizes|] == sizes;
    if |sizes| > limits.transactions && limits.transactions > 0 {
      return TooManyTransactions(|sizes|);
    }
    if total > limits.blockBytes && limits.blockBytes > 0 {
      return TooManyTransactionBytes(|sizes|);
    }
    return Accepted;
  }

  /** The checks on a received block, in the order the verifier makes them.  It accepts exactly the
      signed blocks of the epoch that are admissible and within the limits, and every rejection
      names a real violation. */
  method VerifyBlock(c: Committee, epoch: nat, genesis: set<BlockRef>, limits: Limits, signed: SignedBlock) returns (v: Verdict)
    requires c.Valid()
    ensures v == Accepted <==>
      && signed.epoch == epoch && signed.signatureValid && Admissible(c, signed.block) && GenesisKnown(genesis, signed.block)
      && WithinLimits(limits, signed.transactions)
    ensures Justified(c, genesis, signed.block, v)
    ensures v == WrongEpoch <==> signed.epoch != epoch
    ensures v == UnexpectedGenesisBlock <==> signed.epoch == epoch && signed.block.ref.round == GENESIS_ROUND
    ensures v == SignatureInvalid <==>
      && signed.epoch == epoch && signed.block.ref.round != GENESIS_ROUND && c.IsValidIndex(signed.block.ref.author)
      && !signed.signatureValid
    ensures v.TransactionTooLarge? || v.TooManyTransactions? || v.TooManyTransactionBytes? ==>
      Admissible(c, signed.block) && !WithinLimits(limits, signed.transactions)
  {
    var b := signed.block;
    if signed.epoch != epoch { return WrongEpoch; }
    if b.ref.round == GENESIS_ROUND { return UnexpectedGenesisBlock; }
    if !c.IsValidIndex(b.ref.author) { return InvalidAuthorityIndex(b.ref.author); }
    if !signed.signatureValid { return SignatureInvalid; }
    v := CheckStructure(c, genesis, b);
    if v != Accepted {
      return v;
    }
    v := CheckTransactions(limits, signed.transactions);
  }

  /** The ancestors of a block of a valid author, and the stake of its parents. */
  method CheckStructure(c: Committee, genesis: set<BlockRef>, b: Block) returns (v: Verdict)
    requires c.Valid() && b.ref.round > GENESIS_ROUND && c.IsValidIndex(b.ref.author)
    ensures v == Accepted <==> Admissible(c, b) && GenesisKnown(genesis, b)
    ensures Justified(c, genesis, b, v)
    ensures v != WrongEpoch && v != SignatureInvalid && v != UnexpectedGenesisBlock && !v.TransactionTooLarge? && !v.TooManyTransactions? && !v.TooManyTransactionBytes?
  {
    AdmissibleByAncestors(c, genesis, b);
    if |b.ancestors| > c.Size() {
      if AncestorsOk(c, genesis, b, |b.ancestors|) {
        AncestorsInCommittee(c, genesis, b);
        DistinctAuthorsBounded(c, b.ancestors);
        assert false;
      }
      return TooManyAncestors;
    }
    if |b.ancestors| == 0 {
      assert Parents(b) == {};
      EmptyStake(c);
      return InsufficientParentStakes(0);
    }
    var parentStakes;
    v, parentStakes := CheckAncestors(c, genesis, b);
    if v != Accepted {
      return v;
    }
    if !c.ReachedQuorum(parentStakes) {
      return InsufficientParentStakes(parentStakes);
    }
    return Accepted;
  }

  // ---------------------------------------------------------------------------
  // Views
  // ---------------------------------------------------------------------------

  type Blocks = map<BlockRef, Block>

  /** Every stored block is a genesis block or passed verification. */
  ghost predicate WellFormed(c: Committee, blocks: Blocks)
    requires c.Valid()
  {
    forall r :: r in blocks ==>
      && blocks[r].ref == r
      && (if r.round == GENESIS_ROUND then blocks[r].ancestors == [] else Admissible(c, blocks[r]))
  }

  /** Causal completeness: blocks are stored only once their ancestors above the floor are. */
  ghost predicate ClosedAbove(blocks: Blocks, floor: Round) {
    forall r, a :: r in blocks && a in blocks[r].ancestors && a.round > floor ==> a in blocks
  }

  /** What one validator knows when it runs the commit rule. */
  datatype View = View(blocks: Blocks, gcRound: Round, lastCommitRound: Round, highestRound: Round)

  ghost predicate ValidView(c: Committee, v: View)
    requires c.Valid()
  {
    && WellFormed(c, v.blocks)
    && ClosedAbove(v.blocks, v.gcRound)
    && (forall r :: r in v.blocks ==> r.round <= v.highestRound)
  }

  lemma AncestorIsOlder(c: Committee, blocks: Blocks, r: BlockRef, a: BlockRef)
    requires c.Valid() && WellFormed(c, blocks)
    requires r in blocks && a in blocks[r].ancestors
    ensures a.round < r.round && c.IsValidIndex(a.author) && c.IsValidIndex(r.author)
  {
  }

  /** At most one ancestor sits at a slot, because a block includes each authority once. */
  lemma AncestorAtSlotUnique(c: Committee, b: Block, x: BlockRef, y: BlockRef)
    requires c.Valid() && Admissible(c, b)
    requires x in b.ancestors && y in b.ancestors && x.author == y.author
    ensures x == y
  {
    var i :| 0 <= i < |b.ancestors| && b.ancestors[i] == x;
    var j :| 0 <= j < |b.ancestors| && b.ancestors[j] == y;
    assert !(i < j) && !(j < i);
  }

  /** `to` is in the causal history of `from` as recorded in `blocks`. */
  ghost predicate Linked(blocks: Blocks, from: BlockRef, to: BlockRef)
    decreases from.round
  {
    from in blocks &&
    (to in blocks[from].ancestors ||
     exists a :: a in blocks[from].ancestors && to.round < a.round < from.round && Linked(blocks, a, to))
  }

  /** A chain of references, each to an ancestor of the block before. */
  ghost predicate IsPath(blocks: Blocks, path: seq<BlockRef>) {
    |path| > 1 && forall i :: 0 <= i < |path| - 1 ==> path[i] in blocks && path[i + 1] in blocks[path[i]].ancestors
  }

  lemma {:induction false} LinkedHasPath(blocks: Blocks, from: BlockRef, to: BlockRef) returns (path: seq<BlockRef>)
    requires Linked(blocks, from, to)
    ensures IsPath(blocks, path) && path[0] == from && path[|path| - 1] == to
    decreases from.round
  {
    if to in blocks[from].ancestors {
      path := [from, to];
    } else {
      var a :| a in blocks[from].ancestors && to.round < a.round < from.round && Linked(blocks, a, to);
      var rest := LinkedHasPath(blocks, a, to);
      path := [from] + rest;
    }
  }

  /** Being in the history is being at the end of such a chain. */
  lemma {:induction false} PathIsLinked(c: Committee, blocks: Blocks, path: seq<BlockRef>)
    requires c.Valid() && WellFormed(c, blocks) && IsPath(blocks, path)
    ensures Linked(blocks, path[0], path[|path| - 1]) && path[|path| - 1].round < path[0].round
    decreases |path|
  {
    AncestorIsOlder(c, blocks, path[0], path[1]);
    if |path| > 2 {
      PathIsLinked(c, blocks, path[1..]);
    }
  }

  /** The fault assumption: every block any validator ever stores is in `dag`, a reference
      names one block, and authorities outside `faulty` produce at most one block a round. */
  ghost predicate Tolerated(c: Committee, dag: Blocks, faulty: set<Authority>) {
    && c.Valid()
    && WellFormed(c, dag)
    && c.StakeOf(faulty) <= c.FaultTolerance()
    && (forall r, s :: OneHonestBlock(dag, faulty, r, s))
  }

  ghost predicate OneHonestBlock(dag: Blocks, faulty: set<Authority>, r: BlockRef, s: BlockRef) {
    r in dag && s in dag && r.round == s.round && r.author == s.author && r.author !in faulty ==> r == s
  }

  lemma HonestBlocksCoincide(c: Committee, dag: Blocks, faulty: set<Authority>, r: BlockRef, s: BlockRef)
    requires Tolerated(c, dag, faulty) && r in dag && s in dag && r.round == s.round && r.author == s.author && r.author !in faulty
    ensures r == s
  {
    assert OneHonestBlock(dag, faulty, r, s);
  }

  ghost predicate LocalView(c: Committee, dag: Blocks, v: View)
    requires c.Valid()
  {
    ValidView(c, v) && forall r :: r in v.blocks ==> r in dag && dag[r] == v.blocks[r]
  }
}
