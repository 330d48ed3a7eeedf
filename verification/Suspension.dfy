/** The tables of blocks that wait for their history: releasing, storing and suspending, as facts
    about values. */
module Suspension {
  import opened Committees
  import opened Dag

  /** A block that was received before some of its ancestors. */
  datatype Suspended = Suspended(block: Block, missing: set<BlockRef>)

  type Waiting = map<BlockRef, Suspended>
  type Children = map<BlockRef, set<BlockRef>>

  datatype Acceptance = Connected | Suspend(toFetch: set<BlockRef>) | Processed | Skipped {
    function ToFetch(): set<BlockRef> {
      if Suspend? then toFetch else {}
    }
  }

  function Refs(blocks: seq<Block>): set<BlockRef> {
    if blocks == [] then {} else Refs(blocks[..|blocks| - 1]) + {blocks[|blocks| - 1].ref}
  }

  lemma {:induction false} RefsOf(blocks: seq<Block>, r: BlockRef)
    ensures r in Refs(blocks) <==> exists b :: b in blocks && b.ref == r
  {
    if blocks != [] {
      var front, last := blocks[..|blocks| - 1], blocks[|blocks| - 1];
      assert blocks == front + [last];
      RefsOf(front, r);
      assert last in blocks;
    }
  }

  // ---------------------------------------------------------------------------
  // The tables
  // ---------------------------------------------------------------------------

  predicate Waits(w: Waiting, r: BlockRef, a: BlockRef) {
    r in w && a in w[r].missing
  }

  predicate Noted(ch: Children, a: BlockRef, r: BlockRef) {
    a in ch && r in ch[a]
  }

  /** The two tables hold one relation, except that the entries of b for `todo` were taken out. */
  ghost predicate MirroredBut(w: Waiting, ch: Children, b: BlockRef, todo: set<BlockRef>) {
    forall r, a :: Waits(w, r, a) <==> Noted(ch, a, r) || (a == b && r in todo)
  }

  ghost predicate Mirrored(w: Waiting, ch: Children) {
    forall r, a :: Waits(w, r, a) <==> Noted(ch, a, r)
  }

  ghost predicate Older(b: Block) {
    forall a :: a in b.ancestors ==> a.round < b.ref.round
  }

  ghost predicate EntryOk(r: BlockRef, e: Suspended) {
    e.block.ref == r && Older(e.block) && e.missing != {} && forall a :: a in e.missing ==> a in e.block.ancestors
  }

  ghost predicate Entries(w: Waiting) {
    forall r :: r in w ==> EntryOk(r, w[r])
  }

  /** All ancestors above the garbage-collection round are known. */
  ghost predicate HasAncestors(known: set<BlockRef>, gcRound: Round, b: Block) {
    forall a :: a in b.ancestors && a.round > gcRound ==> a in known
  }

  /** What a suspended block does not wait for is known or below the garbage-collection round. */
  ghost predicate Covered(w: Waiting, known: set<BlockRef>, gcRound: Round) {
    forall r :: r in w ==> HasAncestors(known + w[r].missing, gcRound, w[r].block)
  }

  /** The tables around the blocks held, while the arrival of r is still to be passed on.  What is
      known is what is held and what the store refused. */
  ghost predicate TablesBut(held: set<BlockRef>, known: set<BlockRef>, w: Waiting, ch: Children, wanted: set<BlockRef>,
                            gcRound: Round, r: BlockRef) {
    && Mirrored(w, ch) && Entries(w) && Covered(w, known + {r}, gcRound)
    && w.Keys !! held && r !in w && ch.Keys !! held
    && wanted == ch.Keys - w.Keys - {r}
  }

  /** The tables at rest: nothing waits for a block that is held, and the blocks to fetch are those
      waited for and not received. */
  ghost predicate Tables(held: set<BlockRef>, known: set<BlockRef>, w: Waiting, ch: Children, wanted: set<BlockRef>, gcRound: Round) {
    && Mirrored(w, ch) && Entries(w) && Covered(w, known, gcRound)
    && w.Keys !! held && ch.Keys !! held
    && wanted == ch.Keys - w.Keys
  }

  // ---------------------------------------------------------------------------
  // Releasing
  // ---------------------------------------------------------------------------

  /** Takes b off the list r waits for; a block that waits for nothing more leaves the table. */
  function Unsuspend(w: Waiting, r: BlockRef, b: BlockRef): Waiting
    requires r in w
  {
    var missing := w[r].missing - {b};
    if missing == {} then w - {r} else w[r := w[r].(missing := missing)]
  }

  /** Each released block comes after its ancestors. */
  ghost predicate Causal(base: set<BlockRef>, gcRound: Round, out: seq<Block>) {
    forall i :: 0 <= i < |out| ==> HasAncestors(base + Refs(out[..i]), gcRound, out[i])
  }

  /** w0 was divided into what still waits and what was released. */
  ghost predicate Divided(w0: Waiting, w: Waiting, out: seq<Block>) {
    && w.Keys !! Refs(out) && w0.Keys == w.Keys + Refs(out)
    && (forall r :: r in w ==> w[r].block == w0[r].block)
    && (forall b :: b in out ==> b.ref in w0 && b == w0[b.ref].block)
  }

  /** A release under way that started from w0, with `base` known. */
  ghost predicate InFlight(w0: Waiting, w: Waiting, base: set<BlockRef>, gcRound: Round, out: seq<Block>) {
    && Entries(w) && Covered(w, base + Refs(out), gcRound)
    && Divided(w0, w, out) && Causal(base, gcRound, out)
  }

  lemma UnsuspendMirrors(w: Waiting, ch: Children, b: BlockRef, todo: set<BlockRef>, r: BlockRef)
    requires MirroredBut(w, ch, b, todo) && r in todo && b !in ch
    ensures r in w && b in w[r].missing && MirroredBut(Unsuspend(w, r, b), ch, b, todo - {r})
  {
    assert Waits(w, r, b);
    var w' := Unsuspend(w, r, b);
    forall x, a ensures Waits(w', x, a) <==> Noted(ch, a, x) || (a == b && x in todo - {r}) {
      assert Waits(w, x, a) <==> Noted(ch, a, x) || (a == b && x in todo);
      assert Waits(w', x, a) <==> Waits(w, x, a) && !(x == r && a == b);
    }
  }

  lemma RefsAppend(out: seq<Block>, b: Block)
    ensures Refs(out + [b]) == Refs(out) + {b.ref}
  {
    assert (out + [b])[..|out + [b]| - 1] == out;
  }

  lemma CausalAppend(base: set<BlockRef>, gcRound: Round, out: seq<Block>, b: Block)
    requires Causal(base, gcRound, out) && HasAncestors(base + Refs(out), gcRound, b)
    ensures Causal(base, gcRound, out + [b])
  {
    var out' := out + [b];
    forall i | 0 <= i < |out'| ensures HasAncestors(base + Refs(out'[..i]), gcRound, out'[i]) {
      assert out'[..i] == out[..i];
      if i == |out| {
        assert out[..i] == out;
      }
    }
  }

  lemma UnsuspendStays(w0: Waiting, w: Waiting, base: set<BlockRef>, gcRound: Round, out: seq<Block>, r: BlockRef, b: BlockRef)
    requires InFlight(w0, w, base, gcRound, out) && r in w && b in base + Refs(out) && r in Unsuspend(w, r, b)
    ensures InFlight(w0, Unsuspend(w, r, b), base, gcRound, out)
  {
    var w' := Unsuspend(w, r, b);
    DividedStays(w0, w, out, r, b);
    forall x | x in w' ensures EntryOk(x, w'[x]) && HasAncestors(base + Refs(out) + w'[x].missing, gcRound, w'[x].block) {
      EntryShrinks(x, w[x], base + Refs(out), gcRound, b);
    }
  }

  lemma DividedStays(w0: Waiting, w: Waiting, out: seq<Block>, r: BlockRef, b: BlockRef)
    requires Divided(w0, w, out) && r in w && r in Unsuspend(w, r, b)
    ensures Divided(w0, Unsuspend(w, r, b), out)
  {
    assert Unsuspend(w, r, b).Keys == w.Keys;
  }

  /** An entry without a dependency that is known. */
  lemma EntryShrinks(x: BlockRef, e: Suspended, known: set<BlockRef>, gcRound: Round, b: BlockRef)
    requires EntryOk(x, e) && HasAncestors(known + e.missing, gcRound, e.block) && b in known
    ensures HasAncestors(known + (e.missing - {b}), gcRound, e.block)
    ensures e.missing - {b} != {} ==> EntryOk(x, e.(missing := e.missing - {b}))
  {
  }

  lemma DividedMove(w0: Waiting, w: Waiting, out: seq<Block>, r: BlockRef)
    requires Divided(w0, w, out) && r in w && w[r].block.ref == r
    ensures Divided(w0, w - {r}, out + [w[r].block])
  {
    RefsAppend(out, w[r].block);
    assert (w - {r}).Keys == w.Keys - {r};
  }

  lemma UnsuspendReleases(w0: Waiting, w: Waiting, base: set<BlockRef>, gcRound: Round, out: seq<Block>, r: BlockRef, b: BlockRef)
    requires InFlight(w0, w, base, gcRound, out) && r in w && b in base + Refs(out) && r !in Unsuspend(w, r, b)
    ensures InFlight(w0, Unsuspend(w, r, b), base, gcRound, out + [w[r].block])
  {
    var w', block := Unsuspend(w, r, b), w[r].block;
    assert EntryOk(r, w[r]);
    DividedMove(w0, w, out, r);
    RefsAppend(out, block);
    assert HasAncestors(base + Refs(out) + w[r].missing, gcRound, block);
    CausalAppend(base, gcRound, out, block);
    forall x | x in w' ensures EntryOk(x, w'[x]) && HasAncestors(base + Refs(out + [block]) + w'[x].missing, gcRound, w'[x].block) {
      assert EntryOk(x, w[x]) && HasAncestors(base + Refs(out) + w[x].missing, gcRound, w[x].block);
    }
  }

  // ---------------------------------------------------------------------------
  // Storing
  // ---------------------------------------------------------------------------

  /** A block already stored is not stored again, and neither is a second block in a slot of the
      validator's own. */
  function Store(held: Blocks, own: Authority, b: Block): Blocks {
    if b.ref in held then held
    else if b.ref.author == own && exists r :: r in held && r.AtSlot() == b.ref.AtSlot() then held
    else held[b.ref := b]
  }

  function StoreAll(held: Blocks, own: Authority, blocks: seq<Block>): Blocks {
    if blocks == [] then held
    else Store(StoreAll(held, own, blocks[..|blocks| - 1]), own, blocks[|blocks| - 1])
  }

  /** The validator's own slots hold one block each, but for what was there before. */
  ghost predicate OwnSlotsDiffer(held: Blocks, own: Authority, after: Blocks) {
    forall x, y :: x in after && y in after && x.author == own && x.AtSlot() == y.AtSlot() && x != y ==> x in held
  }

  lemma {:induction false} StoreAllBounds(held: Blocks, own: Authority, blocks: seq<Block>)
    ensures held.Keys <= StoreAll(held, own, blocks).Keys <= held.Keys + Refs(blocks)
    ensures OwnSlotsDiffer(held, own, StoreAll(held, own, blocks))
  {
    if blocks != [] {
      var front, last := blocks[..|blocks| - 1], blocks[|blocks| - 1];
      assert blocks == front + [last];
      StoreAllBounds(held, own, front);
      RefsAppend(front, last);
    }
  }

  /** No new block of the validator's own competes for its slot. */
  ghost predicate OwnSlotsFree(held: set<BlockRef>, own: Authority, blocks: seq<Block>) {
    forall b, r :: b in blocks && b.ref !in held && b.ref.author == own && r in held + Refs(blocks) && r.AtSlot() == b.ref.AtSlot() ==>
      r == b.ref
  }

  /** Exactly then is nothing dropped. */
  lemma {:induction false} StoresAllIff(held: Blocks, own: Authority, blocks: seq<Block>)
    ensures Refs(blocks) <= StoreAll(held, own, blocks).Keys <==> OwnSlotsFree(held.Keys, own, blocks)
  {
    StoreAllBounds(held, own, blocks);
    if !OwnSlotsFree(held.Keys, own, blocks) {
      var b, r :| b in blocks && b.ref !in held.Keys && b.ref.author == own && r in held.Keys + Refs(blocks) &&
        r.AtSlot() == b.ref.AtSlot() && r != b.ref;
      RefsOf(blocks, b.ref);
    } else if blocks != [] {
      var front, last := blocks[..|blocks| - 1], blocks[|blocks| - 1];
      assert blocks == front + [last];
      RefsAppend(front, last);
      assert OwnSlotsFree(held.Keys, own, front);
      StoresAllIff(held, own, front);
      StoreAllBounds(held, own, front);
    }
  }

  lemma {:induction false} StoreAllConcat(held: Blocks, own: Authority, blocks: seq<Block>, more: seq<Block>)
    ensures StoreAll(held, own, blocks + more) == StoreAll(StoreAll(held, own, blocks), own, more)
  {
    if more == [] {
      assert blocks + more == blocks;
    } else {
      var n := |more| - 1;
      assert (blocks + more)[..|blocks| + n] == blocks + more[..n];
      StoreAllConcat(held, own, blocks, more[..n]);
    }
  }

  /** References name one block, and ancestors are older. */
  ghost predicate Named(dag: Blocks) {
    forall r :: r in dag ==> dag[r].ref == r && Older(dag[r])
  }

  /** The validator itself produced at most one block a round. */
  ghost predicate OwnOnce(dag: Blocks, own: Authority) {
    forall r, s :: OneOwnBlock(dag, own, r, s)
  }

  ghost predicate OneOwnBlock(dag: Blocks, own: Authority, r: BlockRef, s: BlockRef) {
    r in dag && s in dag && r.author == own && r.AtSlot() == s.AtSlot() ==> r == s
  }

  ghost predicate Within(dag: Blocks, held: Blocks) {
    forall r :: r in held ==> r in dag && held[r] == dag[r]
  }

  ghost predicate AllWithin(dag: Blocks, blocks: seq<Block>) {
    forall b :: b in blocks ==> b.ref in dag && dag[b.ref] == b
  }

  /** A validator that never makes two blocks a round stores everything it is given. */
  lemma {:induction false} StoresEverything(dag: Blocks, own: Authority, held: Blocks, blocks: seq<Block>)
    requires OwnOnce(dag, own) && Within(dag, held) && AllWithin(dag, blocks)
    ensures Within(dag, StoreAll(held, own, blocks))
    ensures StoreAll(held, own, blocks).Keys == held.Keys + Refs(blocks)
  {
    forall r | r in Refs(blocks) ensures r in dag {
      RefsOf(blocks, r);
    }
    forall b, r | b in blocks && b.ref.author == own && r in held.Keys + Refs(blocks) && r.AtSlot() == b.ref.AtSlot()
      ensures r == b.ref
    {
      assert OneOwnBlock(dag, own, b.ref, r);
    }
    StoresAllIff(held, own, blocks);
    StoreAllBounds(held, own, blocks);
    StoreAllValues(dag, own, held, blocks);
  }

  lemma {:induction false} StoreAllValues(dag: Blocks, own: Authority, held: Blocks, blocks: seq<Block>)
    requires Within(dag, held) && AllWithin(dag, blocks)
    ensures Within(dag, StoreAll(held, own, blocks))
  {
    if blocks != [] {
      StoreAllValues(dag, own, held, blocks[..|blocks| - 1]);
    }
  }

  /** Every stored block outside `loose` has its ancestors above the floor known. */
  ghost predicate ClosedSave(held: Blocks, known: set<BlockRef>, gcRound: Round, loose: set<BlockRef>) {
    forall r, a :: r in held && r !in loose && a in held[r].ancestors && a.round > gcRound ==> a in known
  }

  /** Another block comes before d in the batch, at d's slot. */
  ghost predicate Rival(blocks: seq<Block>, d: BlockRef, i: nat) {
    i < |blocks| && blocks[i].ref.AtSlot() == d.AtSlot() && blocks[i].ref != d && d !in Refs(blocks[..i])
  }

  /** A new block of the validator's own whose slot is taken, in the store or by an earlier block of
      the batch. */
  ghost predicate Beaten(held: set<BlockRef>, own: Authority, blocks: seq<Block>, d: BlockRef) {
    && d.author == own && d !in held
    && ((exists r :: r in held && r.AtSlot() == d.AtSlot()) || exists i: nat :: Rival(blocks, d, i))
  }

  lemma {:induction false} SlotIsTaken(held: Blocks, own: Authority, blocks: seq<Block>, b: Block) returns (r: BlockRef)
    requires b in blocks
    ensures r in StoreAll(held, own, blocks) && r.AtSlot() == b.ref.AtSlot()
  {
    var front, last := blocks[..|blocks| - 1], blocks[|blocks| - 1];
    var before := StoreAll(held, own, front);
    assert blocks == front + [last];
    if b in front {
      r := SlotIsTaken(held, own, front, b);
    } else if b.ref !in before && b.ref.author == own && exists x :: x in before && x.AtSlot() == b.ref.AtSlot() {
      r :| r in before && r.AtSlot() == b.ref.AtSlot();
    } else {
      r := b.ref;
    }
  }

  lemma BeatenByOne(held: Blocks, own: Authority, blocks: seq<Block>, d: BlockRef)
    requires Beaten(held.Keys, own, blocks, d)
    ensures d.author == own && exists r :: r in StoreAll(held, own, blocks) && r.AtSlot() == d.AtSlot()
  {
    StoreAllBounds(held, own, blocks);
    if r :| r in held && r.AtSlot() == d.AtSlot() {
      assert r in StoreAll(held, own, blocks);
    } else {
      var i: nat :| Rival(blocks, d, i);
      var r := SlotIsTaken(held, own, blocks, blocks[i]);
    }
  }

  lemma RivalInFront(front: seq<Block>, last: Block, d: BlockRef, i: nat)
    requires d in Refs(front)
    ensures Rival(front + [last], d, i) <==> Rival(front, d, i)
  {
    var blocks := front + [last];
    assert i < |front| ==> blocks[..i] == front[..i];
    assert blocks[..|front|] == front;
  }

  /** Exactly the blocks of the batch that are not beaten are in the store afterwards. */
  lemma {:induction false} StoredIffNotBeaten(held: Blocks, own: Authority, blocks: seq<Block>, d: BlockRef)
    requires d in Refs(blocks)
    ensures d in StoreAll(held, own, blocks) <==> !Beaten(held.Keys, own, blocks, d)
  {
    var front, last := blocks[..|blocks| - 1], blocks[|blocks| - 1];
    assert blocks == front + [last];
    RefsAppend(front, last);
    if d in Refs(front) {
      StoredIffNotBeaten(held, own, front, d);
      forall i: nat ensures Rival(blocks, d, i) <==> Rival(front, d, i) {
        RivalInFront(front, last, d, i);
      }
      if Beaten(held.Keys, own, front, d) {
        BeatenByOne(held, own, front, d);
      }
    } else {
      LastIsStored(held, own, front, last);
    }
  }

  lemma LastIsStored(held: Blocks, own: Authority, front: seq<Block>, last: Block)
    requires last.ref !in Refs(front)
    ensures last.ref in StoreAll(held, own, front + [last]) <==> !Beaten(held.Keys, own, front + [last], last.ref)
  {
    var blocks, before, d := front + [last], StoreAll(held, own, front), last.ref;
    assert blocks[..|blocks| - 1] == front;
    StoreAllBounds(held, own, front);
    if d.author == own && d !in held {
      if r :| r in before && r.AtSlot() == d.AtSlot() {
        if r !in held {
          RivalBefore(front, last, r);
        }
      } else if exists i: nat :: Rival(blocks, d, i) {
        var i: nat :| Rival(blocks, d, i);
        assert blocks[i] == front[i] && front[i] in front;
        var r := SlotIsTaken(held, own, front, front[i]);
        assert false;
      }
    }
  }

  lemma RivalBefore(front: seq<Block>, last: Block, r: BlockRef)
    requires r in Refs(front) && r.AtSlot() == last.ref.AtSlot() && last.ref !in Refs(front)
    ensures exists i: nat :: Rival(front + [last], last.ref, i)
  {
    RefsOf(front, r);
    var i :| 0 <= i < |front| && front[i].ref == r;
    var blocks := front + [last];
    assert blocks[..i] == front[..i];
    RefsGrow(front[..i], front);
    assert Rival(blocks, last.ref, i);
  }

  /** No block of the batch that is kept has a beaten one among its ancestors. */
  ghost predicate NoBeatenParent(held: set<BlockRef>, own: Authority, blocks: seq<Block>, gcRound: Round) {
    forall b, a :: b in blocks && a in b.ancestors && a.round > gcRound && a in Refs(blocks) && Beaten(held, own, blocks, a) ==>
      Beaten(held, own, blocks, b.ref)
  }

  /** Storing a batch in causal order keeps a complete store complete exactly then. */
  lemma StaysCompleteIff(dag: Blocks, held: Blocks, own: Authority, blocks: seq<Block>, gcRound: Round)
    requires Within(dag, held) && AllWithin(dag, blocks) && ClosedAbove(held, gcRound) && Causal(held.Keys, gcRound, blocks)
    ensures ClosedAbove(StoreAll(held, own, blocks), gcRound) <==> NoBeatenParent(held.Keys, own, blocks, gcRound)
  {
    var after := StoreAll(held, own, blocks);
    StoreAllBounds(held, own, blocks);
    StoreAllValues(dag, own, held, blocks);
    if NoBeatenParent(held.Keys, own, blocks, gcRound) {
      forall r, a | r in after && a in after[r].ancestors && a.round > gcRound ensures a in after {
        ParentIsStored(dag, held, own, blocks, gcRound, r, a);
      }
    } else {
      var b, a :| b in blocks && a in b.ancestors && a.round > gcRound && a in Refs(blocks) && Beaten(held.Keys, own, blocks, a) &&
        !Beaten(held.Keys, own, blocks, b.ref);
      RefsOf(blocks, b.ref);
      StoredIffNotBeaten(held, own, blocks, b.ref);
      StoredIffNotBeaten(held, own, blocks, a);
      assert after[b.ref] == b;
    }
  }

  lemma ParentIsStored(dag: Blocks, held: Blocks, own: Authority, blocks: seq<Block>, gcRound: Round, r: BlockRef, a: BlockRef)
    requires Within(dag, held) && AllWithin(dag, blocks) && ClosedAbove(held, gcRound) && Causal(held.Keys, gcRound, blocks)
    requires NoBeatenParent(held.Keys, own, blocks, gcRound)
    requires r in StoreAll(held, own, blocks) && r in dag && a in dag[r].ancestors && a.round > gcRound
    ensures a in StoreAll(held, own, blocks)
  {
    StoreAllBounds(held, own, blocks);
    if r in held {
      assert a in held[r].ancestors;
    } else {
      RefsOf(blocks, r);
      var i :| 0 <= i < |blocks| && blocks[i].ref == r;
      assert HasAncestors(held.Keys + Refs(blocks[..i]), gcRound, blocks[i]);
      StoredIffNotBeaten(held, own, blocks, r);
      if a !in held {
        RefsGrow(blocks[..i], blocks);
        StoredIffNotBeaten(held, own, blocks, a);
      }
    }
  }

  // ---------------------------------------------------------------------------
  // A second block in an own slot
  // ---------------------------------------------------------------------------

  /** Two authorities of equal stake and their genesis blocks. */
  const TWO: Committee := Committee([1, 1])

  function Genesis(a: Authority): Block {
    Block(BlockRef(0, a, 0), [])
  }

  /** A block on the two blocks given, own chain first. */
  function On(round: Round, author: Authority, digest: nat, mine: BlockRef, theirs: BlockRef): Block {
    Block(BlockRef(round, author, digest), [mine, theirs])
  }

  lemma OnIsAdmissible(b: Block, mine: BlockRef, theirs: BlockRef)
    requires b.ref.round > 0 && b.ref.author < 2 && b.ancestors == [mine, theirs]
    requires mine.author == b.ref.author && theirs.author == 1 - mine.author
    requires mine.round + 1 == b.ref.round == theirs.round + 1
    ensures TWO.Valid() && Admissible(TWO, b)
  {
    assert SumAll(TWO.stakes, 1) == 1 && SumAll(TWO.stakes, 2) == 2;
    assert mine in b.ancestors && theirs in b.ancestors;
    assert Parents(b) == {0, 1};
    assert SumUpTo(TWO.stakes, 1, {0, 1}) == 1 && SumUpTo(TWO.stakes, 2, {0, 1}) == 2;
  }

  function FirstOwn(): Block { On(1, 0, 0, Genesis(0).ref, Genesis(1).ref) }
  function SecondOwn(): Block { On(1, 0, 1, Genesis(0).ref, Genesis(1).ref) }
  function TheirBlock(): Block { On(1, 1, 0, Genesis(1).ref, Genesis(0).ref) }
  function TheirChild(): Block { On(2, 1, 0, TheirBlock().ref, SecondOwn().ref) }

  /** What authority 0 holds when its second block of round one arrives, with a child. */
  function HeldBefore(): Blocks {
    map[Genesis(0).ref := Genesis(0), Genesis(1).ref := Genesis(1), FirstOwn().ref := FirstOwn(), TheirBlock().ref := TheirBlock()]
  }

  /** All blocks pass verification, the store is complete and the batch is in causal order; but the
      second own block is dropped and its child, which waits for nothing else, is stored. */
  lemma OwnConflictLeavesGap()
    ensures TWO.Valid() && WellFormed(TWO, HeldBefore())
    ensures Admissible(TWO, SecondOwn()) && Admissible(TWO, TheirChild())
    ensures ClosedAbove(HeldBefore(), 0) && Causal(HeldBefore().Keys, 0, [SecondOwn(), TheirChild()])
    ensures !ClosedAbove(StoreAll(HeldBefore(), 0, [SecondOwn(), TheirChild()]), 0)
  {
    OnIsAdmissible(SecondOwn(), Genesis(0).ref, Genesis(1).ref);
    OnIsAdmissible(TheirChild(), TheirBlock().ref, SecondOwn().ref);
    HeldIsWellFormed();
    HeldIsClosed();
    GapInOrder();
    GapOpens();
  }

  lemma HeldIsWellFormed()
    ensures TWO.Valid() && WellFormed(TWO, HeldBefore())
  {
    OnIsAdmissible(FirstOwn(), Genesis(0).ref, Genesis(1).ref);
    OnIsAdmissible(TheirBlock(), Genesis(1).ref, Genesis(0).ref);
  }

  lemma HeldIsClosed()
    ensures ClosedAbove(HeldBefore(), 0)
  {
  }

  lemma GapInOrder()
    ensures Causal(HeldBefore().Keys, 0, [SecondOwn(), TheirChild()])
  {
    var batch := [SecondOwn(), TheirChild()];
    assert batch[..0] == [] && batch[..1] == [SecondOwn()];
    RefsAppend([], SecondOwn());
    assert [] + [SecondOwn()] == [SecondOwn()];
    assert TheirBlock().ref in HeldBefore();
    assert SecondOwn().ref in Refs(batch[..1]);
  }

  lemma GapOpens()
    ensures !ClosedAbove(StoreAll(HeldBefore(), 0, [SecondOwn(), TheirChild()]), 0)
  {
    var held, batch := HeldBefore(), [SecondOwn(), TheirChild()];
    assert batch[..1] == [SecondOwn()] && [SecondOwn()][..0] == [];
    assert FirstOwn().ref in held && FirstOwn().ref.AtSlot() == SecondOwn().ref.AtSlot();
    assert StoreAll(held, 0, []) == held;
    assert StoreAll(held, 0, [SecondOwn()]) == held;
    var after := StoreAll(held, 0, batch);
    assert TheirChild().ref in after && after[TheirChild().ref] == TheirChild();
    assert SecondOwn().ref in after[TheirChild().ref].ancestors && SecondOwn().ref !in after;
  }

  /** Stored and suspended blocks are the ones their references name. */
  ghost predicate FromDag(dag: Blocks, held: Blocks, w: Waiting) {
    forall r :: (r in held ==> r in dag && held[r] == dag[r]) && (r in w ==> r in dag && w[r].block == dag[r])
  }

  /** A release: the tables it started from, the blocks known, and the block that set it off. */
  datatype Release = Release(w0: Waiting, keys: set<BlockRef>, base: set<BlockRef>, gcRound: Round, first: BlockRef) {
    /** The block that set it off, and what it released so far. */
    function Arrived(out: seq<Block>): set<BlockRef> {
      {first} + Refs(out)
    }
  }

  /** What the queue has to do with the blocks released and the entries left. */
  ghost predicate Queued(rel: Release, ch: Children, work: seq<BlockRef>, out: seq<Block>) {
    && (forall x :: x in work ==> x in rel.Arrived(out))
    && (forall x :: x in ch && x in rel.Arrived(out) ==> x in work)
    && (forall x :: x in rel.Arrived(out) ==> x.round > rel.first.round || x == rel.first)
    && rel.keys - rel.Arrived(out) <= ch.Keys <= rel.keys
  }

  /** The arrival of `dependency` is being passed on to `todo`. */
  ghost predicate Passing(rel: Release, w: Waiting, ch: Children, dependency: BlockRef, todo: set<BlockRef>,
                          work: seq<BlockRef>, out: seq<Block>) {
    && InFlight(rel.w0, w, rel.base, rel.gcRound, out) && Queued(rel, ch, work, out)
    && MirroredBut(w, ch, dependency, todo) && dependency !in ch
    && rel.first in rel.base && dependency in rel.Arrived(out)
  }

  /** Between two arrivals. */
  ghost predicate Releasing(rel: Release, w: Waiting, ch: Children, work: seq<BlockRef>, out: seq<Block>) {
    && InFlight(rel.w0, w, rel.base, rel.gcRound, out) && Queued(rel, ch, work, out)
    && Mirrored(w, ch) && rel.first in rel.base
  }

  lemma QueuedAppend(rel: Release, ch: Children, work: seq<BlockRef>, out: seq<Block>, b: Block)
    requires Queued(rel, ch, work, out) && b.ref.round > rel.first.round
    ensures Queued(rel, ch, work + [b.ref], out + [b])
  {
    RefsAppend(out, b);
  }

  lemma PassReleases(rel: Release, w: Waiting, ch: Children, dependency: BlockRef, todo: set<BlockRef>,
                     work: seq<BlockRef>, out: seq<Block>, r: BlockRef)
    requires Passing(rel, w, ch, dependency, todo, work, out) && r in todo
    requires r in w && r !in Unsuspend(w, r, dependency)
    ensures Passing(rel, Unsuspend(w, r, dependency), ch, dependency, todo - {r}, work + [r], out + [w[r].block])
    ensures w[r].block.ref == r && |Unsuspend(w, r, dependency)| < |w|
  {
    UnsuspendMirrors(w, ch, dependency, todo, r);
    UnsuspendReleases(rel.w0, w, rel.base, rel.gcRound, out, r, dependency);
    ReleasedIsYounger(w, dependency, r);
    QueuedAppend(rel, ch, work, out, w[r].block);
    RefsAppend(out, w[r].block);
  }

  lemma ReleasedIsYounger(w: Waiting, dependency: BlockRef, r: BlockRef)
    requires Entries(w) && r in w && dependency in w[r].missing
    ensures w[r].block.ref == r && dependency.round < r.round
    ensures r !in Unsuspend(w, r, dependency) ==> |Unsuspend(w, r, dependency)| < |w|
  {
    assert EntryOk(r, w[r]);
    if r !in Unsuspend(w, r, dependency) {
      assert w.Keys == Unsuspend(w, r, dependency).Keys + {r};
    }
  }

  lemma PassStays(rel: Release, w: Waiting, ch: Children, dependency: BlockRef, todo: set<BlockRef>,
                  work: seq<BlockRef>, out: seq<Block>, r: BlockRef)
    requires Passing(rel, w, ch, dependency, todo, work, out) && r in todo
    requires r in w && r in Unsuspend(w, r, dependency)
    ensures Passing(rel, Unsuspend(w, r, dependency), ch, dependency, todo - {r}, work, out)
    ensures |Unsuspend(w, r, dependency)| == |w|
  {
    assert Unsuspend(w, r, dependency).Keys == w.Keys;
    UnsuspendMirrors(w, ch, dependency, todo, r);
    UnsuspendStays(rel.w0, w, rel.base, rel.gcRound, out, r, dependency);
  }

  /** Taking the entry of the queue's last block starts the passing. */
  lemma PopPasses(rel: Release, w: Waiting, ch: Children, work: seq<BlockRef>, out: seq<Block>, r: BlockRef)
    requires Releasing(rel, w, ch, work + [r], out) && r in ch
    ensures Passing(rel, w, ch - {r}, r, ch[r], work, out)
  {
    QueuedPop(rel, ch, work, out, r);
    forall x, a ensures Waits(w, x, a) <==> Noted(ch - {r}, a, x) || (a == r && x in ch[r]) {
      assert Waits(w, x, a) <==> Noted(ch, a, x);
    }
  }

  lemma QueuedPop(rel: Release, ch: Children, work: seq<BlockRef>, out: seq<Block>, r: BlockRef)
    requires Queued(rel, ch, work + [r], out)
    ensures r in rel.Arrived(out) && Queued(rel, ch - {r}, work, out)
  {
    assert r in work + [r];
    forall x | x in work ensures x in work + [r] {
    }
  }

  lemma PopSkips(rel: Release, w: Waiting, ch: Children, work: seq<BlockRef>, out: seq<Block>, r: BlockRef)
    requires Releasing(rel, w, ch, work + [r], out) && r !in ch
    ensures Releasing(rel, w, ch, work, out)
  {
    QueuedPop(rel, ch, work, out, r);
    assert ch - {r} == ch;
  }

  lemma PassingDone(rel: Release, w: Waiting, ch: Children, dependency: BlockRef, work: seq<BlockRef>, out: seq<Block>)
    requires Passing(rel, w, ch, dependency, {}, work, out)
    ensures Releasing(rel, w, ch, work, out)
  {
  }

  /** After a release the tables are at rest around the blocks that were stored. */
  lemma TablesAfter(held: set<BlockRef>, known: set<BlockRef>, held': set<BlockRef>, known': set<BlockRef>, w0: Waiting, w: Waiting,
                    ch0: Children, ch: Children, wanted: set<BlockRef>, gcRound: Round, first: BlockRef, out: seq<Block>)
    requires TablesBut(held, known, w0, ch0, wanted, gcRound, first)
    requires Mirrored(w, ch) && InFlight(w0, w, known + {first}, gcRound, out) && ch.Keys == ch0.Keys - {first} - Refs(out)
    requires held' <= held + Refs(out) + {first} && known + Refs(out) <= known' && (first in known' || first.round <= gcRound)
    ensures Tables(held', known', w, ch, wanted, gcRound)
  {
    forall r | r in w ensures HasAncestors(known' + w[r].missing, gcRound, w[r].block) {
      assert HasAncestors(known + {first} + Refs(out) + w[r].missing, gcRound, w[r].block);
    }
    assert wanted == ch.Keys - w.Keys;
  }

  lemma ClosedAfter(dag: Blocks, held: Blocks, known: set<BlockRef>, held': Blocks, known': set<BlockRef>, gcRound: Round,
                    loose: set<BlockRef>, first: BlockRef, out: seq<Block>)
    requires Within(dag, held) && Within(dag, held') && AllWithin(dag, out) && ClosedSave(held, known, gcRound, loose)
    requires Causal(known + {first}, gcRound, out)
    requires held'.Keys <= held.Keys + Refs(out) + {first} && known + Refs(out) <= known' && (first in known' || first.round <= gcRound)
    requires first in held' && first !in loose ==> HasAncestors(known', gcRound, held'[first])
    ensures ClosedSave(held', known', gcRound, loose)
  {
    forall r, a | r in held' && r !in loose && a in held'[r].ancestors && a.round > gcRound ensures a in known' {
      if r in held {
        assert a in held[r].ancestors;
      } else if r != first {
        RefsOf(out, r);
        var i :| 0 <= i < |out| && out[i].ref == r;
        assert HasAncestors(known + {first} + Refs(out[..i]), gcRound, out[i]);
        RefsGrow(out[..i], out);
      }
    }
  }

  /** The ancestors a block still needs: genesis blocks, and blocks above the garbage-collection
      round, that are not stored. */
  function MissingIn(held: set<BlockRef>, gcRound: Round, ancestors: seq<BlockRef>): set<BlockRef> {
    if ancestors == [] then {}
    else
      var a := ancestors[|ancestors| - 1];
      MissingIn(held, gcRound, ancestors[..|ancestors| - 1]) +
      (if (a.round == GENESIS_ROUND || a.round > gcRound) && a !in held then {a} else {})
  }

  lemma {:induction false} MissingExactly(held: set<BlockRef>, gcRound: Round, ancestors: seq<BlockRef>, a: BlockRef)
    ensures a in MissingIn(held, gcRound, ancestors) <==>
      a in ancestors && (a.round == GENESIS_ROUND || a.round > gcRound) && a !in held
  {
    if ancestors != [] {
      var n := |ancestors| - 1;
      assert ancestors == ancestors[..n] + [ancestors[n]];
      MissingExactly(held, gcRound, ancestors[..n], a);
    }
  }

  function Note(ch: Children, a: BlockRef, r: BlockRef): Children {
    ch[a := (if a in ch then ch[a] else {}) + {r}]
  }

  /** The table with r entered under each of `missing`. */
  ghost predicate NotedAll(ch0: Children, ch: Children, missing: set<BlockRef>, r: BlockRef) {
    && ch.Keys == ch0.Keys + missing
    && (forall a, x :: Noted(ch, a, x) <==> Noted(ch0, a, x) || (a in missing && x == r))
  }

  lemma NotedMore(ch0: Children, ch: Children, missing: set<BlockRef>, r: BlockRef, a: BlockRef)
    requires NotedAll(ch0, ch, missing, r)
    ensures NotedAll(ch0, Note(ch, a, r), missing + {a}, r)
  {
    var ch' := Note(ch, a, r);
    forall b, x ensures Noted(ch', b, x) <==> Noted(ch0, b, x) || (b in missing + {a} && x == r) {
      assert Noted(ch', b, x) <==> Noted(ch, b, x) || (b == a && x == r);
    }
  }

  /** Suspending a block that misses something keeps the tables in order. */
  lemma SuspendKeeps(held: set<BlockRef>, known: set<BlockRef>, w: Waiting, ch: Children, wanted: set<BlockRef>, gcRound: Round, b: Block,
                     missing: set<BlockRef>, ch': Children)
    requires Tables(held, known, w, ch, wanted, gcRound) && held <= known && Older(b) && b.ref !in held && b.ref !in w
    requires missing == MissingIn(held, gcRound, b.ancestors) && missing != {}
    requires NotedAll(ch, ch', missing, b.ref)
    ensures Tables(held, known, w[b.ref := Suspended(b, missing)], ch', wanted + (missing - w.Keys) - {b.ref}, gcRound)
  {
    var w' := w[b.ref := Suspended(b, missing)];
    forall a ensures a in missing <==> a in b.ancestors && (a.round == GENESIS_ROUND || a.round > gcRound) && a !in held {
      MissingExactly(held, gcRound, b.ancestors, a);
    }
    SuspendMirrors(w, ch, b, missing, ch');
    assert EntryOk(b.ref, w'[b.ref]);
    forall r | r in w' ensures HasAncestors(known + w'[r].missing, gcRound, w'[r].block) {
      assert r != b.ref ==> w'[r] == w[r];
    }
  }

  lemma SuspendMirrors(w: Waiting, ch: Children, b: Block, missing: set<BlockRef>, ch': Children)
    requires Mirrored(w, ch) && b.ref !in w && NotedAll(ch, ch', missing, b.ref)
    ensures Mirrored(w[b.ref := Suspended(b, missing)], ch')
  {
    var w' := w[b.ref := Suspended(b, missing)];
    forall r, a ensures Waits(w', r, a) <==> Noted(ch', a, r) {
      assert Waits(w, r, a) <==> Noted(ch, a, r);
      assert Waits(w', r, a) <==> Waits(w, r, a) || (r == b.ref && a in missing);
    }
  }

  /** Of a received block the tables need only forget that it is wanted, once it misses nothing. */
  lemma CompleteBlockFits(held: set<BlockRef>, known: set<BlockRef>, w: Waiting, ch: Children, wanted: set<BlockRef>, gcRound: Round, b: Block)
    requires Tables(held, known, w, ch, wanted, gcRound) && held <= known && b.ref !in w && MissingIn(held, gcRound, b.ancestors) == {}
    ensures TablesBut(held, known, w, ch, wanted - {b.ref}, gcRound, b.ref) && HasAncestors(known, gcRound, b)
  {
    forall a | a in b.ancestors && a.round > gcRound ensures a in held {
      MissingExactly(held, gcRound, b.ancestors, a);
    }
    forall r | r in w ensures HasAncestors(known + {b.ref} + w[r].missing, gcRound, w[r].block) {
      assert HasAncestors(known + w[r].missing, gcRound, w[r].block);
    }
  }

  /** r was taken out of the entries of `gone`. */
  ghost predicate Forgotten(ch0: Children, ch: Children, r: BlockRef, gone: set<BlockRef>) {
    forall a, x :: Noted(ch, a, x) <==> Noted(ch0, a, x) && !(x == r && a in gone)
  }

  lemma ForgottenMirrors(w: Waiting, ch0: Children, ch: Children, r: BlockRef)
    requires Mirrored(w, ch0) && r in w && Forgotten(ch0, ch, r, w[r].missing)
    ensures Mirrored(w - {r}, ch)
  {
    forall x, a ensures Waits(w - {r}, x, a) <==> Noted(ch, a, x) {
      assert Waits(w, x, a) <==> Noted(ch0, a, x);
      assert Noted(ch, a, x) <==> Noted(ch0, a, x) && !(x == r && a in w[r].missing);
    }
  }

  lemma ForgottenFits(held: set<BlockRef>, known: set<BlockRef>, w: Waiting, w': Waiting, ch: Children, wanted: set<BlockRef>, gcRound: Round, r: BlockRef)
    requires Entries(w) && Covered(w, known, gcRound) && w.Keys !! held && w' == w - {r}
    requires Mirrored(w', ch) && ch.Keys !! held && wanted == ch.Keys - w.Keys - {r}
    ensures TablesBut(held, known, w', ch, wanted, gcRound, r)
  {
    forall x | x in w' ensures HasAncestors(known + {r} + w'[x].missing, gcRound, w'[x].block) {
      assert HasAncestors(known + w[x].missing, gcRound, w[x].block);
    }
  }

  /** Nothing at or below the garbage-collection round is waited for. */
  ghost predicate Settled(ch: Children, gcRound: Round) {
    forall a :: a in ch ==> a.round > gcRound
  }

  method LowestKey(keys: set<BlockRef>) returns (k: BlockRef)
    requires keys != {}
    ensures k in keys && forall x :: x in keys ==> k.round <= x.round
  {
    k :| k in keys;
    var rest := keys - {k};
    while rest != {}
      invariant rest <= keys && k in keys
      invariant forall x :: x in keys && x !in rest ==> k.round <= x.round
      decreases rest
    {
      var x :| x in rest;
      if x.round < k.round {
        k := x;
      }
      rest := rest - {x};
    }
  }

  /** A suspended block waits for something older, so the lowest block waited for is not suspended. */
  lemma LowestIsNotSuspended(w: Waiting, ch: Children, k: BlockRef)
    requires Mirrored(w, ch) && Entries(w) && k in ch && forall a :: a in ch ==> k.round <= a.round
    ensures k !in w
  {
    if k in w {
      assert EntryOk(k, w[k]);
      var a :| a in w[k].missing;
      assert Waits(w, k, a);
    }
  }

  lemma GivenUpFits(held: set<BlockRef>, known: set<BlockRef>, w: Waiting, ch: Children, wanted: set<BlockRef>, gcRound: Round, k: BlockRef)
    requires Tables(held, known, w, ch, wanted, gcRound) && k !in w
    ensures TablesBut(held, known, w, ch, wanted - {k}, gcRound, k)
  {
    forall r | r in w ensures HasAncestors(known + {k} + w[r].missing, gcRound, w[r].block) {
      assert HasAncestors(known + w[r].missing, gcRound, w[r].block);
    }
  }

  lemma ReleasedInDag(dag: Blocks, held: Blocks, w0: Waiting, w: Waiting, k: BlockRef, out: seq<Block>)
    requires FromDag(dag, held, w0) && Divided(w0, w, out) && forall x :: x in Refs(out) ==> x.round > k.round
    ensures AllWithin(dag, out) && FromDag(dag, held, w) && forall x :: x in out ==> x.ref.round != GENESIS_ROUND
  {
    forall x | x in out ensures x.ref.round != GENESIS_ROUND {
      RefsOf(out, x.ref);
    }
  }

  lemma WantedIsNoted(held: set<BlockRef>, known: set<BlockRef>, w: Waiting, ch: Children, wanted: set<BlockRef>, gcRound: Round, r: BlockRef)
    requires Tables(held, known, w, ch, wanted, gcRound) && r !in held && r !in w && r !in wanted
    ensures Tables(held, known, w, ch[r := {}], wanted + {r}, gcRound)
  {
    var ch' := ch[r := {}];
    assert r !in ch;
    forall x, a ensures Waits(w, x, a) <==> Noted(ch', a, x) {
      assert Waits(w, x, a) <==> Noted(ch, a, x);
    }
  }

  // ---------------------------------------------------------------------------
  // Sequences of blocks
  // ---------------------------------------------------------------------------

  lemma {:induction false} RefsConcat(out: seq<Block>, more: seq<Block>)
    ensures Refs(out + more) == Refs(out) + Refs(more)
  {
    if more == [] {
      assert out + more == out;
    } else {
      var n := |more| - 1;
      assert out + more == out + more[..n] + [more[n]];
      RefsConcat(out, more[..n]);
      RefsAppend(out + more[..n], more[n]);
    }
  }

  lemma CausalBehind(base: set<BlockRef>, gcRound: Round, out: seq<Block>, more: seq<Block>, j: nat)
    requires Causal(base + Refs(out), gcRound, more) && j < |more|
    ensures HasAncestors(base + Refs((out + more)[..|out| + j]), gcRound, more[j])
  {
    assert (out + more)[..|out| + j] == out + more[..j];
    RefsConcat(out, more[..j]);
    assert HasAncestors(base + Refs(out) + Refs(more[..j]), gcRound, more[j]);
  }

  lemma CausalConcat(base: set<BlockRef>, gcRound: Round, out: seq<Block>, more: seq<Block>)
    requires Causal(base, gcRound, out) && Causal(base + Refs(out), gcRound, more)
    ensures Causal(base, gcRound, out + more) && Refs(out + more) == Refs(out) + Refs(more)
  {
    RefsConcat(out, more);
    var all := out + more;
    forall i | 0 <= i < |all| ensures HasAncestors(base + Refs(all[..i]), gcRound, all[i]) {
      if i < |out| {
        assert all[..i] == out[..i];
      } else {
        CausalBehind(base, gcRound, out, more, i - |out|);
      }
    }
  }

  /** Behind everything of the same round: the sort is stable. */
  function InsertByRound(s: seq<Block>, b: Block): seq<Block> {
    if s == [] then [b]
    else if s[|s| - 1].ref.round <= b.ref.round then s + [b]
    else InsertByRound(s[..|s| - 1], b) + [s[|s| - 1]]
  }

  function SortByRound(blocks: seq<Block>): seq<Block> {
    if blocks == [] then [] else InsertByRound(SortByRound(blocks[..|blocks| - 1]), blocks[|blocks| - 1])
  }

  lemma {:induction false} InsertByRoundMembers(s: seq<Block>, b: Block)
    ensures |InsertByRound(s, b)| == |s| + 1
    ensures forall x :: x in InsertByRound(s, b) <==> x in s || x == b
  {
    if s != [] && s[|s| - 1].ref.round > b.ref.round {
      var front, last := s[..|s| - 1], s[|s| - 1];
      InsertByRoundMembers(front, b);
      assert s == front + [last];
    }
  }

  lemma {:induction false} SortByRoundKeeps(blocks: seq<Block>)
    ensures |SortByRound(blocks)| == |blocks| && forall x :: x in SortByRound(blocks) <==> x in blocks
  {
    if blocks != [] {
      var front, last := blocks[..|blocks| - 1], blocks[|blocks| - 1];
      SortByRoundKeeps(front);
      InsertByRoundMembers(SortByRound(front), last);
      assert blocks == front + [last];
    }
  }

  ghost predicate Rising(blocks: seq<Block>) {
    forall i, j :: 0 <= i < j < |blocks| ==> blocks[i].ref.round <= blocks[j].ref.round
  }

  lemma {:induction false} InsertByRoundSorts(s: seq<Block>, b: Block)
    requires Rising(s)
    ensures Rising(InsertByRound(s, b))
  {
    if s != [] && s[|s| - 1].ref.round > b.ref.round {
      var front, last := s[..|s| - 1], s[|s| - 1];
      InsertByRoundSorts(front, b);
      InsertByRoundMembers(front, b);
      assert s == front + [last];
      var t := InsertByRound(front, b);
      forall i | 0 <= i < |t| ensures t[i].ref.round <= last.ref.round {
        assert t[i] in t;
      }
    }
  }

  lemma {:induction false} InsertByRoundCounts(s: seq<Block>, b: Block)
    ensures multiset(InsertByRound(s, b)) == multiset(s) + multiset{b}
  {
    if s != [] && s[|s| - 1].ref.round > b.ref.round {
      InsertByRoundCounts(s[..|s| - 1], b);
      assert s == s[..|s| - 1] + [s[|s| - 1]];
    }
  }

  /** A batch is taken lowest rounds first. */
  lemma {:induction false} SortByRoundSorts(blocks: seq<Block>)
    ensures Rising(SortByRound(blocks))
  {
    if blocks != [] {
      SortByRoundSorts(blocks[..|blocks| - 1]);
      InsertByRoundSorts(SortByRound(blocks[..|blocks| - 1]), blocks[|blocks| - 1]);
    }
  }

  /** And all of it. */
  lemma {:induction false} SortByRoundPermutes(blocks: seq<Block>)
    ensures multiset(SortByRound(blocks)) == multiset(blocks)
  {
    if blocks != [] {
      var front, last := blocks[..|blocks| - 1], blocks[|blocks| - 1];
      SortByRoundPermutes(front);
      InsertByRoundCounts(SortByRound(front), last);
      CountLast(blocks, front, last);
    }
  }

  lemma CountLast(blocks: seq<Block>, front: seq<Block>, last: Block)
    requires blocks != [] && front == blocks[..|blocks| - 1] && last == blocks[|blocks| - 1]
    ensures multiset(blocks) == multiset(front) + multiset{last}
  {
    assert blocks == front + [last];
  }

  // ---------------------------------------------------------------------------
  // What is to be fetched
  // ---------------------------------------------------------------------------

  /** An ancestor that has to be there before the block is stored. */
  predicate Needs(gcRound: Round, b: Block, a: BlockRef) {
    a in b.ancestors && (a.round == GENESIS_ROUND || a.round > gcRound)
  }

  /** What one block, received when there is room or not, adds to the blocks to fetch. */
  function Fetches(held: set<BlockRef>, waiting: set<BlockRef>, gcRound: Round, b: Block, room: bool): set<BlockRef> {
    if room && b.ref !in held && b.ref !in waiting && b.ref.round > gcRound then MissingIn(held, gcRound, b.ancestors) - waiting else {}
  }

  /** Exactly the ancestors that new blocks of the batch need and that have not been received. */
  ghost predicate MissingIs(batch: seq<Block>, n: nat, before: set<BlockRef>, received: set<BlockRef>, gcRound: Round, missing: set<BlockRef>)
    requires n <= |batch|
  {
    forall a :: a in missing <==> a !in received && exists i :: 0 <= i < n && Lacks(batch[i], before, gcRound, a)
  }

  ghost predicate Lacks(b: Block, before: set<BlockRef>, gcRound: Round, a: BlockRef) {
    b.ref !in before && b.ref.round > gcRound && Needs(gcRound, b, a)
  }

  lemma FetchesExactly(held: set<BlockRef>, waiting: set<BlockRef>, gcRound: Round, b: Block, room: bool, a: BlockRef)
    ensures a in Fetches(held, waiting, gcRound, b, room) <==>
      room && b.ref !in held && b.ref !in waiting && b.ref.round > gcRound && Needs(gcRound, b, a) && a !in held && a !in waiting
  {
    MissingExactly(held, gcRound, b.ancestors, a);
  }

  /** In a batch sorted by round nothing that was missing arrives later. */
  lemma MissingStep(batch: seq<Block>, n: nat, before: set<BlockRef>, received: set<BlockRef>, received': set<BlockRef>, gcRound: Round,
                    missing: set<BlockRef>, toFetch: set<BlockRef>)
    requires n < |batch| && Rising(batch) && forall i :: 0 <= i <= n ==> Older(batch[i])
    requires MissingIs(batch, n, before, received, gcRound, missing)
    requires before <= received <= before + Refs(batch[..n]) && received <= received' <= received + {batch[n].ref}
    requires forall i :: 0 <= i < n && batch[i].ref == batch[n].ref ==> batch[i] == batch[n]
    requires forall a :: a in toFetch <==> Lacks(batch[n], received, gcRound, a) && a !in received
    ensures MissingIs(batch, n + 1, before, received', gcRound, missing + toFetch)
  {
    forall a ensures a in missing + toFetch <==> a !in received' && exists i :: 0 <= i < n + 1 && Lacks(batch[i], before, gcRound, a) {
      if a in missing {
        var i :| 0 <= i < n && Lacks(batch[i], before, gcRound, a);
        assert a != batch[n].ref;
      }
      if a !in received' && Lacks(batch[n], before, gcRound, a) && a !in toFetch {
        EarlierCopy(batch, n, before, received);
      }
    }
  }

  lemma EarlierCopy(batch: seq<Block>, n: nat, before: set<BlockRef>, received: set<BlockRef>)
    requires n < |batch| && received <= before + Refs(batch[..n]) && batch[n].ref in received && batch[n].ref !in before
    requires forall i :: 0 <= i < n && batch[i].ref == batch[n].ref ==> batch[i] == batch[n]
    ensures exists i :: 0 <= i < n && batch[i] == batch[n]
  {
    RefsOf(batch[..n], batch[n].ref);
    var b :| b in batch[..n] && b.ref == batch[n].ref;
    var i :| 0 <= i < n && batch[i] == b;
  }

  lemma {:induction false} RefsPrepend(b: Block, out: seq<Block>)
    ensures Refs([b] + out) == {b.ref} + Refs(out)
  {
    var all := [b] + out;
    if out == [] {
      assert all[..|all| - 1] == [] && all[0] == b;
    } else {
      RefsPrepend(b, out[..|out| - 1]);
      assert all[..|all| - 1] == [b] + out[..|out| - 1];
    }
  }

  lemma CausalPrepend(base: set<BlockRef>, gcRound: Round, b: Block, out: seq<Block>)
    requires HasAncestors(base, gcRound, b) && Causal(base + {b.ref}, gcRound, out)
    ensures Causal(base, gcRound, [b] + out)
  {
    var all := [b] + out;
    forall i | 0 <= i < |all| ensures HasAncestors(base + Refs(all[..i]), gcRound, all[i]) {
      if i > 0 {
        assert all[..i] == [b] + out[..i - 1];
        RefsPrepend(b, out[..i - 1]);
        assert HasAncestors(base + {b.ref} + Refs(out[..i - 1]), gcRound, out[i - 1]);
      }
    }
  }

  lemma SubsetSize(small: set<BlockRef>, large: set<BlockRef>)
    requires small <= large
    ensures |small| <= |large|
  {
    assert large == small + (large - small);
  }

  lemma ReleaseStarts(rel: Release, ch: Children)
    requires Mirrored(rel.w0, ch) && Entries(rel.w0) && Covered(rel.w0, rel.base, rel.gcRound) && ch.Keys == rel.keys
    requires rel.first in rel.base
    ensures Releasing(rel, rel.w0, ch, [rel.first], [])
  {
    assert rel.base + Refs([]) == rel.base;
  }

  lemma RefsGrow(out: seq<Block>, out': seq<Block>)
    requires out <= out'
    ensures Refs(out) <= Refs(out')
  {
    forall r | r in Refs(out) ensures r in Refs(out') {
      RefsOf(out, r);
      RefsOf(out', r);
    }
  }

  lemma ReleaseEnds(rel: Release, w: Waiting, ch: Children, out: seq<Block>)
    requires Releasing(rel, w, ch, [], out) && rel.first !in rel.w0
    ensures ch.Keys == rel.keys - {rel.first} - Refs(out)
    ensures forall x :: x in Refs(out) ==> x.round > rel.first.round
  {
    assert rel.Arrived(out) == {rel.first} + Refs(out);
  }
}
