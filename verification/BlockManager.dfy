/** Holding blocks back until their history has arrived: where the causal completeness of a
    validator's view comes from. */
module BlockManager {
  import opened Wrappers
  import opened Committees
  import opened Dag
  import opened Suspension

  class BlockManager {
    const own: Authority
    const limit: nat                     // suspended blocks allowed: 10000 for each committee member
    var held: Blocks                     // the blocks in the DAG state
    var gcRound: Round
    var suspended: Waiting
    var missingAncestors: Children
    var missingBlocks: set<BlockRef>
    ghost var dropped: set<BlockRef>     // connected, but refused by the store

    /** The blocks that have been connected, stored or not. */
    ghost function Known(): set<BlockRef>
      reads this
    {
      held.Keys + dropped
    }

    /** The tables are in order, the ancestors above the garbage-collection round of every stored
        block are known but for blocks in `loose`, and nothing was dropped if the validator makes
        one block a round. */
    ghost predicate Sound(dag: Blocks, loose: set<BlockRef>)
      reads this
    {
      && FromDag(dag, held, suspended)
      && Tables(held.Keys, Known(), suspended, missingAncestors, missingBlocks, gcRound)
      && ClosedSave(held, Known(), gcRound, loose)
      && (OwnOnce(dag, own) ==> dropped == {})
    }

    /** Moreover nothing at or below the garbage-collection round is waited for. */
    ghost predicate Valid(dag: Blocks)
      reads this
    {
      Sound(dag, {}) && Settled(missingAncestors, gcRound)
    }

    /** The blocks this validator has been given and not turned away. */
    ghost function Received(): set<BlockRef>
      reads this
    {
      Known() + suspended.Keys
    }

    constructor (self: Authority, maxSuspended: nat, genesis: Blocks, ghost dag: Blocks)
      requires Within(dag, genesis)
      requires forall r :: r in genesis ==> genesis[r].ancestors == []
      ensures Valid(dag) && own == self && limit == maxSuspended && held == genesis && Received() == genesis.Keys && gcRound == 0
    {
      own, limit := self, maxSuspended;
      held, gcRound := genesis, 0;
      suspended, missingAncestors, missingBlocks := map[], map[], {};
      dropped := {};
    }

    /** A commit moved the garbage-collection round.  Loose blocks whose ancestors above it are known
        are loose no more. */
    method AdvanceGc(round: Round, ghost loose: set<BlockRef>, ghost dag: Blocks)
      requires Sound(dag, loose) && gcRound <= round
      requires forall r :: r in loose && r in held ==> HasAncestors(Known(), round, held[r])
      modifies this`gcRound
      ensures Sound(dag, {}) && gcRound == round
    {
      ghost var before := gcRound;
      gcRound := round;
      GcAdvances(held, Known(), suspended, before, round, loose);
    }

    /** Removes a dependency that arrived; the block is returned once none is left.  The source
        panics unless the block is suspended and waits for that dependency. */
    method TryUnsuspendBlock(r: BlockRef, dependency: BlockRef) returns (block: Option<Block>)
      requires r in suspended && dependency in suspended[r].missing
      modifies this`suspended
      ensures suspended == Unsuspend(old(suspended), r, dependency)
      ensures block == if r in suspended then None else Some(old(suspended)[r].block)
    {
      var entry := suspended[r];
      entry := entry.(missing := entry.missing - {dependency});
      suspended := suspended[r := entry];
      if entry.missing == {} {
        suspended := suspended - {r};
        return Some(entry.block);
      }
      return None;
    }

    /** Tells r that `dependency` arrived. */
    method PassTo(r: BlockRef, dependency: BlockRef, work: seq<BlockRef>, out: seq<Block>,
                  ghost todo: set<BlockRef>, ghost rel: Release)
        returns (work': seq<BlockRef>, out': seq<Block>)
      requires Passing(rel, suspended, missingAncestors, dependency, todo, work, out) && r in todo
      modifies this`suspended
      ensures Passing(rel, suspended, missingAncestors, dependency, todo - {r}, work', out')
      ensures |suspended| < old(|suspended|) || (|suspended| == old(|suspended|) && work' == work)
    {
      UnsuspendMirrors(suspended, missingAncestors, dependency, todo, r);
      ghost var before := suspended;
      var block := TryUnsuspendBlock(r, dependency);
      if block.Some? {
        PassReleases(rel, before, missingAncestors, dependency, todo, work, out, r);
        work', out' := work + [block.value.ref], out + [block.value];
      } else {
        PassStays(rel, before, missingAncestors, dependency, todo, work, out, r);
        work', out' := work, out;
      }
    }

    /** Tells everything that waited for `dependency` that it arrived. */
    method PassToAll(dependency: BlockRef, children: set<BlockRef>, work: seq<BlockRef>, out: seq<Block>, ghost rel: Release)
        returns (work': seq<BlockRef>, out': seq<Block>)
      requires Passing(rel, suspended, missingAncestors, dependency, children, work, out)
      modifies this`suspended
      ensures Passing(rel, suspended, missingAncestors, dependency, {}, work', out')
      ensures |suspended| < old(|suspended|) || (|suspended| == old(|suspended|) && work' == work)
    {
      work', out' := work, out;
      var todo := children;
      while todo != {}
        invariant Passing(rel, suspended, missingAncestors, dependency, todo, work', out')
        invariant |suspended| < old(|suspended|) || (|suspended| == old(|suspended|) && work' == work)
        decreases todo
      {
        var r :| r in todo;
        work', out' := PassTo(r, dependency, work', out', todo, rel);
        todo := todo - {r};
      }
    }

    /** Takes the last block off the queue and passes its arrival on. */
    method PassNext(queue: seq<BlockRef>, out: seq<Block>, ghost rel: Release) returns (queue': seq<BlockRef>, out': seq<Block>)
      requires Releasing(rel, suspended, missingAncestors, queue, out) && queue != []
      modifies this`suspended, this`missingAncestors
      ensures Releasing(rel, suspended, missingAncestors, queue', out')
      ensures |suspended| < old(|suspended|) || (|suspended| == old(|suspended|) && |queue'| < |queue|)
    {
      var r := queue[|queue| - 1];
      var work := queue[..|queue| - 1];
      assert queue == work + [r];
      if r in missingAncestors {
        PopPasses(rel, suspended, missingAncestors, work, out, r);
        var children := missingAncestors[r];
        missingAncestors := missingAncestors - {r};
        queue', out' := PassToAll(r, children, work, out, rel);
        PassingDone(rel, suspended, missingAncestors, r, queue', out');
      } else {
        PopSkips(rel, suspended, missingAncestors, work, out, r);
        queue', out' := work, out;
      }
    }

    method PassQueue(queue: seq<BlockRef>, ghost rel: Release) returns (out: seq<Block>)
      requires Releasing(rel, suspended, missingAncestors, queue, [])
      modifies this`suspended, this`missingAncestors
      ensures Releasing(rel, suspended, missingAncestors, [], out)
    {
      var work := queue;
      out := [];
      while work != []
        invariant Releasing(rel, suspended, missingAncestors, work, out)
        decreases |suspended|, |work|
      {
        work, out := PassNext(work, out, rel);
      }
    }

    /** Works through everything the arrival of `accepted` releases, directly or not. */
    method TryUnsuspendChildren(accepted: BlockRef, ghost base: set<BlockRef>) returns (out: seq<Block>)
      requires Mirrored(suspended, missingAncestors) && Entries(suspended) && Covered(suspended, base, gcRound)
      requires accepted !in suspended && accepted in base
      modifies this`suspended, this`missingAncestors
      ensures Mirrored(suspended, missingAncestors) && InFlight(old(suspended), suspended, base, gcRound, out)
      ensures missingAncestors.Keys == old(missingAncestors.Keys) - {accepted} - Refs(out)
      ensures forall x :: x in Refs(out) ==> x.round > accepted.round
    {
      ghost var rel := Release(suspended, missingAncestors.Keys, base, gcRound, accepted);
      ReleaseStarts(rel, missingAncestors);
      out := PassQueue([accepted], rel);
      ReleaseEnds(rel, suspended, missingAncestors, out);
    }

    /** Stores blocks in order; the source panics on a genesis block. */
    method AcceptBlocks(blocks: seq<Block>)
      requires forall b :: b in blocks ==> b.ref.round != GENESIS_ROUND
      modifies this`held, this`dropped
      ensures held == StoreAll(old(held), own, blocks)
      ensures dropped == old(dropped) + (Refs(blocks) - held.Keys)
    {
      ghost var before := held;
      for i := 0 to |blocks|
        invariant held == StoreAll(before, own, blocks[..i]) && dropped == old(dropped)
      {
        assert blocks[..i + 1][..i] == blocks[..i];
        var b := blocks[i];
        if b.ref !in held && !(b.ref.author == own && exists r :: r in held && r.AtSlot() == b.ref.AtSlot()) {
          held := held[b.ref := b];
        }
      }
      assert blocks[..|blocks|] == blocks;
      dropped := dropped + (Refs(blocks) - held.Keys);
    }

    /** What is known grows by the batch, what is held by part of it, and by all of it when the
        validator makes one block a round. */
    method AcceptKnown(blocks: seq<Block>, ghost dag: Blocks)
      requires FromDag(dag, held, suspended) && AllWithin(dag, blocks) && forall b :: b in blocks ==> b.ref.round != GENESIS_ROUND
      modifies this`held, this`dropped
      ensures held == StoreAll(old(held), own, blocks) && old(held.Keys) <= held.Keys <= old(held.Keys) + Refs(blocks)
      ensures Known() == old(Known()) + Refs(blocks) && FromDag(dag, held, suspended)
      ensures OwnOnce(dag, own) ==> dropped == old(dropped)
    {
      StoredFacts(dag, own, held, dropped, blocks);
      AcceptBlocks(blocks);
    }

    /** Enters b as waiting for each ancestor it misses. */
    method NoteMissing(b: Block) returns (missing: set<BlockRef>, toFetch: set<BlockRef>)
      modifies this`missingAncestors, this`missingBlocks
      ensures missing == MissingIn(held.Keys, gcRound, b.ancestors) && toFetch == missing - suspended.Keys
      ensures NotedAll(old(missingAncestors), missingAncestors, missing, b.ref)
      ensures missingBlocks == old(missingBlocks) + toFetch
      ensures missing == {} ==> missingAncestors == old(missingAncestors)
    {
      missing, toFetch := {}, {};
      for i := 0 to |b.ancestors|
        invariant missing == MissingIn(held.Keys, gcRound, b.ancestors[..i]) && toFetch == missing - suspended.Keys
        invariant NotedAll(old(missingAncestors), missingAncestors, missing, b.ref)
        invariant missingBlocks == old(missingBlocks) + toFetch
        invariant missing == {} ==> missingAncestors == old(missingAncestors)
      {
        var a := b.ancestors[i];
        assert b.ancestors[..i + 1][..i] == b.ancestors[..i];
        if (a.round == GENESIS_ROUND || a.round > gcRound) && a !in held {
          NotedMore(old(missingAncestors), missingAncestors, missing, b.ref, a);
          missing := missing + {a};
          missingAncestors := Note(missingAncestors, a, b.ref);
          if a !in suspended {
            toFetch := toFetch + {a};
            missingBlocks := missingBlocks + {a};
          }
        }
      }
      assert b.ancestors[..|b.ancestors|] == b.ancestors;
    }

    /** A new block above the garbage-collection round misses something or connects. */
    method SuspendOrConnect(b: Block) returns (result: Acceptance)
      requires Tables(held.Keys, Known(), suspended, missingAncestors, missingBlocks, gcRound)
      requires Older(b) && b.ref !in held && b.ref !in suspended
      modifies this`suspended, this`missingAncestors, this`missingBlocks
      ensures Widened(old(missingAncestors.Keys), missingAncestors.Keys, MissingIn(held.Keys, gcRound, b.ancestors))
      ensures result.Suspend? ==> Widened(old(missingBlocks), missingBlocks, result.toFetch)
      ensures !result.Suspend? ==> Widened(old(missingBlocks), missingBlocks, {})
      ensures result == Connected ==>
        && MissingIn(held.Keys, gcRound, b.ancestors) == {}
        && suspended == old(suspended) && HasAncestors(Known(), gcRound, b)
        && TablesBut(held.Keys, Known(), suspended, missingAncestors, missingBlocks, gcRound, b.ref)
      ensures result != Connected ==>
        && suspended == old(suspended)[b.ref := Suspended(b, MissingIn(held.Keys, gcRound, b.ancestors))]
        && MissingIn(held.Keys, gcRound, b.ancestors) != {}
        && result == Suspend(MissingIn(held.Keys, gcRound, b.ancestors) - old(suspended.Keys))
        && Tables(held.Keys, Known(), suspended, missingAncestors, missingBlocks, gcRound)
    {
      ghost var ch, wanted := missingAncestors, missingBlocks;
      var missing, toFetch := NoteMissing(b);
      missingBlocks := missingBlocks - {b.ref};
      if missing != {} {
        SuspendKeeps(held.Keys, Known(), suspended, ch, wanted, gcRound, b, missing, missingAncestors);
        suspended := suspended[b.ref := Suspended(b, missing)];
        return Suspend(toFetch);
      }
      CompleteBlockFits(held.Keys, Known(), suspended, ch, wanted, gcRound, b);
      return Connected;
    }

    /** Decides what becomes of one block.  At the limit on suspended blocks everything is turned
        away, also the blocks that others wait for. */
    method TryAcceptOneBlock(b: Block) returns (result: Acceptance)
      requires Tables(held.Keys, Known(), suspended, missingAncestors, missingBlocks, gcRound) && Older(b)
      modifies this`suspended, this`missingAncestors, this`missingBlocks
      ensures result == Skipped <==>
        old(|suspended|) >= limit || (b.ref !in old(suspended) && b.ref !in held && b.ref.round <= gcRound)
      ensures result == Processed <==> old(|suspended|) < limit && (b.ref in old(suspended) || b.ref in held)
      ensures result == Skipped || result == Processed ==> unchanged(this)
      ensures Widened(old(missingAncestors.Keys), missingAncestors.Keys, MissingIn(held.Keys, gcRound, b.ancestors))
      ensures Widened(old(missingBlocks), missingBlocks, result.ToFetch())
      ensures result.ToFetch() == Fetches(held.Keys, old(suspended.Keys), gcRound, b, old(|suspended|) < limit)
      ensures result == Connected ==>
        && MissingIn(held.Keys, gcRound, b.ancestors) == {}
        && suspended == old(suspended) && b.ref !in held && HasAncestors(Known(), gcRound, b)
        && TablesBut(held.Keys, Known(), suspended, missingAncestors, missingBlocks, gcRound, b.ref)
      ensures result.Suspend? ==>
        && b.ref !in held && b.ref !in old(suspended)
        && suspended == old(suspended)[b.ref := Suspended(b, MissingIn(held.Keys, gcRound, b.ancestors))]
        && MissingIn(held.Keys, gcRound, b.ancestors) != {}
        && result.toFetch == MissingIn(held.Keys, gcRound, b.ancestors) - old(suspended.Keys)
        && Tables(held.Keys, Known(), suspended, missingAncestors, missingBlocks, gcRound)
      ensures result != Connected ==>
        Grown(old(Received()), Received(), b.ref, old(|suspended|) < limit && b.ref.round > gcRound) &&
        |suspended| <= old(|suspended|) + 1
    {
      if |suspended| >= limit {
        return Skipped;
      }
      if b.ref in suspended || b.ref in held {
        return Processed;
      }
      if b.ref.round <= gcRound {
        return Skipped;
      }
      result := SuspendOrConnect(b);
    }

    /** Stores a connected block together with everything its arrival releases. */
    method Connect(b: Block, ghost dag: Blocks) returns (accepted: seq<Block>)
      requires FromDag(dag, held, suspended) && (OwnOnce(dag, own) ==> dropped == {})
      requires b.ref in dag && dag[b.ref] == b && b.ref.round != GENESIS_ROUND
      requires TablesBut(held.Keys, Known(), suspended, missingAncestors, missingBlocks, gcRound, b.ref)
      requires ClosedSave(held, Known(), gcRound, {}) && HasAncestors(Known(), gcRound, b)
      modifies this`held, this`dropped, this`suspended, this`missingAncestors
      ensures Sound(dag, {})
      ensures held == StoreAll(old(held), own, accepted) && Known() == old(Known()) + Refs(accepted)
      ensures Causal(old(Known()), gcRound, accepted) && b.ref in Refs(accepted)
      ensures Received() == old(Received()) + {b.ref} && |suspended| <= old(|suspended|)
      ensures missingAncestors.Keys <= old(missingAncestors.Keys)
    {
      ghost var w0, ch0, held0, known0 := suspended, missingAncestors, held, Known();
      var out := StoreWithReleased(b, dag);
      accepted := [b] + out;
      TablesAfter(held0.Keys, known0, held.Keys, Known(), w0, suspended, ch0, missingAncestors, missingBlocks, gcRound, b.ref, out);
      ConnectCloses(dag, held0, known0, held, Known(), gcRound, b, out);
      ConnectMoves(known0, Known(), w0, suspended, b, out);
    }

    method StoreWithReleased(b: Block, ghost dag: Blocks) returns (out: seq<Block>)
      requires FromDag(dag, held, suspended) && b.ref in dag && dag[b.ref] == b && b.ref.round != GENESIS_ROUND && b.ref !in suspended
      requires Mirrored(suspended, missingAncestors) && Entries(suspended) && Covered(suspended, Known() + {b.ref}, gcRound)
      modifies this`held, this`dropped, this`suspended, this`missingAncestors
      ensures held == StoreAll(old(held), own, [b] + out) && held.Keys <= old(held.Keys) + Refs(out) + {b.ref}
      ensures Known() == old(Known()) + Refs([b] + out) == old(Known()) + Refs(out) + {b.ref} && b.ref in Refs([b] + out)
      ensures OwnOnce(dag, own) ==> dropped == old(dropped)
      ensures AllWithin(dag, [b] + out) && FromDag(dag, held, suspended)
      ensures Mirrored(suspended, missingAncestors) && InFlight(old(suspended), suspended, old(Known()) + {b.ref}, gcRound, out)
      ensures missingAncestors.Keys == old(missingAncestors.Keys) - {b.ref} - Refs(out)
    {
      out := ReleaseBehind(b, Known() + {b.ref}, dag);
      RefsPrepend(b, out);
      AcceptKnown([b] + out, dag);
    }

    /** Takes out of the tables what the arrival of b releases. */
    method ReleaseBehind(b: Block, ghost base: set<BlockRef>, ghost dag: Blocks) returns (out: seq<Block>)
      requires FromDag(dag, held, suspended) && b.ref in dag && dag[b.ref] == b && b.ref.round != GENESIS_ROUND
      requires Mirrored(suspended, missingAncestors) && Entries(suspended) && Covered(suspended, base, gcRound)
      requires b.ref !in suspended && b.ref in base
      modifies this`suspended, this`missingAncestors
      ensures AllWithin(dag, [b] + out) && AllWithin(dag, out) && FromDag(dag, held, suspended)
      ensures forall x :: x in [b] + out ==> x.ref.round != GENESIS_ROUND
      ensures forall x :: x in out ==> x.ref.round != GENESIS_ROUND
      ensures Mirrored(suspended, missingAncestors) && InFlight(old(suspended), suspended, base, gcRound, out)
      ensures missingAncestors.Keys == old(missingAncestors.Keys) - {b.ref} - Refs(out)
    {
      ghost var w0 := suspended;
      out := TryUnsuspendChildren(b.ref, base);
      ReleasedFromDag(dag, held, w0, suspended, b, out);
      ReleasedIsWithin(dag, b, out);
    }

    /** One turn of the loop over received blocks. */
    method AcceptOne(b: Block, ghost dag: Blocks) returns (accepted: seq<Block>, toFetch: set<BlockRef>)
      requires Sound(dag, {}) && b.ref in dag && dag[b.ref] == b && Older(b) && b.ref.round != GENESIS_ROUND
      modifies this`held, this`dropped, this`suspended, this`missingAncestors, this`missingBlocks
      ensures Sound(dag, {})
      ensures held == StoreAll(old(held), own, accepted) && Known() == old(Known()) + Refs(accepted)
      ensures Causal(old(Known()), gcRound, accepted)
      ensures Grown(old(Received()), Received(), b.ref, old(|suspended|) < limit && b.ref.round > gcRound)
      ensures |suspended| <= old(|suspended|) + 1
      ensures old(|suspended|) >= limit ==> accepted == [] && |suspended| >= limit
      ensures toFetch == Fetches(old(held.Keys), old(suspended.Keys), gcRound, b, old(|suspended|) < limit)
      ensures Widened(old(missingAncestors.Keys), missingAncestors.Keys, MissingIn(old(held.Keys), gcRound, b.ancestors))
      ensures Widened(old(missingBlocks), missingBlocks, toFetch)
    {
      var connected;
      connected, toFetch := TryConnect(b, dag);
      if connected {
        accepted := Connect(b, dag);
      } else {
        accepted := [];
        NothingAccepted(Known(), gcRound);
      }
    }

    /** The block is ready to be stored, or has been dealt with. */
    method TryConnect(b: Block, ghost dag: Blocks) returns (connected: bool, toFetch: set<BlockRef>)
      requires Sound(dag, {}) && b.ref in dag && dag[b.ref] == b && Older(b)
      modifies this`suspended, this`missingAncestors, this`missingBlocks
      ensures FromDag(dag, held, suspended) && |suspended| <= old(|suspended|) + 1
      ensures Widened(old(missingAncestors.Keys), missingAncestors.Keys, MissingIn(held.Keys, gcRound, b.ancestors))
      ensures Widened(old(missingBlocks), missingBlocks, toFetch)
      ensures toFetch == Fetches(held.Keys, old(suspended.Keys), gcRound, b, old(|suspended|) < limit)
      ensures old(|suspended|) >= limit ==> !connected
      ensures connected ==>
        && suspended == old(suspended) && HasAncestors(Known(), gcRound, b) && b.ref.round > gcRound
        && TablesBut(held.Keys, Known(), suspended, missingAncestors, missingBlocks, gcRound, b.ref)
      ensures !connected ==>
        && Sound(dag, {}) && |suspended| >= old(|suspended|)
        && Grown(old(Received()), Received(), b.ref, old(|suspended|) < limit && b.ref.round > gcRound)
    {
      ghost var w := suspended;
      var result := TryAcceptOneBlock(b);
      connected, toFetch := result == Connected, result.ToFetch();
      if result.Suspend? {
        SuspendedWithin(dag, held, w, b, MissingIn(held.Keys, gcRound, b.ancestors));
        EnteredOnce(w, b.ref, suspended[b.ref]);
      }
    }

    /** One turn, with what the turns before it accepted. */
    method AcceptNext(b: Block, accepted: seq<Block>, ghost done: seq<Block>, ghost before: Batch, ghost dag: Blocks)
        returns (accepted': seq<Block>, toFetch: set<BlockRef>)
      requires Sound(dag, {}) && b.ref in dag && dag[b.ref] == b && Older(b) && b.ref.round != GENESIS_ROUND
      requires before.Reached(held, Known(), Received(), accepted, done) && before.gcRound == gcRound && before.own == own
      requires (before.room ==> |suspended| < limit) && (before.full ==> |suspended| >= limit)
      modifies this`held, this`dropped, this`suspended, this`missingAncestors, this`missingBlocks
      ensures Sound(dag, {}) && before.Reached(held, Known(), Received(), accepted', done + [b])
      ensures |suspended| <= old(|suspended|) + 1
      ensures old(|suspended|) >= limit ==> |suspended| >= limit
      ensures old(Received()) <= Received() <= old(Received()) + {b.ref}
      ensures toFetch == Fetches(old(held.Keys), old(suspended.Keys), gcRound, b, old(|suspended|) < limit)
      ensures Widened(old(missingAncestors.Keys), missingAncestors.Keys, MissingIn(old(held.Keys), gcRound, b.ancestors))
      ensures Widened(old(missingBlocks), missingBlocks, toFetch)
    {
      ghost var held0, known0, received0 := held, Known(), Received();
      ghost var taken := |suspended| < limit && b.ref.round > gcRound;
      var more;
      more, toFetch := AcceptOne(b, dag);
      accepted' := accepted + more;
      before.Step(held0, known0, received0, accepted, done, b, held, Known(), Received(), more, taken);
    }

    /** After the first n blocks of a sorted batch. */
    ghost predicate InBatch(before: Batch, dag: Blocks, sorted: seq<Block>, n: nat, accepted: seq<Block>, missing: set<BlockRef>)
      requires n <= |sorted|
      reads this
    {
      && Sound(dag, {}) && before.gcRound == gcRound && before.own == own
      && before.Reached(held, Known(), Received(), accepted, sorted[..n])
      && Sought(missing, before.held.Keys, sorted)
      && (before.room ==> |suspended| + |sorted| - n <= limit)
      && (before.full ==> |suspended| >= limit && missing == {})
      && (before.settled ==> Settled(missingAncestors, gcRound))
      && Widened(before.wanted, missingBlocks, missing)
    }

    /** With room, and one own block a round, what is reported missing is exactly what is. */
    ghost predicate Reported(before: Batch, dag: Blocks, sorted: seq<Block>, n: nat, missing: set<BlockRef>)
      requires n <= |sorted|
      reads this
    {
      before.room && OwnOnce(dag, own) ==> MissingIs(sorted, n, before.received, Received(), gcRound, missing)
    }

    lemma WithRoom(before: Batch, dag: Blocks, sorted: seq<Block>, n: nat, accepted: seq<Block>, missing: set<BlockRef>)
      requires n < |sorted| && InBatch(before, dag, sorted, n, accepted, missing)
      ensures before.received <= Received() <= before.received + Refs(sorted[..n])
      ensures before.room ==> |suspended| < limit
      ensures OwnOnce(dag, own) ==> Received() == held.Keys + suspended.Keys
    {
    }

    /** One turn, with what is reported. */
    method AcceptReported(sorted: seq<Block>, n: nat, accepted: seq<Block>, missing: set<BlockRef>, ghost before: Batch, ghost dag: Blocks)
        returns (accepted': seq<Block>, missing': set<BlockRef>)
      requires n < |sorted| && Named(dag) && AllWithin(dag, sorted) && Rising(sorted)
      requires sorted[n].ref.round != GENESIS_ROUND && InBatch(before, dag, sorted, n, accepted, missing)
      requires Reported(before, dag, sorted, n, missing)
      requires before.settled ==> GenesisKnown(before.held.Keys, sorted[n])
      modifies this`held, this`dropped, this`suspended, this`missingAncestors, this`missingBlocks
      ensures InBatch(before, dag, sorted, n + 1, accepted', missing') && Reported(before, dag, sorted, n + 1, missing')
    {
      assert sorted[n] in sorted;
      ghost var held0, waiting0, received0 := held.Keys, suspended.Keys, Received();
      ghost var exact := before.room && OwnOnce(dag, own);
      WithRoom(before, dag, sorted, n, accepted, missing);
      accepted', missing' := AcceptNth(sorted, n, accepted, missing, before, dag);
      if exact {
        FetchedIsMissing(dag, sorted, n, before.received, held0, waiting0, received0, Received(), gcRound, missing, missing');
      }
    }

    method AcceptNth(sorted: seq<Block>, n: nat, accepted: seq<Block>, missing: set<BlockRef>, ghost before: Batch, ghost dag: Blocks)
        returns (accepted': seq<Block>, missing': set<BlockRef>)
      requires n < |sorted| && sorted[n].ref in dag && dag[sorted[n].ref] == sorted[n] && Older(sorted[n])
      requires sorted[n].ref.round != GENESIS_ROUND && InBatch(before, dag, sorted, n, accepted, missing)
      requires before.settled ==> GenesisKnown(before.held.Keys, sorted[n])
      modifies this`held, this`dropped, this`suspended, this`missingAncestors, this`missingBlocks
      ensures InBatch(before, dag, sorted, n + 1, accepted', missing')
      ensures missing' == missing + Fetches(old(held.Keys), old(suspended.Keys), gcRound, sorted[n], old(|suspended|) < limit)
      ensures old(Received()) <= Received() <= old(Received()) + {sorted[n].ref}
    {
      PrefixGrows(sorted, n);
      StoreAllBounds(before.held, own, accepted);
      ghost var held0, keys0, waiting0, room := held.Keys, missingAncestors, suspended.Keys, |suspended| < limit;
      var toFetch;
      accepted', toFetch := AcceptNext(sorted[n], accepted, sorted[..n], before, dag);
      if before.settled {
        StaysSettled(keys0, missingAncestors, before.held.Keys, held0, gcRound, sorted[n]);
      }
      FetchedIsSought(before.held.Keys, held0, waiting0, gcRound, sorted, n, room, missing, toFetch);
      missing' := missing + toFetch;
    }

    method AcceptSorted(sorted: seq<Block>, ghost before: Batch, ghost dag: Blocks) returns (accepted: seq<Block>, missing: set<BlockRef>)
      requires Named(dag) && Rising(sorted) && InBatch(before, dag, sorted, 0, [], {}) && Reported(before, dag, sorted, 0, {})
      requires AllWithin(dag, sorted) && forall b :: b in sorted ==> b.ref.round != GENESIS_ROUND
      requires before.settled ==> AllGenesisKnown(before.held.Keys, sorted)
      modifies this`held, this`dropped, this`suspended, this`missingAncestors, this`missingBlocks
      ensures InBatch(before, dag, sorted, |sorted|, accepted, missing) && Reported(before, dag, sorted, |sorted|, missing)
    {
      accepted, missing := [], {};
      for i := 0 to |sorted|
        invariant InBatch(before, dag, sorted, i, accepted, missing) && Reported(before, dag, sorted, i, missing)
      {
        assert sorted[i] in sorted;
        accepted, missing := AcceptReported(sorted, i, accepted, missing, before, dag);
      }
    }

    method AcceptAll(sorted: seq<Block>, ghost before: Batch, ghost dag: Blocks) returns (accepted: seq<Block>, missing: set<BlockRef>)
      requires Named(dag) && Sound(dag, {}) && Rising(sorted)
      requires AllWithin(dag, sorted) && forall b :: b in sorted ==> b.ref.round != GENESIS_ROUND
      requires before == Batch(own, held, Known(), Received(), missingBlocks, gcRound, |suspended| + |sorted| <= limit,
                               |suspended| >= limit, Settled(missingAncestors, gcRound) && AllGenesisKnown(held.Keys, sorted))
      modifies this`held, this`dropped, this`suspended, this`missingAncestors, this`missingBlocks
      ensures Sound(dag, {}) && before.Reached(held, Known(), Received(), accepted, sorted)
      ensures Sought(missing, before.held.Keys, sorted) && (before.full ==> missing == {})
      ensures before.settled ==> Settled(missingAncestors, gcRound)
      ensures Widened(before.wanted, missingBlocks, missing) && Reported(before, dag, sorted, |sorted|, missing)
    {
      Begin(sorted, before, dag);
      accepted, missing := AcceptSorted(sorted, before, dag);
      assert sorted[..|sorted|] == sorted;
    }

    lemma Begin(sorted: seq<Block>, before: Batch, dag: Blocks)
      requires Sound(dag, {})
      requires before == Batch(own, held, Known(), Received(), missingBlocks, gcRound, |suspended| + |sorted| <= limit,
                               |suspended| >= limit, Settled(missingAncestors, gcRound) && AllGenesisKnown(held.Keys, sorted))
      ensures InBatch(before, dag, sorted, 0, [], {}) && Reported(before, dag, sorted, 0, {})
    {
      before.Started();
      assert sorted[..0] == [];
    }

    /** Takes in a batch, lowest rounds first.  What is returned as accepted is in causal order. */
    method TryAcceptBlocks(blocks: seq<Block>, ghost dag: Blocks) returns (accepted: seq<Block>, missing: set<BlockRef>)
      requires Named(dag) && Sound(dag, {}) && AllWithin(dag, blocks) && forall b :: b in blocks ==> b.ref.round != GENESIS_ROUND
      modifies this`held, this`dropped, this`suspended, this`missingAncestors, this`missingBlocks
      ensures Sound(dag, {})
      ensures held == StoreAll(old(held), own, accepted) && Known() == old(Known()) + Refs(accepted)
      ensures Causal(old(Known()), gcRound, accepted)
      ensures old(Received()) <= Received() <= old(Received()) + Refs(blocks)
      ensures old(|suspended|) + |blocks| <= limit ==> forall b :: b in blocks && b.ref.round > gcRound ==> b.ref in Received()
      ensures old(|suspended|) >= limit ==> accepted == [] && missing == {} && Received() == old(Received())
      ensures Sought(missing, old(held.Keys), blocks) && Widened(old(missingBlocks), missingBlocks, missing)
      ensures old(|suspended|) + |blocks| <= limit && OwnOnce(dag, own) ==>
        forall a :: a in missing <==> a !in Received() && exists b :: b in blocks && Lacks(b, old(Received()), gcRound, a)
      ensures old(Valid(dag)) && AllGenesisKnown(old(held.Keys), blocks) ==> Valid(dag)
    {
      var sorted := SortByRound(blocks);
      SortByRoundKeeps(blocks);
      SortByRoundSorts(blocks);
      ghost var before := Batch(own, held, Known(), Received(), missingBlocks, gcRound, |suspended| + |sorted| <= limit,
                                |suspended| >= limit, Settled(missingAncestors, gcRound) && AllGenesisKnown(held.Keys, sorted));
      accepted, missing := AcceptAll(sorted, before, dag);
      before.Finished(held, Known(), Received(), accepted, blocks, sorted);
      if before.room && OwnOnce(dag, own) {
        MissingOfBatch(sorted, blocks, before.received, Received(), gcRound, missing);
      }
    }

    /** Gives up on the missing block k, which fell to the garbage-collection round.  The source
        panics if k is itself suspended. */
    method GiveUp(k: BlockRef, ghost dag: Blocks)
      requires Sound(dag, {}) && k in missingAncestors && k.round <= gcRound
      requires forall a :: a in missingAncestors ==> k.round <= a.round
      modifies this`held, this`dropped, this`suspended, this`missingAncestors, this`missingBlocks
      ensures Sound(dag, {}) && missingAncestors.Keys <= old(missingAncestors.Keys) - {k}
      ensures old(held.Keys) <= held.Keys && Received() == old(Received())
    {
      LowestIsNotSuspended(suspended, missingAncestors, k);
      assert k !in suspended;
      missingBlocks := missingBlocks - {k};
      GivenUpFits(held.Keys, Known(), suspended, missingAncestors, missingBlocks + {k}, gcRound, k);
      ReleaseWithout(k, dag);
    }

    method ReleaseWithout(k: BlockRef, ghost dag: Blocks)
      requires FromDag(dag, held, suspended) && ClosedSave(held, Known(), gcRound, {}) && (OwnOnce(dag, own) ==> dropped == {})
      requires TablesBut(held.Keys, Known(), suspended, missingAncestors, missingBlocks, gcRound, k) && k.round <= gcRound && k !in held
      modifies this`held, this`dropped, this`suspended, this`missingAncestors
      ensures Sound(dag, {}) && missingAncestors.Keys <= old(missingAncestors.Keys) - {k}
      ensures old(held.Keys) <= held.Keys && Received() == old(Received())
    {
      ghost var w0, ch0, held0, known0 := suspended, missingAncestors, held, Known();
      var out := TryUnsuspendChildren(k, Known() + {k});
      ReleasedInDag(dag, held, w0, suspended, k, out);
      AcceptKnown(out, dag);
      NotReleased(w0, suspended, out, k);
      TablesAfter(held0.Keys, known0, held.Keys, Known(), w0, suspended, ch0, missingAncestors, missingBlocks, gcRound, k, out);
      ClosedAfter(dag, held0, known0, held, Known(), gcRound, {}, k, out);
      ReleasedStayReceived(known0, Known(), w0, suspended, out);
    }

    /** Stops waiting for whatever fell to the garbage-collection round, lowest rounds first. */
    method TryUnsuspendForLatestGc(ghost dag: Blocks)
      requires Sound(dag, {})
      modifies this`held, this`dropped, this`suspended, this`missingAncestors, this`missingBlocks
      ensures Valid(dag)
      ensures old(held.Keys) <= held.Keys && Received() == old(Received())
    {
      while missingAncestors != map[]
        invariant Sound(dag, {}) && old(held.Keys) <= held.Keys && Received() == old(Received())
        decreases |missingAncestors.Keys|
      {
        var k := LowestKey(missingAncestors.Keys);
        if k.round > gcRound {
          return;
        }
        ghost var keys := missingAncestors.Keys;
        GiveUp(k, dag);
        SubsetSize(missingAncestors.Keys, keys - {k});
      }
    }

    /** Looks references up; those that are new above the garbage-collection round are to be fetched. */
    method TryFindBlocks(refs: seq<BlockRef>, ghost dag: Blocks) returns (missing: set<BlockRef>)
      requires Sound(dag, {})
      modifies this`missingAncestors, this`missingBlocks
      ensures Sound(dag, {}) && missingBlocks == old(missingBlocks) + missing
      ensures forall r :: r in missing <==> r in refs && r.round > gcRound && r !in held && r !in suspended
      ensures old(Valid(dag)) ==> Valid(dag)
    {
      missing := {};
      for i := 0 to |refs|
        invariant Sound(dag, {}) && missingBlocks == old(missingBlocks) + missing
        invariant old(Settled(missingAncestors, gcRound)) ==> Settled(missingAncestors, gcRound)
        invariant forall r :: r in missing <==> r in refs[..i] && r.round > gcRound && r !in held && r !in suspended
      {
        var r := refs[i];
        assert refs[..i + 1] == refs[..i] + [r];
        if r.round > gcRound && r !in held && r !in suspended {
          missing := missing + {r};
          if r !in missingBlocks {
            WantedIsNoted(held.Keys, Known(), suspended, missingAncestors, missingBlocks, gcRound, r);
            missingBlocks := missingBlocks + {r};
            missingAncestors := missingAncestors[r := {}];
          }
        }
      }
      assert refs[..|refs|] == refs;
    }

    /** Takes a suspended block out of both tables. */
    method Forget(r: BlockRef)
      requires Mirrored(suspended, missingAncestors)
      modifies this`suspended, this`missingAncestors
      ensures suspended == old(suspended) - {r} && missingAncestors.Keys == old(missingAncestors.Keys)
      ensures Mirrored(suspended, missingAncestors)
    {
      if r in suspended {
        ghost var w, ch := suspended, missingAncestors;
        var todo := suspended[r].missing;
        suspended := suspended - {r};
        while todo != {}
          invariant suspended == w - {r} && missingAncestors.Keys == ch.Keys && todo <= w[r].missing
          invariant Forgotten(ch, missingAncestors, r, w[r].missing - todo)
          decreases todo
        {
          var a :| a in todo;
          if a in missingAncestors {
            missingAncestors := missingAncestors[a := missingAncestors[a] - {r}];
          }
          todo := todo - {a};
        }
        ForgottenMirrors(w, ch, missingAncestors, r);
      } else {
        assert suspended - {r} == suspended;
      }
    }

    /** Takes in a block that a certified commit vouches for, without looking at its ancestors: of all
        stored blocks it alone may lack some. */
    method AcceptCommitted(b: Block, ghost loose: set<BlockRef>, ghost dag: Blocks) returns (accepted: seq<Block>)
      requires Sound(dag, loose) && b.ref in dag && dag[b.ref] == b && b.ref.round != GENESIS_ROUND
      modifies this`held, this`dropped, this`suspended, this`missingAncestors, this`missingBlocks
      ensures Sound(dag, loose + {b.ref}) && b.ref in Known() && missingAncestors.Keys <= old(missingAncestors.Keys)
      ensures b.ref in old(held) ==> accepted == [] && unchanged(this)
      ensures b.ref !in old(held) ==> b.ref in Refs(accepted)
      ensures held == StoreAll(old(held), own, accepted) && Known() == old(Known()) + Refs(accepted)
    {
      if b.ref in held {
        NothingAccepted(Known(), gcRound);
        return [];
      }
      ghost var w := suspended;
      missingBlocks := missingBlocks - {b.ref};
      Forget(b.ref);
      ForgottenFits(held.Keys, Known(), w, suspended, missingAncestors, missingBlocks, gcRound, b.ref);
      accepted := StoreCommitted(b, loose, dag);
    }

    method StoreCommitted(b: Block, ghost loose: set<BlockRef>, ghost dag: Blocks) returns (accepted: seq<Block>)
      requires FromDag(dag, held, suspended) && ClosedSave(held, Known(), gcRound, loose) && (OwnOnce(dag, own) ==> dropped == {})
      requires b.ref in dag && dag[b.ref] == b && b.ref.round != GENESIS_ROUND
      requires TablesBut(held.Keys, Known(), suspended, missingAncestors, missingBlocks, gcRound, b.ref)
      modifies this`held, this`dropped, this`suspended, this`missingAncestors
      ensures Sound(dag, loose + {b.ref}) && b.ref in Refs(accepted) && missingAncestors.Keys <= old(missingAncestors.Keys)
      ensures held == StoreAll(old(held), own, accepted) && Known() == old(Known()) + Refs(accepted)
    {
      ghost var w0, ch0, held0, known0 := suspended, missingAncestors, held, Known();
      var out := StoreThenRelease(b, dag);
      accepted := [b] + out;
      TablesAfter(held0.Keys, known0, held.Keys, Known(), w0, suspended, ch0, missingAncestors, missingBlocks, gcRound, b.ref, out);
      ReleasedIsWithin(dag, b, out);
      ClosedAfter(dag, held0, known0, held, Known(), gcRound, loose + {b.ref}, b.ref, out);
    }

    method StoreThenRelease(b: Block, ghost dag: Blocks) returns (out: seq<Block>)
      requires FromDag(dag, held, suspended) && b.ref in dag && dag[b.ref] == b && b.ref.round != GENESIS_ROUND && b.ref !in suspended
      requires Mirrored(suspended, missingAncestors) && Entries(suspended) && Covered(suspended, Known() + {b.ref}, gcRound)
      modifies this`held, this`dropped, this`suspended, this`missingAncestors
      ensures held == StoreAll(old(held), own, [b] + out) && held.Keys <= old(held.Keys) + Refs(out) + {b.ref}
      ensures Known() == old(Known()) + Refs([b] + out) == old(Known()) + Refs(out) + {b.ref} && b.ref in Refs([b] + out)
      ensures OwnOnce(dag, own) ==> dropped == old(dropped)
      ensures AllWithin(dag, [b] + out) && FromDag(dag, held, suspended)
      ensures Mirrored(suspended, missingAncestors) && InFlight(old(suspended), suspended, old(Known()) + {b.ref}, gcRound, out)
      ensures missingAncestors.Keys == old(missingAncestors.Keys) - {b.ref} - Refs(out)
    {
      ghost var held0, known0 := held, Known();
      RefsOne(b);
      AcceptKnown([b], dag);
      out := ReleaseBehind(b, known0 + {b.ref}, dag);
      RefsPrepend(b, out);
      StoreAllConcat(held0, own, [b], out);
      AcceptKnown(out, dag);
    }

    /** Takes in the blocks of certified commits, lowest rounds first.  The store stays complete
        exactly when the stored blocks of the batch have their ancestors. */
    method TryAcceptCommittedBlocks(blocks: seq<Block>, ghost dag: Blocks) returns (accepted: seq<Block>)
      requires Sound(dag, {}) && AllWithin(dag, blocks) && forall b :: b in blocks ==> b.ref.round != GENESIS_ROUND
      modifies this`held, this`dropped, this`suspended, this`missingAncestors, this`missingBlocks
      ensures Sound(dag, Refs(blocks)) && Refs(blocks) <= Known()
      ensures held == StoreAll(old(held), own, accepted) && Known() == old(Known()) + Refs(accepted)
      ensures Sound(dag, {}) <==> forall b :: b in blocks && b.ref in held ==> HasAncestors(Known(), gcRound, b)
      ensures missingAncestors.Keys <= old(missingAncestors.Keys)
    {
      var sorted := SortByRound(blocks);
      SortByRoundKeeps(blocks);
      accepted := AcceptCommittedInOrder(sorted, dag);
      SameRefs(sorted, blocks);
      LooseEnds(dag, held, Known(), gcRound, blocks);
    }

    method AcceptCommittedInOrder(sorted: seq<Block>, ghost dag: Blocks) returns (accepted: seq<Block>)
      requires Sound(dag, {}) && AllWithin(dag, sorted) && forall b :: b in sorted ==> b.ref.round != GENESIS_ROUND
      modifies this`held, this`dropped, this`suspended, this`missingAncestors, this`missingBlocks
      ensures Sound(dag, Refs(sorted)) && Refs(sorted) <= Known() && missingAncestors.Keys <= old(missingAncestors.Keys)
      ensures held == StoreAll(old(held), own, accepted) && Known() == old(Known()) + Refs(accepted)
    {
      accepted := [];
      NothingAccepted(Known(), gcRound);
      ghost var held0 := held;
      for i := 0 to |sorted|
        invariant Sound(dag, Refs(sorted[..i])) && Refs(sorted[..i]) <= Known() && missingAncestors.Keys <= old(missingAncestors.Keys)
        invariant held == StoreAll(held0, own, accepted) && Known() == old(Known()) + Refs(accepted)
      {
        assert sorted[i] in sorted;
        PrefixGrows(sorted, i);
        RefsAppend(sorted[..i], sorted[i]);
        var more := AcceptCommitted(sorted[i], Refs(sorted[..i]), dag);
        StoreAllConcat(held0, own, accepted, more);
        RefsConcat(accepted, more);
        accepted := accepted + more;
      }
      assert sorted[..|sorted|] == sorted;
    }
  }

  // ---------------------------------------------------------------------------
  // Turns
  // ---------------------------------------------------------------------------

  /** What is new in a set comes from `more`. */
  ghost predicate Widened(before: set<BlockRef>, after: set<BlockRef>, more: set<BlockRef>) {
    forall a :: a in after ==> a in before || a in more
  }

  /** The set grew by x if x is taken, and not otherwise. */
  ghost predicate Grown(before: set<BlockRef>, after: set<BlockRef>, x: BlockRef, taken: bool) {
    before <= after <= before + {x} && (x in after <==> x in before || taken)
  }

  /** Verification lets only known genesis blocks through as ancestors. */
  ghost predicate AllGenesisKnown(genesis: set<BlockRef>, blocks: seq<Block>) {
    forall b :: b in blocks ==> GenesisKnown(genesis, b)
  }

  /** Of a block with known genesis ancestors only ancestors above the garbage-collection round can
      be missing. */
  lemma StaysSettled(ch: Children, ch': Children, genesis: set<BlockRef>, held: set<BlockRef>, gcRound: Round, b: Block)
    requires Settled(ch, gcRound) && Widened(ch.Keys, ch'.Keys, MissingIn(held, gcRound, b.ancestors))
    requires genesis <= held && GenesisKnown(genesis, b)
    ensures Settled(ch', gcRound)
  {
    forall a | a in ch' ensures a.round > gcRound {
      if a !in ch {
        MissingExactly(held, gcRound, b.ancestors, a);
      }
    }
  }

  lemma EnteredOnce(w: Waiting, r: BlockRef, e: Suspended)
    requires r !in w
    ensures |w[r := e]| == |w| + 1
  {
    assert w[r := e].Keys == w.Keys + {r};
  }

  lemma SuspendedWithin(dag: Blocks, held: Blocks, w: Waiting, b: Block, missing: set<BlockRef>)
    requires FromDag(dag, held, w) && b.ref in dag && dag[b.ref] == b
    ensures FromDag(dag, held, w[b.ref := Suspended(b, missing)])
  {
  }

  lemma NothingAccepted(known: set<BlockRef>, gcRound: Round)
    ensures known + Refs([]) == known && Causal(known, gcRound, [])
  {
  }

  lemma GcAdvances(held: Blocks, known: set<BlockRef>, w: Waiting, before: Round, after: Round, loose: set<BlockRef>)
    requires before <= after && ClosedSave(held, known, before, loose) && Covered(w, known, before)
    requires forall r :: r in loose && r in held ==> HasAncestors(known, after, held[r])
    ensures ClosedSave(held, known, after, {}) && Covered(w, known, after)
  {
    forall r | r in w ensures HasAncestors(known + w[r].missing, after, w[r].block) {
      assert HasAncestors(known + w[r].missing, before, w[r].block);
    }
  }

  /** Released blocks and blocks still waiting come from where the suspended ones came from. */
  lemma ReleasedFromDag(dag: Blocks, held: Blocks, w0: Waiting, w: Waiting, b: Block, out: seq<Block>)
    requires FromDag(dag, held, w0) && Divided(w0, w, out) && b.ref in dag && dag[b.ref] == b && b.ref.round != GENESIS_ROUND
    requires forall x :: x in Refs(out) ==> x.round > b.ref.round
    ensures AllWithin(dag, [b] + out) && FromDag(dag, held, w)
    ensures forall x :: x in [b] + out ==> x.ref.round != GENESIS_ROUND
  {
    forall x | x in out ensures x.ref.round != GENESIS_ROUND {
      RefsOf(out, x.ref);
    }
  }

  /** What is known grows by the batch, what is held by part of it, and by all of it when the
      validator makes one block a round. */
  lemma StoredFacts(dag: Blocks, own: Authority, held: Blocks, dropped: set<BlockRef>, blocks: seq<Block>)
    requires Within(dag, held) && AllWithin(dag, blocks)
    ensures var held' := StoreAll(held, own, blocks);
      && Within(dag, held') && held.Keys <= held'.Keys <= held.Keys + Refs(blocks)
      && held'.Keys + (dropped + (Refs(blocks) - held'.Keys)) == held.Keys + dropped + Refs(blocks)
      && (OwnOnce(dag, own) ==> Refs(blocks) - held'.Keys == {})
  {
    StoreAllBounds(held, own, blocks);
    StoreAllValues(dag, own, held, blocks);
    if OwnOnce(dag, own) {
      StoresEverything(dag, own, held, blocks);
    }
  }

  lemma ConnectCloses(dag: Blocks, held: Blocks, known: set<BlockRef>, held': Blocks, known': set<BlockRef>, gcRound: Round, b: Block, out: seq<Block>)
    requires Within(dag, held) && Within(dag, held') && AllWithin(dag, [b] + out) && b.ref in dag && dag[b.ref] == b
    requires Causal(known + {b.ref}, gcRound, out)
    requires held'.Keys <= held.Keys + Refs(out) + {b.ref} && known' == known + Refs(out) + {b.ref}
    requires ClosedSave(held, known, gcRound, {}) && HasAncestors(known, gcRound, b)
    ensures ClosedSave(held', known', gcRound, {}) && Causal(known, gcRound, [b] + out)
  {
    forall x | x in out ensures x in [b] + out {
    }
    ClosedAfter(dag, held, known, held', known', gcRound, {}, b.ref, out);
    CausalPrepend(known, gcRound, b, out);
  }

  lemma ConnectMoves(known: set<BlockRef>, known': set<BlockRef>, w0: Waiting, w: Waiting, b: Block, out: seq<Block>)
    requires Divided(w0, w, out) && known' == known + Refs(out) + {b.ref}
    ensures known' + w.Keys == known + w0.Keys + {b.ref} && |w| <= |w0|
  {
    MovedBetween(known, known', w0.Keys, w.Keys, Refs(out), b.ref);
    assert |w| == |w.Keys| && |w0| == |w0.Keys|;
  }

  lemma MovedBetween(known: set<BlockRef>, known': set<BlockRef>, w0: set<BlockRef>, w: set<BlockRef>, moved: set<BlockRef>, x: BlockRef)
    requires w0 == w + moved && known' == known + moved + {x}
    ensures known' + w == known + w0 + {x} && |w| <= |w0|
  {
    SubsetSize(w, w0);
  }

  lemma ReleasedStayReceived(known: set<BlockRef>, known': set<BlockRef>, w0: Waiting, w: Waiting, out: seq<Block>)
    requires Divided(w0, w, out) && known' == known + Refs(out)
    ensures known' + w.Keys == known + w0.Keys
  {
  }

  lemma NotReleased(w0: Waiting, w: Waiting, out: seq<Block>, k: BlockRef)
    requires Divided(w0, w, out) && k !in w0
    ensures k !in Refs(out)
  {
  }

  lemma RefsOne(b: Block)
    ensures Refs([b]) == {b.ref}
  {
    RefsPrepend(b, []);
    assert [b] + [] == [b];
  }

  lemma ReleasedIsWithin(dag: Blocks, b: Block, out: seq<Block>)
    requires AllWithin(dag, [b] + out)
    ensures AllWithin(dag, out) && forall x :: x in out ==> x in [b] + out
  {
    forall x | x in out ensures x in [b] + out {
    }
  }

  lemma SameRefs(blocks: seq<Block>, blocks': seq<Block>)
    requires forall x :: x in blocks <==> x in blocks'
    ensures Refs(blocks) == Refs(blocks')
  {
    forall r ensures r in Refs(blocks) <==> r in Refs(blocks') {
      RefsOf(blocks, r);
      RefsOf(blocks', r);
    }
  }

  lemma LooseEnds(dag: Blocks, held: Blocks, known: set<BlockRef>, gcRound: Round, blocks: seq<Block>)
    requires Within(dag, held) && AllWithin(dag, blocks) && ClosedSave(held, known, gcRound, Refs(blocks))
    ensures ClosedSave(held, known, gcRound, {}) <==> forall b :: b in blocks && b.ref in held ==> HasAncestors(known, gcRound, b)
  {
    if forall b :: b in blocks && b.ref in held ==> HasAncestors(known, gcRound, b) {
      forall r, a | r in held && a in held[r].ancestors && a.round > gcRound ensures a in known {
        if r in Refs(blocks) {
          RefsOf(blocks, r);
        }
      }
    }
  }

  /** Everything reported missing is an ancestor of the batch that was not stored. */
  ghost predicate Sought(missing: set<BlockRef>, held: set<BlockRef>, blocks: seq<Block>) {
    forall a :: a in missing ==> a !in held && exists b :: b in blocks && a in b.ancestors
  }

  lemma SoughtMore(missing: set<BlockRef>, more: set<BlockRef>, held: set<BlockRef>, blocks: seq<Block>, i: nat)
    requires Sought(missing, held, blocks) && i < |blocks|
    requires forall a :: a in more ==> a in blocks[i].ancestors && a !in held
    ensures Sought(missing + more, held, blocks) && (more == {} ==> missing + more == missing)
  {
  }

  lemma FetchedIsSought(before: set<BlockRef>, held: set<BlockRef>, waiting: set<BlockRef>, gcRound: Round, batch: seq<Block>, n: nat,
                        room: bool, missing: set<BlockRef>, toFetch: set<BlockRef>)
    requires n < |batch| && before <= held && Sought(missing, before, batch) && toFetch == Fetches(held, waiting, gcRound, batch[n], room)
    ensures Sought(missing + toFetch, before, batch) && (!room ==> missing + toFetch == missing)
  {
    forall a | a in toFetch ensures a in batch[n].ancestors && a !in before {
      FetchesExactly(held, waiting, gcRound, batch[n], room, a);
    }
    SoughtMore(missing, toFetch, before, batch, n);
  }

  lemma FetchedIsMissing(dag: Blocks, batch: seq<Block>, n: nat, before: set<BlockRef>, held: set<BlockRef>, waiting: set<BlockRef>,
                         received: set<BlockRef>, received': set<BlockRef>, gcRound: Round, missing: set<BlockRef>, missing': set<BlockRef>)
    requires n < |batch| && Named(dag) && AllWithin(dag, batch) && Rising(batch)
    requires MissingIs(batch, n, before, received, gcRound, missing) && received == held + waiting
    requires before <= received <= before + Refs(batch[..n]) && received <= received' <= received + {batch[n].ref}
    requires missing' == missing + Fetches(held, waiting, gcRound, batch[n], true)
    ensures MissingIs(batch, n + 1, before, received', gcRound, missing')
  {
    var toFetch := Fetches(held, waiting, gcRound, batch[n], true);
    forall i | 0 <= i <= n ensures batch[i].ref in dag && dag[batch[i].ref] == batch[i] && Older(batch[i]) {
      assert batch[i] in batch;
    }
    forall a ensures a in toFetch <==> Lacks(batch[n], received, gcRound, a) && a !in received {
      FetchesExactly(held, waiting, gcRound, batch[n], true, a);
    }
    MissingStep(batch, n, before, received, received', gcRound, missing, toFetch);
  }

  lemma MissingOfBatch(sorted: seq<Block>, blocks: seq<Block>, before: set<BlockRef>, received: set<BlockRef>, gcRound: Round, missing: set<BlockRef>)
    requires MissingIs(sorted, |sorted|, before, received, gcRound, missing) && forall b :: b in sorted <==> b in blocks
    ensures forall a :: a in missing <==> a !in received && exists b :: b in blocks && Lacks(b, before, gcRound, a)
  {
    forall a ensures a in missing <==> a !in received && exists b :: b in blocks && Lacks(b, before, gcRound, a) {
      if b :| b in blocks && Lacks(b, before, gcRound, a) {
        var i :| 0 <= i < |sorted| && sorted[i] == b;
      }
    }
  }

  lemma PrefixGrows(blocks: seq<Block>, i: nat)
    requires i < |blocks|
    ensures blocks[..i + 1] == blocks[..i] + [blocks[i]]
  {
  }

  /** Where a batch started, whether there is room for all of it, whether there is none at all, and
      whether nothing below the garbage-collection round is or will be waited for. */
  datatype Batch = Batch(own: Authority, held: Blocks, known: set<BlockRef>, received: set<BlockRef>, wanted: set<BlockRef>,
                         gcRound: Round, room: bool, full: bool, settled: bool) {
    ghost predicate Reached(held': Blocks, known': set<BlockRef>, received': set<BlockRef>, accepted: seq<Block>, done: seq<Block>) {
      && held' == StoreAll(held, own, accepted) && known' == known + Refs(accepted) && Causal(known, gcRound, accepted)
      && received <= received' <= received + Refs(done)
      && (room ==> forall b :: b in done && b.ref.round > gcRound ==> b.ref in received')
      && (full ==> accepted == [] && received' == received)
    }

    lemma Started()
      ensures Reached(held, known, received, [], [])
    {
      NothingAccepted(known, gcRound);
    }

    lemma Step(held0: Blocks, known0: set<BlockRef>, received0: set<BlockRef>, accepted: seq<Block>, done: seq<Block>, b: Block,
               held': Blocks, known': set<BlockRef>, received': set<BlockRef>, more: seq<Block>, taken: bool)
      requires Reached(held0, known0, received0, accepted, done)
      requires held' == StoreAll(held0, own, more) && known' == known0 + Refs(more) && Causal(known0, gcRound, more)
      requires Grown(received0, received', b.ref, taken)
      requires (room && b.ref.round > gcRound ==> taken) && (full ==> more == [] && !taken)
      ensures Reached(held', known', received', accepted + more, done + [b])
    {
      RefsAppend(done, b);
      CausalConcat(known, gcRound, accepted, more);
      StoreAllConcat(held, own, accepted, more);
    }

    lemma Finished(held': Blocks, known': set<BlockRef>, received': set<BlockRef>, accepted: seq<Block>, blocks: seq<Block>, sorted: seq<Block>)
      requires Reached(held', known', received', accepted, sorted) && forall b :: b in sorted <==> b in blocks
      ensures Reached(held', known', received', accepted, blocks)
    {
      SameRefs(sorted, blocks);
    }
  }

  // ---------------------------------------------------------------------------
  // What the manager guarantees
  // ---------------------------------------------------------------------------

  /** Completeness, exactly: the store is causally complete iff no block it refused is an ancestor,
      above the garbage-collection round, of a block it took. */
  lemma CompleteIffNoDroppedParent(m: BlockManager, dag: Blocks)
    requires m.Sound(dag, {})
    ensures ClosedAbove(m.held, m.gcRound) <==>
      forall r, d :: r in m.held && d in m.held[r].ancestors && d.round > m.gcRound ==> d !in m.dropped - m.held.Keys
  {
  }

  /** In particular it is, for a validator that makes one block a round. */
  lemma HonestStoreIsComplete(m: BlockManager, dag: Blocks)
    requires m.Sound(dag, {}) && OwnOnce(dag, m.own)
    ensures ClosedAbove(m.held, m.gcRound) && m.Known() == m.held.Keys
  {
  }

  /** The whole history of r above the garbage-collection round has been received. */
  ghost predicate Complete(dag: Blocks, received: set<BlockRef>, gcRound: Round, r: BlockRef)
    decreases r.round
  {
    r in received && r in dag &&
    forall a :: a in dag[r].ancestors && a.round > gcRound ==> a.round < r.round && Complete(dag, received, gcRound, a)
  }

  /** A received block is stored exactly when its whole history was received. */
  lemma {:induction false} StoredIffComplete(m: BlockManager, dag: Blocks, r: BlockRef)
    requires Named(dag) && OwnOnce(dag, m.own) && m.Valid(dag) && r in m.Received()
    ensures r in m.held <==> Complete(dag, m.Received(), m.gcRound, r)
    decreases r.round
  {
    assert r in dag && Older(dag[r]);
    if r in m.held {
      forall a | a in dag[r].ancestors && a.round > m.gcRound ensures a.round < r.round && Complete(dag, m.Received(), m.gcRound, a) {
        assert a in m.held[r].ancestors;
        StoredIffComplete(m, dag, a);
      }
    } else if Complete(dag, m.Received(), m.gcRound, r) {
      assert EntryOk(r, m.suspended[r]);
      var a :| a in m.suspended[r].missing;
      assert Waits(m.suspended, r, a);
      assert Noted(m.missingAncestors, a, r);
      assert a in dag[r].ancestors && a.round > m.gcRound;
      assert Complete(dag, m.Received(), m.gcRound, a);
      StoredIffComplete(m, dag, a);
      assert false;
    }
  }

  /** A suspended block waits for exactly the ancestors that are not stored. */
  lemma WaitsForTheRest(m: BlockManager, dag: Blocks, r: BlockRef, a: BlockRef)
    requires m.Valid(dag) && m.dropped == {} && r in m.suspended
    ensures a in m.suspended[r].missing <==> a in dag[r].ancestors && a.round > m.gcRound && a !in m.held
  {
    assert EntryOk(r, m.suspended[r]);
    assert Waits(m.suspended, r, a) <==> Noted(m.missingAncestors, a, r);
    assert HasAncestors(m.held.Keys + m.suspended[r].missing, m.gcRound, m.suspended[r].block);
  }

  /** The order of arrival, the batching and the detours leave no trace: validators that received
      the same blocks store the same blocks and suspend the same blocks for the same reasons. */
  lemma ArrivalOrderIrrelevant(m: BlockManager, n: BlockManager, dag: Blocks)
    requires Named(dag) && OwnOnce(dag, m.own) && m.Valid(dag)
    requires OwnOnce(dag, n.own) && n.Valid(dag)
    requires m.Received() == n.Received() && m.gcRound == n.gcRound
    ensures m.held == n.held && m.suspended == n.suspended
  {
    forall r | r in m.Received() ensures r in m.held <==> r in n.held {
      StoredIffComplete(m, dag, r);
      StoredIffComplete(n, dag, r);
    }
    SameHeld(m, n, dag);
    forall r | r in m.suspended ensures r in n.suspended && m.suspended[r] == n.suspended[r] {
      SameEntry(m, n, dag, r);
    }
    assert m.suspended.Keys == n.suspended.Keys;
  }

  lemma SameHeld(m: BlockManager, n: BlockManager, dag: Blocks)
    requires m.Valid(dag) && n.Valid(dag) && m.Received() == n.Received() && m.dropped == {} && n.dropped == {}
    requires forall r :: r in m.Received() ==> (r in m.held <==> r in n.held)
    ensures m.held == n.held && m.suspended.Keys == n.suspended.Keys
  {
    assert m.held.Keys == n.held.Keys;
    assert forall r :: r in m.suspended <==> r in m.Received() && r !in m.held;
    assert forall r :: r in n.suspended <==> r in n.Received() && r !in n.held;
  }

  lemma SameEntry(m: BlockManager, n: BlockManager, dag: Blocks, r: BlockRef)
    requires m.Valid(dag) && m.dropped == {}
    requires n.Valid(dag) && n.dropped == {}
    requires m.held == n.held && m.gcRound == n.gcRound && r in m.suspended && r in n.suspended
    ensures m.suspended[r] == n.suspended[r]
  {
    forall a ensures a in m.suspended[r].missing <==> a in n.suspended[r].missing {
      WaitsForTheRest(m, dag, r, a);
      WaitsForTheRest(n, dag, r, a);
    }
    assert m.suspended[r].missing == n.suspended[r].missing;
  }

  /** What happens to a manager: a batch arrives, references are looked up, or a commit moves the
      garbage-collection round. */
  datatype Event = Arrive(blocks: seq<Block>) | LookUp(refs: seq<BlockRef>) | Collect(round: Round)

  /** Blocks arrive as verification lets them through. */
  ghost predicate Arrives(dag: Blocks, genesis: set<BlockRef>, e: Event) {
    e.Arrive? ==>
      && AllWithin(dag, e.blocks) && (forall b :: b in e.blocks ==> b.ref.round != GENESIS_ROUND)
      && AllGenesisKnown(genesis, e.blocks)
  }

  method Meet(m: BlockManager, e: Event, ghost genesis: set<BlockRef>, ghost dag: Blocks)
    requires Named(dag) && m.Valid(dag) && genesis <= m.held.Keys && Arrives(dag, genesis, e)
    modifies m
    ensures m.Valid(dag) && genesis <= m.held.Keys
  {
    match e
    case Arrive(blocks) =>
      ghost var held := m.held;
      var accepted, _ := m.TryAcceptBlocks(blocks, dag);
      StoreAllBounds(held, m.own, accepted);
    case LookUp(refs) =>
      var _ := m.TryFindBlocks(refs, dag);
    case Collect(round) =>
      if round > m.gcRound {
        m.AdvanceGc(round, {}, dag);
        m.TryUnsuspendForLatestGc(dag);
      }
  }

  method MeetAll(m: BlockManager, events: seq<Event>, ghost genesis: set<BlockRef>, ghost dag: Blocks)
    requires Named(dag) && m.Valid(dag) && genesis <= m.held.Keys
    requires forall i :: 0 <= i < |events| ==> Arrives(dag, genesis, events[i])
    modifies m
    ensures m.Valid(dag)
  {
    for i := 0 to |events|
      invariant m.Valid(dag) && genesis <= m.held.Keys
    {
      Meet(m, events[i], genesis, dag);
    }
  }

  /** Two managers started from genesis and fed with verified blocks in any order and any batches,
      with lookups and garbage collection in between: once they have received the same blocks and
      stand at the same garbage-collection round, they store and suspend the same. */
  method AnyArrivalOrder(genesis: Blocks, own: Authority, limit: nat, events: seq<Event>, own': Authority, limit': nat, events': seq<Event>,
                         ghost dag: Blocks)
      returns (m: BlockManager, m': BlockManager)
    requires Named(dag) && OwnOnce(dag, own) && OwnOnce(dag, own') && Within(dag, genesis)
    requires forall r :: r in genesis ==> genesis[r].ancestors == []
    requires forall i :: 0 <= i < |events| ==> Arrives(dag, genesis.Keys, events[i])
    requires forall i :: 0 <= i < |events'| ==> Arrives(dag, genesis.Keys, events'[i])
    ensures forall r :: r in m.Received() ==> (r in m.held <==> Complete(dag, m.Received(), m.gcRound, r))
    ensures m.Received() == m'.Received() && m.gcRound == m'.gcRound ==> m.held == m'.held && m.suspended == m'.suspended
  {
    m := new BlockManager(own, limit, genesis, dag);
    m' := new BlockManager(own', limit', genesis, dag);
    MeetAll(m, events, genesis.Keys, dag);
    MeetAll(m', events', genesis.Keys, dag);
    forall r | r in m.Received() ensures r in m.held <==> Complete(dag, m.Received(), m.gcRound, r) {
      StoredIffComplete(m, dag, r);
    }
    if m.Received() == m'.Received() && m.gcRound == m'.gcRound {
      ArrivalOrderIrrelevant(m, m', dag);
    }
  }

  lemma FromTolerated(c: Committee, dag: Blocks, faulty: set<Authority>, own: Authority)
    requires Tolerated(c, dag, faulty)
    ensures Named(dag) && (own !in faulty ==> OwnOnce(dag, own))
  {
    forall r | r in dag ensures dag[r].ref == r && Older(dag[r]) {
      if r.round > GENESIS_ROUND {
        assert Admissible(c, dag[r]);
      }
    }
    forall r, s | own !in faulty ensures Suspension.OneOwnBlock(dag, own, r, s) {
      assert OneHonestBlock(dag, faulty, r, s);
    }
  }

  lemma StoredIsWellFormed(c: Committee, dag: Blocks, faulty: set<Authority>, m: BlockManager, loose: set<BlockRef>)
    requires Tolerated(c, dag, faulty) && m.own !in faulty && m.Sound(dag, loose)
    ensures WellFormed(c, m.held) && Within(dag, m.held) && m.Known() == m.held.Keys
  {
    FromTolerated(c, dag, faulty, m.own);
    forall r | r in m.held
      ensures m.held[r].ref == r && (if r.round == GENESIS_ROUND then m.held[r].ancestors == [] else Admissible(c, m.held[r]))
    {
      assert m.held[r] == dag[r];
    }
  }

  /** What an honest validator stores is a view the commit rule may run on. */
  lemma StoredViewIsLocal(c: Committee, dag: Blocks, faulty: set<Authority>, m: BlockManager, lastCommit: Round, highest: Round)
    requires Tolerated(c, dag, faulty) && m.own !in faulty && m.Sound(dag, {}) && forall r :: r in m.held ==> r.round <= highest
    ensures LocalView(c, dag, View(m.held, m.gcRound, lastCommit, highest))
  {
    FromTolerated(c, dag, faulty, m.own);
    HonestStoreIsComplete(m, dag);
    StoredIsWellFormed(c, dag, faulty, m, {});
  }
}
