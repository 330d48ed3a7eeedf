/** Expanding committed leaders into the final order of blocks. */
module Linearizer {
  import opened Committees
  import opened Dag

  // ---------------------------------------------------------------------------
  // Canonical order of a sub-dag
  // ---------------------------------------------------------------------------

  predicate KeyLeq(a: BlockRef, b: BlockRef) {
    a.round < b.round || (a.round == b.round && a.author <= b.author)
  }

  ghost predicate Sorted(s: seq<BlockRef>) {
    forall i, j :: 0 <= i < j < |s| ==> KeyLeq(s[i], s[j])
  }

  /** Places x behind everything that is not greater: equal keys keep their order. */
  function Insert(s: seq<BlockRef>, x: BlockRef): seq<BlockRef> {
    if s == [] then [x]
    else if KeyLeq(s[|s| - 1], x) then s + [x]
    else Insert(s[..|s| - 1], x) + [s[|s| - 1]]
  }

  /** The stable sort by round, then author. */
  function Sort(s: seq<BlockRef>): seq<BlockRef> {
    if s == [] then [] else Insert(Sort(s[..|s| - 1]), s[|s| - 1])
  }

  lemma {:induction false} InsertMembers(s: seq<BlockRef>, x: BlockRef)
    ensures multiset(Insert(s, x)) == multiset(s) + multiset{x}
    ensures forall y :: y in Insert(s, x) ==> y in s || y == x
  {
    if s != [] && !KeyLeq(s[|s| - 1], x) {
      InsertMembers(s[..|s| - 1], x);
      assert s == s[..|s| - 1] + [s[|s| - 1]];
    }
  }

  lemma SortedAppend(s: seq<BlockRef>, x: BlockRef)
    requires Sorted(s) && forall y :: y in s ==> KeyLeq(y, x)
    ensures Sorted(s + [x])
  {
  }

  lemma {:induction false} InsertSorted(s: seq<BlockRef>, x: BlockRef)
    requires Sorted(s)
    ensures Sorted(Insert(s, x))
  {
    if s != [] {
      var front, last := s[..|s| - 1], s[|s| - 1];
      assert forall i :: 0 <= i < |front| ==> KeyLeq(s[i], last);
      if KeyLeq(last, x) {
        SortedAppend(s, x);
      } else {
        InsertSorted(front, x);
        InsertMembers(front, x);
        SortedAppend(Insert(front, x), last);
      }
    }
  }

  lemma {:induction false} SortPermutes(s: seq<BlockRef>)
    ensures multiset(Sort(s)) == multiset(s)
  {
    if s != [] {
      var front, last := s[..|s| - 1], s[|s| - 1];
      SortPermutes(front);
      InsertMembers(Sort(front), last);
      assert s == front + [last];
    }
  }

  lemma {:induction false} SortSorts(s: seq<BlockRef>)
    ensures Sorted(Sort(s))
  {
    if s != [] {
      SortSorts(s[..|s| - 1]);
      InsertSorted(Sort(s[..|s| - 1]), s[|s| - 1]);
    }
  }

  lemma SortKeeps(s: seq<BlockRef>)
    ensures Sorted(Sort(s)) && multiset(Sort(s)) == multiset(s)
    ensures forall x :: x in Sort(s) <==> x in s
    ensures forall i, j :: 0 <= i < j < |Sort(s)| ==>
      Sort(s)[i].round < Sort(s)[j].round || (Sort(s)[i].round == Sort(s)[j].round && Sort(s)[i].author <= Sort(s)[j].author)
  {
    SortSorts(s);
    SortPermutes(s);
    SameMembers(Sort(s), s);
  }

  lemma SameMembers(s: seq<BlockRef>, t: seq<BlockRef>)
    requires multiset(s) == multiset(t)
    ensures forall x :: x in s <==> x in t
  {
    forall x ensures x in s <==> x in t {
      assert x in s <==> x in multiset(s);
      assert x in t <==> x in multiset(t);
    }
  }

  /** The blocks with one sort key, in order. */
  function AtKey(s: seq<BlockRef>, key: Slot): seq<BlockRef> {
    if s == [] then []
    else AtKey(s[..|s| - 1], key) + (if s[|s| - 1].AtSlot() == key then [s[|s| - 1]] else [])
  }

  lemma {:induction false} InsertKeepsOrder(s: seq<BlockRef>, x: BlockRef, key: Slot)
    ensures AtKey(Insert(s, x), key) == AtKey(s, key) + (if x.AtSlot() == key then [x] else [])
  {
    var t := Insert(s, x);
    if s == [] {
      assert t[..0] == [];
    } else if KeyLeq(s[|s| - 1], x) {
      assert t[..|t| - 1] == s;
    } else {
      InsertKeepsOrder(s[..|s| - 1], x, key);
      assert t[..|t| - 1] == Insert(s[..|s| - 1], x);
    }
  }

  /** The sort is stable: blocks of one round and author, several if the author equivocated, stay in
      the order they came. */
  lemma {:induction false} SortIsStable(s: seq<BlockRef>, key: Slot)
    ensures AtKey(Sort(s), key) == AtKey(s, key)
  {
    if s != [] {
      SortIsStable(s[..|s| - 1], key);
      InsertKeepsOrder(Sort(s[..|s| - 1]), s[|s| - 1], key);
    }
  }

  ghost predicate Distinct(s: seq<BlockRef>) {
    forall i, j :: 0 <= i < j < |s| ==> s[i] != s[j]
  }

  lemma {:induction false} DistinctCounts(s: seq<BlockRef>)
    ensures Distinct(s) <==> forall x :: multiset(s)[x] <= 1
  {
    if s != [] {
      var front := s[..|s| - 1];
      var last := s[|s| - 1];
      DistinctCounts(front);
      assert s == front + [last];
      assert multiset(s) == multiset(front) + multiset{last};
      if Distinct(s) {
        assert last !in front;
        assert multiset(front)[last] == 0;
      } else if Distinct(front) {
        var i, j :| 0 <= i < j < |s| && s[i] == s[j];
        assert j == |s| - 1 && last in front;
        assert multiset(front)[last] > 0;
        assert multiset(s)[last] > 1;
      } else {
        var x :| multiset(front)[x] > 1;
        assert multiset(s)[x] > 1;
      }
    }
  }

  lemma SortDistinct(s: seq<BlockRef>)
    requires Distinct(s)
    ensures Distinct(Sort(s))
  {
    SortKeeps(s);
    DistinctCounts(s);
    DistinctCounts(Sort(s));
  }

  // ---------------------------------------------------------------------------
  // Traversal
  // ---------------------------------------------------------------------------

  /** Still to be committed: stored, above the garbage-collection round, not yet taken. */
  predicate Takes(blocks: Blocks, gcRound: Round, committed: set<BlockRef>, r: BlockRef) {
    r in blocks && r.round > gcRound && r !in committed
  }

  function Select(blocks: Blocks, gcRound: Round, committed: set<BlockRef>, refs: seq<BlockRef>): (taken: seq<BlockRef>)
    ensures forall r :: r in taken <==> r in refs && Takes(blocks, gcRound, committed, r)
    ensures Distinct(refs) ==> Distinct(taken)
  {
    if refs == [] then []
    else if Takes(blocks, gcRound, committed, refs[0]) then [refs[0]] + Select(blocks, gcRound, committed, refs[1..])
    else Select(blocks, gcRound, committed, refs[1..])
  }

  function Elements(s: seq<BlockRef>): set<BlockRef> {
    set r | r in s
  }

  /** The depth-first sweep from a stack of blocks that are already marked committed. */
  function Sweep(blocks: Blocks, gcRound: Round, committed: set<BlockRef>, stack: seq<BlockRef>): seq<BlockRef>
    requires forall r :: r in stack ==> r in blocks
    decreases |blocks.Keys - committed|, |stack|
  {
    if stack == [] then []
    else
      var x := stack[|stack| - 1];
      var taken := Select(blocks, gcRound, committed, blocks[x].ancestors);
      MarkingShrinks(blocks, gcRound, committed, taken);
      [x] + Sweep(blocks, gcRound, committed + Elements(taken), stack[..|stack| - 1] + taken)
  }

  lemma MarkingShrinks(blocks: Blocks, gcRound: Round, committed: set<BlockRef>, taken: seq<BlockRef>)
    requires forall r :: r in taken ==> Takes(blocks, gcRound, committed, r)
    ensures taken != [] ==> |blocks.Keys - (committed + Elements(taken))| < |blocks.Keys - committed|
    ensures taken == [] ==> committed + Elements(taken) == committed
  {
    var before, after := blocks.Keys - committed, blocks.Keys - (committed + Elements(taken));
    if taken != [] {
      var first := taken[0];
      assert first in taken;
      assert Takes(blocks, gcRound, committed, first) && first in Elements(taken);
      assert first in before && first !in after;
      SmallerSet(after, before, taken[0]);
    }
  }

  lemma SmallerSet(small: set<BlockRef>, large: set<BlockRef>, x: BlockRef)
    requires small <= large && x in large && x !in small
    ensures |small| < |large|
  {
    assert large == small + (large - small);
    assert |large| == |small| + |large - small|;
  }

  /** What the sweep relies on: the stack holds distinct stored blocks, all marked. */
  ghost predicate StackOk(blocks: Blocks, committed: set<BlockRef>, stack: seq<BlockRef>) {
    Distinct(stack) && forall r :: r in stack ==> r in blocks && r in committed
  }

  lemma StackStep(c: Committee, blocks: Blocks, gcRound: Round, committed: set<BlockRef>, stack: seq<BlockRef>)
    requires c.Valid() && WellFormed(c, blocks) && StackOk(blocks, committed, stack) && stack != []
    ensures var taken := Select(blocks, gcRound, committed, blocks[stack[|stack| - 1]].ancestors);
      && Distinct(taken)
      && StackOk(blocks, committed + Elements(taken), stack[..|stack| - 1] + taken)
  {
    var x := stack[|stack| - 1];
    AncestorsDistinct(c, blocks, x);
    var taken := Select(blocks, gcRound, committed, blocks[x].ancestors);
    var front := stack[..|stack| - 1];
    forall i, j | 0 <= i < j < |front + taken| ensures (front + taken)[i] != (front + taken)[j] {
      if i < |front| <= j {
        assert (front + taken)[i] == stack[i] && stack[i] in committed;
        assert (front + taken)[j] == taken[j - |front|] && taken[j - |front|] in taken;
      }
    }
  }

  lemma AncestorsDistinct(c: Committee, blocks: Blocks, x: BlockRef)
    requires c.Valid() && WellFormed(c, blocks) && x in blocks
    ensures Distinct(blocks[x].ancestors)
  {
    if x.round > GENESIS_ROUND {
      assert Admissible(c, blocks[x]);
    }
  }

  /** The sweep takes every stacked block. */
  lemma {:induction false} StackedIsSwept(c: Committee, blocks: Blocks, gcRound: Round, committed: set<BlockRef>, stack: seq<BlockRef>, r: BlockRef)
    requires c.Valid() && WellFormed(c, blocks) && StackOk(blocks, committed, stack)
    requires r in stack
    ensures r in Sweep(blocks, gcRound, committed, stack)
    decreases |blocks.Keys - committed|, |stack|
  {
    var x := stack[|stack| - 1];
    if r != x {
      var front := stack[..|stack| - 1];
      var taken := Select(blocks, gcRound, committed, blocks[x].ancestors);
      MarkingShrinks(blocks, gcRound, committed, taken);
      StackStep(c, blocks, gcRound, committed, stack);
      assert r in front;
      StackedIsSwept(c, blocks, gcRound, committed + Elements(taken), front + taken, r);
    }
  }

  /** Beyond the stack it takes only blocks that were not taken before. */
  lemma {:induction false} SweptIsTaken(c: Committee, blocks: Blocks, gcRound: Round, committed: set<BlockRef>, stack: seq<BlockRef>, r: BlockRef)
    requires c.Valid() && WellFormed(c, blocks) && StackOk(blocks, committed, stack)
    requires r in Sweep(blocks, gcRound, committed, stack)
    ensures r in stack || Takes(blocks, gcRound, committed, r)
    decreases |blocks.Keys - committed|, |stack|
  {
    var x := stack[|stack| - 1];
    if r != x {
      var front := stack[..|stack| - 1];
      var taken := Select(blocks, gcRound, committed, blocks[x].ancestors);
      MarkingShrinks(blocks, gcRound, committed, taken);
      StackStep(c, blocks, gcRound, committed, stack);
      SweptIsTaken(c, blocks, gcRound, committed + Elements(taken), front + taken, r);
    }
  }

  lemma DistinctCons(x: BlockRef, rest: seq<BlockRef>)
    requires Distinct(rest) && x !in rest
    ensures Distinct([x] + rest)
  {
  }

  /** No block is swept twice. */
  lemma {:induction false} SweepDistinct(c: Committee, blocks: Blocks, gcRound: Round, committed: set<BlockRef>, stack: seq<BlockRef>)
    requires c.Valid() && WellFormed(c, blocks) && StackOk(blocks, committed, stack)
    ensures Distinct(Sweep(blocks, gcRound, committed, stack))
    decreases |blocks.Keys - committed|, |stack|
  {
    if stack != [] {
      var x := stack[|stack| - 1];
      var front := stack[..|stack| - 1];
      var taken := Select(blocks, gcRound, committed, blocks[x].ancestors);
      MarkingShrinks(blocks, gcRound, committed, taken);
      StackStep(c, blocks, gcRound, committed, stack);
      SweepDistinct(c, blocks, gcRound, committed + Elements(taken), front + taken);
      var rest := Sweep(blocks, gcRound, committed + Elements(taken), front + taken);
      if x in rest {
        SweptIsTaken(c, blocks, gcRound, committed + Elements(taken), front + taken, x);
        assert false;
      }
      DistinctCons(x, rest);
    }
  }

  /** Nothing is left behind: what a swept block includes is swept too or was committed before. */
  lemma {:induction false} SweepIsClosed(c: Committee, blocks: Blocks, gcRound: Round, committed: set<BlockRef>, stack: seq<BlockRef>,
                                         r: BlockRef, a: BlockRef)
    requires c.Valid() && WellFormed(c, blocks) && StackOk(blocks, committed, stack)
    requires r in Sweep(blocks, gcRound, committed, stack) && r in blocks
    requires a in blocks[r].ancestors && a in blocks && a.round > gcRound
    ensures a in committed || a in Sweep(blocks, gcRound, committed, stack)
    decreases |blocks.Keys - committed|, |stack|
  {
    var x := stack[|stack| - 1];
    var front := stack[..|stack| - 1];
    var taken := Select(blocks, gcRound, committed, blocks[x].ancestors);
    MarkingShrinks(blocks, gcRound, committed, taken);
    StackStep(c, blocks, gcRound, committed, stack);
    if r == x {
      if a in taken {
        StackedIsSwept(c, blocks, gcRound, committed + Elements(taken), front + taken, a);
      }
    } else {
      SweepIsClosed(c, blocks, gcRound, committed + Elements(taken), front + taken, r, a);
      if a in taken {
        StackedIsSwept(c, blocks, gcRound, committed + Elements(taken), front + taken, a);
      }
    }
  }

  /** Only history is swept. */
  lemma {:induction false} SweepIsHistory(c: Committee, blocks: Blocks, gcRound: Round, committed: set<BlockRef>, stack: seq<BlockRef>, r: BlockRef)
      returns (b: BlockRef)
    requires c.Valid() && WellFormed(c, blocks) && StackOk(blocks, committed, stack)
    requires r in Sweep(blocks, gcRound, committed, stack)
    ensures b in stack && (b == r || Linked(blocks, b, r))
    decreases |blocks.Keys - committed|, |stack|
  {
    var x := stack[|stack| - 1];
    var front := stack[..|stack| - 1];
    var taken := Select(blocks, gcRound, committed, blocks[x].ancestors);
    if r == x {
      b := x;
    } else {
      MarkingShrinks(blocks, gcRound, committed, taken);
      StackStep(c, blocks, gcRound, committed, stack);
      b := SweepIsHistory(c, blocks, gcRound, committed + Elements(taken), front + taken, r);
      if b in taken && b !in front {
        AncestorIsOlder(c, blocks, x, b);
        if b != r {
          LinkedIsOlder(c, blocks, b, r);
        }
        b := x;
      }
    }
  }

  ghost predicate Before(s: seq<BlockRef>, x: BlockRef, y: BlockRef) {
    exists i, j :: 0 <= i < j < |s| && s[i] == x && s[j] == y
  }

  lemma BeforeBehind(first: BlockRef, rest: seq<BlockRef>, x: BlockRef, y: BlockRef)
    ensures y in rest ==> Before([first] + rest, first, y)
    ensures Before(rest, x, y) ==> Before([first] + rest, x, y)
  {
    var s := [first] + rest;
    if y in rest {
      var j :| 0 <= j < |rest| && rest[j] == y;
      assert s[0] == first && s[j + 1] == y;
    }
    if Before(rest, x, y) {
      var i, j :| 0 <= i < j < |rest| && rest[i] == x && rest[j] == y;
      assert s[i + 1] == x && s[j + 1] == y;
    }
  }

  /** Ancestors are taken in the order the block lists them. */
  lemma {:induction false} SelectKeepsOrder(blocks: Blocks, gcRound: Round, committed: set<BlockRef>, refs: seq<BlockRef>, i: nat, j: nat)
    requires i < j < |Select(blocks, gcRound, committed, refs)|
    ensures Before(refs, Select(blocks, gcRound, committed, refs)[i], Select(blocks, gcRound, committed, refs)[j])
  {
    var taken, tail := Select(blocks, gcRound, committed, refs), refs[1..];
    BeforeTail(refs, tail, taken[i], taken[j]);
    if !Takes(blocks, gcRound, committed, refs[0]) {
      SelectKeepsOrder(blocks, gcRound, committed, tail, i, j);
    } else if i > 0 {
      SelectKeepsOrder(blocks, gcRound, committed, tail, i - 1, j - 1);
    } else {
      assert Select(blocks, gcRound, committed, tail)[j - 1] in tail;
    }
  }

  lemma BeforeTail(s: seq<BlockRef>, tail: seq<BlockRef>, x: BlockRef, y: BlockRef)
    requires s != [] && tail == s[1..]
    ensures y in tail ==> Before(s, s[0], y)
    ensures Before(tail, x, y) ==> Before(s, x, y)
  {
    BeforeBehind(s[0], tail, x, y);
    assert s == [s[0]] + tail;
  }

  /** One step of the sweep: what is popped, and what is marked and stacked then. */
  lemma SweepStep(c: Committee, blocks: Blocks, gcRound: Round, committed: set<BlockRef>, stack: seq<BlockRef>, taken: seq<BlockRef>)
      returns (marked: set<BlockRef>, next: seq<BlockRef>, rest: seq<BlockRef>)
    requires c.Valid() && WellFormed(c, blocks) && StackOk(blocks, committed, stack) && stack != []
    requires taken == Select(blocks, gcRound, committed, blocks[stack[|stack| - 1]].ancestors)
    ensures StackOk(blocks, marked, next) && next == stack[..|stack| - 1] + taken
    ensures rest == Sweep(blocks, gcRound, marked, next) && Sweep(blocks, gcRound, committed, stack) == [stack[|stack| - 1]] + rest
    ensures |blocks.Keys - marked| < |blocks.Keys - committed| || (marked == committed && |next| < |stack|)
  {
    MarkingShrinks(blocks, gcRound, committed, taken);
    StackStep(c, blocks, gcRound, committed, stack);
    SweepUnfold(blocks, gcRound, committed, stack, taken);
    marked, next := committed + Elements(taken), stack[..|stack| - 1] + taken;
    rest := Sweep(blocks, gcRound, marked, next);
  }

  /** The stack is swept from its top. */
  lemma {:induction false} TopFirst(c: Committee, blocks: Blocks, gcRound: Round, committed: set<BlockRef>, stack: seq<BlockRef>, i: nat, j: nat)
    requires c.Valid() && WellFormed(c, blocks) && StackOk(blocks, committed, stack) && i < j < |stack|
    ensures Before(Sweep(blocks, gcRound, committed, stack), stack[j], stack[i])
    decreases |blocks.Keys - committed|, |stack|
  {
    var taken := Select(blocks, gcRound, committed, blocks[stack[|stack| - 1]].ancestors);
    var marked, next, rest := SweepStep(c, blocks, gcRound, committed, stack, taken);
    StillStacked(stack, taken, next, i);
    if j < |stack| - 1 {
      StillStacked(stack, taken, next, j);
      TopFirst(c, blocks, gcRound, marked, next, i, j);
    } else {
      StackedIsSwept(c, blocks, gcRound, marked, next, stack[i]);
    }
    BeforeBehind(stack[|stack| - 1], rest, stack[j], stack[i]);
  }

  lemma StillStacked(stack: seq<BlockRef>, taken: seq<BlockRef>, next: seq<BlockRef>, i: nat)
    requires i < |stack| - 1 && next == stack[..|stack| - 1] + taken
    ensures i < |next| && next[i] == stack[i] && stack[i] in next
  {
  }

  /** The sweep is depth first: what a block brings is swept before what was stacked below it, the
      last ancestor first.  With the stable sort this settles the order of blocks of one slot. */
  lemma DepthFirst(c: Committee, blocks: Blocks, gcRound: Round, committed: set<BlockRef>, below: seq<BlockRef>, x: BlockRef,
                   taken: seq<BlockRef>, i: nat, j: nat)
    requires c.Valid() && WellFormed(c, blocks) && StackOk(blocks, committed, below + [x])
    requires x in blocks && taken == Select(blocks, gcRound, committed, blocks[x].ancestors)
    requires i < j < |below + taken|
    ensures Before(Sweep(blocks, gcRound, committed, below + [x]), (below + taken)[j], (below + taken)[i])
  {
    var stack := below + [x];
    assert stack[|stack| - 1] == x && stack[..|stack| - 1] == below;
    var marked, next, rest := SweepStep(c, blocks, gcRound, committed, stack, taken);
    TopFirst(c, blocks, gcRound, marked, next, i, j);
    BeforeBehind(x, rest, next[j], next[i]);
  }

  lemma {:induction false} LinkedIsOlder(c: Committee, blocks: Blocks, from: BlockRef, to: BlockRef)
    requires c.Valid() && WellFormed(c, blocks) && Linked(blocks, from, to)
    ensures to.round < from.round
  {
    if to in blocks[from].ancestors {
      AncestorIsOlder(c, blocks, from, to);
    }
  }

  // ---------------------------------------------------------------------------
  // One commit
  // ---------------------------------------------------------------------------

  /** What has been ordered so far, and the round of the last leader. */
  datatype Ordered = Ordered(committed: set<BlockRef>, lastLeader: Round)

  /** The round below which blocks are given up, from the round of the last committed leader. */
  function GcOf(lastLeader: Round, depth: nat): Round {
    if lastLeader < depth then 0 else lastLeader - depth
  }

  /** It lies the depth below that leader, and is zero as long as that is not positive. */
  lemma GcIsDepthBelow(lastLeader: Round, depth: nat)
    ensures lastLeader <= depth ==> GcOf(lastLeader, depth) == 0
    ensures lastLeader >= depth ==> GcOf(lastLeader, depth) + depth == lastLeader
  {
  }

  function GcRound(st: Ordered, depth: nat): Round {
    GcOf(st.lastLeader, depth)
  }

  /** Everything ordered lies below the last leader and is causally complete above the
      garbage-collection round. */
  ghost predicate OrderedOk(dag: Blocks, depth: nat, st: Ordered) {
    && (forall r :: r in st.committed ==> r in dag && r.round <= st.lastLeader)
    && (forall r, a :: r in st.committed && r in dag && a in dag[r].ancestors && a.round > GcRound(st, depth) ==> a in st.committed)
  }

  /** A stored view in which the next leader can be linearized. */
  ghost predicate CanLinearize(c: Committee, dag: Blocks, depth: nat, st: Ordered, blocks: Blocks, leader: BlockRef)
    requires c.Valid()
  {
    && WellFormed(c, blocks) && ClosedAbove(blocks, GcRound(st, depth))
    && (forall r :: r in blocks ==> r in dag && dag[r] == blocks[r])
    && leader in blocks && leader.round > st.lastLeader
  }

  function SubDag(depth: nat, st: Ordered, blocks: Blocks, leader: BlockRef): seq<BlockRef>
    requires leader in blocks
  {
    Sort(Sweep(blocks, GcRound(st, depth), st.committed + {leader}, [leader]))
  }

  function Commit(depth: nat, st: Ordered, blocks: Blocks, leader: BlockRef): Ordered
    requires leader in blocks
  {
    Ordered(st.committed + Elements(SubDag(depth, st, blocks, leader)), leader.round)
  }

  lemma AncestorIsSwept(c: Committee, blocks: Blocks, gcRound: Round, committed: set<BlockRef>, leader: BlockRef, r: BlockRef, a: BlockRef)
    requires c.Valid() && WellFormed(c, blocks) && ClosedAbove(blocks, gcRound) && leader in blocks
    requires r in blocks && r in Sweep(blocks, gcRound, committed + {leader}, [leader])
    requires a in blocks[r].ancestors && a.round > gcRound && a !in committed
    ensures a in Sweep(blocks, gcRound, committed + {leader}, [leader])
  {
    SweepIsClosed(c, blocks, gcRound, committed + {leader}, [leader], r, a);
    StackedIsSwept(c, blocks, gcRound, committed + {leader}, [leader], leader);
  }

  lemma {:induction false} HistoryIsSwept(c: Committee, dag: Blocks, depth: nat, st: Ordered, blocks: Blocks, leader: BlockRef,
                                          from: BlockRef, r: BlockRef)
    requires c.Valid() && OrderedOk(dag, depth, st) && CanLinearize(c, dag, depth, st, blocks, leader)
    requires from in Sweep(blocks, GcRound(st, depth), st.committed + {leader}, [leader])
    requires Linked(blocks, from, r) && r.round > GcRound(st, depth) && r !in st.committed
    ensures r in Sweep(blocks, GcRound(st, depth), st.committed + {leader}, [leader])
    decreases from.round
  {
    var gc := GcRound(st, depth);
    if r in blocks[from].ancestors {
      AncestorIsSwept(c, blocks, gc, st.committed, leader, from, r);
    } else {
      var a :| a in blocks[from].ancestors && r.round < a.round < from.round && Linked(blocks, a, r);
      if a in st.committed {
        CommittedHistory(c, dag, depth, st, blocks, a, r);
        assert false;
      }
      AncestorIsSwept(c, blocks, gc, st.committed, leader, from, a);
      HistoryIsSwept(c, dag, depth, st, blocks, leader, a, r);
    }
  }

  lemma {:induction false} CommittedHistory(c: Committee, dag: Blocks, depth: nat, st: Ordered, blocks: Blocks, from: BlockRef, r: BlockRef)
    requires c.Valid() && OrderedOk(dag, depth, st)
    requires forall x :: x in blocks ==> x in dag && dag[x] == blocks[x]
    requires from in st.committed && Linked(blocks, from, r) && r.round > GcRound(st, depth)
    ensures r in st.committed
    decreases from.round
  {
    if r !in blocks[from].ancestors {
      var a :| a in blocks[from].ancestors && r.round < a.round < from.round && Linked(blocks, a, r);
      assert a in st.committed;
      CommittedHistory(c, dag, depth, st, blocks, a, r);
    }
  }

  /** A sub-dag is exactly the leader's history that is not genesis, less than the depth below the
      leader before, and taken by no earlier leader: each block once, by round and then by author. */
  lemma SubDagExact(c: Committee, dag: Blocks, depth: nat, st: Ordered, blocks: Blocks, leader: BlockRef, r: BlockRef)
    requires c.Valid() && OrderedOk(dag, depth, st) && CanLinearize(c, dag, depth, st, blocks, leader)
    ensures r in SubDag(depth, st, blocks, leader) <==>
      && (r == leader || Linked(blocks, leader, r))
      && r.round > GENESIS_ROUND && r.round + depth > st.lastLeader && r !in st.committed
    ensures Distinct(SubDag(depth, st, blocks, leader))
    ensures var out := SubDag(depth, st, blocks, leader);
      forall i, j :: 0 <= i < j < |out| ==> out[i].round < out[j].round || (out[i].round == out[j].round && out[i].author <= out[j].author)
  {
    SubDagMembers(c, dag, depth, st, blocks, leader, r);
    SortKeeps(Sweep(blocks, GcRound(st, depth), st.committed + {leader}, [leader]));
  }

  lemma SubDagExactly(c: Committee, dag: Blocks, depth: nat, st: Ordered, blocks: Blocks, leader: BlockRef)
    requires c.Valid() && OrderedOk(dag, depth, st) && CanLinearize(c, dag, depth, st, blocks, leader)
    ensures forall r :: r in SubDag(depth, st, blocks, leader) <==>
      (r == leader || Linked(blocks, leader, r)) && r.round > GENESIS_ROUND && r.round + depth > st.lastLeader && r !in st.committed
  {
    forall r ensures r in SubDag(depth, st, blocks, leader) <==>
      (r == leader || Linked(blocks, leader, r)) && r.round > GENESIS_ROUND && r.round + depth > st.lastLeader && r !in st.committed
    {
      SubDagExact(c, dag, depth, st, blocks, leader, r);
    }
  }

  lemma SubDagMembers(c: Committee, dag: Blocks, depth: nat, st: Ordered, blocks: Blocks, leader: BlockRef, r: BlockRef)
    requires c.Valid() && OrderedOk(dag, depth, st) && CanLinearize(c, dag, depth, st, blocks, leader)
    ensures r in SubDag(depth, st, blocks, leader) <==>
      (r == leader || Linked(blocks, leader, r)) && r.round > GcRound(st, depth) && r !in st.committed
    ensures Distinct(SubDag(depth, st, blocks, leader)) && Sorted(SubDag(depth, st, blocks, leader))
  {
    var gc := GcRound(st, depth);
    var marked := st.committed + {leader};
    var swept := Sweep(blocks, gc, marked, [leader]);
    SweepDistinct(c, blocks, gc, marked, [leader]);
    SortDistinct(swept);
    SortKeeps(swept);
    StackedIsSwept(c, blocks, gc, marked, [leader], leader);
    if r in swept {
      SweptIsTaken(c, blocks, gc, marked, [leader], r);
      var b := SweepIsHistory(c, blocks, gc, marked, [leader], r);
    } else if Linked(blocks, leader, r) && r.round > gc && r !in st.committed {
      HistoryIsSwept(c, dag, depth, st, blocks, leader, leader, r);
      assert false;
    }
  }

  /** Every ancestor above the garbage-collection round of an ordered block is ordered before it. */
  lemma CausalOrder(c: Committee, dag: Blocks, depth: nat, st: Ordered, blocks: Blocks, leader: BlockRef, i: nat, a: BlockRef)
      returns (j: int)
    requires c.Valid() && OrderedOk(dag, depth, st) && CanLinearize(c, dag, depth, st, blocks, leader)
    requires i < |SubDag(depth, st, blocks, leader)|
    requires SubDag(depth, st, blocks, leader)[i] in blocks
    requires a in blocks[SubDag(depth, st, blocks, leader)[i]].ancestors && a.round > GENESIS_ROUND && a.round + depth > st.lastLeader
    ensures a in st.committed || (0 <= j < i && SubDag(depth, st, blocks, leader)[j] == a)
  {
    var out := SubDag(depth, st, blocks, leader);
    var r := out[i];
    SubDagMembers(c, dag, depth, st, blocks, leader, r);
    AncestorIsOlder(c, blocks, r, a);
    j := 0;
    if a !in st.committed {
      SubDagContains(c, dag, depth, st, blocks, leader, r, a);
      j :| 0 <= j < |out| && out[j] == a;
      OlderIsEarlier(out, i, j);
    }
  }

  lemma OlderIsEarlier(s: seq<BlockRef>, i: nat, j: nat)
    requires Sorted(s) && i < |s| && j < |s| && s[j].round < s[i].round
    ensures j < i
  {
  }

  lemma SubDagContains(c: Committee, dag: Blocks, depth: nat, st: Ordered, blocks: Blocks, leader: BlockRef, r: BlockRef, a: BlockRef)
    requires c.Valid() && OrderedOk(dag, depth, st) && CanLinearize(c, dag, depth, st, blocks, leader)
    requires r in SubDag(depth, st, blocks, leader) && r in blocks && a in blocks[r].ancestors
    requires a.round > GcRound(st, depth) && a !in st.committed
    ensures a in SubDag(depth, st, blocks, leader)
  {
    var gc := GcRound(st, depth);
    var marked := st.committed + {leader};
    SortKeeps(Sweep(blocks, gc, marked, [leader]));
    StackedIsSwept(c, blocks, gc, marked, [leader], leader);
    SweepIsClosed(c, blocks, gc, marked, [leader], r, a);
  }

  /** Committing keeps the ordered set causally complete. */
  lemma CommitKeeps(c: Committee, dag: Blocks, depth: nat, st: Ordered, blocks: Blocks, leader: BlockRef)
    requires c.Valid() && OrderedOk(dag, depth, st) && CanLinearize(c, dag, depth, st, blocks, leader)
    ensures OrderedOk(dag, depth, Commit(depth, st, blocks, leader))
  {
    var out := SubDag(depth, st, blocks, leader);
    var st' := Commit(depth, st, blocks, leader);
    forall r | r in st'.committed
      ensures r in dag && r.round <= st'.lastLeader
    {
      if r in out {
        SubDagInView(c, dag, depth, st, blocks, leader, r);
      }
    }
    forall r, a | r in st'.committed && r in dag && a in dag[r].ancestors && a.round > GcRound(st', depth)
      ensures a in st'.committed
    {
      if r in out {
        SubDagInView(c, dag, depth, st, blocks, leader, r);
        if a !in st.committed {
          SubDagContains(c, dag, depth, st, blocks, leader, r, a);
        }
      }
    }
  }

  lemma SubDagInView(c: Committee, dag: Blocks, depth: nat, st: Ordered, blocks: Blocks, leader: BlockRef, r: BlockRef)
    requires c.Valid() && OrderedOk(dag, depth, st) && CanLinearize(c, dag, depth, st, blocks, leader)
    requires r in SubDag(depth, st, blocks, leader)
    ensures r in blocks && r in dag && r.round <= leader.round
  {
    SubDagMembers(c, dag, depth, st, blocks, leader, r);
    if r != leader {
      LinkedIsOlder(c, blocks, leader, r);
    }
    var gc := GcRound(st, depth);
    SortKeeps(Sweep(blocks, gc, st.committed + {leader}, [leader]));
    SweptIsTaken(c, blocks, gc, st.committed + {leader}, [leader], r);
  }

  lemma SubDagIsStored(c: Committee, depth: nat, st: Ordered, blocks: Blocks, leader: BlockRef)
    requires c.Valid() && WellFormed(c, blocks) && leader in blocks
    ensures forall r :: r in SubDag(depth, st, blocks, leader) ==> r in blocks
  {
    var gc := GcRound(st, depth);
    SortKeeps(Sweep(blocks, gc, st.committed + {leader}, [leader]));
    forall r | r in SubDag(depth, st, blocks, leader) ensures r in blocks {
      SweptIsTaken(c, blocks, gc, st.committed + {leader}, [leader], r);
    }
  }

  // ---------------------------------------------------------------------------
  // Agreement
  // ---------------------------------------------------------------------------

  lemma {:induction false} SelectAgrees(blocks: Blocks, blocks': Blocks, gcRound: Round, committed: set<BlockRef>, refs: seq<BlockRef>)
    requires forall r :: r in refs && r.round > gcRound ==> r in blocks && r in blocks'
    ensures Select(blocks, gcRound, committed, refs) == Select(blocks', gcRound, committed, refs)
  {
    if refs != [] {
      SelectAgrees(blocks, blocks', gcRound, committed, refs[1..]);
    }
  }

  /** Views that are complete above the garbage-collection round sweep identically. */
  lemma {:induction false} SweepAgrees(dag: Blocks, blocks: Blocks, blocks': Blocks, gcRound: Round,
                                       committed: set<BlockRef>, stack: seq<BlockRef>)
    requires forall r :: r in blocks ==> r in dag && dag[r] == blocks[r]
    requires forall r :: r in blocks' ==> r in dag && dag[r] == blocks'[r]
    requires ClosedAbove(blocks, gcRound) && ClosedAbove(blocks', gcRound)
    requires forall r :: r in stack ==> r in blocks && r in blocks'
    ensures Sweep(blocks, gcRound, committed, stack) == Sweep(blocks', gcRound, committed, stack)
    decreases |blocks.Keys - committed|, |stack|
  {
    if stack != [] {
      var x := stack[|stack| - 1];
      var front := stack[..|stack| - 1];
      var taken := Select(blocks, gcRound, committed, blocks[x].ancestors);
      assert blocks[x] == blocks'[x];
      SelectAgrees(blocks, blocks', gcRound, committed, blocks[x].ancestors);
      MarkingShrinks(blocks, gcRound, committed, taken);
      SweepAgrees(dag, blocks, blocks', gcRound, committed + Elements(taken), front + taken);
    }
  }

  /** So does a view that holds no more than what is swept, complete or not. */
  lemma {:induction false} SweepAgreesOn(c: Committee, dag: Blocks, blocks: Blocks, blocks': Blocks, gcRound: Round,
                                         committed: set<BlockRef>, stack: seq<BlockRef>)
    requires c.Valid() && WellFormed(c, blocks) && StackOk(blocks, committed, stack) && ClosedAbove(blocks, gcRound)
    requires forall r :: r in blocks ==> r in dag && dag[r] == blocks[r]
    requires forall r :: r in blocks' ==> r in dag && dag[r] == blocks'[r]
    requires forall r :: r in Sweep(blocks, gcRound, committed, stack) ==> r in blocks'
    ensures forall r :: r in stack ==> r in blocks'
    ensures Sweep(blocks, gcRound, committed, stack) == Sweep(blocks', gcRound, committed, stack)
    decreases |blocks.Keys - committed|, |stack|
  {
    forall r | r in stack ensures r in blocks' {
      StackedIsSwept(c, blocks, gcRound, committed, stack, r);
    }
    if stack != [] {
      var x := stack[|stack| - 1];
      var front := stack[..|stack| - 1];
      var taken := Select(blocks, gcRound, committed, blocks[x].ancestors);
      StackStep(c, blocks, gcRound, committed, stack);
      MarkingShrinks(blocks, gcRound, committed, taken);
      SweepUnfold(blocks, gcRound, committed, stack, taken);
      SweepAgreesOn(c, dag, blocks, blocks', gcRound, committed + Elements(taken), front + taken);
      SelectOn(blocks, blocks', gcRound, committed, blocks[x].ancestors);
    }
  }

  lemma {:induction false} SelectOn(blocks: Blocks, blocks': Blocks, gcRound: Round, committed: set<BlockRef>, refs: seq<BlockRef>)
    requires forall r :: r in refs && r.round > gcRound ==> r in blocks
    requires forall r :: r in Select(blocks, gcRound, committed, refs) ==> r in blocks'
    ensures Select(blocks, gcRound, committed, refs) == Select(blocks', gcRound, committed, refs)
  {
    if refs != [] {
      SelectOn(blocks, blocks', gcRound, committed, refs[1..]);
    }
  }

  /** A leader is turned into the same sequence on any store that holds that sequence. */
  lemma SubDagOn(c: Committee, dag: Blocks, depth: nat, st: Ordered, blocks: Blocks, blocks': Blocks, leader: BlockRef)
    requires c.Valid() && CanLinearize(c, dag, depth, st, blocks, leader)
    requires forall r :: r in blocks' ==> r in dag && dag[r] == blocks'[r]
    requires forall r :: r in SubDag(depth, st, blocks, leader) ==> r in blocks'
    ensures leader in blocks' && SubDag(depth, st, blocks, leader) == SubDag(depth, st, blocks', leader)
  {
    SortKeeps(Sweep(blocks, GcRound(st, depth), st.committed + {leader}, [leader]));
    SweepAgreesOn(c, dag, blocks, blocks', GcRound(st, depth), st.committed + {leader}, [leader]);
  }

  /** Validators that agree on what came before turn a leader into the same sequence of blocks. */
  lemma SubDagAgrees(c: Committee, dag: Blocks, depth: nat, st: Ordered, blocks: Blocks, blocks': Blocks, leader: BlockRef)
    requires c.Valid()
    requires CanLinearize(c, dag, depth, st, blocks, leader) && CanLinearize(c, dag, depth, st, blocks', leader)
    ensures SubDag(depth, st, blocks, leader) == SubDag(depth, st, blocks', leader)
  {
    SweepAgrees(dag, blocks, blocks', GcRound(st, depth), st.committed + {leader}, [leader]);
  }

  // ---------------------------------------------------------------------------
  // Whole runs
  // ---------------------------------------------------------------------------

  const NOTHING_ORDERED: Ordered := Ordered({}, GENESIS_ROUND)

  /** The state after linearizing the leaders in order, the i-th on the i-th view. */
  function After(depth: nat, views: seq<Blocks>, leaders: seq<BlockRef>): Ordered
    requires |views| == |leaders| && forall i :: 0 <= i < |leaders| ==> leaders[i] in views[i]
  {
    if leaders == [] then NOTHING_ORDERED
    else
      var n := |leaders| - 1;
      Commit(depth, After(depth, views[..n], leaders[..n]), views[n], leaders[n])
  }

  function SubDags(depth: nat, views: seq<Blocks>, leaders: seq<BlockRef>): (out: seq<seq<BlockRef>>)
    requires |views| == |leaders| && forall i :: 0 <= i < |leaders| ==> leaders[i] in views[i]
    ensures |out| == |leaders|
  {
    if leaders == [] then []
    else
      var n := |leaders| - 1;
      SubDags(depth, views[..n], leaders[..n]) + [SubDag(depth, After(depth, views[..n], leaders[..n]), views[n], leaders[n])]
  }

  ghost predicate RunOk(c: Committee, dag: Blocks, depth: nat, views: seq<Blocks>, leaders: seq<BlockRef>)
    requires c.Valid()
    decreases |leaders|
  {
    && |views| == |leaders|
    && (forall i :: 0 <= i < |leaders| ==> leaders[i] in views[i])
    && (leaders != [] ==>
        var n := |leaders| - 1;
        RunOk(c, dag, depth, views[..n], leaders[..n]) &&
        CanLinearize(c, dag, depth, After(depth, views[..n], leaders[..n]), views[n], leaders[n]))
  }

  lemma {:induction false} RunIsOrdered(c: Committee, dag: Blocks, depth: nat, views: seq<Blocks>, leaders: seq<BlockRef>)
    requires c.Valid() && RunOk(c, dag, depth, views, leaders)
    ensures OrderedOk(dag, depth, After(depth, views, leaders))
  {
    if leaders != [] {
      var n := |leaders| - 1;
      RunIsOrdered(c, dag, depth, views[..n], leaders[..n]);
      CommitKeeps(c, dag, depth, After(depth, views[..n], leaders[..n]), views[n], leaders[n]);
    }
  }

  /** Two validators that sequenced the same leaders, on whatever views, produced the same sub-dags. */
  lemma {:induction false} RunsAgree(c: Committee, dag: Blocks, depth: nat, views: seq<Blocks>, views': seq<Blocks>, leaders: seq<BlockRef>)
    requires c.Valid() && RunOk(c, dag, depth, views, leaders) && RunOk(c, dag, depth, views', leaders)
    ensures SubDags(depth, views, leaders) == SubDags(depth, views', leaders)
    ensures After(depth, views, leaders) == After(depth, views', leaders)
  {
    if leaders != [] {
      var n := |leaders| - 1;
      RunsAgree(c, dag, depth, views[..n], views'[..n], leaders[..n]);
      SubDagAgrees(c, dag, depth, After(depth, views[..n], leaders[..n]), views[n], views'[n], leaders[n]);
    }
  }

  function Flatten(parts: seq<seq<BlockRef>>): seq<BlockRef> {
    if parts == [] then [] else Flatten(parts[..|parts| - 1]) + parts[|parts| - 1]
  }

  /** The committed set of a run is what its sub-dags contain. */
  lemma {:induction false} FlattenIsCommitted(depth: nat, views: seq<Blocks>, leaders: seq<BlockRef>)
    requires |views| == |leaders| && forall i :: 0 <= i < |leaders| ==> leaders[i] in views[i]
    ensures Elements(Flatten(SubDags(depth, views, leaders))) == After(depth, views, leaders).committed
  {
    if leaders != [] {
      var n := |leaders| - 1;
      FlattenIsCommitted(depth, views[..n], leaders[..n]);
      assert SubDags(depth, views, leaders)[..n] == SubDags(depth, views[..n], leaders[..n]);
    }
  }

  lemma DistinctConcat(a: seq<BlockRef>, b: seq<BlockRef>)
    requires Distinct(a) && Distinct(b) && Elements(a) !! Elements(b)
    ensures Distinct(a + b)
  {
    forall i, j | 0 <= i < j < |a + b| ensures (a + b)[i] != (a + b)[j] {
      if i < |a| <= j {
        assert a[i] in Elements(a) && b[j - |a|] in Elements(b);
      }
    }
  }

  /** Over a whole run no block is ever ordered twice. */
  lemma {:induction false} RunOrdersOnce(c: Committee, dag: Blocks, depth: nat, views: seq<Blocks>, leaders: seq<BlockRef>)
    requires c.Valid() && RunOk(c, dag, depth, views, leaders)
    ensures Distinct(Flatten(SubDags(depth, views, leaders)))
  {
    if leaders != [] {
      var n := |leaders| - 1;
      var st := After(depth, views[..n], leaders[..n]);
      var before := Flatten(SubDags(depth, views[..n], leaders[..n]));
      var last := SubDag(depth, st, views[n], leaders[n]);
      RunOrdersOnce(c, dag, depth, views[..n], leaders[..n]);
      RunIsOrdered(c, dag, depth, views[..n], leaders[..n]);
      FlattenIsCommitted(depth, views[..n], leaders[..n]);
      forall r | r in last ensures r !in st.committed {
        SubDagMembers(c, dag, depth, st, views[n], leaders[n], r);
      }
      SubDagMembers(c, dag, depth, st, views[n], leaders[n], leaders[n]);
      DistinctConcat(before, last);
      assert SubDags(depth, views, leaders)[..n] == SubDags(depth, views[..n], leaders[..n]);
    }
  }

  lemma SweepUnfold(blocks: Blocks, gcRound: Round, committed: set<BlockRef>, stack: seq<BlockRef>, taken: seq<BlockRef>)
    requires stack != [] && forall r :: r in stack ==> r in blocks
    requires taken == Select(blocks, gcRound, committed, blocks[stack[|stack| - 1]].ancestors)
    ensures Sweep(blocks, gcRound, committed, stack) ==
      [stack[|stack| - 1]] + Sweep(blocks, gcRound, committed + Elements(taken), stack[..|stack| - 1] + taken)
  {
  }

  /** Progress of the sweep: what was popped, what lies ahead, and what is marked. */
  ghost predicate Draining(target: seq<BlockRef>, start: set<BlockRef>, out: seq<BlockRef>, ahead: seq<BlockRef>,
                           committed: set<BlockRef>, buffer: seq<BlockRef>) {
    target == out + ahead && committed == start + Elements(out) + Elements(buffer)
  }

  lemma DrainingStarts(blocks: Blocks, committed: set<BlockRef>, stack: seq<BlockRef>, target: seq<BlockRef>)
    requires StackOk(blocks, committed, stack)
    ensures Draining(target, committed, [], target, committed, stack)
  {
    assert Elements(stack) <= committed;
  }

  lemma DrainingEnds(target: seq<BlockRef>, start: set<BlockRef>, out: seq<BlockRef>, committed: set<BlockRef>)
    requires Draining(target, start, out, [], committed, [])
    ensures out == target && committed == start + Elements(out)
  {
    assert out + [] == out;
  }

  lemma DrainingStep(target: seq<BlockRef>, start: set<BlockRef>, out: seq<BlockRef>, x: BlockRef, rest: seq<BlockRef>,
                     committed: set<BlockRef>, buffer: seq<BlockRef>, taken: seq<BlockRef>)
    requires buffer != [] && x == buffer[|buffer| - 1]
    requires Draining(target, start, out, [x] + rest, committed, buffer)
    ensures Draining(target, start, out + [x], rest, committed + Elements(taken), buffer[..|buffer| - 1] + taken)
  {
    assert buffer == buffer[..|buffer| - 1] + [x];
    assert out + ([x] + rest) == (out + [x]) + rest;
  }

  // ---------------------------------------------------------------------------
  // The linearizer itself
  // ---------------------------------------------------------------------------

  lemma SweptIsMarked(c: Committee, depth: nat, st: Ordered, blocks: Blocks, leader: BlockRef)
    requires c.Valid() && WellFormed(c, blocks) && leader in blocks
    ensures st.committed + {leader} + Elements(Sweep(blocks, GcRound(st, depth), st.committed + {leader}, [leader])) ==
      Commit(depth, st, blocks, leader).committed
  {
    var gc := GcRound(st, depth);
    StackedIsSwept(c, blocks, gc, st.committed + {leader}, [leader], leader);
    MarkedIsCommitted(st.committed, leader, Sweep(blocks, gc, st.committed + {leader}, [leader]));
  }

  lemma SubDagAboveGc(c: Committee, depth: nat, st: Ordered, blocks: Blocks, leader: BlockRef, r: BlockRef)
    requires c.Valid() && WellFormed(c, blocks) && leader in blocks && leader.round > GcRound(st, depth)
    requires r in SubDag(depth, st, blocks, leader)
    ensures r.round > GcRound(st, depth)
  {
    var gc := GcRound(st, depth);
    SortKeeps(Sweep(blocks, gc, st.committed + {leader}, [leader]));
    SweptIsTaken(c, blocks, gc, st.committed + {leader}, [leader], r);
  }

  lemma MarkedIsCommitted(committed: set<BlockRef>, leader: BlockRef, swept: seq<BlockRef>)
    requires leader in swept
    ensures committed + {leader} + Elements(swept) == committed + Elements(Sort(swept))
  {
    SortKeeps(swept);
    assert Elements(Sort(swept)) == Elements(swept);
    assert leader in Elements(swept);
  }

  class Linearizer {
    const committee: Committee
    const gcDepth: nat
    var committed: set<BlockRef>
    var lastLeader: Round

    function State(): Ordered
      reads this
    {
      Ordered(committed, lastLeader)
    }

    constructor (c: Committee, depth: nat)
      ensures committee == c && gcDepth == depth && State() == NOTHING_ORDERED
    {
      committee, gcDepth := c, depth;
      committed, lastLeader := {}, GENESIS_ROUND;
    }

    /** Marks a block; the answer tells whether it was new. */
    method SetCommitted(r: BlockRef) returns (isNew: bool)
      modifies this`committed
      ensures isNew == (r !in old(committed)) && committed == old(committed) + {r}
    {
      isNew := r !in committed;
      committed := committed + {r};
    }

    /** Pushes the ancestors that are still to be taken, marking each.  The source asserts that
        none of them was marked already. */
    method PushAncestors(blocks: Blocks, gcRound: Round, x: BlockRef, stack: seq<BlockRef>) returns (stack': seq<BlockRef>)
      requires committee.Valid() && WellFormed(committee, blocks) && x in blocks
      modifies this`committed
      ensures var taken := Select(blocks, gcRound, old(committed), blocks[x].ancestors);
        stack' == stack + taken && committed == old(committed) + Elements(taken)
    {
      ghost var before := committed;
      var taken := Select(blocks, gcRound, committed, blocks[x].ancestors);
      AncestorsDistinct(committee, blocks, x);
      stack' := stack;
      for i := 0 to |taken|
        invariant stack' == stack + taken[..i] && committed == before + Elements(taken[..i])
      {
        assert taken[i] in taken && taken[i] !in taken[..i];
        stack' := stack' + [taken[i]];
        var isNew := SetCommitted(taken[i]);
        assert isNew;
        assert taken[..i + 1] == taken[..i] + [taken[i]];
      }
      assert taken[..|taken|] == taken;
    }

    /** Pops one block and stacks what it brings. */
    method Pop(blocks: Blocks, gcRound: Round, buffer: seq<BlockRef>) returns (x: BlockRef, buffer': seq<BlockRef>)
      requires committee.Valid() && WellFormed(committee, blocks) && StackOk(blocks, committed, buffer) && buffer != []
      modifies this`committed
      ensures StackOk(blocks, committed, buffer') && x == buffer[|buffer| - 1]
      ensures Sweep(blocks, gcRound, old(committed), buffer) == [x] + Sweep(blocks, gcRound, committed, buffer')
      ensures exists taken :: committed == old(committed) + Elements(taken) && buffer' == buffer[..|buffer| - 1] + taken
      ensures |blocks.Keys - committed| < |blocks.Keys - old(committed)| || (committed == old(committed) && |buffer'| < |buffer|)
    {
      x := buffer[|buffer| - 1];
      ghost var taken := Select(blocks, gcRound, committed, blocks[x].ancestors);
      MarkingShrinks(blocks, gcRound, committed, taken);
      StackStep(committee, blocks, gcRound, committed, buffer);
      SweepUnfold(blocks, gcRound, committed, buffer, taken);
      buffer' := PushAncestors(blocks, gcRound, x, buffer[..|buffer| - 1]);
    }

    method DrainOne(blocks: Blocks, gcRound: Round, buffer: seq<BlockRef>, out: seq<BlockRef>,
                    ghost target: seq<BlockRef>, ghost before: set<BlockRef>)
        returns (out': seq<BlockRef>, buffer': seq<BlockRef>)
      requires committee.Valid() && WellFormed(committee, blocks) && StackOk(blocks, committed, buffer) && buffer != []
      requires Draining(target, before, out, Sweep(blocks, gcRound, committed, buffer), committed, buffer)
      modifies this`committed
      ensures StackOk(blocks, committed, buffer')
      ensures Draining(target, before, out', Sweep(blocks, gcRound, committed, buffer'), committed, buffer')
      ensures |blocks.Keys - committed| < |blocks.Keys - old(committed)| || (committed == old(committed) && |buffer'| < |buffer|)
    {
      ghost var marked := committed;
      var x;
      x, buffer' := Pop(blocks, gcRound, buffer);
      ghost var taken :| committed == marked + Elements(taken) && buffer' == buffer[..|buffer| - 1] + taken;
      DrainingStep(target, before, out, x, Sweep(blocks, gcRound, committed, buffer'), marked, buffer, taken);
      out' := out + [x];
    }

    /** Empties the stack, collecting blocks in the order they are popped. */
    method Drain(blocks: Blocks, gcRound: Round, stack: seq<BlockRef>) returns (out: seq<BlockRef>)
      requires committee.Valid() && WellFormed(committee, blocks) && StackOk(blocks, committed, stack)
      modifies this`committed
      ensures out == Sweep(blocks, gcRound, old(committed), stack)
      ensures committed == old(committed) + Elements(out)
    {
      ghost var target := Sweep(blocks, gcRound, committed, stack);
      var buffer := stack;
      out := [];
      DrainingStarts(blocks, committed, stack, target);
      while buffer != []
        invariant StackOk(blocks, committed, buffer)
        invariant Draining(target, old(committed), out, Sweep(blocks, gcRound, committed, buffer), committed, buffer)
        decreases |blocks.Keys - committed|, |buffer|
      {
        out, buffer := DrainOne(blocks, gcRound, buffer, out, target, old(committed));
      }
      assert Sweep(blocks, gcRound, committed, buffer) == [];
      DrainingEnds(target, old(committed), out, committed);
    }

    /** Orders the part of the leader's history that is new.  The source panics on a leader that was
        committed before; neither of its other two assertions can fail, not even on a view from
        which ancestors are missing, which are left out.  On a complete view the order stays closed. */
    method LinearizeSubDag(blocks: Blocks, leader: BlockRef, ghost dag: Blocks) returns (toCommit: seq<BlockRef>)
      requires committee.Valid() && WellFormed(committee, blocks) && leader in blocks
      requires leader !in committed && leader.round > GcRound(State(), gcDepth)
      modifies this
      ensures toCommit == SubDag(gcDepth, old(State()), blocks, leader)
      ensures State() == Commit(gcDepth, old(State()), blocks, leader)
      ensures forall r :: r in toCommit ==> r.round > GENESIS_ROUND && r.round + gcDepth > old(lastLeader)
      ensures old(OrderedOk(dag, gcDepth, State())) && old(CanLinearize(committee, dag, gcDepth, State(), blocks, leader)) ==>
        forall r :: r in toCommit <==>
          (r == leader || Linked(blocks, leader, r)) && r.round > GENESIS_ROUND && r.round + gcDepth > old(lastLeader) && r !in old(committed)
      ensures old(OrderedOk(dag, gcDepth, State())) && old(CanLinearize(committee, dag, gcDepth, State(), blocks, leader)) ==>
        OrderedOk(dag, gcDepth, State())
    {
      ghost var st := State();
      var gcRound := GcRound(State(), gcDepth);
      var isNew := SetCommitted(leader);
      assert isNew;
      var swept := Drain(blocks, gcRound, [leader]);
      SweptIsMarked(committee, gcDepth, st, blocks, leader);
      toCommit := Sort(swept);
      lastLeader := leader.round;
      forall r | r in toCommit ensures r.round > GENESIS_ROUND && r.round + gcDepth > st.lastLeader {
        SubDagAboveGc(committee, gcDepth, st, blocks, leader, r);
      }
      if OrderedOk(dag, gcDepth, st) && CanLinearize(committee, dag, gcDepth, st, blocks, leader) {
        CommitKeeps(committee, dag, gcDepth, st, blocks, leader);
        SubDagExactly(committee, dag, gcDepth, st, blocks, leader);
      }
    }
  }
}
