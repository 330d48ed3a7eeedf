/** Programs on either side of the edge of the rewrite's faithfulness. */
module CheckedArithmeticExamples {
  import opened Wrappers
  import opened RustExpr
  import opened CheckedArithmetic
  import opened CheckedArithmeticLimits

  const I8: IntType := IntType(true, 8)

  lemma I8Range()
    ensures Max(I8) == 127 && Min(I8) == -128
  {
    assert Pow2(3) == 8;
    assert Pow2(5) == 32;
    assert Pow2(7) == 128;
  }

  /** `-!5` is 6; the rewritten expression is `!(-5)`, which is 4. */
  lemma NegatedNotExample(host: Host, st: State)
    ensures var e := Neg(Not(Lit(Int(I8, 5))));
      Eval(host, Panicking, e, st) == Done(Int(I8, 6), st) && Eval(host, Wrapping, Fold(e), st) == Done(Int(I8, 4), st)
  {
    I8Range();
    var five := Lit(Int(I8, 5));
    assert Eval(host, Panicking, Not(five), st) == Done(Int(I8, -6), st);
    assert Fold(Neg(Not(five))) == Not(CheckedNeg(five));
    assert Eval(host, Wrapping, CheckedNeg(five), st) == Done(Int(I8, -5), st);
  }

  /** A host that answers every call and returns nothing. */
  function Obliging(e: Event, before: seq<Event>): Reply {
    Returns(Unit)
  }

  /** `f!(127i8 + 1)`, marked to be skipped. */
  function SkippedSum(): Expr {
    Macro("f", [SKIP], Parsed(Cons(Arith(Add, Lit(Int(I8, 127)), Lit(Int(I8, 1))), Nil)))
  }

  lemma SumRuns(host: Host, st: State)
    ensures var args := Cons(Arith(Add, Lit(Int(I8, 127)), Lit(Int(I8, 1))), Nil);
      && EvalAll(host, Panicking, args, st) == CutByPanic(st.trace)
      && EvalAll(host, Wrapping, args, st) == All([Int(I8, -128)], st)
  {
    I8Range();
    var sum := Arith(Add, Lit(Int(I8, 127)), Lit(Int(I8, 1)));
    assert Eval(host, Panicking, sum, st) == Panicked(st.trace);
    assert Wrap(I8, 128) == -128;
    assert Eval(host, Wrapping, sum, st) == Done(Int(I8, -128), st);
    assert EvalAll(host, Wrapping, Nil, st) == All([], st);
    assert [Int(I8, -128)] + [] == [Int(I8, -128)];
  }

  /** The build with overflow checks panics without calling f; the rewritten program calls it with
      -128. */
  lemma SkippedOverflowExample(st: State)
    ensures Eval(Obliging, Panicking, SkippedSum(), st) == Panicked(st.trace)
    ensures Eval(Obliging, Wrapping, Fold(SkippedSum()), st) ==
      Done(Unit, State(st.stack, st.trace + [Event("f", [Int(I8, -128)])]))
  {
    SumRuns(Obliging, st);
    assert Unmarked([SKIP]) == [];
    assert Fold(SkippedSum()) == Macro("f", [], SkippedSum().contents);
  }

  /** A host whose place and operand calls both succeed. */
  function PlaceHost(e: Event, trace: seq<Event>): Reply {
    if e.name == "place" then Returns(Ref(0)) else Returns(Int(I8, 1))
  }

  const ONE_VARIABLE: seq<(string, Value)> := [("x", Int(I8, 1))]

  lemma CallRuns(mode: Mode, fn: string, st: State)
    ensures Eval(PlaceHost, mode, Call(fn, Nil), st) ==
      Done(if fn == "place" then Ref(0) else Int(I8, 1), State(st.stack, st.trace + [Event(fn, [])]))
  {
    assert EvalAll(PlaceHost, mode, Nil, st) == All([], st);
  }

  lemma PlaceLocates(mode: Mode, st: State)
    requires st.stack == ONE_VARIABLE
    ensures Locate(PlaceHost, mode, Deref(Call("place", Nil)), st) == At(0, State(ONE_VARIABLE, st.trace + [Event("place", [])]))
  {
    CallRuns(mode, "place", st);
  }

  lemma OriginalOrder()
    ensures var e := ArithAssign(Add, Deref(Call("place", Nil)), Call("operand", Nil));
      var o := Eval(PlaceHost, Panicking, e, State(ONE_VARIABLE, []));
      o.Done? && o.st.trace == [Event("operand", []), Event("place", [])]
  {
    I8Range();
    CallRuns(Panicking, "operand", State(ONE_VARIABLE, []));
    var st1 := State(ONE_VARIABLE, [] + [Event("operand", [])]);
    PlaceLocates(Panicking, st1);
  }

  lemma FoldedCalls()
    ensures Fold(ArithAssign(Add, Deref(Call("place", Nil)), Call("operand", Nil))) ==
      CheckedAssignBlock(Add, Deref(Call("place", Nil)), Call("operand", Nil))
  {
    assert FoldAll(Nil) == Nil;
    assert Fold(Call("place", Nil)) == Call("place", Nil);
  }

  lemma RewrittenRuns()
    ensures var o := Eval(PlaceHost, Wrapping, CheckedAssignBlock(Add, Deref(Call("place", Nil)), Call("operand", Nil)), State(ONE_VARIABLE, []));
      o.Done? && o.st.trace == [Event("place", []), Event("operand", [])]
  {
    I8Range();
    PlaceLocates(Wrapping, State(ONE_VARIABLE, []));
    CallRuns(Wrapping, "operand", State(ONE_VARIABLE, [] + [Event("place", [])]));
    CheckedAssignBlockRuns(PlaceHost, Wrapping, Add, Deref(Call("place", Nil)), Call("operand", Nil), State(ONE_VARIABLE, []));
  }

  lemma RewrittenOrder()
    ensures var e := ArithAssign(Add, Deref(Call("place", Nil)), Call("operand", Nil));
      var o := Eval(PlaceHost, Wrapping, Fold(e), State(ONE_VARIABLE, []));
      o.Done? && o.st.trace == [Event("place", []), Event("operand", [])]
  {
    FoldedCalls();
    RewrittenRuns();
  }

  /** Outside the stable places the evaluation order shows: `*place() += operand()` calls the
      operand first, the rewritten block calls the place first. */
  lemma UnstablePlaceExample()
    ensures var e := ArithAssign(Add, Deref(Call("place", Nil)), Call("operand", Nil));
      var st := State(ONE_VARIABLE, []);
      Eval(PlaceHost, Wrapping, Fold(e), st) != Eval(PlaceHost, Panicking, e, st)
  {
    OriginalOrder();
    RewrittenOrder();
    assert Event("place", []) != Event("operand", []) by {
      assert "place"[0] != "operand"[0];
    }
  }

  // ---------------------------------------------------------------------------
  // Places behind a reference
  // ---------------------------------------------------------------------------

  /** Two variables and a reference to the first. */
  const TWO_AND_REF: State := State([("x", Int(I8, 1)), ("y", Int(I8, 10)), ("p", Ref(0))], [])

  /** `{ x = r; v }` */
  function WriteThen(x: string, r: Expr, v: Value): Expr {
    Block(Then(Do(Assign(Var(x), r)), Tail(Lit(v))))
  }

  lemma WriteThenRuns(host: Host, x: string, r: Expr, v: Value, st: State, slot: nat, w: Value)
    requires FindVar(st.stack, x) == Some(slot) && slot < |st.stack|
    requires Steady(host, r, st) && Eval(host, Panicking, r, st) == Done(w, st)
    ensures Steady(host, WriteThen(x, r, v), st)
    ensures Eval(host, Panicking, WriteThen(x, r, v), st) == Done(v, Store(st, slot, w))
  {
    var write := Assign(Var(x), r);
    var st' := Store(st, slot, w);
    assert Eval(host, Panicking, write, st) == Done(Unit, st') && Steady(host, write, st);
    assert EvalStmt(host, Panicking, Do(write), st) == Done(Unit, st');
    var tail := Tail(Lit(v));
    assert EvalStmts(host, Panicking, tail, st') == Done(v, st');
    assert EvalStmts(host, Panicking, Then(Do(write), tail), st) == Done(v, st');
    assert st'.stack[..|st.stack|] == st'.stack;
    assert SteadyStmts(host, tail, st') && SteadyStmts(host, Then(Do(write), tail), st);
  }

  lemma Lookups()
    ensures FindVar(TWO_AND_REF.stack, "p") == Some(2) && FindVar(TWO_AND_REF.stack, "y") == Some(1)
  {
    var front := TWO_AND_REF.stack[..2];
    assert front == [("x", Int(I8, 1)), ("y", Int(I8, 10))];
    assert "p" != "y";
    assert FindVar(front, "y") == Some(1);
  }

  /** `*p += { p = &mut y; 1 }` */
  function Moving(): Expr {
    ArithAssign(Add, Deref(Var("p")), WriteThen("p", AddrOf(Var("y")), Int(I8, 1)))
  }

  lemma MovingRuns(host: Host)
    ensures var st' := Store(TWO_AND_REF, 2, Ref(1));
      && Steady(host, Moving().right, TWO_AND_REF) && Eval(host, Panicking, Moving().right, TWO_AND_REF) == Done(Int(I8, 1), st')
      && Locate(host, Panicking, Moving().place, TWO_AND_REF) == At(0, TWO_AND_REF)
      && Locate(host, Panicking, Moving().place, st') == At(1, st')
  {
    Lookups();
    var st' := Store(TWO_AND_REF, 2, Ref(1));
    assert Eval(host, Panicking, AddrOf(Var("y")), TWO_AND_REF) == Done(Ref(1), TWO_AND_REF);
    WriteThenRuns(host, "p", AddrOf(Var("y")), Int(I8, 1), TWO_AND_REF, 2, Ref(1));
    assert FindVar(st'.stack, "p") == Some(2);
    assert Eval(host, Panicking, Var("p"), st') == Done(Ref(1), st');
    assert Eval(host, Panicking, Var("p"), TWO_AND_REF) == Done(Ref(0), TWO_AND_REF);
  }

  /** The original adds to y, the rewritten block to x. */
  lemma MovedPlaceExample(host: Host)
    ensures !Eval(host, Panicking, Moving(), TWO_AND_REF).Stuck?
    ensures Eval(host, Wrapping, Fold(Moving()), TWO_AND_REF) != Eval(host, Panicking, Moving(), TWO_AND_REF)
  {
    I8Range();
    MovingRuns(host);
    MovingEnds(host);
    CompoundExact(host, Moving(), TWO_AND_REF);
  }

  lemma MovingEnds(host: Host)
    ensures !Eval(host, Panicking, Moving(), TWO_AND_REF).Stuck?
  {
    I8Range();
    MovingRuns(host);
    var st' := Store(TWO_AND_REF, 2, Ref(1));
    assert st'.stack[1].1 == Int(I8, 10) && st'.stack[0].1 == Int(I8, 1);
    assert Eval(host, Panicking, Moving(), TWO_AND_REF) == Update(RawOutcome(Panicking, Add, Int(I8, 10), Int(I8, 1), st'), 1);
  }

  /** `*p += { y = 7; 2 }` writes, though not to p: not faithful by its text, yet steady. */
  lemma WritingOperandExample(host: Host)
    ensures var e := ArithAssign(Add, Deref(Var("p")), WriteThen("y", Lit(Int(I8, 7)), Int(I8, 2)));
      !Faithful(e) && Steady(host, e, TWO_AND_REF)
  {
    Lookups();
    var right := WriteThen("y", Lit(Int(I8, 7)), Int(I8, 2));
    var st' := Store(TWO_AND_REF, 1, Int(I8, 7));
    WriteThenRuns(host, "y", Lit(Int(I8, 7)), Int(I8, 2), TWO_AND_REF, 1, Int(I8, 7));
    assert FindVar(st'.stack, "p") == Some(2);
    assert Eval(host, Panicking, Var("p"), st') == Done(Ref(0), st');
    assert Eval(host, Panicking, Var("p"), TWO_AND_REF) == Done(Ref(0), TWO_AND_REF);
    NotWriteFree();
  }

  lemma NotWriteFree()
    ensures !WriteFree(WriteThen("y", Lit(Int(I8, 7)), Int(I8, 2)))
  {
    var write := Assign(Var("y"), Lit(Int(I8, 7)));
    assert !StmtWriteFree(Do(write));
    assert !StmtsWriteFree(Then(Do(write), Tail(Lit(Int(I8, 2)))));
  }

  /** `*(if true { p } else { p }) += 2` */
  function Conditional(): Expr {
    ArithAssign(Add, Deref(If(Lit(Boolean(true)), Var("p"), Var("p"))), Lit(Int(I8, 2)))
  }

  /** A place that is computed, though without effects, is covered as well. */
  lemma ComputedPlaceExample(host: Host)
    ensures !PureRead(Conditional().place) && !Faithful(Conditional()) && Steady(host, Conditional(), TWO_AND_REF)
  {
    Lookups();
    var choice := If(Lit(Boolean(true)), Var("p"), Var("p"));
    assert Eval(host, Panicking, Lit(Boolean(true)), TWO_AND_REF) == Done(Boolean(true), TWO_AND_REF);
    assert Eval(host, Panicking, Var("p"), TWO_AND_REF) == Done(Ref(0), TWO_AND_REF);
    assert Eval(host, Panicking, choice, TWO_AND_REF) == Done(Ref(0), TWO_AND_REF);
    assert Steady(host, choice, TWO_AND_REF);
    assert !PureRead(choice);
  }
}
