/** How far the checked-arithmetic rewrite reaches: nothing raw survives, a second pass
    changes nothing, and the exact edge of its faithfulness. */
module CheckedArithmeticLimits {
  import opened RustExpr
  import opened BuildModes
  import opened CheckedArithmetic

  // ---------------------------------------------------------------------------
  // Completeness
  // ---------------------------------------------------------------------------

  /** Raw arithmetic inside macros marked to be skipped. */
  function Skipped(e: Expr): nat {
    match e
    case Lit(_) => 0
    case Var(_) => 0
    case Paren(x) => Skipped(x)
    case Arith(_, l, r) => Skipped(l) + Skipped(r)
    case Other(_, l, r) => Skipped(l) + Skipped(r)
    case Assign(p, r) => Skipped(p) + Skipped(r)
    case ArithAssign(_, p, r) => Skipped(p) + Skipped(r)
    case Neg(x) => Skipped(x)
    case Not(x) => Skipped(x)
    case Deref(x) => Skipped(x)
    case AddrOf(p) => Skipped(p)
    case Call(_, args) => SkippedAll(args)
    case Macro(_, attrs, contents) =>
      if contents.Unparsable? then 0
      else if SKIP in attrs then RawAll(contents.args)
      else SkippedAll(contents.args)
    case Block(body) => SkippedStmts(body)
    case If(c, t, f) => Skipped(c) + Skipped(t) + Skipped(f)
    case Checked(_, l, r) => Skipped(l) + Skipped(r)
    case CheckedNeg(x) => Skipped(x)
    case CompileError => 0
  }

  function SkippedAll(es: Exprs): nat {
    if es.Nil? then 0 else Skipped(es.head) + SkippedAll(es.tail)
  }

  function SkippedStmts(body: Stmts): nat {
    match body
    case Tail(e) => Skipped(e)
    case Then(s, rest) => SkippedStmt(s) + SkippedStmts(rest)
  }

  function SkippedStmt(s: Stmt): nat {
    match s
    case Let(_, e) => Skipped(e)
    case LetPair(_, _, a, b) => Skipped(a) + Skipped(b)
    case Do(e) => Skipped(e)
  }

  lemma {:induction false} AppendAddsNoRaw(e: Expr)
    ensures Raw(AppendCheckedNeg(e)) == Raw(e)
  {
    match e
    case Not(x) => AppendAddsNoRaw(x);
    case Deref(x) => AppendAddsNoRaw(x);
    case AddrOf(x) => AppendAddsNoRaw(x);
    case _ =>
  }

  /** Exactly the operators inside skipped macros survive, and each of them survives. */
  lemma {:induction false} OnlySkippedSurvives(e: Expr)
    ensures Raw(Fold(e)) == Skipped(e)
  {
    match e
    case Paren(x) => OnlySkippedSurvives(x);
    case Arith(op, l, r) =>
      OnlySkippedSurvives(l);
      OnlySkippedSurvives(r);
      CheckedBlockRaw(op, Strip(Fold(l)), Strip(Fold(r)));
    case Other(_, l, r) =>
      OnlySkippedSurvives(l);
      OnlySkippedSurvives(r);
    case Assign(p, r) =>
      OnlySkippedSurvives(p);
      OnlySkippedSurvives(r);
    case ArithAssign(op, p, r) =>
      OnlySkippedSurvives(p);
      OnlySkippedSurvives(r);
      CheckedAssignBlockRaw(op, Strip(Fold(p)), Strip(Fold(r)));
    case Neg(x) =>
      OnlySkippedSurvives(x);
      AppendAddsNoRaw(Fold(x));
    case Not(x) => OnlySkippedSurvives(x);
    case Deref(x) => OnlySkippedSurvives(x);
    case AddrOf(p) => OnlySkippedSurvives(p);
    case Call(_, args) => OnlySkippedSurvivesAll(args);
    case Macro(_, attrs, contents) =>
      if SKIP !in attrs && contents.Parsed? {
        OnlySkippedSurvivesAll(contents.args);
      }
    case Block(body) => OnlySkippedSurvivesStmts(body);
    case If(c, t, f) =>
      OnlySkippedSurvives(c);
      OnlySkippedSurvives(t);
      OnlySkippedSurvives(f);
    case Checked(_, l, r) =>
      OnlySkippedSurvives(l);
      OnlySkippedSurvives(r);
    case CheckedNeg(x) => OnlySkippedSurvives(x);
    case _ =>
  }

  lemma CheckedBlockRaw(op: ArithOp, l: Expr, r: Expr)
    ensures Raw(CheckedBlock(op, l, r)) == Raw(l) + Raw(r)
  {
    var call := Checked(op, Var("left"), Var("right"));
    assert Raw(call) == 0;
    LetPairRaw(l, r, call);
  }

  lemma CheckedAssignBlockRaw(op: ArithOp, p: Expr, r: Expr)
    ensures Raw(CheckedAssignBlock(op, p, r)) == Raw(p) + Raw(r)
  {
    var target := Deref(Var("left"));
    assert Raw(target) == 0;
    var sum := Checked(op, target, Var("right"));
    assert Raw(sum) == 0;
    var assign := Assign(target, sum);
    assert Raw(assign) == 0;
    assert Raw(AddrOf(p)) == Raw(p);
    LetPairRaw(AddrOf(p), r, assign);
  }

  lemma LetPairRaw(l: Expr, r: Expr, last: Expr)
    ensures Raw(Block(Then(LetPair("left", "right", l, r), Tail(last)))) == Raw(l) + Raw(r) + Raw(last)
  {
    var rest := Tail(last);
    assert RawStmts(rest) == Raw(last);
    var bind := LetPair("left", "right", l, r);
    assert RawStmt(bind) == Raw(l) + Raw(r);
    assert RawStmts(Then(bind, rest)) == RawStmt(bind) + RawStmts(rest);
  }

  lemma {:induction false} OnlySkippedSurvivesAll(es: Exprs)
    ensures RawAll(FoldAll(es)) == SkippedAll(es)
  {
    if es.Cons? {
      OnlySkippedSurvives(es.head);
      OnlySkippedSurvivesAll(es.tail);
    }
  }

  lemma {:induction false} OnlySkippedSurvivesStmts(body: Stmts)
    ensures RawStmts(FoldStmts(body)) == SkippedStmts(body)
  {
    match body
    case Tail(e) => OnlySkippedSurvives(e);
    case Then(s, rest) =>
      OnlySkippedSurvivesStmt(s);
      OnlySkippedSurvivesStmts(rest);
  }

  lemma {:induction false} OnlySkippedSurvivesStmt(s: Stmt)
    ensures RawStmt(FoldStmt(s)) == SkippedStmt(s)
  {
    match s
    case Let(_, e) => OnlySkippedSurvives(e);
    case LetPair(_, _, a, b) =>
      OnlySkippedSurvives(a);
      OnlySkippedSurvives(b);
    case Do(e) => OnlySkippedSurvives(e);
  }

  // ---------------------------------------------------------------------------
  // A second pass
  // ---------------------------------------------------------------------------

  /** No macro is marked, outside or inside. */
  predicate NoMarks(e: Expr) {
    match e
    case Paren(x) => NoMarks(x)
    case Arith(_, l, r) => NoMarks(l) && NoMarks(r)
    case Other(_, l, r) => NoMarks(l) && NoMarks(r)
    case Assign(p, r) => NoMarks(p) && NoMarks(r)
    case ArithAssign(_, p, r) => NoMarks(p) && NoMarks(r)
    case Neg(x) => NoMarks(x)
    case Not(x) => NoMarks(x)
    case Deref(x) => NoMarks(x)
    case AddrOf(p) => NoMarks(p)
    case Call(_, args) => NoMarksAll(args)
    case Macro(_, attrs, contents) => SKIP !in attrs && (contents.Parsed? ==> NoMarksAll(contents.args))
    case Block(body) => NoMarksStmts(body)
    case If(c, t, f) => NoMarks(c) && NoMarks(t) && NoMarks(f)
    case Checked(_, l, r) => NoMarks(l) && NoMarks(r)
    case CheckedNeg(x) => NoMarks(x)
    case _ => true
  }

  predicate NoMarksAll(es: Exprs) {
    es.Cons? ==> NoMarks(es.head) && NoMarksAll(es.tail)
  }

  predicate NoMarksStmts(body: Stmts) {
    match body
    case Tail(e) => NoMarks(e)
    case Then(s, rest) => NoMarksStmt(s) && NoMarksStmts(rest)
  }

  predicate NoMarksStmt(s: Stmt) {
    match s
    case Let(_, e) => NoMarks(e)
    case LetPair(_, _, a, b) => NoMarks(a) && NoMarks(b)
    case Do(e) => NoMarks(e)
  }

  /** Nothing left for the rewrite to do. */
  predicate Clean(e: Expr) {
    match e
    case Lit(_) => true
    case Var(_) => true
    case Paren(x) => Clean(x)
    case Arith(_, _, _) => false
    case Other(_, l, r) => Clean(l) && Clean(r)
    case Assign(p, r) => Clean(p) && Clean(r)
    case ArithAssign(_, _, _) => false
    case Neg(_) => false
    case Not(x) => Clean(x)
    case Deref(x) => Clean(x)
    case AddrOf(p) => Clean(p)
    case Call(_, args) => CleanAll(args)
    case Macro(_, attrs, contents) => SKIP !in attrs && contents.Parsed? && CleanAll(contents.args)
    case Block(body) => CleanStmts(body)
    case If(c, t, f) => Clean(c) && Clean(t) && Clean(f)
    case Checked(_, l, r) => Clean(l) && Clean(r)
    case CheckedNeg(x) => Clean(x)
    case CompileError => true
  }

  predicate CleanAll(es: Exprs) {
    es.Cons? ==> Clean(es.head) && CleanAll(es.tail)
  }

  predicate CleanStmts(body: Stmts) {
    match body
    case Tail(e) => Clean(e)
    case Then(s, rest) => CleanStmt(s) && CleanStmts(rest)
  }

  predicate CleanStmt(s: Stmt) {
    match s
    case Let(_, e) => Clean(e)
    case LetPair(_, _, a, b) => Clean(a) && Clean(b)
    case Do(e) => Clean(e)
  }

  lemma {:induction false} AppendStaysClean(e: Expr)
    requires Clean(e)
    ensures Clean(AppendCheckedNeg(e))
  {
    match e
    case Not(x) => AppendStaysClean(x);
    case Deref(x) => AppendStaysClean(x);
    case AddrOf(x) => AppendStaysClean(x);
    case _ =>
  }

  lemma CheckedBlockClean(op: ArithOp, l: Expr, r: Expr)
    requires Clean(l) && Clean(r)
    ensures Clean(CheckedBlock(op, l, r)) && Clean(CheckedAssignBlock(op, l, r))
  {
    var call := Checked(op, Var("left"), Var("right"));
    assert Clean(call);
    var target := Deref(Var("left"));
    var assign := Assign(target, Checked(op, target, Var("right")));
    assert Clean(assign);
    assert CleanStmts(Tail(call)) && CleanStmts(Tail(assign));
    assert Clean(AddrOf(l));
    assert CleanStmt(LetPair("left", "right", l, r)) && CleanStmt(LetPair("left", "right", AddrOf(l), r));
    assert CleanStmts(Then(LetPair("left", "right", l, r), Tail(call)));
    assert CleanStmts(Then(LetPair("left", "right", AddrOf(l), r), Tail(assign)));
  }

  lemma {:induction false} FoldIsClean(e: Expr)
    requires NoMarks(e)
    ensures Clean(Fold(e))
  {
    match e
    case Paren(x) => FoldIsClean(x);
    case Arith(op, l, r) =>
      FoldIsClean(l);
      FoldIsClean(r);
      CheckedBlockClean(op, Strip(Fold(l)), Strip(Fold(r)));
    case Other(_, l, r) =>
      FoldIsClean(l);
      FoldIsClean(r);
    case Assign(p, r) =>
      FoldIsClean(p);
      FoldIsClean(r);
    case ArithAssign(op, p, r) =>
      FoldIsClean(p);
      FoldIsClean(r);
      CheckedBlockClean(op, Strip(Fold(p)), Strip(Fold(r)));
    case Neg(x) =>
      FoldIsClean(x);
      AppendStaysClean(Fold(x));
    case Not(x) => FoldIsClean(x);
    case Deref(x) => FoldIsClean(x);
    case AddrOf(p) => FoldIsClean(p);
    case Call(_, args) => FoldAllIsClean(args);
    case Macro(_, _, contents) =>
      if contents.Parsed? {
        FoldAllIsClean(contents.args);
      }
    case Block(body) => FoldStmtsIsClean(body);
    case If(c, t, f) =>
      FoldIsClean(c);
      FoldIsClean(t);
      FoldIsClean(f);
    case Checked(_, l, r) =>
      FoldIsClean(l);
      FoldIsClean(r);
    case CheckedNeg(x) => FoldIsClean(x);
    case _ =>
  }

  lemma {:induction false} FoldAllIsClean(es: Exprs)
    requires NoMarksAll(es)
    ensures CleanAll(FoldAll(es))
  {
    if es.Cons? {
      FoldIsClean(es.head);
      FoldAllIsClean(es.tail);
    }
  }

  lemma {:induction false} FoldStmtsIsClean(body: Stmts)
    requires NoMarksStmts(body)
    ensures CleanStmts(FoldStmts(body))
  {
    match body
    case Tail(e) => FoldIsClean(e);
    case Then(s, rest) =>
      FoldStmtIsClean(s);
      FoldStmtsIsClean(rest);
  }

  lemma {:induction false} FoldStmtIsClean(s: Stmt)
    requires NoMarksStmt(s)
    ensures CleanStmt(FoldStmt(s))
  {
    match s
    case Let(_, e) => FoldIsClean(e);
    case LetPair(_, _, a, b) =>
      FoldIsClean(a);
      FoldIsClean(b);
    case Do(e) => FoldIsClean(e);
  }

  /** The rewrite leaves a clean program alone, and is faithful to it. */
  lemma {:induction false} CleanIsFixed(e: Expr)
    requires Clean(e)
    ensures Fold(e) == e && Faithful(e)
  {
    match e
    case Paren(x) => CleanIsFixed(x);
    case Other(_, l, r) =>
      CleanIsFixed(l);
      CleanIsFixed(r);
    case Assign(p, r) =>
      CleanIsFixed(p);
      CleanIsFixed(r);
    case Not(x) => CleanIsFixed(x);
    case Deref(x) => CleanIsFixed(x);
    case AddrOf(p) => CleanIsFixed(p);
    case Call(_, args) => CleanAllIsFixed(args);
    case Macro(_, _, contents) => CleanAllIsFixed(contents.args);
    case Block(body) => CleanStmtsIsFixed(body);
    case If(c, t, f) =>
      CleanIsFixed(c);
      CleanIsFixed(t);
      CleanIsFixed(f);
    case Checked(_, l, r) =>
      CleanIsFixed(l);
      CleanIsFixed(r);
    case CheckedNeg(x) => CleanIsFixed(x);
    case _ =>
  }

  lemma {:induction false} CleanAllIsFixed(es: Exprs)
    requires CleanAll(es)
    ensures FoldAll(es) == es && AllFaithful(es)
  {
    if es.Cons? {
      CleanIsFixed(es.head);
      CleanAllIsFixed(es.tail);
    }
  }

  lemma {:induction false} CleanStmtsIsFixed(body: Stmts)
    requires CleanStmts(body)
    ensures FoldStmts(body) == body && StmtsFaithful(body)
  {
    match body
    case Tail(e) => CleanIsFixed(e);
    case Then(s, rest) =>
      CleanStmtIsFixed(s);
      CleanStmtsIsFixed(rest);
  }

  lemma {:induction false} CleanStmtIsFixed(s: Stmt)
    requires CleanStmt(s)
    ensures FoldStmt(s) == s && StmtFaithful(s)
  {
    match s
    case Let(_, e) => CleanIsFixed(e);
    case LetPair(_, _, a, b) =>
      CleanIsFixed(a);
      CleanIsFixed(b);
    case Do(e) => CleanIsFixed(e);
  }

  /** On programs without marked macros the rewrite is idempotent. */
  lemma FoldTwice(e: Expr)
    requires NoMarks(e)
    ensures Fold(Fold(e)) == Fold(e)
  {
    FoldIsClean(e);
    CleanIsFixed(Fold(e));
  }

  /** With nothing raw inside skipped macros, the result no longer depends on how the build treats
      overflow. */
  lemma BuildIndependent(host: Host, e: Expr, st: State)
    requires Skipped(e) == 0
    ensures Eval(host, Wrapping, Fold(e), st) == Eval(host, Panicking, Fold(e), st)
  {
    OnlySkippedSurvives(e);
    BuildsAgree(host, Fold(e), st);
  }

  // ---------------------------------------------------------------------------
  // The edge of faithfulness
  // ---------------------------------------------------------------------------

  /** The prefix operators in front contain no `&`. */
  predicate NoBorrow(e: Expr) {
    match e
    case Not(x) => NoBorrow(x)
    case Deref(x) => NoBorrow(x)
    case AddrOf(_) => false
    case _ => true
  }

  /** Appended behind a dereference, the call lands on a reference. */
  lemma {:induction false} AppendOnReference(host: Host, f: Expr, st: State)
    requires NoBorrow(f) && Eval(host, Wrapping, f, st).Done? && Eval(host, Wrapping, f, st).v.Ref?
    ensures Eval(host, Wrapping, AppendCheckedNeg(f), st).Stuck?
  {
    match f
    case Deref(x) =>
      AppendOnReference(host, x, st);
    case Not(x) =>
    case _ =>
  }

  /** What the appended call computes behind prefix operators, on a signed operand. */
  lemma {:induction false} AppendBehindPrefix(host: Host, f: Expr, st: State)
    requires NoBorrow(f) && !EvenNots(f)
    requires var o := Eval(host, Wrapping, f, st); o.Done? && o.v.Int? && o.v.ty.signed && InRange(o.v.ty, o.v.n)
    ensures var o := Eval(host, Wrapping, f, st); Eval(host, Wrapping, AppendCheckedNeg(f), st) != CheckedNegOutcome(o.v, o.st)
  {
    if f.Deref? {
      AppendOnReference(host, f.operand, st);
    } else if EvenNots(f.operand) {
      NegThroughNots(host, f.operand, st);
    } else if f.operand.Not? {
      var y := f.operand.operand;
      var o := Eval(host, Wrapping, y, st);
      assert Eval(host, Wrapping, Not(y), st) == if o.Done? then NotOutcome(o.v, o.st) else o;
      AppendBehindPrefix(host, y, st);
      var o' := Eval(host, Wrapping, AppendCheckedNeg(y), st);
      assert Eval(host, Wrapping, Not(AppendCheckedNeg(y)), st) == if o'.Done? then NotOutcome(o'.v, o'.st) else o';
    } else {
      AppendOnReference(host, f.operand.operand, st);
    }
  }

  lemma {:induction false} FoldKeepsPrefix(host: Host, x: Expr, st: State)
    requires NoBorrow(x) && Steady(host, x, st)
    ensures NoBorrow(Fold(x)) && (EvenNots(Fold(x)) <==> EvenNots(x))
  {
    match x
    case Not(y) =>
      FoldKeepsPrefix(host, y, st);
      if EvenNots(y) {
        OneMoreNot(y);
        OneMoreNot(Fold(y));
      } else if y.Not? {
        FoldKeepsPrefix(host, y.operand, st);
      }
    case Deref(y) => FoldKeepsPrefix(host, y, st);
    case Neg(y) =>
      FoldEvenNots(host, x, st);
      EvenNotsBorrowNothing(Fold(x));
    case _ =>
  }

  lemma {:induction false} OneMoreNot(f: Expr)
    requires EvenNots(f)
    ensures !EvenNots(Not(f))
  {
    if IsPrefix(f) {
      OneMoreNot(f.operand.operand);
    }
  }

  lemma {:induction false} EvenNotsBorrowNothing(f: Expr)
    requires EvenNots(f)
    ensures NoBorrow(f)
  {
    if IsPrefix(f) {
      EvenNotsBorrowNothing(f.operand.operand);
    }
  }

  /** Negation is rewritten correctly exactly when the operand does not begin with a prefix
      operator, or begins with an even run of `!`: for every other operand without a borrow, and
      on every run in which it has a value, the rewritten program does something else. */
  lemma NegationExact(host: Host, x: Expr, st: State)
    requires Steady(host, x, st) && NoBorrow(x)
    requires var o := Eval(host, Panicking, x, st); o.Done? && o.v.Int? && o.v.ty.signed && InRange(o.v.ty, o.v.n)
    ensures Eval(host, Wrapping, Fold(Neg(x)), st) == Eval(host, Panicking, Neg(x), st) <==> EvenNots(x)
  {
    Preserves(host, x, st);
    FoldKeepsPrefix(host, x, st);
    if EvenNots(x) {
      Preserves(host, Neg(x), st);
    } else {
      AppendBehindPrefix(host, Fold(x), st);
    }
  }

  /** The checked result changes nothing where it is stored. */
  predicate Idle(o: Outcome, addr: nat) {
    o.Done? && addr < |o.st.stack| && o.v == o.st.stack[addr].1
  }

  /** A compound assignment whose place is found without effects, before and after the right operand,
      is rewritten correctly exactly when the right operand does not move the place, or the two slots
      make no difference: both results panic, or both leave their slot as it was. */
  lemma CompoundExact(host: Host, e: Expr, st: State)
    requires e.ArithAssign? && SteadyPlace(host, e.place, st) && QuietPlace(host, e.place, st)
    requires Steady(host, e.right, st) && Eval(host, Panicking, e.right, st).Done?
    requires QuietPlace(host, e.place, Eval(host, Panicking, e.right, st).st) && !Eval(host, Panicking, e, st).Stuck?
    ensures var b := Eval(host, Panicking, e.right, st);
      var a, a' := Locate(host, Panicking, e.place, st).addr, Locate(host, Panicking, e.place, b.st).addr;
      && a < |b.st.stack| && a' < |b.st.stack|
      && var o := CheckedOutcome(e.op, b.st.stack[a].1, b.v, b.st);
         var o' := CheckedOutcome(e.op, b.st.stack[a'].1, b.v, b.st);
         (Eval(host, Wrapping, Fold(e), st) == Eval(host, Panicking, e, st) <==>
          || a == a'
          || (o.Panicked? && o'.Panicked?)
          || (Idle(o, a) && Idle(o', a')))
  {
    CompoundRuns(host, e, st);
    var b := Eval(host, Panicking, e.right, st);
    var a, a' := Locate(host, Panicking, e.place, st).addr, Locate(host, Panicking, e.place, b.st).addr;
    var o := CheckedOutcome(e.op, b.st.stack[a].1, b.v, b.st);
    var o' := CheckedOutcome(e.op, b.st.stack[a'].1, b.v, b.st);
    if a != a' && o.Done? && o'.Done? {
      StoresDiffer(b.st, a, o.v, a', o'.v);
    }
  }

  lemma StoresDiffer(st: State, a: nat, v: Value, a': nat, v': Value)
    requires a < |st.stack| && a' < |st.stack| && a != a'
    ensures Store(st, a, v) == Store(st, a', v') <==> v == st.stack[a].1 && v' == st.stack[a'].1
  {
    var s, s' := Store(st, a, v).stack, Store(st, a', v').stack;
    assert s[a] == (st.stack[a].0, v) && s'[a] == st.stack[a];
    assert s[a'] == st.stack[a'] && s'[a'] == (st.stack[a'].0, v');
    if v == st.stack[a].1 && v' == st.stack[a'].1 {
      assert s == st.stack && s' == st.stack;
    }
  }

  /** A skipped macro runs as before exactly when its arguments do the same in both builds, that
      is, when nothing inside overflows. */
  lemma SkippedExact(host: Host, e: Expr, st: State)
    requires e.Macro? && SKIP in e.attrs && e.contents.Parsed?
    requires !Eval(host, Panicking, e, st).Stuck?
    ensures Eval(host, Wrapping, Fold(e), st) == Eval(host, Panicking, e, st) <==>
      EvalAll(host, Panicking, e.contents.args, st) == EvalAll(host, Wrapping, e.contents.args, st)
  {
    BuildsAgreeAll(host, e.contents.args, st);
  }
}
