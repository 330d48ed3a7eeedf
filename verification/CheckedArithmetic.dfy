/** The rewrite that turns raw arithmetic into checked arithmetic, and what it preserves. */
module CheckedArithmetic {
  import opened Wrappers
  import opened RustExpr
  import opened BuildModes

  // ---------------------------------------------------------------------------
  // The fold
  // ---------------------------------------------------------------------------

  /** The attribute list without the first skip marker. */
  function Unmarked(attrs: seq<string>): seq<string> {
    if attrs == [] then []
    else if attrs[0] == SKIP then attrs[1..]
    else [attrs[0]] + Unmarked(attrs[1..])
  }

  /** Finds the skip marker and removes it. */
  method MaybeSkipMacro(attrs: seq<string>) returns (skip: bool, attrs': seq<string>)
    ensures skip <==> SKIP in attrs
    ensures attrs' == Unmarked(attrs)
    ensures multiset(attrs') == multiset(attrs) - multiset{SKIP}
  {
    skip, attrs' := RemoveMarker(attrs);
    UnmarkedLosesOne(attrs);
  }

  method RemoveMarker(attrs: seq<string>) returns (found: bool, attrs': seq<string>)
    ensures found <==> SKIP in attrs
    ensures attrs' == Unmarked(attrs)
  {
    var i := 0;
    while i < |attrs| && attrs[i] != SKIP
      invariant 0 <= i <= |attrs| && SKIP !in attrs[..i]
    {
      i := i + 1;
    }
    if i == |attrs| {
      NoMarkerYet(attrs, i);
      assert attrs[..i] == attrs;
      return false, attrs;
    }
    NoMarkerYet(attrs, i);
    return true, attrs[..i] + attrs[i + 1..];
  }

  /** Up to the first marker nothing changes. */
  lemma {:induction false} NoMarkerYet(attrs: seq<string>, i: nat)
    requires i <= |attrs| && SKIP !in attrs[..i]
    ensures i == |attrs| ==> Unmarked(attrs) == attrs
    ensures i < |attrs| && attrs[i] == SKIP ==> Unmarked(attrs) == attrs[..i] + attrs[i + 1..]
    decreases |attrs|
  {
    if i > 0 {
      assert attrs[0] == attrs[..i][0];
      assert attrs[1..][..i - 1] == attrs[..i][1..];
      NoMarkerYet(attrs[1..], i - 1);
    }
  }

  lemma {:induction false} UnmarkedLosesOne(attrs: seq<string>)
    ensures multiset(Unmarked(attrs)) == multiset(attrs) - multiset{SKIP}
  {
    if attrs != [] {
      assert attrs == [attrs[0]] + attrs[1..];
      if attrs[0] != SKIP {
        UnmarkedLosesOne(attrs[1..]);
      }
    }
  }

  function Strip(e: Expr): Expr {
    if e.Paren? then e.inner else e
  }

  /** `{ let (left, right) = (l, r); left.checked_op(right).unwrap_or_else(..) }` */
  function CheckedBlock(op: ArithOp, l: Expr, r: Expr): Expr {
    Block(Then(LetPair("left", "right", l, r), Tail(Checked(op, Var("left"), Var("right")))))
  }

  /** `{ let (left, right) = (&mut p, r); *left = (*left).checked_op(right).unwrap_or_else(..) }` */
  function CheckedAssignBlock(op: ArithOp, p: Expr, r: Expr): Expr {
    Block(Then(LetPair("left", "right", AddrOf(p), r),
               Tail(Assign(Deref(Var("left")), Checked(op, Deref(Var("left")), Var("right"))))))
  }

  predicate IsPrefix(e: Expr) {
    e.Not? || e.Deref? || e.AddrOf?
  }

  /** Any prefix operators at the front are an even number of `!`. */
  predicate EvenNots(e: Expr) {
    !IsPrefix(e) || (e.Not? && e.operand.Not? && EvenNots(e.operand.operand))
  }

  /** The method call is appended to the operand's tokens without parentheses, so it binds to
      what a prefix operator applies to. */
  function AppendCheckedNeg(e: Expr): Expr {
    match e
    case Not(x) => Not(AppendCheckedNeg(x))
    case Deref(x) => Deref(AppendCheckedNeg(x))
    case AddrOf(x) => AddrOf(AppendCheckedNeg(x))
    case _ => CheckedNeg(e)
  }

  function Fold(e: Expr): Expr {
    match e
    case Lit(_) => e
    case Var(_) => e
    case Paren(inner) => Paren(Fold(inner))
    case Arith(op, l, r) => CheckedBlock(op, Strip(Fold(l)), Strip(Fold(r)))
    case Other(op, l, r) => Other(op, Fold(l), Fold(r))
    case Assign(p, r) => Assign(Fold(p), Fold(r))
    case ArithAssign(op, p, r) => CheckedAssignBlock(op, Strip(Fold(p)), Strip(Fold(r)))
    case Neg(x) => AppendCheckedNeg(Fold(x))
    case Not(x) => Not(Fold(x))
    case Deref(x) => Deref(Fold(x))
    case AddrOf(p) => AddrOf(Fold(p))
    case Call(fn, args) => Call(fn, FoldAll(args))
    case Macro(name, attrs, contents) =>
      if SKIP in attrs then Macro(name, Unmarked(attrs), contents)
      else (match contents
            case Parsed(args) => Macro(name, attrs, Parsed(FoldAll(args)))
            case Unparsable(_) => CompileError)
    case Block(body) => Block(FoldStmts(body))
    case If(c, t, f) => If(Fold(c), Fold(t), Fold(f))
    case Checked(op, l, r) => Checked(op, Fold(l), Fold(r))
    case CheckedNeg(x) => CheckedNeg(Fold(x))
    case CompileError => e
  }

  function FoldAll(es: Exprs): Exprs {
    match es
    case Nil => Nil
    case Cons(e, rest) => Cons(Fold(e), FoldAll(rest))
  }

  function FoldStmts(body: Stmts): Stmts {
    match body
    case Tail(e) => Tail(Fold(e))
    case Then(s, rest) => Then(FoldStmt(s), FoldStmts(rest))
  }

  function FoldStmt(s: Stmt): Stmt {
    match s
    case Let(x, e) => Let(x, Fold(e))
    case LetPair(x, y, a, b) => LetPair(x, y, Fold(a), Fold(b))
    case Do(e) => Do(Fold(e))
  }

  // ---------------------------------------------------------------------------
  // Programs the rewrite is faithful on
  // ---------------------------------------------------------------------------

  predicate IsVarPlace(p: Expr) {
    p.Var? || (p.Paren? && IsVarPlace(p.inner))
  }

  /** No assignment anywhere inside. */
  predicate WriteFree(e: Expr) {
    match e
    case Lit(_) => true
    case Var(_) => true
    case Paren(x) => WriteFree(x)
    case Arith(_, l, r) => WriteFree(l) && WriteFree(r)
    case Other(_, l, r) => WriteFree(l) && WriteFree(r)
    case Assign(_, _) => false
    case ArithAssign(_, _, _) => false
    case Neg(x) => WriteFree(x)
    case Not(x) => WriteFree(x)
    case Deref(x) => WriteFree(x)
    case AddrOf(p) => WriteFree(p)
    case Call(_, args) => AllWriteFree(args)
    case Macro(_, _, contents) => contents.Parsed? ==> AllWriteFree(contents.args)
    case Block(body) => StmtsWriteFree(body)
    case If(c, t, f) => WriteFree(c) && WriteFree(t) && WriteFree(f)
    case Checked(_, l, r) => WriteFree(l) && WriteFree(r)
    case CheckedNeg(x) => WriteFree(x)
    case CompileError => true
  }

  predicate AllWriteFree(es: Exprs) {
    es.Cons? ==> WriteFree(es.head) && AllWriteFree(es.tail)
  }

  predicate StmtsWriteFree(body: Stmts) {
    match body
    case Tail(e) => WriteFree(e)
    case Then(s, rest) => StmtWriteFree(s) && StmtsWriteFree(rest)
  }

  predicate StmtWriteFree(s: Stmt) {
    match s
    case Let(_, e) => WriteFree(e)
    case LetPair(_, _, a, b) => WriteFree(a) && WriteFree(b)
    case Do(e) => WriteFree(e)
  }

  /** Taking the place before or after the right operand makes no difference: it is a variable,
      or it only reads and the right operand does not write. */
  predicate StablePlace(p: Expr, r: Expr) {
    IsVarPlace(p) || (PureRead(p) && WriteFree(r))
  }

  /** What can be read off the text: no negated prefix expression other than an even run of `!`, no
      compound assignment to an unstable place, no unmarked macro whose contents do not parse, and
      nothing raw inside skipped macros. */
  predicate Faithful(e: Expr) {
    match e
    case Lit(_) => true
    case Var(_) => true
    case Paren(x) => Faithful(x)
    case Arith(_, l, r) => Faithful(l) && Faithful(r)
    case Other(_, l, r) => Faithful(l) && Faithful(r)
    case Assign(p, r) => Faithful(p) && Faithful(r)
    case ArithAssign(_, p, r) => Faithful(p) && Faithful(r) && StablePlace(p, r)
    case Neg(x) => Faithful(x) && EvenNots(x)
    case Not(x) => Faithful(x)
    case Deref(x) => Faithful(x)
    case AddrOf(p) => Faithful(p)
    case Call(_, args) => AllFaithful(args)
    case Macro(_, attrs, contents) =>
      if SKIP in attrs then contents.Parsed? ==> RawAll(contents.args) == 0
      else contents.Parsed? && AllFaithful(contents.args)
    case Block(body) => StmtsFaithful(body)
    case If(c, t, f) => Faithful(c) && Faithful(t) && Faithful(f)
    case Checked(_, l, r) => Faithful(l) && Faithful(r)
    case CheckedNeg(x) => Faithful(x)
    case CompileError => true
  }

  predicate AllFaithful(es: Exprs) {
    es.Cons? ==> Faithful(es.head) && AllFaithful(es.tail)
  }

  predicate StmtsFaithful(body: Stmts) {
    match body
    case Tail(e) => Faithful(e)
    case Then(s, rest) => StmtFaithful(s) && StmtsFaithful(rest)
  }

  predicate StmtFaithful(s: Stmt) {
    match s
    case Let(_, e) => Faithful(e)
    case LetPair(_, _, a, b) => Faithful(a) && Faithful(b)
    case Do(e) => Faithful(e)
  }

  // ---------------------------------------------------------------------------
  // Runs the rewrite is faithful on
  // ---------------------------------------------------------------------------

  /** Finding the place has no effects. */
  predicate QuietPlace(host: Host, p: Expr, st: State) {
    var q := Locate(host, Panicking, p, st);
    q.At? && q.st == st
  }

  /** The place is found without effects before and after, and is the same slot.  (A place that only
      reads and is not found means that the program is ill-typed.) */
  predicate SameSlot(host: Host, p: Expr, st: State, st': State) {
    || (PureRead(p) && !QuietPlace(host, p, st))
    || (QuietPlace(host, p, st) && Locate(host, Panicking, p, st') == At(Locate(host, Panicking, p, st).addr, st'))
  }

  /** Along the original's run: negations have a good operand, the place of a compound assignment is
      found without effects and is not moved by the right operand, and the arguments of skipped
      macros do the same in both builds. */
  predicate Steady(host: Host, e: Expr, st: State)
    decreases e, 1
  {
    match e
    case Lit(_) => true
    case Var(_) => true
    case Paren(x) => Steady(host, x, st)
    case Arith(_, l, r) =>
      var a := Eval(host, Panicking, l, st);
      Steady(host, l, st) && (a.Done? ==> Steady(host, r, a.st))
    case Other(op, l, r) =>
      var a := Eval(host, Panicking, l, st);
      Steady(host, l, st) && (a.Done? && !(op.And? && a.v == Boolean(false)) ==> Steady(host, r, a.st))
    case Assign(p, r) =>
      var b := Eval(host, Panicking, r, st);
      Steady(host, r, st) && (b.Done? ==> SteadyPlace(host, p, b.st))
    case ArithAssign(_, p, r) =>
      var b := Eval(host, Panicking, r, st);
      && SteadyPlace(host, p, st) && Steady(host, r, st) && (PureRead(p) || QuietPlace(host, p, st))
      && (b.Done? ==> SameSlot(host, p, st, b.st))
    case Neg(x) => EvenNots(x) && Steady(host, x, st)
    case Not(x) => Steady(host, x, st)
    case Deref(x) => Steady(host, x, st)
    case AddrOf(p) => SteadyPlace(host, p, st)
    case Call(_, args) => SteadyAll(host, args, st)
    case Macro(_, attrs, contents) =>
      if SKIP in attrs then contents.Parsed? ==> EvalAll(host, Panicking, contents.args, st) == EvalAll(host, Wrapping, contents.args, st)
      else contents.Parsed? && SteadyAll(host, contents.args, st)
    case Block(body) => SteadyStmts(host, body, st)
    case If(c, t, f) =>
      var a := Eval(host, Panicking, c, st);
      Steady(host, c, st) && (a.Done? && a.v.Boolean? ==> Steady(host, if a.v.b then t else f, a.st))
    case Checked(_, l, r) =>
      var a := Eval(host, Panicking, l, st);
      Steady(host, l, st) && (a.Done? ==> Steady(host, r, a.st))
    case CheckedNeg(x) => Steady(host, x, st)
    case CompileError => true
  }

  predicate SteadyPlace(host: Host, p: Expr, st: State)
    decreases p, 0
  {
    match p
    case Paren(x) => SteadyPlace(host, x, st)
    case Deref(x) => Steady(host, x, st)
    case _ => true
  }

  predicate SteadyAll(host: Host, es: Exprs, st: State)
    decreases es, 0
  {
    es.Cons? ==>
      var a := Eval(host, Panicking, es.head, st);
      Steady(host, es.head, st) && (a.Done? ==> SteadyAll(host, es.tail, a.st))
  }

  predicate SteadyStmts(host: Host, body: Stmts, st: State)
    decreases body, 0
  {
    match body
    case Tail(e) => Steady(host, e, st)
    case Then(s, rest) =>
      var o := EvalStmt(host, Panicking, s, st);
      SteadyStmt(host, s, st) && (o.Done? ==> SteadyStmts(host, rest, o.st))
  }

  predicate SteadyStmt(host: Host, s: Stmt, st: State)
    decreases s, 0
  {
    match s
    case Let(_, e) => Steady(host, e, st)
    case LetPair(_, _, first, second) =>
      var a := Eval(host, Panicking, first, st);
      Steady(host, first, st) && (a.Done? ==> Steady(host, second, a.st))
    case Do(e) => Steady(host, e, st)
  }

  // ---------------------------------------------------------------------------
  // Scopes
  // ---------------------------------------------------------------------------

  /** The same variables in the same slots, with the same values unless something was assigned. */
  predicate Kept(writeFree: bool, s: seq<(string, Value)>, t: seq<(string, Value)>) {
    && |s| == |t|
    && (forall i :: 0 <= i < |s| ==> s[i].0 == t[i].0)
    && (writeFree ==> s == t)
  }

  /** Evaluation leaves the scope as it found it. */
  lemma {:induction false} ScopeOfExpr(host: Host, mode: Mode, e: Expr, st: State)
    ensures var o := Eval(host, mode, e, st); o.Done? ==> Kept(WriteFree(e), st.stack, o.st.stack)
    decreases e, 3
  {
    if e.Assign? || e.ArithAssign? {
      ScopeOfWrite(host, mode, e, st);
    } else if e.Arith? || e.Other? || e.Checked? {
      ScopeOfPair(host, mode, e, e.left, e.right, st);
    } else if e.Paren? || e.Neg? || e.Not? || e.Deref? || e.CheckedNeg? {
      ScopeOfUnary(host, mode, e, st);
    } else {
      ScopeOfCompound(host, mode, e, st);
    }
  }

  lemma ScopeOfUnary(host: Host, mode: Mode, e: Expr, st: State)
    requires e.Paren? || e.Neg? || e.Not? || e.Deref? || e.CheckedNeg?
    ensures var o := Eval(host, mode, e, st); o.Done? ==> Kept(WriteFree(e), st.stack, o.st.stack)
    decreases e, 2
  {
    ScopeOfExpr(host, mode, if e.Paren? then e.inner else e.operand, st);
  }

  lemma ScopeOfWrite(host: Host, mode: Mode, e: Expr, st: State)
    requires e.Assign? || e.ArithAssign?
    ensures var o := Eval(host, mode, e, st); o.Done? ==> Kept(false, st.stack, o.st.stack)
    decreases e, 2
  {
    ScopeOfTarget(host, mode, e, e.place, e.right, st);
  }

  lemma ScopeOfCompound(host: Host, mode: Mode, e: Expr, st: State)
    requires e.Lit? || e.Var? || e.AddrOf? || e.Call? || e.Macro? || e.Block? || e.If? || e.CompileError?
    ensures var o := Eval(host, mode, e, st); o.Done? ==> Kept(WriteFree(e), st.stack, o.st.stack)
    decreases e, 2
  {
    match e
    case AddrOf(p) => ScopeOfPlace(host, mode, p, st);
    case Call(_, args) => ScopeOfAll(host, mode, args, st);
    case Macro(_, attrs, contents) =>
      if contents.Parsed? {
        ScopeOfAll(host, mode, contents.args, st);
      }
    case Block(body) => ScopeOfStmts(host, mode, body, st);
    case If(c, t, f) =>
      ScopeOfPair(host, mode, e, c, t, st);
      ScopeOfPair(host, mode, e, c, f, st);
    case _ =>
  }

  lemma ScopeOfPair(host: Host, mode: Mode, parent: Expr, l: Expr, r: Expr, st: State)
    requires l < parent && r < parent
    ensures var a := Eval(host, mode, l, st);
      && (a.Done? ==> Kept(WriteFree(l), st.stack, a.st.stack))
      && (a.Done? && Eval(host, mode, r, a.st).Done? ==>
          Kept(WriteFree(l) && WriteFree(r), st.stack, Eval(host, mode, r, a.st).st.stack))
    decreases parent, 1
  {
    ScopeOfExpr(host, mode, l, st);
    if Eval(host, mode, l, st).Done? {
      ScopeOfExpr(host, mode, r, Eval(host, mode, l, st).st);
    }
  }

  lemma ScopeOfTarget(host: Host, mode: Mode, parent: Expr, p: Expr, r: Expr, st: State)
    requires p < parent && r < parent
    ensures var b := Eval(host, mode, r, st);
      && (b.Done? ==> Kept(WriteFree(r), st.stack, b.st.stack))
      && (b.Done? && Locate(host, mode, p, b.st).At? ==>
          var q := Locate(host, mode, p, b.st); Kept(false, st.stack, q.st.stack) && q.addr < |st.stack|)
    decreases parent, 1
  {
    ScopeOfExpr(host, mode, r, st);
    if Eval(host, mode, r, st).Done? {
      ScopeOfPlace(host, mode, p, Eval(host, mode, r, st).st);
    }
  }

  lemma {:induction false} ScopeOfPlace(host: Host, mode: Mode, p: Expr, st: State)
    ensures var q := Locate(host, mode, p, st);
      q.At? ==> Kept(WriteFree(p), st.stack, q.st.stack) && q.addr < |st.stack|
    decreases p, 0
  {
    match p
    case Paren(x) => ScopeOfPlace(host, mode, x, st);
    case Deref(x) => ScopeOfExpr(host, mode, x, st);
    case _ =>
  }

  lemma {:induction false} ScopeOfAll(host: Host, mode: Mode, es: Exprs, st: State)
    ensures var o := EvalAll(host, mode, es, st); o.All? ==> Kept(AllWriteFree(es), st.stack, o.st.stack)
    decreases es, 0
  {
    if es.Cons? {
      ScopeOfExpr(host, mode, es.head, st);
      if Eval(host, mode, es.head, st).Done? {
        ScopeOfAll(host, mode, es.tail, Eval(host, mode, es.head, st).st);
      }
    }
  }

  /** Statements only add variables on top. */
  lemma {:induction false} ScopeOfStmts(host: Host, mode: Mode, body: Stmts, st: State)
    ensures var o := EvalStmts(host, mode, body, st);
      o.Done? ==> |st.stack| <= |o.st.stack| && Kept(StmtsWriteFree(body), st.stack, o.st.stack[..|st.stack|])
    decreases body, 0
  {
    match body
    case Tail(e) =>
      ScopeOfExpr(host, mode, e, st);
      if Eval(host, mode, e, st).Done? {
        var t := Eval(host, mode, e, st).st.stack;
        assert t[..|st.stack|] == t;
      }
    case Then(s, rest) =>
      ScopeOfStmt(host, mode, s, st);
      var o := EvalStmt(host, mode, s, st);
      if o.Done? {
        ScopeOfStmts(host, mode, rest, o.st);
        var o' := EvalStmts(host, mode, rest, o.st);
        if o'.Done? {
          assert o'.st.stack[..|st.stack|] == o'.st.stack[..|o.st.stack|][..|st.stack|];
        }
      }
  }

  lemma {:induction false} ScopeOfStmt(host: Host, mode: Mode, s: Stmt, st: State)
    ensures var o := EvalStmt(host, mode, s, st);
      o.Done? ==> |st.stack| <= |o.st.stack| && Kept(StmtWriteFree(s), st.stack, o.st.stack[..|st.stack|])
    decreases s, 0
  {
    var o := EvalStmt(host, mode, s, st);
    match s
    case Let(x, e) =>
      ScopeOfExpr(host, mode, e, st);
      if o.Done? {
        assert o.st.stack[..|st.stack|] == Eval(host, mode, e, st).st.stack;
      }
    case LetPair(x, y, a, b) =>
      ScopeOfExpr(host, mode, a, st);
      if Eval(host, mode, a, st).Done? {
        var st' := Eval(host, mode, a, st).st;
        ScopeOfExpr(host, mode, b, st');
        if o.Done? {
          assert o.st.stack[..|st.stack|] == Eval(host, mode, b, st').st.stack;
        }
      }
    case Do(e) =>
      ScopeOfExpr(host, mode, e, st);
      if o.Done? {
        assert o.st.stack[..|st.stack|] == o.st.stack;
      }
  }

  // ---------------------------------------------------------------------------
  // The introduced blocks
  // ---------------------------------------------------------------------------

  lemma StripEval(host: Host, mode: Mode, e: Expr, st: State)
    ensures Eval(host, mode, Strip(e), st) == Eval(host, mode, e, st)
    ensures Locate(host, mode, Strip(e), st) == Locate(host, mode, e, st)
  {
  }

  /** The two temporaries shadow whatever the program calls `left` and `right`, for the length
      of the method call only. */
  lemma TemporariesFound(stack: seq<(string, Value)>, v: Value, w: Value)
    ensures var s := stack + [("left", v), ("right", w)];
      && FindVar(s, "left") == Some(|stack|) && FindVar(s, "right") == Some(|stack| + 1)
      && s[..|stack|] == stack
  {
    var s := stack + [("left", v), ("right", w)];
    assert s[|s| - 1].0 == "right" && "right" != "left";
    assert s[..|s| - 1] == stack + [("left", v)];
  }

  /** Where the body of an introduced block runs. */
  function Inner(v: Value, w: Value, st: State): State {
    State(st.stack + [("left", v), ("right", w)], st.trace)
  }

  /** An introduced block evaluates both right-hand sides once each, left to right, in the
      caller's scope, and then its body. */
  lemma PairBlockRuns(host: Host, mode: Mode, l: Expr, r: Expr, tail: Expr, st: State)
    ensures var a := Eval(host, mode, l, st);
      Eval(host, mode, Block(Then(LetPair("left", "right", l, r), Tail(tail))), st) ==
        if !a.Done? then a
        else if !Eval(host, mode, r, a.st).Done? then Eval(host, mode, r, a.st)
        else LeaveScope(Eval(host, mode, tail, Inner(a.v, Eval(host, mode, r, a.st).v, Eval(host, mode, r, a.st).st)), |st.stack|)
  {
    var s := LetPair("left", "right", l, r);
    var body := Then(s, Tail(tail));
    var o := EvalStmt(host, mode, s, st);
    assert Eval(host, mode, Block(body), st) == LeaveScope(EvalStmts(host, mode, body, st), |st.stack|);
    assert EvalStmts(host, mode, body, st) == if !o.Done? then o else EvalStmts(host, mode, Tail(tail), o.st);
  }

  lemma TemporariesRead(host: Host, mode: Mode, v: Value, w: Value, st: State)
    ensures Eval(host, mode, Var("left"), Inner(v, w, st)) == Done(v, Inner(v, w, st))
    ensures Eval(host, mode, Var("right"), Inner(v, w, st)) == Done(w, Inner(v, w, st))
  {
    TemporariesFound(st.stack, v, w);
  }

  /** Leaving the block drops the temporaries and nothing else. */
  lemma TemporariesDropped(v: Value, w: Value, st: State, o: Outcome, o': Outcome)
    requires if o.Done? then o.st == st && o' == Done(o.v, Inner(v, w, st)) else o' == o
    ensures LeaveScope(o', |st.stack|) == o
  {
    assert Inner(v, w, st).stack[..|st.stack|] == st.stack;
  }

  lemma CheckedBodyRuns(host: Host, mode: Mode, op: ArithOp, v: Value, w: Value, st: State)
    ensures LeaveScope(Eval(host, mode, Checked(op, Var("left"), Var("right")), Inner(v, w, st)), |st.stack|) ==
      CheckedOutcome(op, v, w, st)
  {
    CheckedOfTemporaries(host, mode, op, v, w, st);
    TemporariesDropped(v, w, st, CheckedOutcome(op, v, w, st), CheckedOutcome(op, v, w, Inner(v, w, st)));
  }

  lemma CheckedOfTemporaries(host: Host, mode: Mode, op: ArithOp, v: Value, w: Value, st: State)
    ensures Eval(host, mode, Checked(op, Var("left"), Var("right")), Inner(v, w, st)) == CheckedOutcome(op, v, w, Inner(v, w, st))
  {
    TemporariesRead(host, mode, v, w, st);
  }

  lemma CheckedBlockRuns(host: Host, mode: Mode, op: ArithOp, l: Expr, r: Expr, st: State)
    ensures var a := Eval(host, mode, l, st);
      Eval(host, mode, CheckedBlock(op, l, r), st) ==
        if !a.Done? then a
        else if !Eval(host, mode, r, a.st).Done? then Eval(host, mode, r, a.st)
        else CheckedOutcome(op, a.v, Eval(host, mode, r, a.st).v, Eval(host, mode, r, a.st).st)
  {
    PairBlockRuns(host, mode, l, r, Checked(op, Var("left"), Var("right")), st);
    var a := Eval(host, mode, l, st);
    if a.Done? && Eval(host, mode, r, a.st).Done? {
      var b := Eval(host, mode, r, a.st);
      ScopeOfExpr(host, mode, l, st);
      ScopeOfExpr(host, mode, r, a.st);
      CheckedBodyRuns(host, mode, op, a.v, b.v, b.st);
    }
  }

  lemma TemporaryReads(host: Host, mode: Mode, addr: nat, w: Value, st: State)
    requires addr < |st.stack|
    ensures var inner := Inner(Ref(addr), w, st);
      && Eval(host, mode, Deref(Var("left")), inner) == Done(st.stack[addr].1, inner)
      && Locate(host, mode, Deref(Var("left")), inner) == At(addr, inner)
      && Eval(host, mode, Var("right"), inner) == Done(w, inner)
  {
    TemporariesFound(st.stack, Ref(addr), w);
    assert Eval(host, mode, Var("left"), Inner(Ref(addr), w, st)) == Done(Ref(addr), Inner(Ref(addr), w, st));
  }

  lemma AssignRuns(host: Host, mode: Mode, p: Expr, r: Expr, st: State, addr: nat)
    requires Eval(host, mode, r, st).Done? ==>
      var b := Eval(host, mode, r, st); Locate(host, mode, p, b.st) == At(addr, b.st) && addr < |b.st.stack|
    ensures var b := Eval(host, mode, r, st);
      Eval(host, mode, Assign(p, r), st) == if b.Done? then Done(Unit, Store(b.st, addr, b.v)) else b
  {
  }

  lemma CheckedAssignBodyRuns(host: Host, mode: Mode, op: ArithOp, addr: nat, w: Value, st: State)
    requires addr < |st.stack|
    ensures var target := Deref(Var("left"));
      LeaveScope(Eval(host, mode, Assign(target, Checked(op, target, Var("right"))), Inner(Ref(addr), w, st)), |st.stack|) ==
        Update(CheckedOutcome(op, st.stack[addr].1, w, st), addr)
  {
    var inner := Inner(Ref(addr), w, st);
    var target := Deref(Var("left"));
    TemporaryReads(host, mode, addr, w, st);
    var o := CheckedOutcome(op, st.stack[addr].1, w, inner);
    assert Eval(host, mode, Checked(op, target, Var("right")), inner) == o;
    AssignRuns(host, mode, target, Checked(op, target, Var("right")), inner, addr);
    if o.Done? {
      StoreBelow(st, addr, o.v, inner);
    }
  }

  lemma StoreBelow(st: State, addr: nat, v: Value, inner: State)
    requires addr < |st.stack| <= |inner.stack| && inner.stack[..|st.stack|] == st.stack
    ensures Store(inner, addr, v).stack[..|st.stack|] == Store(st, addr, v).stack
  {
    assert inner.stack[addr] == inner.stack[..|st.stack|][addr];
  }

  /** The assigning block takes the place, then the operand, and reads the place last. */
  lemma CheckedAssignBlockRuns(host: Host, mode: Mode, op: ArithOp, p: Expr, r: Expr, st: State)
    requires Locate(host, mode, p, st).At?
    ensures var q := Locate(host, mode, p, st);
      Eval(host, mode, CheckedAssignBlock(op, p, r), st) ==
        var b := Eval(host, mode, r, q.st);
        if !b.Done? then b
        else if q.addr < |b.st.stack| then Update(CheckedOutcome(op, b.st.stack[q.addr].1, b.v, b.st), q.addr)
        else Stuck
  {
    var target := Deref(Var("left"));
    PairBlockRuns(host, mode, AddrOf(p), r, Assign(target, Checked(op, target, Var("right"))), st);
    var q := Locate(host, mode, p, st);
    assert Eval(host, mode, AddrOf(p), st) == Done(Ref(q.addr), q.st);
    var b := Eval(host, mode, r, q.st);
    if b.Done? {
      ScopeOfPlace(host, mode, p, st);
      ScopeOfExpr(host, mode, r, q.st);
      CheckedAssignBodyRuns(host, mode, op, q.addr, b.v, b.st);
    }
  }

  /** Panicking raw arithmetic is checked arithmetic whose `None` panics. */
  lemma RawIsChecked(op: ArithOp, v: Value, w: Value, st: State)
    ensures RawOutcome(Panicking, op, v, w, st) == CheckedOutcome(op, v, w, st)
  {
  }

  // ---------------------------------------------------------------------------
  // Places that only read
  // ---------------------------------------------------------------------------

  lemma {:induction false} PureReadUnchanged(e: Expr)
    requires PureRead(e)
    ensures Fold(e) == e
  {
    match e
    case Paren(x) => PureReadUnchanged(x);
    case Deref(x) => PureReadUnchanged(x);
    case _ =>
  }

  /** Reading changes nothing, cannot panic, and depends on the variables alone. */
  lemma {:induction false} PureReadReads(host: Host, mode: Mode, e: Expr, st: State, mode': Mode, st': State)
    requires PureRead(e) && st.stack == st'.stack
    ensures var o := Eval(host, mode, e, st); o.Stuck? || (o.Done? && o.st == st)
    ensures Eval(host, mode, e, st).Done? ==> Eval(host, mode', e, st') == Done(Eval(host, mode, e, st).v, st')
    ensures var q := Locate(host, mode, e, st); q.NoPlace? || (q.At? && q.st == st)
    ensures Locate(host, mode, e, st).At? ==> Locate(host, mode', e, st') == At(Locate(host, mode, e, st).addr, st')
    ensures Locate(host, mode, e, st).NoPlace? ==> Locate(host, mode', e, st').NoPlace?
    decreases e
  {
    match e
    case Paren(x) => PureReadReads(host, mode, x, st, mode', st');
    case Deref(x) =>
      PureReadReads(host, mode, x, st, mode', st');
      PureReadReads(host, mode', x, st', mode, st);
    case _ =>
  }

  lemma {:induction false} FindVarByName(s: seq<(string, Value)>, t: seq<(string, Value)>, x: string)
    requires Kept(false, s, t)
    ensures FindVar(s, x) == FindVar(t, x)
  {
    if s != [] {
      FindVarByName(s[..|s| - 1], t[..|t| - 1], x);
    }
  }

  lemma {:induction false} VarPlaceIsFixed(host: Host, mode: Mode, p: Expr, st: State, st': State)
    requires IsVarPlace(p) && Kept(false, st.stack, st'.stack)
    ensures PureRead(p)
    ensures Locate(host, mode, p, st).At? ==> Locate(host, mode, p, st') == At(Locate(host, mode, p, st).addr, st')
  {
    if p.Paren? {
      VarPlaceIsFixed(host, mode, p.inner, st, st');
    } else {
      FindVarByName(st.stack, st'.stack, p.x);
    }
  }

  // ---------------------------------------------------------------------------
  // Meaning preservation
  // ---------------------------------------------------------------------------

  /** The rewritten program, built with wrapping arithmetic, runs exactly like the original built
      with overflow panics: same value, same variables, same effects in the same order, and a
      panic after the same effects.  The program may use any names, `left` and `right` included. */
  lemma {:induction false} Preserves(host: Host, e: Expr, st: State)
    requires Steady(host, e, st) && !Eval(host, Panicking, e, st).Stuck?
    ensures Eval(host, Wrapping, Fold(e), st) == Eval(host, Panicking, e, st)
    decreases e, 3
  {
    match e
    case Lit(_) =>
    case Var(_) =>
    case Paren(x) => Preserves(host, x, st);
    case Arith(_, _, _) => PreservesArith(host, e, st);
    case Other(_, _, _) => PreservesOther(host, e, st);
    case Assign(_, _) => PreservesAssign(host, e, st);
    case ArithAssign(_, _, _) => PreservesArithAssign(host, e, st);
    case Neg(_) => PreservesNeg(host, e, st);
    case Not(x) => Preserves(host, x, st);
    case Deref(x) => Preserves(host, x, st);
    case AddrOf(p) => PreservesPlace(host, p, st);
    case Call(_, args) => PreservesAll(host, args, st);
    case Macro(_, attrs, contents) => PreservesMacro(host, e, st);
    case Block(body) => PreservesStmts(host, body, st);
    case If(_, _, _) => PreservesIf(host, e, st);
    case Checked(_, _, _) => PreservesChecked(host, e, st);
    case CheckedNeg(x) => Preserves(host, x, st);
    case CompileError =>
  }

  lemma PreservesPair(host: Host, parent: Expr, l: Expr, r: Expr, st: State)
    requires l < parent && r < parent && Steady(host, l, st) && !Eval(host, Panicking, l, st).Stuck?
    requires var a := Eval(host, Panicking, l, st); a.Done? ==> Steady(host, r, a.st) && !Eval(host, Panicking, r, a.st).Stuck?
    ensures var a := Eval(host, Panicking, l, st);
      && Eval(host, Wrapping, Fold(l), st) == a
      && (a.Done? ==> Eval(host, Wrapping, Fold(r), a.st) == Eval(host, Panicking, r, a.st))
    decreases parent, 1
  {
    Preserves(host, l, st);
    var a := Eval(host, Panicking, l, st);
    if a.Done? {
      Preserves(host, r, a.st);
    }
  }

  lemma PreservesArith(host: Host, e: Expr, st: State)
    requires e.Arith? && Steady(host, e, st) && !Eval(host, Panicking, e, st).Stuck?
    ensures Eval(host, Wrapping, Fold(e), st) == Eval(host, Panicking, e, st)
    decreases e, 2
  {
    PreservesPair(host, e, e.left, e.right, st);
    CheckedBlockRuns(host, Wrapping, e.op, Strip(Fold(e.left)), Strip(Fold(e.right)), st);
    StripEval(host, Wrapping, Fold(e.left), st);
    var a := Eval(host, Panicking, e.left, st);
    if a.Done? {
      StripEval(host, Wrapping, Fold(e.right), a.st);
      var b := Eval(host, Panicking, e.right, a.st);
      if b.Done? {
        RawIsChecked(e.op, a.v, b.v, b.st);
      }
    }
  }

  lemma PreservesChecked(host: Host, e: Expr, st: State)
    requires e.Checked? && Steady(host, e, st) && !Eval(host, Panicking, e, st).Stuck?
    ensures Eval(host, Wrapping, Fold(e), st) == Eval(host, Panicking, e, st)
    decreases e, 2
  {
    PreservesPair(host, e, e.left, e.right, st);
  }

  lemma PreservesOther(host: Host, e: Expr, st: State)
    requires e.Other? && Steady(host, e, st) && !Eval(host, Panicking, e, st).Stuck?
    ensures Eval(host, Wrapping, Fold(e), st) == Eval(host, Panicking, e, st)
    decreases e, 2
  {
    Preserves(host, e.left, st);
    var a := Eval(host, Panicking, e.left, st);
    if a.Done? && !(e.other.And? && !a.v.b) {
      Preserves(host, e.right, a.st);
    }
  }

  lemma PreservesIf(host: Host, e: Expr, st: State)
    requires e.If? && Steady(host, e, st) && !Eval(host, Panicking, e, st).Stuck?
    ensures Eval(host, Wrapping, Fold(e), st) == Eval(host, Panicking, e, st)
    decreases e, 2
  {
    Preserves(host, e.cond, st);
    var a := Eval(host, Panicking, e.cond, st);
    if a.Done? {
      if a.v.b {
        Preserves(host, e.thn, a.st);
      } else {
        Preserves(host, e.els, a.st);
      }
    }
  }

  lemma PreservesAssign(host: Host, e: Expr, st: State)
    requires e.Assign? && Steady(host, e, st) && !Eval(host, Panicking, e, st).Stuck?
    ensures Eval(host, Wrapping, Fold(e), st) == Eval(host, Panicking, e, st)
    decreases e, 2
  {
    Preserves(host, e.right, st);
    var b := Eval(host, Panicking, e.right, st);
    if b.Done? {
      PreservesPlace(host, e.place, b.st);
    }
  }

  lemma PreservesNeg(host: Host, e: Expr, st: State)
    requires e.Neg? && Steady(host, e, st) && !Eval(host, Panicking, e, st).Stuck?
    ensures Eval(host, Wrapping, Fold(e), st) == Eval(host, Panicking, e, st)
    decreases e, 2
  {
    Preserves(host, e.operand, st);
    FoldEvenNots(host, e.operand, st);
    NegThroughNots(host, Fold(e.operand), st);
  }

  /** Behind an even run of `!` the appended call computes the negation of the whole. */
  lemma {:induction false} NegThroughNots(host: Host, f: Expr, st: State)
    requires EvenNots(f)
    requires var o := Eval(host, Wrapping, f, st); !o.Stuck? && (o.Done? ==> o.v.Int?)
    ensures var o := Eval(host, Wrapping, f, st);
      Eval(host, Wrapping, AppendCheckedNeg(f), st) == if o.Done? then CheckedNegOutcome(o.v, o.st) else o
  {
    if IsPrefix(f) {
      var y := f.operand.operand;
      var o := Eval(host, Wrapping, y, st);
      assert Eval(host, Wrapping, Not(y), st) == if o.Done? then NotOutcome(o.v, o.st) else o;
      NegThroughNots(host, y, st);
      var a := AppendCheckedNeg(y);
      var o' := Eval(host, Wrapping, a, st);
      assert Eval(host, Wrapping, Not(a), st) == if o'.Done? then NotOutcome(o'.v, o'.st) else o';
    }
  }

  lemma {:induction false} FoldEvenNots(host: Host, e: Expr, st: State)
    requires Steady(host, e, st) && EvenNots(e)
    ensures EvenNots(Fold(e))
  {
    if IsPrefix(e) {
      FoldEvenNots(host, e.operand.operand, st);
    } else if e.Neg? {
      FoldEvenNots(host, e.operand, st);
      AppendKeepsNots(Fold(e.operand));
    }
  }

  lemma {:induction false} AppendKeepsNots(f: Expr)
    requires EvenNots(f)
    ensures EvenNots(AppendCheckedNeg(f))
  {
    if IsPrefix(f) {
      AppendKeepsNots(f.operand.operand);
    }
  }

  lemma PreservesMacro(host: Host, e: Expr, st: State)
    requires e.Macro? && Steady(host, e, st) && !Eval(host, Panicking, e, st).Stuck?
    ensures Eval(host, Wrapping, Fold(e), st) == Eval(host, Panicking, e, st)
    decreases e, 2
  {
    if SKIP !in e.attrs {
      PreservesAll(host, e.contents.args, st);
    }
  }

  /** What the rewritten compound assignment does: as the original, but at the slot the place
      denoted before the right operand was evaluated. */
  lemma CompoundRuns(host: Host, e: Expr, st: State)
    requires e.ArithAssign? && SteadyPlace(host, e.place, st) && QuietPlace(host, e.place, st)
    requires Steady(host, e.right, st) && !Eval(host, Panicking, e.right, st).Stuck?
    ensures var q, b := Locate(host, Panicking, e.place, st), Eval(host, Panicking, e.right, st);
      && (!b.Done? ==> Eval(host, Wrapping, Fold(e), st) == b == Eval(host, Panicking, e, st))
      && (b.Done? ==>
          && q.addr < |b.st.stack| == |st.stack|
          && Eval(host, Wrapping, Fold(e), st) == Update(CheckedOutcome(e.op, b.st.stack[q.addr].1, b.v, b.st), q.addr))
      && (b.Done? && QuietPlace(host, e.place, b.st) ==>
          var a := Locate(host, Panicking, e.place, b.st).addr;
          a < |b.st.stack| && Eval(host, Panicking, e, st) == Update(CheckedOutcome(e.op, b.st.stack[a].1, b.v, b.st), a))
    decreases e, 1
  {
    PreservesPlace(host, e.place, st);
    ScopeOfPlace(host, Panicking, e.place, st);
    StripEval(host, Wrapping, Fold(e.place), st);
    CheckedAssignBlockRuns(host, Wrapping, e.op, Strip(Fold(e.place)), Strip(Fold(e.right)), st);
    StripEval(host, Wrapping, Fold(e.right), st);
    Preserves(host, e.right, st);
    var b := Eval(host, Panicking, e.right, st);
    if b.Done? {
      ScopeOfExpr(host, Panicking, e.right, st);
      if QuietPlace(host, e.place, b.st) {
        ScopeOfPlace(host, Panicking, e.place, b.st);
        RawIsChecked(e.op, b.st.stack[Locate(host, Panicking, e.place, b.st).addr].1, b.v, b.st);
      }
    }
  }

  /** A compound assignment whose right operand, itself rewritten, does not move the place. */
  lemma PreservesArithAssign(host: Host, e: Expr, st: State)
    requires e.ArithAssign? && Steady(host, e, st) && !Eval(host, Panicking, e, st).Stuck?
    ensures Eval(host, Wrapping, Fold(e), st) == Eval(host, Panicking, e, st)
    decreases e, 2
  {
    if !QuietPlace(host, e.place, st) {
      PureReadReads(host, Panicking, e.place, st, Panicking, st);
      assert false;
    }
    CompoundRuns(host, e, st);
  }

  lemma {:induction false} PreservesPlace(host: Host, p: Expr, st: State)
    requires SteadyPlace(host, p, st) && !Locate(host, Panicking, p, st).NoPlace?
    ensures Locate(host, Wrapping, Fold(p), st) == Locate(host, Panicking, p, st)
    decreases p, 0
  {
    match p
    case Paren(x) => PreservesPlace(host, x, st);
    case Deref(x) => Preserves(host, x, st);
    case _ =>
  }

  lemma {:induction false} PreservesAll(host: Host, es: Exprs, st: State)
    requires SteadyAll(host, es, st) && !EvalAll(host, Panicking, es, st).IllTyped?
    ensures EvalAll(host, Wrapping, FoldAll(es), st) == EvalAll(host, Panicking, es, st)
    decreases es, 0
  {
    if es.Cons? {
      Preserves(host, es.head, st);
      var a := Eval(host, Panicking, es.head, st);
      if a.Done? {
        PreservesAll(host, es.tail, a.st);
      }
    }
  }

  lemma {:induction false} PreservesStmts(host: Host, body: Stmts, st: State)
    requires SteadyStmts(host, body, st) && !EvalStmts(host, Panicking, body, st).Stuck?
    ensures EvalStmts(host, Wrapping, FoldStmts(body), st) == EvalStmts(host, Panicking, body, st)
    decreases body, 0
  {
    match body
    case Tail(e) => Preserves(host, e, st);
    case Then(s, rest) =>
      PreservesStmt(host, s, st);
      var o := EvalStmt(host, Panicking, s, st);
      if o.Done? {
        PreservesStmts(host, rest, o.st);
      }
  }

  lemma {:induction false} PreservesStmt(host: Host, s: Stmt, st: State)
    requires SteadyStmt(host, s, st) && !EvalStmt(host, Panicking, s, st).Stuck?
    ensures EvalStmt(host, Wrapping, FoldStmt(s), st) == EvalStmt(host, Panicking, s, st)
    decreases s, 0
  {
    match s
    case Let(_, e) => Preserves(host, e, st);
    case LetPair(_, _, first, second) =>
      Preserves(host, first, st);
      var a := Eval(host, Panicking, first, st);
      if a.Done? {
        Preserves(host, second, a.st);
      }
    case Do(e) => Preserves(host, e, st);
  }

  // ---------------------------------------------------------------------------
  // From the text to the run
  // ---------------------------------------------------------------------------

  lemma StablePlaceIsPure(p: Expr, r: Expr)
    requires StablePlace(p, r)
    ensures PureRead(p)
  {
    if IsVarPlace(p) {
      VarPlaceIsPure(p);
    }
  }

  lemma {:induction false} VarPlaceIsPure(p: Expr)
    requires IsVarPlace(p)
    ensures PureRead(p)
  {
    if p.Paren? {
      VarPlaceIsPure(p.inner);
    }
  }

  /** Evaluating the right operand does not move a stable place. */
  lemma PlaceIsStable(host: Host, p: Expr, r: Expr, st: State)
    requires StablePlace(p, r) && Locate(host, Panicking, p, st).At? && Eval(host, Panicking, r, st).Done?
    ensures var b := Eval(host, Panicking, r, st);
      Locate(host, Panicking, p, b.st) == At(Locate(host, Panicking, p, st).addr, b.st)
  {
    var b := Eval(host, Panicking, r, st);
    ScopeOfExpr(host, Panicking, r, st);
    if IsVarPlace(p) {
      VarPlaceIsFixed(host, Panicking, p, st, b.st);
    } else {
      PureReadReads(host, Panicking, p, st, Panicking, b.st);
    }
  }

  /** What the text promises holds in every run. */
  lemma {:induction false} FaithfulIsSteady(host: Host, e: Expr, st: State)
    requires Faithful(e)
    ensures Steady(host, e, st)
    decreases e, 2
  {
    if e.Arith? || e.Other? || e.Checked? {
      FaithfulPairIsSteady(host, e, e.left, e.right, st);
    } else if e.Assign? || e.ArithAssign? {
      FaithfulWriteIsSteady(host, e, st);
    } else if e.Paren? || e.Neg? || e.Not? || e.Deref? || e.CheckedNeg? {
      FaithfulIsSteady(host, if e.Paren? then e.inner else e.operand, st);
    } else if e.If? {
      FaithfulPairIsSteady(host, e, e.cond, e.thn, st);
      FaithfulPairIsSteady(host, e, e.cond, e.els, st);
    } else if e.AddrOf? {
      FaithfulPlaceIsSteady(host, e.place, st);
    } else if e.Call? {
      FaithfulListIsSteady(host, e.args, st);
    } else if e.Macro? {
      if SKIP in e.attrs && e.contents.Parsed? {
        BuildsAgreeAll(host, e.contents.args, st);
      } else if e.contents.Parsed? {
        FaithfulListIsSteady(host, e.contents.args, st);
      }
    } else if e.Block? {
      FaithfulStmtsAreSteady(host, e.body, st);
    }
  }

  lemma FaithfulPairIsSteady(host: Host, parent: Expr, l: Expr, r: Expr, st: State)
    requires l < parent && r < parent && Faithful(l) && Faithful(r)
    ensures var a := Eval(host, Panicking, l, st); Steady(host, l, st) && (a.Done? ==> Steady(host, r, a.st))
    decreases parent, 1
  {
    FaithfulIsSteady(host, l, st);
    if Eval(host, Panicking, l, st).Done? {
      FaithfulIsSteady(host, r, Eval(host, Panicking, l, st).st);
    }
  }

  lemma FaithfulWriteIsSteady(host: Host, e: Expr, st: State)
    requires Faithful(e) && (e.Assign? || e.ArithAssign?)
    ensures Steady(host, e, st)
    decreases e, 1
  {
    FaithfulIsSteady(host, e.right, st);
    var b := Eval(host, Panicking, e.right, st);
    if e.Assign? {
      if b.Done? {
        FaithfulPlaceIsSteady(host, e.place, b.st);
      }
    } else {
      StablePlaceIsPure(e.place, e.right);
      FaithfulPlaceIsSteady(host, e.place, st);
      PureReadReads(host, Panicking, e.place, st, Panicking, st);
      if b.Done? && Locate(host, Panicking, e.place, st).At? {
        PlaceIsStable(host, e.place, e.right, st);
      }
    }
  }

  lemma {:induction false} FaithfulPlaceIsSteady(host: Host, p: Expr, st: State)
    requires Faithful(p)
    ensures SteadyPlace(host, p, st)
    decreases p, 0
  {
    match p
    case Paren(x) => FaithfulPlaceIsSteady(host, x, st);
    case Deref(x) => FaithfulIsSteady(host, x, st);
    case _ =>
  }

  lemma {:induction false} FaithfulListIsSteady(host: Host, es: Exprs, st: State)
    requires AllFaithful(es)
    ensures SteadyAll(host, es, st)
    decreases es, 0
  {
    if es.Cons? {
      FaithfulIsSteady(host, es.head, st);
      if Eval(host, Panicking, es.head, st).Done? {
        FaithfulListIsSteady(host, es.tail, Eval(host, Panicking, es.head, st).st);
      }
    }
  }

  lemma {:induction false} FaithfulStmtsAreSteady(host: Host, body: Stmts, st: State)
    requires StmtsFaithful(body)
    ensures SteadyStmts(host, body, st)
    decreases body, 0
  {
    match body
    case Tail(e) => FaithfulIsSteady(host, e, st);
    case Then(s, rest) =>
      FaithfulStmtIsSteady(host, s, st);
      if EvalStmt(host, Panicking, s, st).Done? {
        FaithfulStmtsAreSteady(host, rest, EvalStmt(host, Panicking, s, st).st);
      }
  }

  lemma {:induction false} FaithfulStmtIsSteady(host: Host, s: Stmt, st: State)
    requires StmtFaithful(s)
    ensures SteadyStmt(host, s, st)
    decreases s, 0
  {
    match s
    case Let(_, e) => FaithfulIsSteady(host, e, st);
    case LetPair(_, _, first, second) =>
      FaithfulIsSteady(host, first, st);
      if Eval(host, Panicking, first, st).Done? {
        FaithfulIsSteady(host, second, Eval(host, Panicking, first, st).st);
      }
    case Do(e) => FaithfulIsSteady(host, e, st);
  }

  /** A program that reads well is preserved in every run. */
  lemma FaithfulPreserves(host: Host, e: Expr, st: State)
    requires Faithful(e) && !Eval(host, Panicking, e, st).Stuck?
    ensures Eval(host, Wrapping, Fold(e), st) == Eval(host, Panicking, e, st)
  {
    FaithfulIsSteady(host, e, st);
    Preserves(host, e, st);
  }
}
