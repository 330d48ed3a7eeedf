/** How the two builds of one program compare: the build that panics on overflow does what the
    wrapping build does, or stops on the way. */
module BuildModes {
  import opened RustExpr

  /** Raw arithmetic and negation, wherever it stands. */
  function Raw(e: Expr): nat {
    match e
    case Lit(_) => 0
    case Var(_) => 0
    case Paren(x) => Raw(x)
    case Arith(_, l, r) => 1 + Raw(l) + Raw(r)
    case Other(_, l, r) => Raw(l) + Raw(r)
    case Assign(p, r) => Raw(p) + Raw(r)
    case ArithAssign(_, p, r) => 1 + Raw(p) + Raw(r)
    case Neg(x) => 1 + Raw(x)
    case Not(x) => Raw(x)
    case Deref(x) => Raw(x)
    case AddrOf(p) => Raw(p)
    case Call(_, args) => RawAll(args)
    case Macro(_, _, contents) => if contents.Parsed? then RawAll(contents.args) else 0
    case Block(body) => RawStmts(body)
    case If(c, t, f) => Raw(c) + Raw(t) + Raw(f)
    case Checked(_, l, r) => Raw(l) + Raw(r)
    case CheckedNeg(x) => Raw(x)
    case CompileError => 0
  }

  function RawAll(es: Exprs): nat {
    if es.Nil? then 0 else Raw(es.head) + RawAll(es.tail)
  }

  function RawStmts(body: Stmts): nat {
    match body
    case Tail(e) => Raw(e)
    case Then(s, rest) => RawStmt(s) + RawStmts(rest)
  }

  function RawStmt(s: Stmt): nat {
    match s
    case Let(_, e) => Raw(e)
    case LetPair(_, _, a, b) => Raw(a) + Raw(b)
    case Do(e) => Raw(e)
  }

  // ---------------------------------------------------------------------------
  // Effects only accumulate
  // ---------------------------------------------------------------------------

  function TraceOf(o: Outcome): seq<Event>
    requires !o.Stuck?
  {
    if o.Done? then o.st.trace else o.trace
  }

  /** The run got as far as t, if it has a meaning at all. */
  predicate Reached(t: seq<Event>, o: Outcome) {
    !o.Stuck? ==> t <= TraceOf(o)
  }

  function PlaceOutcome(q: Located): Outcome {
    match q
    case At(addr, st) => Done(Ref(addr), st)
    case LostToPanic(t) => Panicked(t)
    case NoPlace => Stuck
  }

  function ListOutcome(l: Listed): Outcome {
    match l
    case All(vs, st) => Done(Unit, st)
    case CutByPanic(t) => Panicked(t)
    case IllTyped => Stuck
  }

  lemma {:induction false} EffectsGrow(host: Host, mode: Mode, e: Expr, st: State)
    ensures Reached(st.trace, Eval(host, mode, e, st))
    decreases e, 4
  {
    if e.Arith? || e.Other? || e.Checked? {
      EffectsGrowPair(host, mode, e, e.left, e.right, st);
    } else if e.Assign? || e.ArithAssign? {
      EffectsGrowTarget(host, mode, e, e.place, e.right, st);
    } else if e.Paren? || e.Neg? || e.Not? || e.Deref? || e.CheckedNeg? {
      EffectsGrow(host, mode, if e.Paren? then e.inner else e.operand, st);
    } else {
      EffectsGrowCompound(host, mode, e, st);
    }
  }

  lemma EffectsGrowCompound(host: Host, mode: Mode, e: Expr, st: State)
    requires e.Lit? || e.Var? || e.AddrOf? || e.Call? || e.Macro? || e.Block? || e.If? || e.CompileError?
    ensures Reached(st.trace, Eval(host, mode, e, st))
    decreases e, 3
  {
    match e
    case AddrOf(p) => EffectsGrowPlace(host, mode, p, st);
    case Call(_, args) => EffectsGrowAll(host, mode, args, st);
    case Macro(_, _, contents) =>
      if contents.Parsed? {
        EffectsGrowAll(host, mode, contents.args, st);
      }
    case Block(body) => EffectsGrowStmts(host, mode, body, st);
    case If(c, t, f) =>
      EffectsGrowPair(host, mode, e, c, t, st);
      EffectsGrowPair(host, mode, e, c, f, st);
    case _ =>
  }

  lemma EffectsGrowPair(host: Host, mode: Mode, parent: Expr, l: Expr, r: Expr, st: State)
    requires l < parent && r < parent
    ensures var a := Eval(host, mode, l, st);
      && Reached(st.trace, a)
      && (a.Done? ==> Reached(a.st.trace, Eval(host, mode, r, a.st)) && Reached(st.trace, Eval(host, mode, r, a.st)))
    decreases parent, 2
  {
    EffectsGrow(host, mode, l, st);
    var a := Eval(host, mode, l, st);
    if a.Done? {
      EffectsGrow(host, mode, r, a.st);
    }
  }

  lemma EffectsGrowTarget(host: Host, mode: Mode, parent: Expr, p: Expr, r: Expr, st: State)
    requires p < parent && r < parent
    ensures var b := Eval(host, mode, r, st);
      && Reached(st.trace, b)
      && (b.Done? ==> Reached(b.st.trace, PlaceOutcome(Locate(host, mode, p, b.st))) &&
                      Reached(st.trace, PlaceOutcome(Locate(host, mode, p, b.st))))
    decreases parent, 2
  {
    EffectsGrow(host, mode, r, st);
    var b := Eval(host, mode, r, st);
    if b.Done? {
      EffectsGrowPlace(host, mode, p, b.st);
    }
  }

  lemma {:induction false} EffectsGrowPlace(host: Host, mode: Mode, p: Expr, st: State)
    ensures Reached(st.trace, PlaceOutcome(Locate(host, mode, p, st)))
    decreases p, 0
  {
    match p
    case Paren(x) => EffectsGrowPlace(host, mode, x, st);
    case Deref(x) => EffectsGrow(host, mode, x, st);
    case _ =>
  }

  lemma {:induction false} EffectsGrowAll(host: Host, mode: Mode, es: Exprs, st: State)
    ensures Reached(st.trace, ListOutcome(EvalAll(host, mode, es, st)))
    decreases es, 0
  {
    if es.Cons? {
      EffectsGrow(host, mode, es.head, st);
      var a := Eval(host, mode, es.head, st);
      if a.Done? {
        EffectsGrowAll(host, mode, es.tail, a.st);
      }
    }
  }

  lemma {:induction false} EffectsGrowStmts(host: Host, mode: Mode, body: Stmts, st: State)
    ensures Reached(st.trace, EvalStmts(host, mode, body, st))
    decreases body, 0
  {
    match body
    case Tail(e) => EffectsGrow(host, mode, e, st);
    case Then(s, rest) =>
      EffectsGrowStmt(host, mode, s, st);
      var o := EvalStmt(host, mode, s, st);
      if o.Done? {
        EffectsGrowStmts(host, mode, rest, o.st);
      }
  }

  lemma {:induction false} EffectsGrowStmt(host: Host, mode: Mode, s: Stmt, st: State)
    ensures Reached(st.trace, EvalStmt(host, mode, s, st))
    decreases s, 0
  {
    match s
    case Let(_, e) => EffectsGrow(host, mode, e, st);
    case LetPair(_, _, first, second) =>
      EffectsGrow(host, mode, first, st);
      var a := Eval(host, mode, first, st);
      if a.Done? {
        EffectsGrow(host, mode, second, a.st);
      }
    case Do(e) => EffectsGrow(host, mode, e, st);
  }

  // ---------------------------------------------------------------------------
  // One program, two builds
  // ---------------------------------------------------------------------------

  /** The panicking run is the wrapping one, or was cut off by an overflow before its end. */
  predicate CutShort(p: Outcome, w: Outcome) {
    p == w || (p.Panicked? && Reached(p.trace, w))
  }

  predicate ListCutShort(p: Listed, w: Listed) {
    p == w || (p.CutByPanic? && Reached(p.trace, ListOutcome(w)))
  }

  predicate PlaceCutShort(p: Located, w: Located) {
    p == w || (p.LostToPanic? && Reached(p.trace, PlaceOutcome(w)))
  }

  /** And where nothing raw is left to overflow, the builds do not differ at all. */
  lemma {:induction false} BuildsAgree(host: Host, e: Expr, st: State)
    ensures CutShort(Eval(host, Panicking, e, st), Eval(host, Wrapping, e, st))
    ensures Raw(e) == 0 ==> Eval(host, Panicking, e, st) == Eval(host, Wrapping, e, st)
    decreases e, 5
  {
    if e.Arith? || e.Other? || e.Checked? {
      BuildsAgreeBinary(host, e, st);
    } else if e.Assign? {
      BuildsAgreeTarget(host, e, e.place, e.right, st);
    } else if e.ArithAssign? {
      BuildsAgreeArithAssign(host, e, st);
    } else if e.Paren? || e.Neg? || e.Not? || e.Deref? || e.CheckedNeg? {
      BuildsAgree(host, if e.Paren? then e.inner else e.operand, st);
    } else {
      BuildsAgreeCompound(host, e, st);
    }
  }

  lemma BuildsAgreeBinary(host: Host, e: Expr, st: State)
    requires e.Arith? || e.Other? || e.Checked?
    ensures CutShort(Eval(host, Panicking, e, st), Eval(host, Wrapping, e, st))
    ensures Raw(e) == 0 ==> Eval(host, Panicking, e, st) == Eval(host, Wrapping, e, st)
    decreases e, 3
  {
    BuildsAgreePair(host, e, e.left, e.right, st);
  }

  lemma BuildsAgreeCompound(host: Host, e: Expr, st: State)
    requires e.Lit? || e.Var? || e.AddrOf? || e.Call? || e.Macro? || e.Block? || e.If? || e.CompileError?
    ensures CutShort(Eval(host, Panicking, e, st), Eval(host, Wrapping, e, st))
    ensures Raw(e) == 0 ==> Eval(host, Panicking, e, st) == Eval(host, Wrapping, e, st)
    decreases e, 3
  {
    match e
    case AddrOf(p) => BuildsAgreePlace(host, p, st);
    case Call(_, args) => BuildsAgreeAll(host, args, st);
    case Macro(_, _, contents) =>
      if contents.Parsed? {
        BuildsAgreeAll(host, contents.args, st);
      }
    case Block(body) => BuildsAgreeStmts(host, body, st);
    case If(c, t, f) =>
      BuildsAgreePair(host, e, c, t, st);
      BuildsAgreePair(host, e, c, f, st);
    case _ =>
  }

  /** Two operands in sequence: where the builds part in the first, the wrapping one goes on. */
  lemma BuildsAgreePair(host: Host, parent: Expr, l: Expr, r: Expr, st: State)
    requires l < parent && r < parent
    ensures var a, a' := Eval(host, Panicking, l, st), Eval(host, Wrapping, l, st);
      && CutShort(a, a') && (Raw(l) == 0 ==> a == a')
      && (a != a' && a'.Done? ==> Reached(a.trace, Eval(host, Wrapping, r, a'.st)))
      && (a == a' && a.Done? ==>
          var b, b' := Eval(host, Panicking, r, a.st), Eval(host, Wrapping, r, a.st);
          CutShort(b, b') && (Raw(r) == 0 ==> b == b'))
    decreases parent, 2
  {
    BuildsAgree(host, l, st);
    var a, a' := Eval(host, Panicking, l, st), Eval(host, Wrapping, l, st);
    if a'.Done? {
      EffectsGrow(host, Wrapping, r, a'.st);
      if a == a' {
        BuildsAgree(host, r, a.st);
      }
    }
  }

  lemma BuildsAgreeTarget(host: Host, parent: Expr, p: Expr, r: Expr, st: State)
    requires p < parent && r < parent
    ensures var b, b' := Eval(host, Panicking, r, st), Eval(host, Wrapping, r, st);
      && CutShort(b, b') && (Raw(r) == 0 ==> b == b')
      && (b != b' && b'.Done? ==> Reached(b.trace, PlaceOutcome(Locate(host, Wrapping, p, b'.st))))
      && (b == b' && b.Done? ==>
          var q, q' := Locate(host, Panicking, p, b.st), Locate(host, Wrapping, p, b.st);
          PlaceCutShort(q, q') && (Raw(p) == 0 ==> q == q'))
    decreases parent, 2
  {
    BuildsAgree(host, r, st);
    var b, b' := Eval(host, Panicking, r, st), Eval(host, Wrapping, r, st);
    if b'.Done? {
      EffectsGrowPlace(host, Wrapping, p, b'.st);
      if b == b' {
        BuildsAgreePlace(host, p, b.st);
      }
    }
  }

  lemma BuildsAgreeArithAssign(host: Host, e: Expr, st: State)
    requires e.ArithAssign?
    ensures CutShort(Eval(host, Panicking, e, st), Eval(host, Wrapping, e, st))
    decreases e, 3
  {
    BuildsAgreeTarget(host, e, e.place, e.right, st);
    if PureRead(e.place) {
      PureReadIsNotRaw(e.place);
      BuildsAgreePlace(host, e.place, st);
    }
  }

  lemma {:induction false} PureReadIsNotRaw(e: Expr)
    requires PureRead(e)
    ensures Raw(e) == 0
  {
    match e
    case Paren(x) => PureReadIsNotRaw(x);
    case Deref(x) => PureReadIsNotRaw(x);
    case _ =>
  }

  lemma {:induction false} BuildsAgreePlace(host: Host, p: Expr, st: State)
    ensures PlaceCutShort(Locate(host, Panicking, p, st), Locate(host, Wrapping, p, st))
    ensures Raw(p) == 0 ==> Locate(host, Panicking, p, st) == Locate(host, Wrapping, p, st)
    decreases p, 0
  {
    match p
    case Paren(x) => BuildsAgreePlace(host, x, st);
    case Deref(x) => BuildsAgree(host, x, st);
    case _ =>
  }

  lemma {:induction false} BuildsAgreeAll(host: Host, es: Exprs, st: State)
    ensures ListCutShort(EvalAll(host, Panicking, es, st), EvalAll(host, Wrapping, es, st))
    ensures RawAll(es) == 0 ==> EvalAll(host, Panicking, es, st) == EvalAll(host, Wrapping, es, st)
    decreases es, 0
  {
    if es.Cons? {
      BuildsAgree(host, es.head, st);
      var a, a' := Eval(host, Panicking, es.head, st), Eval(host, Wrapping, es.head, st);
      if a'.Done? {
        EffectsGrowAll(host, Wrapping, es.tail, a'.st);
        if a == a' {
          BuildsAgreeAll(host, es.tail, a.st);
        }
      }
    }
  }

  lemma {:induction false} BuildsAgreeStmts(host: Host, body: Stmts, st: State)
    ensures CutShort(EvalStmts(host, Panicking, body, st), EvalStmts(host, Wrapping, body, st))
    ensures RawStmts(body) == 0 ==> EvalStmts(host, Panicking, body, st) == EvalStmts(host, Wrapping, body, st)
    decreases body, 0
  {
    match body
    case Tail(e) => BuildsAgree(host, e, st);
    case Then(s, rest) =>
      BuildsAgreeStmt(host, s, st);
      var a, a' := EvalStmt(host, Panicking, s, st), EvalStmt(host, Wrapping, s, st);
      if a'.Done? {
        EffectsGrowStmts(host, Wrapping, rest, a'.st);
        if a == a' {
          BuildsAgreeStmts(host, rest, a.st);
        }
      }
  }

  lemma {:induction false} BuildsAgreeStmt(host: Host, s: Stmt, st: State)
    ensures CutShort(EvalStmt(host, Panicking, s, st), EvalStmt(host, Wrapping, s, st))
    ensures RawStmt(s) == 0 ==> EvalStmt(host, Panicking, s, st) == EvalStmt(host, Wrapping, s, st)
    decreases s, 0
  {
    match s
    case Let(_, e) => BuildsAgree(host, e, st);
    case LetPair(_, _, first, second) =>
      BuildsAgree(host, first, st);
      var a, a' := Eval(host, Panicking, first, st), Eval(host, Wrapping, first, st);
      if a'.Done? {
        EffectsGrow(host, Wrapping, second, a'.st);
        if a == a' {
          BuildsAgree(host, second, a.st);
        }
      }
    case Do(e) => BuildsAgree(host, e, st);
  }
}
