/** A core of Rust expressions with an effectful evaluator: enough to say what the
    checked-arithmetic rewrite does to a program and to compare runs. */
module RustExpr {
  import opened Wrappers

  // ---------------------------------------------------------------------------
  // Syntax
  // ---------------------------------------------------------------------------

  datatype IntType = IntType(signed: bool, bits: nat)

  datatype Value = Int(ty: IntType, n: int) | Boolean(b: bool) | Unit | Ref(addr: nat)

  datatype ArithOp = Add | Sub | Mul | Div | Rem

  /** Operators the rewrite leaves alone. */
  datatype OtherOp = Lt | Eq | And

  datatype Expr =
    | Lit(v: Value)
    | Var(x: string)
    | Paren(inner: Expr)
    | Arith(op: ArithOp, left: Expr, right: Expr)
    | Other(other: OtherOp, left: Expr, right: Expr)
    | Assign(place: Expr, right: Expr)
    | ArithAssign(op: ArithOp, place: Expr, right: Expr)
    | Neg(operand: Expr)
    | Not(operand: Expr)
    | Deref(operand: Expr)
    | AddrOf(place: Expr)
    | Call(fn: string, args: Exprs)
    | Macro(name: string, attrs: seq<string>, contents: Contents)
    | Block(body: Stmts)
    | If(cond: Expr, thn: Expr, els: Expr)
    // The method calls the rewrite introduces: `l.checked_op(r).unwrap_or_else(|| panic!(..))`
    // and `e.checked_neg().expect(..)`.
    | Checked(op: ArithOp, left: Expr, right: Expr)
    | CheckedNeg(operand: Expr)
    // What a rejected macro is replaced with.
    | CompileError

  datatype Exprs = Nil | Cons(head: Expr, tail: Exprs)

  /** Tokens between a macro's delimiters: a comma-separated list of expressions, or not. */
  datatype Contents = Parsed(args: Exprs) | Unparsable(tokens: string)

  datatype Stmts = Tail(e: Expr) | Then(s: Stmt, rest: Stmts)

  datatype Stmt =
    | Let(x: string, e: Expr)
    | LetPair(x: string, y: string, first: Expr, second: Expr)
    | Do(e: Expr)

  // ---------------------------------------------------------------------------
  // Arithmetic
  // ---------------------------------------------------------------------------

  function Pow2(k: nat): nat {
    if k == 0 then 1 else 2 * Pow2(k - 1)
  }

  function Max(ty: IntType): int {
    if ty.signed && ty.bits > 0 then Pow2(ty.bits - 1) - 1 else Pow2(ty.bits) - 1
  }

  function Min(ty: IntType): int {
    if ty.signed then -Max(ty) - 1 else 0
  }

  predicate InRange(ty: IntType, n: int) {
    Min(ty) <= n <= Max(ty)
  }

  function Wrap(ty: IntType, n: int): int {
    var span := Max(ty) - Min(ty) + 1;
    if span <= 0 then n else Min(ty) + (n - Min(ty)) % span
  }

  /** Division that rounds toward zero, and its remainder. */
  function TruncDiv(a: int, b: int): int
    requires b != 0
  {
    if a >= 0 then (if b > 0 then a / b else -(a / -b)) else (if b > 0 then -(-a / b) else -a / -b)
  }

  function TruncRem(a: int, b: int): int
    requires b != 0
  {
    a - b * TruncDiv(a, b)
  }

  /** The `checked_*` methods of the integer types. */
  function CheckedArith(op: ArithOp, ty: IntType, a: int, b: int): Option<int> {
    match op
    case Add => if InRange(ty, a + b) then Some(a + b) else None
    case Sub => if InRange(ty, a - b) then Some(a - b) else None
    case Mul => if InRange(ty, a * b) then Some(a * b) else None
    case Div => if b == 0 || !InRange(ty, TruncDiv(a, b)) then None else Some(TruncDiv(a, b))
    case Rem => if b == 0 || !InRange(ty, TruncDiv(a, b)) then None else Some(TruncRem(a, b))
  }

  /** How the program was compiled: overflow wraps around, or panics. */
  datatype Mode = Wrapping | Panicking

  // ---------------------------------------------------------------------------
  // Runs
  // ---------------------------------------------------------------------------

  /** Everything a run does to the outside world. */
  datatype Event = Event(name: string, args: seq<Value>)

  /** Variables in scope, innermost last, and the effects so far. */
  datatype State = State(stack: seq<(string, Value)>, trace: seq<Event>)

  datatype Reply = Returns(v: Value) | Aborts

  /** The rest of the world: answers each call, given everything that happened before. */
  type Host = (Event, seq<Event>) -> Reply

  /** A run finishes, panics after some effects, or was never a well-typed program. */
  datatype Outcome = Done(v: Value, st: State) | Panicked(trace: seq<Event>) | Stuck

  datatype Located = At(addr: nat, st: State) | LostToPanic(trace: seq<Event>) | NoPlace

  datatype Listed = All(vs: seq<Value>, st: State) | CutByPanic(trace: seq<Event>) | IllTyped

  function FindVar(stack: seq<(string, Value)>, x: string): (i: Option<nat>)
    ensures i.Some? ==> i.value < |stack| && stack[i.value].0 == x
  {
    if stack == [] then None
    else if stack[|stack| - 1].0 == x then Some(|stack| - 1)
    else FindVar(stack[..|stack| - 1], x)
  }

  /** A raw operator on two evaluated operands. */
  function RawOutcome(mode: Mode, op: ArithOp, v: Value, w: Value, st: State): Outcome {
    if !(v.Int? && w.Int? && v.ty == w.ty) then Stuck
    else match op
      case Add => Wrapped(mode, v.ty, v.n + w.n, st)
      case Sub => Wrapped(mode, v.ty, v.n - w.n, st)
      case Mul => Wrapped(mode, v.ty, v.n * w.n, st)
      // Division by zero and the one overflowing quotient panic in every build.
      case Div =>
        if w.n == 0 || !InRange(v.ty, TruncDiv(v.n, w.n)) then Panicked(st.trace)
        else Done(Int(v.ty, TruncDiv(v.n, w.n)), st)
      case Rem =>
        if w.n == 0 || !InRange(v.ty, TruncDiv(v.n, w.n)) then Panicked(st.trace)
        else Done(Int(v.ty, TruncRem(v.n, w.n)), st)
  }

  function Wrapped(mode: Mode, ty: IntType, n: int, st: State): Outcome {
    if InRange(ty, n) then Done(Int(ty, n), st)
    else if mode.Panicking? then Panicked(st.trace)
    else Done(Int(ty, Wrap(ty, n)), st)
  }

  function NegOutcome(mode: Mode, v: Value, st: State): Outcome {
    if v.Int? && v.ty.signed then Wrapped(mode, v.ty, -v.n, st) else Stuck
  }

  /** A checked method call whose `None` panics. */
  function CheckedOutcome(op: ArithOp, v: Value, w: Value, st: State): Outcome {
    if !(v.Int? && w.Int? && v.ty == w.ty) then Stuck
    else match CheckedArith(op, v.ty, v.n, w.n)
      case Some(n) => Done(Int(v.ty, n), st)
      case None => Panicked(st.trace)
  }

  function CheckedNegOutcome(v: Value, st: State): Outcome {
    if !v.Int? then Stuck
    else if InRange(v.ty, -v.n) then Done(Int(v.ty, -v.n), st)
    else Panicked(st.trace)
  }

  function NotOutcome(v: Value, st: State): Outcome {
    match v
    case Int(ty, n) => Done(Int(ty, if ty.signed then -n - 1 else Max(ty) - n), st)
    case Boolean(b) => Done(Boolean(!b), st)
    case _ => Stuck
  }

  function OtherOutcome(op: OtherOp, v: Value, w: Value, st: State): Outcome {
    match op
    case Lt => if v.Int? && w.Int? && v.ty == w.ty then Done(Boolean(v.n < w.n), st) else Stuck
    case Eq => Done(Boolean(v == w), st)
    case And => if w.Boolean? then Done(w, st) else Stuck
  }

  function HostOutcome(host: Host, e: Event, st: State): Outcome {
    match host(e, st.trace)
    case Returns(v) => Done(v, State(st.stack, st.trace + [e]))
    case Aborts => Panicked(st.trace + [e])
  }

  function Store(st: State, addr: nat, v: Value): State
    requires addr < |st.stack|
  {
    State(st.stack[addr := (st.stack[addr].0, v)], st.trace)
  }

  /** The marker means nothing to the compiler: a marked macro's arguments are built like the rest. */
  const SKIP: string := "skip_checked_arithmetic"

  /** Places whose evaluation only reads. */
  predicate PureRead(e: Expr) {
    match e
    case Var(_) => true
    case Lit(_) => true
    case Paren(inner) => PureRead(inner)
    case Deref(inner) => PureRead(inner)
    case _ => false
  }

  function Eval(host: Host, mode: Mode, e: Expr, st: State): Outcome
    decreases e, 1
  {
    match e
    case Lit(v) => Done(v, st)
    case Var(x) =>
      var i := FindVar(st.stack, x);
      if i.Some? then Done(st.stack[i.value].1, st) else Stuck
    case Paren(inner) => Eval(host, mode, inner, st)
    case Arith(op, l, r) =>
      var a := Eval(host, mode, l, st);
      if !a.Done? then a else
      var b := Eval(host, mode, r, a.st);
      if !b.Done? then b else RawOutcome(mode, op, a.v, b.v, b.st)
    case Other(op, l, r) =>
      var a := Eval(host, mode, l, st);
      if !a.Done? then a
      else if op.And? && !a.v.Boolean? then Stuck
      else if op.And? && !a.v.b then a
      else
        var b := Eval(host, mode, r, a.st);
        if !b.Done? then b else OtherOutcome(op, a.v, b.v, b.st)
    case Assign(place, r) =>
      var b := Eval(host, mode, r, st);
      if !b.Done? then b else
      var p := Locate(host, mode, place, b.st);
      (match p
       case At(addr, st') => if addr < |st'.stack| then Done(Unit, Store(st', addr, b.v)) else Stuck
       case LostToPanic(t) => Panicked(t)
       case NoPlace => Stuck)
    case ArithAssign(op, place, r) =>
      // A place that does not resolve is a compile-time error.
      if PureRead(place) && Locate(host, mode, place, st).NoPlace? then Stuck else
      // For primitive types the right operand is evaluated first.
      var b := Eval(host, mode, r, st);
      if !b.Done? then b else
      var p := Locate(host, mode, place, b.st);
      (match p
       case At(addr, st') => if addr < |st'.stack| then Update(RawOutcome(mode, op, st'.stack[addr].1, b.v, st'), addr) else Stuck
       case LostToPanic(t) => Panicked(t)
       case NoPlace => Stuck)
    case Neg(operand) =>
      var a := Eval(host, mode, operand, st);
      if !a.Done? then a else NegOutcome(mode, a.v, a.st)
    case Not(operand) =>
      var a := Eval(host, mode, operand, st);
      if !a.Done? then a else NotOutcome(a.v, a.st)
    case Deref(operand) =>
      var a := Eval(host, mode, operand, st);
      if !a.Done? then a
      else if a.v.Ref? && a.v.addr < |a.st.stack| then Done(a.st.stack[a.v.addr].1, a.st)
      else Stuck
    case AddrOf(place) =>
      (match Locate(host, mode, place, st)
       case At(addr, st') => Done(Ref(addr), st')
       case LostToPanic(t) => Panicked(t)
       case NoPlace => Stuck)
    case Call(fn, args) =>
      (match EvalAll(host, mode, args, st)
       case All(vs, st') => HostOutcome(host, Event(fn, vs), st')
       case CutByPanic(t) => Panicked(t)
       case IllTyped => Stuck)
    case Macro(name, attrs, contents) =>
      (match contents
       case Parsed(args) =>
         (match EvalAll(host, mode, args, st)
          case All(vs, st') => HostOutcome(host, Event(name, vs), st')
          case CutByPanic(t) => Panicked(t)
          case IllTyped => Stuck)
       case Unparsable(tokens) => HostOutcome(host, Event(name, []), st))
    case Block(body) => LeaveScope(EvalStmts(host, mode, body, st), |st.stack|)
    case If(cond, thn, els) =>
      var a := Eval(host, mode, cond, st);
      if !a.Done? then a
      else if !a.v.Boolean? then Stuck
      else if a.v.b then Eval(host, mode, thn, a.st)
      else Eval(host, mode, els, a.st)
    case Checked(op, l, r) =>
      var a := Eval(host, mode, l, st);
      if !a.Done? then a else
      var b := Eval(host, mode, r, a.st);
      if !b.Done? then b else CheckedOutcome(op, a.v, b.v, b.st)
    case CheckedNeg(operand) =>
      var a := Eval(host, mode, operand, st);
      if !a.Done? then a else CheckedNegOutcome(a.v, a.st)
    case CompileError => Stuck
  }

  /** The result of a compound assignment goes back to its place. */
  function Update(o: Outcome, addr: nat): Outcome {
    if o.Done? then (if addr < |o.st.stack| then Done(Unit, Store(o.st, addr, o.v)) else Stuck) else o
  }

  function LeaveScope(o: Outcome, depth: nat): Outcome {
    if o.Done? && depth <= |o.st.stack| then Done(o.v, State(o.st.stack[..depth], o.st.trace))
    else if o.Done? then Stuck else o
  }

  /** Which variable slot a place expression denotes. */
  function Locate(host: Host, mode: Mode, e: Expr, st: State): Located
    decreases e, 0
  {
    match e
    case Var(x) =>
      var i := FindVar(st.stack, x);
      if i.Some? then At(i.value, st) else NoPlace
    case Paren(inner) => Locate(host, mode, inner, st)
    case Deref(operand) =>
      (match Eval(host, mode, operand, st)
       case Done(v, st') => if v.Ref? && v.addr < |st'.stack| then At(v.addr, st') else NoPlace
       case Panicked(t) => LostToPanic(t)
       case Stuck => NoPlace)
    case _ => NoPlace
  }

  function EvalAll(host: Host, mode: Mode, es: Exprs, st: State): Listed
    decreases es, 0
  {
    match es
    case Nil => All([], st)
    case Cons(e, rest) =>
      match Eval(host, mode, e, st)
      case Panicked(t) => CutByPanic(t)
      case Stuck => IllTyped
      case Done(v, st') =>
        match EvalAll(host, mode, rest, st')
        case All(vs, st'') => All([v] + vs, st'')
        case other => other
  }

  function EvalStmts(host: Host, mode: Mode, body: Stmts, st: State): Outcome
    decreases body, 0
  {
    match body
    case Tail(e) => Eval(host, mode, e, st)
    case Then(s, rest) =>
      var o := EvalStmt(host, mode, s, st);
      if !o.Done? then o else EvalStmts(host, mode, rest, o.st)
  }

  function EvalStmt(host: Host, mode: Mode, s: Stmt, st: State): Outcome
    decreases s, 0
  {
    match s
    case Let(x, e) =>
      var a := Eval(host, mode, e, st);
      if !a.Done? then a else Done(Unit, State(a.st.stack + [(x, a.v)], a.st.trace))
    case LetPair(x, y, first, second) =>
      // Both right-hand sides are evaluated before either name is in scope.
      var a := Eval(host, mode, first, st);
      if !a.Done? then a else
      var b := Eval(host, mode, second, a.st);
      if !b.Done? then b else Done(Unit, State(b.st.stack + [(x, a.v), (y, b.v)], b.st.trace))
    case Do(e) => Eval(host, mode, e, st)
  }
}
