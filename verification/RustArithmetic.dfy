/** The integers of the expression language: ranges, wrapping, division and the checked methods, each
    by the law that determines it. */
module RustArithmetic {
  import opened Wrappers
  import opened RustExpr

  lemma {:induction false} PowersMultiply(m: nat, n: nat)
    ensures Pow2(1) == 2 && Pow2(m) > 0 && Pow2(m + n) == Pow2(m) * Pow2(n)
  {
    assert Pow2(1) == 2 * Pow2(0);
    if n == 0 {
      PowersPositive(m);
    } else {
      PowersMultiply(m, n - 1);
      assert Pow2(m + n) == 2 * (Pow2(m) * Pow2(n - 1)) == Pow2(m) * (2 * Pow2(n - 1));
    }
  }

  lemma {:induction false} PowersPositive(m: nat)
    ensures Pow2(m) > 0
  {
    if m > 0 {
      PowersPositive(m - 1);
    }
  }

  /** A type of so many bits has that power of two as many values: from zero on, or as many negative
      ones as others. */
  lemma RangeExact(ty: IntType)
    requires ty.bits > 0
    ensures Max(ty) - Min(ty) + 1 == Pow2(ty.bits) && Pow2(ty.bits) > 0
    ensures if ty.signed then Min(ty) + Max(ty) == -1 else Min(ty) == 0
  {
    PowersPositive(ty.bits);
  }

  /** Wrapping gives the value of the type that differs by whole turns, and leaves others alone. */
  lemma WrapExact(ty: IntType, n: int) returns (turns: int)
    requires ty.bits > 0
    ensures Min(ty) <= Wrap(ty, n) <= Max(ty) && n == Wrap(ty, n) + turns * Pow2(ty.bits)
    ensures Min(ty) <= n <= Max(ty) ==> Wrap(ty, n) == n
  {
    RangeExact(ty);
    var span, m := Pow2(ty.bits), n - Min(ty);
    Division(m, span);
    turns := m / span;
    if Min(ty) <= n <= Max(ty) {
      SmallRemainder(m, span);
    }
  }

  lemma Division(m: int, span: int)
    requires span > 0
    ensures m == m / span * span + m % span && 0 <= m % span < span
  {
  }

  lemma SmallRemainder(m: int, span: int)
    requires 0 <= m < span
    ensures m % span == m
  {
  }

  /** Division rounds toward zero: the remainder is smaller than the divisor and has the sign of the
      dividend. */
  lemma DivisionExact(a: int, b: int)
    requires b != 0
    ensures a == b * TruncDiv(a, b) + TruncRem(a, b)
    ensures a >= 0 ==> 0 <= TruncRem(a, b) < Magnitude(b)
    ensures a <= 0 ==> 0 <= -TruncRem(a, b) < Magnitude(b)
  {
    Quotient(Magnitude(a), Magnitude(b));
  }

  function Magnitude(x: int): nat {
    if x < 0 then -x else x
  }

  lemma Quotient(m: nat, n: nat)
    requires n > 0
    ensures 0 <= m - n * (m / n) < n
  {
    Division(m, n);
  }

  /** A checked method has a result exactly if the mathematical one exists and is a value of the
      type. */
  lemma CheckedExact(ty: IntType, a: int, b: int, n: int)
    ensures CheckedArith(Add, ty, a, b) == Some(n) <==> n == a + b && Min(ty) <= n <= Max(ty)
    ensures CheckedArith(Sub, ty, a, b) == Some(n) <==> n == a - b && Min(ty) <= n <= Max(ty)
    ensures CheckedArith(Mul, ty, a, b) == Some(n) <==> n == a * b && Min(ty) <= n <= Max(ty)
    ensures CheckedArith(Div, ty, a, b) == Some(n) <==> b != 0 && n == TruncDiv(a, b) && Min(ty) <= n <= Max(ty)
    ensures CheckedArith(Rem, ty, a, b) == Some(n) <==> b != 0 && n == TruncRem(a, b) && Min(ty) <= TruncDiv(a, b) <= Max(ty)
  {
  }

  /** The one quotient that overflows. */
  lemma OverflowingQuotient(ty: IntType, a: int, b: int)
    requires ty.bits > 0 && b != 0 && Min(ty) <= a <= Max(ty) && Min(ty) <= b <= Max(ty)
    ensures !(Min(ty) <= TruncDiv(a, b) <= Max(ty)) <==> ty.signed && a == Min(ty) && b == -1
  {
    RangeExact(ty);
    if b == -1 {
      assert TruncDiv(a, -1) == -a;
    } else {
      QuotientIsSmaller(a, b);
      if b == 1 {
        assert TruncDiv(a, 1) == a;
      } else if b < 0 {
        HalfIsSmaller(Magnitude(a), Magnitude(b));
      }
    }
  }

  lemma HalfIsSmaller(m: nat, n: nat)
    requires n >= 2
    ensures 2 * (m / n) <= m
  {
    Division(m, n);
    assert n * (m / n) >= 2 * (m / n);
  }

  lemma QuotientIsSmaller(a: int, b: int)
    requires b != 0
    ensures 0 <= Magnitude(TruncDiv(a, b)) <= Magnitude(a)
    ensures TruncDiv(a, b) == 0 || ((TruncDiv(a, b) > 0) <==> (a > 0 <==> b > 0))
  {
    NoLarger(Magnitude(a), Magnitude(b));
  }

  lemma NoLarger(m: nat, n: nat)
    requires n > 0
    ensures 0 <= m / n <= m
  {
    Division(m, n);
    Multiple(m / n, n);
  }

  lemma {:induction false} Multiple(k: int, n: nat)
    requires n > 0
    ensures k >= 0 ==> k <= k * n
    ensures k < 0 ==> k * n < 0
  {
    if n > 1 {
      Multiple(k, n - 1);
      assert k * n == k * (n - 1) + k;
    }
  }

  /** The raw operator in a build with overflow checks is the checked method whose failure panics; in
      the other build it wraps, and divisions are the same. */
  lemma RawExact(op: ArithOp, v: Value, w: Value, st: State)
    requires v.Int? && w.Int? && v.ty == w.ty
    ensures RawOutcome(Panicking, op, v, w, st) == CheckedOutcome(op, v, w, st)
    ensures op.Add? ==> RawOutcome(Wrapping, op, v, w, st) == Done(Int(v.ty, if InRange(v.ty, v.n + w.n) then v.n + w.n else Wrap(v.ty, v.n + w.n)), st)
    ensures op.Sub? ==> RawOutcome(Wrapping, op, v, w, st) == Done(Int(v.ty, if InRange(v.ty, v.n - w.n) then v.n - w.n else Wrap(v.ty, v.n - w.n)), st)
    ensures op.Mul? ==> RawOutcome(Wrapping, op, v, w, st) == Done(Int(v.ty, if InRange(v.ty, v.n * w.n) then v.n * w.n else Wrap(v.ty, v.n * w.n)), st)
    ensures op.Div? || op.Rem? ==> RawOutcome(Wrapping, op, v, w, st) == RawOutcome(Panicking, op, v, w, st)
  {
  }

  /** The complement: a value and its complement add up to all ones. */
  lemma NotExact(ty: IntType, n: int, st: State)
    requires ty.bits > 0 && Min(ty) <= n <= Max(ty)
    ensures var o := NotOutcome(Int(ty, n), st);
      o.Done? && o.v.Int? && o.v.ty == ty && Min(ty) <= o.v.n <= Max(ty) && n + o.v.n == Min(ty) + Max(ty)
  {
    RangeExact(ty);
  }

  /** A name denotes the innermost variable of that name. */
  lemma {:induction false} InnermostVariable(stack: seq<(string, Value)>, x: string, i: nat)
    ensures FindVar(stack, x) == Some(i) <==> i < |stack| && stack[i].0 == x && forall j :: i < j < |stack| ==> stack[j].0 != x
    ensures FindVar(stack, x) == None <==> forall j :: 0 <= j < |stack| ==> stack[j].0 != x
  {
    if stack != [] {
      InnermostVariable(stack[..|stack| - 1], x, i);
    }
  }
}
