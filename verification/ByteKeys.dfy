/** Fixed-width big-endian keys and the byte bounds of a typed range. */
module ByteKeys {
  import opened Wrappers

  type byte = x: int | 0 <= x < 256

  type Key = seq<byte>

  function Pow256(w: nat): nat
    ensures Pow256(w) > 0
  {
    if w == 0 then 1 else 256 * Pow256(w - 1)
  }

  /** The number a key spells, most significant byte first. */
  function Val(v: Key): nat {
    if v == [] then 0 else 256 * Val(v[..|v| - 1]) + v[|v| - 1]
  }

  /** The fixed-width big-endian serialization of an unsigned key. */
  function Encode(n: nat, w: nat): (v: Key)
    requires n < Pow256(w)
    ensures |v| == w && Val(v) == n
  {
    if w == 0 then [] else
      var front := Encode(n / 256, w - 1);
      var v := front + [n % 256];
      assert v[..|v| - 1] == front;
      v
  }

  lemma {:induction false} ValBound(v: Key)
    ensures Val(v) < Pow256(|v|)
  {
    if v != [] {
      ValBound(v[..|v| - 1]);
    }
  }

  lemma {:induction false} ValInjective(a: Key, b: Key)
    requires |a| == |b| && Val(a) == Val(b)
    ensures a == b
  {
    if a != [] {
      var n := |a| - 1;
      ValInjective(a[..n], b[..n]);
      assert a == a[..n] + [a[n]] && b == b[..n] + [b[n]];
    }
  }

  lemma EncodeOfVal(v: Key)
    ensures Val(v) < Pow256(|v|) && Encode(Val(v), |v|) == v
  {
    ValBound(v);
    ValInjective(Encode(Val(v), |v|), v);
  }

  // ---------------------------------------------------------------------------
  // Order
  // ---------------------------------------------------------------------------

  /** The order of an ordered map over byte vectors. */
  predicate LexLt(a: Key, b: Key) {
    if b == [] then false
    else if a == [] then true
    else if a[0] != b[0] then a[0] < b[0]
    else LexLt(a[1..], b[1..])
  }

  predicate LexLe(a: Key, b: Key) {
    a == b || LexLt(a, b)
  }

  /** It is the dictionary order: at the first difference the smaller byte or the end comes first. */
  lemma {:induction false} LexIsDictionary(a: Key, b: Key, i: nat)
    requires i <= |a| && i <= |b| && a[..i] == b[..i] && (i < |a| && i < |b| ==> a[i] != b[i])
    ensures LexLt(a, b) <==> i < |b| && (i == |a| || a[i] < b[i])
    decreases i
  {
    if i > 0 {
      assert a[0] == a[..i][0] == b[..i][0] == b[0];
      assert a[1..][..i - 1] == a[..i][1..] && b[1..][..i - 1] == b[..i][1..];
      LexIsDictionary(a[1..], b[1..], i - 1);
    }
  }

  lemma {:induction false} ValSplit(v: Key)
    requires v != []
    ensures Val(v) == v[0] * Pow256(|v| - 1) + Val(v[1..])
  {
    if |v| > 1 {
      var front := v[..|v| - 1];
      ValSplit(front);
      assert front[1..] == v[1..][..|v| - 2];
      assert v[1..][|v| - 2] == v[|v| - 1];
      assert 256 * (v[0] * Pow256(|v| - 2)) == v[0] * Pow256(|v| - 1);
    } else {
      assert v[..0] == [] && v[1..] == [];
      assert Val(v) == 256 * Val(v[..0]) + v[0];
      assert Val(v[1..]) == 0;
    }
  }

  lemma LeadingByteDecides(x: int, y: int, p: nat, a: nat, b: nat)
    requires 0 <= x < y && a < p
    ensures x * p + a < y * p + b
  {
    assert (x + 1) * p <= y * p;
  }

  /** On keys of one width, byte order is numeric order. */
  lemma {:induction false} LexIsNumeric(a: Key, b: Key)
    requires |a| == |b|
    ensures LexLt(a, b) <==> Val(a) < Val(b)
    ensures LexLe(a, b) <==> Val(a) <= Val(b)
    decreases |a|
  {
    if a != [] {
      ValSplit(a);
      ValSplit(b);
      ValBound(a[1..]);
      ValBound(b[1..]);
      LexIsNumeric(a[1..], b[1..]);
      if a[0] < b[0] {
        LeadingByteDecides(a[0], b[0], Pow256(|a| - 1), Val(a[1..]), Val(b[1..]));
      } else if b[0] < a[0] {
        LeadingByteDecides(b[0], a[0], Pow256(|a| - 1), Val(b[1..]), Val(a[1..]));
      }
    }
    if Val(a) == Val(b) {
      ValInjective(a, b);
    }
  }

  // ---------------------------------------------------------------------------
  // The increment
  // ---------------------------------------------------------------------------

  predicate IsMax(v: Key) {
    forall i :: 0 <= i < |v| ==> v[i] == 255
  }

  lemma {:induction false} MaxIsLargest(v: Key)
    ensures IsMax(v) <==> Val(v) == Pow256(|v|) - 1
  {
    if v != [] {
      var front := v[..|v| - 1];
      MaxIsLargest(front);
      ValBound(front);
      assert IsMax(v) <==> IsMax(front) && v[|v| - 1] == 255;
    }
  }

  /** The loop's effect: trailing 0xFF bytes turn to zero and the byte before them grows. */
  function Carry(v: Key): Key {
    if v == [] then []
    else if v[|v| - 1] == 255 then Carry(v[..|v| - 1]) + [0]
    else v[..|v| - 1] + [v[|v| - 1] + 1]
  }

  lemma {:induction false} CarryAddsOne(v: Key)
    ensures |Carry(v)| == |v|
    ensures !IsMax(v) ==> Val(Carry(v)) == Val(v) + 1
  {
    if v != [] {
      var front := v[..|v| - 1];
      CarryAddsOne(front);
      assert IsMax(v) <==> IsMax(front) && v[|v| - 1] == 255;
      assert Carry(v)[..|v| - 1] == if v[|v| - 1] == 255 then Carry(front) else front;
    }
  }

  function AddOne(v: Key): Key {
    if IsMax(v) then v else Carry(v)
  }

  /** Where the carry stops decides every byte of the result. */
  lemma {:induction false} CarryBytes(v: Key, i: nat)
    requires i < |v| && v[i] != 255 && forall j :: i < j < |v| ==> v[j] == 255
    ensures |Carry(v)| == |v|
    ensures forall j :: 0 <= j < |v| ==> Carry(v)[j] == if j < i then v[j] else if j == i then v[i] + 1 else 0
  {
    var n := |v| - 1;
    if i < n {
      CarryBytes(v[..n], i);
    }
  }

  /** In-place increment with carry; the all-0xFF key is left alone. */
  method BigEndianSaturatingAddOne(a: array<byte>)
    modifies a
    ensures a[..] == AddOne(old(a[..]))
    ensures Val(a[..]) == if IsMax(old(a[..])) then Val(old(a[..])) else Val(old(a[..])) + 1
  {
    ghost var v := a[..];
    CarryAddsOne(v);
    if forall j :: 0 <= j < a.Length ==> a[j] == 255 {
      return;
    }
    var i := a.Length;
    while i > 0
      invariant 0 <= i <= a.Length
      invariant forall j :: 0 <= j < i ==> a[j] == v[j]
      invariant forall j :: i <= j < a.Length ==> v[j] == 255 && a[j] == 0
    {
      i := i - 1;
      if a[i] == 255 {
        a[i] := 0;
      } else {
        a[i] := a[i] + 1;
        CarryBytes(v, i);
        assert a[..] == Carry(v);
        return;
      }
    }
  }

  // ---------------------------------------------------------------------------
  // Bounds
  // ---------------------------------------------------------------------------

  datatype Bound = Included(k: nat) | Excluded(k: nat) | Unbounded

  predicate Fits(b: Bound, w: nat) {
    b.Unbounded? || b.k < Pow256(w)
  }

  /** The range that was asked for. */
  predicate InRange(start: Bound, end: Bound, k: nat) {
    && (match start case Included(l) => l <= k case Excluded(l) => l < k case Unbounded => true)
    && (match end case Included(u) => k <= u case Excluded(u) => k < u case Unbounded => true)
  }

  function LowerBytes(start: Bound, w: nat): Option<Key>
    requires Fits(start, w)
  {
    match start
    case Included(l) => Some(Encode(l, w))
    case Excluded(l) => Some(AddOne(Encode(l, w)))
    case Unbounded => None
  }

  function UpperBytes(end: Bound, w: nat): Option<Key>
    requires Fits(end, w)
  {
    match end
    case Included(u) => Some(AddOne(Encode(u, w)))
    case Excluded(u) => Some(Encode(u, w))
    case Unbounded => None
  }

  method IncrementedKey(k: nat, w: nat) returns (key: Key)
    requires k < Pow256(w)
    ensures key == AddOne(Encode(k, w))
  {
    var encoded := Encode(k, w);
    var buffer := new byte[w](i requires 0 <= i < w => encoded[i]);
    assert buffer[..] == encoded;
    BigEndianSaturatingAddOne(buffer);
    key := buffer[..];
  }

  method IteratorBoundsWithRange(start: Bound, end: Bound, w: nat) returns (lower: Option<Key>, upper: Option<Key>)
    requires Fits(start, w) && Fits(end, w)
    ensures lower == LowerBytes(start, w) && upper == UpperBytes(end, w)
  {
    match start {
      case Included(l) => lower := Some(Encode(l, w));
      case Excluded(l) =>
        var key := IncrementedKey(l, w);
        lower := Some(key);
      case Unbounded => lower := None;
    }
    match end {
      case Included(u) =>
        var key := Encode(u, w);
        if !IsMax(key) {
          key := IncrementedKey(u, w);
        }
        upper := Some(key);
      case Excluded(u) => upper := Some(Encode(u, w));
      case Unbounded => upper := None;
    }
  }

  /** Lower bound inclusive, upper bound exclusive: the reading of the on-disk engines. */
  predicate WithinHalfOpen(lower: Option<Key>, upper: Option<Key>, key: Key) {
    (lower.Some? ==> LexLe(lower.value, key)) && (upper.Some? ==> LexLt(key, upper.value))
  }

  /** Both bounds inclusive: the reading of the in-memory store. */
  predicate WithinClosed(lower: Option<Key>, upper: Option<Key>, key: Key) {
    (lower.Some? ==> LexLe(lower.value, key)) && (upper.Some? ==> LexLe(key, upper.value))
  }

  function MaxKey(w: nat): nat {
    Pow256(w) - 1
  }

  lemma AddOneVal(k: nat, w: nat)
    requires k < Pow256(w)
    ensures |AddOne(Encode(k, w))| == w
    ensures Val(AddOne(Encode(k, w))) == if k == MaxKey(w) then k else k + 1
  {
    var v := Encode(k, w);
    MaxIsLargest(v);
    CarryAddsOne(v);
  }

  /** The bounds as numbers. */
  lemma BoundsNumeric(start: Bound, end: Bound, w: nat, k: nat)
    requires Fits(start, w) && Fits(end, w) && k < Pow256(w)
    ensures var lower, upper := LowerBytes(start, w), UpperBytes(end, w);
      && (lower.Some? ==> (LexLe(lower.value, Encode(k, w)) <==> Val(lower.value) <= k))
      && (upper.Some? ==> (LexLt(Encode(k, w), upper.value) <==> k < Val(upper.value)))
      && (upper.Some? ==> (LexLe(Encode(k, w), upper.value) <==> k <= Val(upper.value)))
      && (start.Included? ==> Val(lower.value) == start.k)
      && (start.Excluded? ==> Val(lower.value) == if start.k == MaxKey(w) then start.k else start.k + 1)
      && (end.Included? ==> Val(upper.value) == if end.k == MaxKey(w) then end.k else end.k + 1)
      && (end.Excluded? ==> Val(upper.value) == end.k)
  {
    var lower, upper := LowerBytes(start, w), UpperBytes(end, w);
    if !start.Unbounded? {
      AddOneVal(start.k, w);
      LexIsNumeric(lower.value, Encode(k, w));
    }
    if !end.Unbounded? {
      AddOneVal(end.k, w);
      LexIsNumeric(Encode(k, w), upper.value);
    }
  }

  /** The saturation at the largest key changes the meaning of the bounds. */
  predicate SaturatesAtMax(start: Bound, end: Bound, w: nat) {
    || (start == Excluded(MaxKey(w)) && end.Unbounded?)
    || (start != Excluded(MaxKey(w)) && end == Included(MaxKey(w)))
  }

  /** For all nine combinations of bounds: read half-open, the byte range holds exactly the
      requested keys, except that it is wrong about the all-0xFF key, and only about that key,
      exactly when the increment of a bound saturated. */
  lemma RangeExact(start: Bound, end: Bound, w: nat, k: nat)
    requires Fits(start, w) && Fits(end, w) && k < Pow256(w)
    ensures WithinHalfOpen(LowerBytes(start, w), UpperBytes(end, w), Encode(k, w)) == InRange(start, end, k) <==>
      !(k == MaxKey(w) && SaturatesAtMax(start, end, w))
  {
    BoundsNumeric(start, end, w, k);
  }

  /** The key one past the requested range that a closed reading of the bounds lets in. */
  function Overshoot(end: Bound, w: nat): Option<nat> {
    match end
    case Included(u) => if u == MaxKey(w) then None else Some(u + 1)
    case Excluded(u) => Some(u)
    case Unbounded => None
  }

  /** Read closed, as the in-memory store does, the same bytes hold the requested keys and one
      more: the key just past the end, if the lower bound admits it (and the largest key again,
      when an excluded lower bound saturated). */
  lemma RangeReadClosed(start: Bound, end: Bound, w: nat, k: nat)
    requires Fits(start, w) && Fits(end, w) && k < Pow256(w)
    ensures WithinClosed(LowerBytes(start, w), UpperBytes(end, w), Encode(k, w)) <==>
      || InRange(start, end, k)
      || (Overshoot(end, w) == Some(k) && InRange(start, Unbounded, k))
      || (k == MaxKey(w) && start == Excluded(k) && (end.Unbounded? || end.k == k || end == Included(k - 1)))
  {
    LowerAdmits(start, w, k);
    UpperAdmits(end, w, k);
  }

  lemma LowerAdmits(start: Bound, w: nat, k: nat)
    requires Fits(start, w) && k < Pow256(w)
    ensures (LowerBytes(start, w).Some? ==> LexLe(LowerBytes(start, w).value, Encode(k, w))) <==>
      InRange(start, Unbounded, k) || (k == MaxKey(w) && start == Excluded(k))
  {
    BoundsNumeric(start, Unbounded, w, k);
  }

  lemma UpperAdmits(end: Bound, w: nat, k: nat)
    requires Fits(end, w) && k < Pow256(w)
    ensures (UpperBytes(end, w).Some? ==> LexLe(Encode(k, w), UpperBytes(end, w).value)) <==>
      InRange(Unbounded, end, k) || Overshoot(end, w) == Some(k)
  {
    BoundsNumeric(Unbounded, end, w, k);
  }
}
