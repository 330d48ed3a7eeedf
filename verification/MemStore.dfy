/** The in-memory column store: point access, batches and ordered iteration. */
module MemStore {
  import opened Wrappers
  import opened ByteKeys

  type Value = seq<byte>

  type Column = map<Key, Value>

  type Data = map<string, Column>

  datatype Change = Delete(cf: string, key: Key) | Put(cf: string, key: Key, value: Value)

  // ---------------------------------------------------------------------------
  // Contents
  // ---------------------------------------------------------------------------

  function ColumnOf(data: Data, cf: string): Column {
    if cf in data then data[cf] else map[]
  }

  function Lookup(data: Data, cf: string, key: Key): Option<Value> {
    if key in ColumnOf(data, cf) then Some(ColumnOf(data, cf)[key]) else None
  }

  /** One change.  Deleting from an absent column creates it. */
  function Apply(data: Data, c: Change): Data {
    match c
    case Delete(cf, key) => data[cf := ColumnOf(data, cf) - {key}]
    case Put(cf, key, value) => data[cf := ColumnOf(data, cf)[key := value]]
  }

  function ApplyAll(data: Data, changes: seq<Change>): Data {
    if changes == [] then data
    else Apply(ApplyAll(data, changes[..|changes| - 1]), changes[|changes| - 1])
  }

  predicate Touches(c: Change, cf: string, key: Key) {
    c.cf == cf && c.key == key
  }

  function Outcome(c: Change): Option<Value> {
    if c.Put? then Some(c.value) else None
  }

  /** Position of the last change to a key. */
  function LastChange(changes: seq<Change>, cf: string, key: Key): (i: Option<nat>)
    ensures i.Some? ==> i.value < |changes| && Touches(changes[i.value], cf, key)
    ensures i.Some? ==> forall j :: i.value < j < |changes| ==> !Touches(changes[j], cf, key)
    ensures i.None? ==> forall j :: 0 <= j < |changes| ==> !Touches(changes[j], cf, key)
  {
    if changes == [] then None
    else if Touches(changes[|changes| - 1], cf, key) then Some(|changes| - 1)
    else LastChange(changes[..|changes| - 1], cf, key)
  }

  /** The last change to a key decides it; untouched keys keep their value. */
  lemma {:induction false} LastWriterWins(data: Data, changes: seq<Change>, cf: string, key: Key)
    ensures var last := LastChange(changes, cf, key);
      Lookup(ApplyAll(data, changes), cf, key) == if last.Some? then Outcome(changes[last.value]) else Lookup(data, cf, key)
  {
    if changes != [] {
      var n := |changes| - 1;
      LastWriterWins(data, changes[..n], cf, key);
      ApplyOne(ApplyAll(data, changes[..n]), changes[n], cf, key);
    }
  }

  /** Columns named in a batch exist afterwards, whether or not anything is left in them. */
  lemma {:induction false} BatchCreatesColumns(data: Data, changes: seq<Change>, cf: string)
    ensures cf in ApplyAll(data, changes) <==> cf in data || exists i :: 0 <= i < |changes| && changes[i].cf == cf
  {
    if changes != [] {
      var n := |changes| - 1;
      BatchCreatesColumns(data, changes[..n], cf);
      assert forall j :: 0 <= j < n ==> changes[..n][j] == changes[j];
    }
  }

  lemma ApplyOne(data: Data, c: Change, cf: string, key: Key)
    ensures Lookup(Apply(data, c), cf, key) == if Touches(c, cf, key) then Outcome(c) else Lookup(data, cf, key)
    ensures cf in Apply(data, c) <==> cf in data || c.cf == cf
  {
  }

  // ---------------------------------------------------------------------------
  // Ordered iteration
  // ---------------------------------------------------------------------------

  lemma {:induction false} LexTotal(a: Key, b: Key)
    ensures a == b || LexLt(a, b) || LexLt(b, a)
    ensures !(LexLt(a, b) && LexLt(b, a)) && !LexLt(a, a)
  {
    if a != [] && b != [] {
      LexTotal(a[1..], b[1..]);
      assert a == [a[0]] + a[1..] && b == [b[0]] + b[1..];
    }
    if a != [] {
      LexTotal(a[1..], a[1..]);
    }
  }

  lemma {:induction false} LexTransitive(a: Key, b: Key, c: Key)
    requires LexLt(a, b) && LexLt(b, c)
    ensures LexLt(a, c)
  {
    if a != [] && a[0] == b[0] && b[0] == c[0] {
      LexTransitive(a[1..], b[1..], c[1..]);
    }
  }

  lemma {:induction false} LeastKey(keys: set<Key>) returns (k: Key)
    requires keys != {}
    ensures k in keys && forall x :: x in keys ==> LexLe(k, x)
  {
    var x :| x in keys;
    if keys == {x} {
      k := x;
    } else {
      k := LeastKey(keys - {x});
      LexTotal(x, k);
      if LexLt(x, k) {
        forall y | y in keys ensures LexLe(x, y) {
          if y != x && y != k {
            assert LexLe(k, y);
            LexTransitive(x, k, y);
          }
        }
        k := x;
      }
    }
  }

  predicate Ascending(s: seq<(Key, Value)>) {
    forall i, j :: 0 <= i < j < |s| ==> LexLt(s[i].0, s[j].0)
  }

  /** Exactly the column's entries between the bounds, both inclusive. */
  ghost predicate IsSection(column: Column, lower: Option<Key>, upper: Option<Key>, s: seq<(Key, Value)>) {
    && Ascending(s)
    && (forall i :: 0 <= i < |s| ==> s[i].0 in column && s[i].1 == column[s[i].0] && WithinClosed(lower, upper, s[i].0))
    && (forall k :: k in column && WithinClosed(lower, upper, k) ==> exists i :: 0 <= i < |s| && s[i].0 == k)
  }

  /** The walk of an ordered map over a range, least key first. */
  method Range(column: Column, lower: Option<Key>, upper: Option<Key>) returns (s: seq<(Key, Value)>)
    ensures IsSection(column, lower, upper, s)
  {
    s := [];
    var todo := set k | k in column && WithinClosed(lower, upper, k);
    while todo != {}
      invariant Ascending(s)
      invariant todo <= column.Keys && forall k :: k in todo ==> WithinClosed(lower, upper, k)
      invariant forall i :: 0 <= i < |s| ==> s[i].0 in column && s[i].1 == column[s[i].0] && WithinClosed(lower, upper, s[i].0)
      invariant forall i, k :: 0 <= i < |s| && k in todo ==> LexLt(s[i].0, k)
      invariant forall k :: k in column && WithinClosed(lower, upper, k) ==> k in todo || exists i :: 0 <= i < |s| && s[i].0 == k
      decreases todo
    {
      ghost var least := LeastKey(todo);
      var key :| key in todo && forall x :: x in todo ==> LexLe(key, x);
      ghost var before := s;
      s := s + [(key, column[key])];
      assert s[|before|].0 == key;
      assert forall i :: 0 <= i < |before| ==> s[i] == before[i];
      forall i, k | 0 <= i < |s| && k in todo - {key} ensures LexLt(s[i].0, k) {
        if i < |before| {
          assert LexLt(before[i].0, k);
        } else {
          assert LexLe(key, k);
        }
      }
      todo := todo - {key};
    }
  }

  lemma FindInSection(column: Column, lower: Option<Key>, upper: Option<Key>, s: seq<(Key, Value)>, k: Key) returns (i: nat)
    requires IsSection(column, lower, upper, s) && k in column && WithinClosed(lower, upper, k)
    ensures i < |s| && s[i].0 == k
  {
    i :| 0 <= i < |s| && s[i].0 == k;
  }

  /** There is only one such section, so the walk is determined. */
  lemma SectionUnique(column: Column, lower: Option<Key>, upper: Option<Key>, s: seq<(Key, Value)>, t: seq<(Key, Value)>)
    requires IsSection(column, lower, upper, s) && IsSection(column, lower, upper, t)
    ensures s == t
  {
    if |s| <= |t| {
      SectionPrefix(column, lower, upper, s, t, |s|);
      assert s[..|s|] == s;
      SectionNoMore(column, lower, upper, s, t);
    } else {
      SectionPrefix(column, lower, upper, t, s, |t|);
      assert t[..|t|] == t;
      SectionNoMore(column, lower, upper, t, s);
    }
  }

  lemma SectionNoMore(column: Column, lower: Option<Key>, upper: Option<Key>, s: seq<(Key, Value)>, t: seq<(Key, Value)>)
    requires IsSection(column, lower, upper, s) && IsSection(column, lower, upper, t)
    requires |s| <= |t| && s == t[..|s|]
    ensures s == t
  {
    if |s| < |t| {
      var j := FindInSection(column, lower, upper, s, t[|s|].0);
      assert t[j] == s[j];
      LexTotal(t[j].0, t[|s|].0);
      assert false;
    }
  }

  lemma {:induction false} SectionPrefix(column: Column, lower: Option<Key>, upper: Option<Key>, s: seq<(Key, Value)>, t: seq<(Key, Value)>, n: nat)
    requires IsSection(column, lower, upper, s) && IsSection(column, lower, upper, t)
    requires n <= |s| && n <= |t|
    ensures s[..n] == t[..n]
  {
    if n > 0 {
      var m := n - 1;
      SectionPrefix(column, lower, upper, s, t, m);
      NextKeyAgrees(column, lower, upper, s, t, m);
      assert s[..n] == s[..m] + [s[m]] && t[..n] == t[..m] + [t[m]];
    }
  }

  lemma NextKeyAgrees(column: Column, lower: Option<Key>, upper: Option<Key>, s: seq<(Key, Value)>, t: seq<(Key, Value)>, m: nat)
    requires IsSection(column, lower, upper, s) && IsSection(column, lower, upper, t)
    requires m < |s| && m < |t| && s[..m] == t[..m]
    ensures s[m] == t[m]
  {
    NextKeyNotBefore(column, lower, upper, s, t, m);
    NextKeyNotBefore(column, lower, upper, t, s, m);
    LexTotal(s[m].0, t[m].0);
  }

  lemma NextKeyNotBefore(column: Column, lower: Option<Key>, upper: Option<Key>, s: seq<(Key, Value)>, t: seq<(Key, Value)>, m: nat)
    requires IsSection(column, lower, upper, s) && IsSection(column, lower, upper, t)
    requires m < |s| && m < |t| && s[..m] == t[..m]
    ensures LexLe(t[m].0, s[m].0)
  {
    var j := FindInSection(column, lower, upper, t, s[m].0);
    if j < m {
      assert t[j] == t[..m][j] == s[..m][j] == s[j];
      LexTotal(s[j].0, s[m].0);
    } else if j > m {
      assert LexLt(t[m].0, t[j].0);
    }
  }

  function Reversed(s: seq<(Key, Value)>): (r: seq<(Key, Value)>)
    ensures |r| == |s| && forall i :: 0 <= i < |s| ==> r[i] == s[|s| - 1 - i]
  {
    if s == [] then [] else [s[|s| - 1]] + Reversed(s[..|s| - 1])
  }

  // ---------------------------------------------------------------------------
  // The store
  // ---------------------------------------------------------------------------

  class InMemoryDB {
    var data: Data

    constructor ()
      ensures data == map[]
    {
      data := map[];
    }

    method Get(cf: string, key: Key) returns (value: Option<Value>)
      ensures value == Lookup(data, cf, key)
    {
      if cf in data {
        value := if key in data[cf] then Some(data[cf][key]) else None;
      } else {
        value := None;
      }
    }

    /** Pointwise on an existing column; an absent column answers with an empty list. */
    method MultiGet(cf: string, keys: seq<Key>) returns (values: seq<Option<Value>>)
      ensures cf in data ==> |values| == |keys| && forall i :: 0 <= i < |keys| ==> values[i] == Lookup(data, cf, keys[i])
      ensures cf !in data ==> values == []
    {
      values := [];
      if cf in data {
        for i := 0 to |keys|
          invariant |values| == i && forall j :: 0 <= j < i ==> values[j] == Lookup(data, cf, keys[j])
        {
          var value := Get(cf, keys[i]);
          values := values + [value];
        }
      }
    }

    method DeleteKey(cf: string, key: Key)
      modifies this
      ensures data == Apply(old(data), Delete(cf, key))
    {
      var column := if cf in data then data[cf] else map[];
      data := data[cf := column - {key}];
    }

    method PutKey(cf: string, key: Key, value: Value)
      modifies this
      ensures data == Apply(old(data), Put(cf, key, value))
    {
      var column := if cf in data then data[cf] else map[];
      data := data[cf := column[key := value]];
    }

    method DropCf(cf: string)
      modifies this
      ensures data == old(data) - {cf}
    {
      data := data - {cf};
    }

    /** Changes are made one at a time, each under its own lock: what other readers can see along
        the way are exactly the effects of the prefixes of the batch. */
    method Write(batch: seq<Change>) returns (ghost seen: seq<Data>)
      modifies this
      ensures data == ApplyAll(old(data), batch)
      ensures |seen| == |batch| + 1 && forall i :: 0 <= i <= |batch| ==> seen[i] == ApplyAll(old(data), batch[..i])
    {
      seen := [data];
      for i := 0 to |batch|
        invariant data == ApplyAll(old(data), batch[..i])
        invariant |seen| == i + 1 && forall j :: 0 <= j <= i ==> seen[j] == ApplyAll(old(data), batch[..j])
      {
        assert batch[..i + 1][..i] == batch[..i];
        match batch[i] {
          case Delete(cf, key) => DeleteKey(cf, key);
          case Put(cf, key, value) => PutKey(cf, key, value);
        }
        seen := seen + [data];
      }
      assert batch[..|batch|] == batch;
    }

    /** Entries between two inclusive bounds, in key order or in reverse. */
    method Iterator(cf: string, lower: Option<Key>, upper: Option<Key>, reverse: bool) returns (entries: Option<seq<(Key, Value)>>)
      ensures Answer(data, cf, lower, upper, reverse, entries)
    {
      if cf !in data {
        EmptySection(lower, upper);
        return Some([]);
      }
      var column := data[cf];
      if Crossed(lower, upper) {
        if column != map[] {
          return None;
        }
        // The ordered map looks at the bounds of an empty walk only if it ever held a key.
        if * {
          return None;
        }
      }
      var section := Range(column, lower, upper);
      if reverse {
        ReversedTwice(section);
        section := Reversed(section);
      }
      return Some(section);
    }

    /** The typed range iterator on this backend: half-open byte bounds handed to the closed walk. */
    method SafeRangeIter(cf: string, start: Bound, end: Bound, w: nat) returns (entries: Option<seq<(Key, Value)>>)
      requires Fits(start, w) && Fits(end, w)
      ensures Answer(data, cf, LowerBytes(start, w), UpperBytes(end, w), false, entries)
    {
      var lower, upper := IteratorBoundsWithRange(start, end, w);
      entries := Iterator(cf, lower, upper, false);
    }
  }

  /** A store that went through a history of operations holds what the history says. */
  method Replay(ops: seq<Operation>) returns (db: InMemoryDB)
    ensures fresh(db) && db.data == PerformAll(ops)
  {
    db := new InMemoryDB();
    for i := 0 to |ops|
      invariant fresh(db) && db.data == PerformAll(ops[..i])
    {
      assert ops[..i + 1][..i] == ops[..i];
      match ops[i] {
        case Single(Delete(cf, key)) => db.DeleteKey(cf, key);
        case Single(Put(cf, key, value)) => db.PutKey(cf, key, value);
        case Batch(changes) => ghost var _ := db.Write(changes);
        case Drop(cf) => db.DropCf(cf);
      }
    }
    assert ops[..|ops|] == ops;
  }

  /** Bounds in the wrong order. */
  predicate Crossed(lower: Option<Key>, upper: Option<Key>) {
    lower.Some? && upper.Some? && LexLt(upper.value, lower.value)
  }

  /** What the walk answers: the section, or nothing when it aborts.  It aborts on crossed bounds in
      a column that holds something, never on an absent column, and never otherwise. */
  ghost predicate Answer(data: Data, cf: string, lower: Option<Key>, upper: Option<Key>, reverse: bool, entries: Option<seq<(Key, Value)>>) {
    && (entries.None? ==> Crossed(lower, upper) && cf in data)
    && (Crossed(lower, upper) && ColumnOf(data, cf) != map[] ==> entries.None?)
    && (entries.Some? ==> IsSection(ColumnOf(data, cf), lower, upper, if reverse then Reversed(entries.value) else entries.value))
  }

  lemma EmptySection(lower: Option<Key>, upper: Option<Key>)
    ensures IsSection(map[], lower, upper, [])
  {
  }

  lemma ReversedTwice(s: seq<(Key, Value)>)
    ensures Reversed(Reversed(s)) == s
  {
  }

  // ---------------------------------------------------------------------------
  // Typed keys
  // ---------------------------------------------------------------------------

  /** Every key of the column is a serialized typed key of the given width. */
  ghost predicate FixedWidth(column: Column, w: nat) {
    forall k :: k in column ==> |k| == w
  }

  /** An operation of the store on one column's typed keys. */
  datatype Operation = Single(change: Change) | Batch(changes: seq<Change>) | Drop(cf: string)

  function Perform(data: Data, op: Operation): Data {
    match op
    case Single(c) => Apply(data, c)
    case Batch(cs) => ApplyAll(data, cs)
    case Drop(cf) => data - {cf}
  }

  function PerformAll(ops: seq<Operation>): Data {
    if ops == [] then map[] else Perform(PerformAll(ops[..|ops| - 1]), ops[|ops| - 1])
  }

  ghost predicate ChangeWidth(c: Change, cf: string, w: nat) {
    c.cf == cf && c.Put? ==> |c.key| == w
  }

  ghost predicate OperationWidth(op: Operation, cf: string, w: nat) {
    match op
    case Single(c) => ChangeWidth(c, cf, w)
    case Batch(cs) => forall i :: 0 <= i < |cs| ==> ChangeWidth(cs[i], cf, w)
    case Drop(_) => true
  }

  lemma {:induction false} BatchKeepsWidth(data: Data, cs: seq<Change>, cf: string, w: nat)
    requires FixedWidth(ColumnOf(data, cf), w) && forall i :: 0 <= i < |cs| ==> ChangeWidth(cs[i], cf, w)
    ensures FixedWidth(ColumnOf(ApplyAll(data, cs), cf), w)
  {
    if cs != [] {
      BatchKeepsWidth(data, cs[..|cs| - 1], cf, w);
    }
  }

  lemma {:induction false} HistoryKeepsWidth(ops: seq<Operation>, cf: string, w: nat)
    requires forall i :: 0 <= i < |ops| ==> OperationWidth(ops[i], cf, w)
    ensures FixedWidth(ColumnOf(PerformAll(ops), cf), w)
  {
    if ops != [] {
      var n := |ops| - 1;
      HistoryKeepsWidth(ops[..n], cf, w);
      assert OperationWidth(ops[n], cf, w);
      if ops[n].Batch? {
        BatchKeepsWidth(PerformAll(ops[..n]), ops[n].changes, cf, w);
      }
    }
  }

  function EncodeBound(b: Option<nat>, w: nat): Option<Key>
    requires b.Some? ==> b.value < Pow256(w)
  {
    if b.None? then None else Some(Encode(b.value, w))
  }

  /** After any history of typed operations, iterating between inclusive typed bounds gives exactly
      the stored keys in those bounds, once each, in strictly increasing typed order. */
  lemma TypedIteration(ops: seq<Operation>, cf: string, w: nat, lower: Option<nat>, upper: Option<nat>, s: seq<(Key, Value)>)
    requires forall i :: 0 <= i < |ops| ==> OperationWidth(ops[i], cf, w)
    requires (lower.Some? ==> lower.value < Pow256(w)) && (upper.Some? ==> upper.value < Pow256(w))
    requires IsSection(ColumnOf(PerformAll(ops), cf), EncodeBound(lower, w), EncodeBound(upper, w), s)
    ensures forall i, j :: 0 <= i < j < |s| ==> Val(s[i].0) < Val(s[j].0)
    ensures forall n :: 0 <= n < Pow256(w) ==>
      (Yields(s, Encode(n, w)) <==> Encode(n, w) in ColumnOf(PerformAll(ops), cf) && Within(lower, upper, n))
  {
    HistoryKeepsWidth(ops, cf, w);
    forall i, j | 0 <= i < j < |s| ensures Val(s[i].0) < Val(s[j].0) {
      LexIsNumeric(s[i].0, s[j].0);
    }
    forall n | 0 <= n < Pow256(w)
      ensures Yields(s, Encode(n, w)) <==> Encode(n, w) in ColumnOf(PerformAll(ops), cf) && Within(lower, upper, n)
    {
      TypedSection(ColumnOf(PerformAll(ops), cf), w, lower, upper, s, n);
    }
  }

  ghost predicate Yields(s: seq<(Key, Value)>, k: Key) {
    exists i :: 0 <= i < |s| && s[i].0 == k
  }

  predicate Within(lower: Option<nat>, upper: Option<nat>, n: nat) {
    (lower.Some? ==> lower.value <= n) && (upper.Some? ==> n <= upper.value)
  }

  lemma TypedSection(column: map<Key, Value>, w: nat, lower: Option<nat>, upper: Option<nat>, s: seq<(Key, Value)>, n: nat)
    requires (lower.Some? ==> lower.value < Pow256(w)) && (upper.Some? ==> upper.value < Pow256(w)) && n < Pow256(w)
    requires IsSection(column, EncodeBound(lower, w), EncodeBound(upper, w), s)
    ensures Yields(s, Encode(n, w)) <==> Encode(n, w) in column && Within(lower, upper, n)
  {
    if lower.Some? {
      LexIsNumeric(Encode(lower.value, w), Encode(n, w));
    }
    if upper.Some? {
      LexIsNumeric(Encode(n, w), Encode(upper.value, w));
    }
  }

  // ---------------------------------------------------------------------------
  // The typed range iterator
  // ---------------------------------------------------------------------------

  /** What a typed range asks of a column: its entries in the range, once each, in key order. */
  ghost predicate Requested(column: Column, start: Bound, end: Bound, s: seq<(Key, Value)>) {
    && Ascending(s)
    && (forall i :: 0 <= i < |s| ==> s[i].0 in column && s[i].1 == column[s[i].0] && InRange(start, end, Val(s[i].0)))
    && (forall k :: k in column && InRange(start, end, Val(k)) ==> Yields(s, k))
  }

  /** Every answer of the iterator, on every store whose column has keys of the given width, is
      what was asked for. */
  ghost predicate AlwaysRequested(start: Bound, end: Bound, w: nat)
    requires Fits(start, w) && Fits(end, w)
  {
    forall data: Data, cf: string, entries: Option<seq<(Key, Value)>> ::
      FixedWidth(ColumnOf(data, cf), w) && Answer(data, cf, LowerBytes(start, w), UpperBytes(end, w), false, entries) ==>
        entries.Some? && Requested(ColumnOf(data, cf), start, end, entries.value)
  }

  /** The byte bounds are not crossed, the closed walk admits no key past the end, and no lower
      bound is saturated. */
  predicate ClosedReadingExact(start: Bound, end: Bound, w: nat)
    requires Fits(start, w) && Fits(end, w)
  {
    && !Crossed(LowerBytes(start, w), UpperBytes(end, w))
    && (Overshoot(end, w).Some? ==> !InRange(start, Unbounded, Overshoot(end, w).value))
    && !(start == Excluded(MaxKey(w)) && (end.Unbounded? || end.k == MaxKey(w) || end == Included(MaxKey(w) - 1)))
  }

  /** Key by key, the closed walk and the request agree, unless the last two clauses fail. */
  lemma ClosedReadingAgrees(start: Bound, end: Bound, w: nat, k: nat)
    requires Fits(start, w) && Fits(end, w) && ClosedReadingExact(start, end, w) && k < Pow256(w)
    ensures WithinClosed(LowerBytes(start, w), UpperBytes(end, w), Encode(k, w)) <==> InRange(start, end, k)
  {
    RangeReadClosed(start, end, w, k);
  }

  /** A store with the one key k. */
  function OneKey(k: nat, w: nat): Data
    requires k < Pow256(w)
  {
    map["cf" := map[Encode(k, w) := []]]
  }

  lemma OneKeySection(lower: Option<Key>, upper: Option<Key>, key: Key)
    requires WithinClosed(lower, upper, key)
    ensures IsSection(map[key := []], lower, upper, [(key, [])])
  {
    var s: seq<(Key, Value)> := [(key, [])];
    assert s[0].0 == key;
  }

  /** On crossed bounds the iterator aborts, whatever the one key is. */
  lemma CrossedAborts(start: Bound, end: Bound, w: nat)
    requires Fits(start, w) && Fits(end, w) && Crossed(LowerBytes(start, w), UpperBytes(end, w))
    ensures !AlwaysRequested(start, end, w)
  {
    var data := OneKey(0, w);
    assert ColumnOf(data, "cf") == map[Encode(0, w) := []];
    assert Encode(0, w) in ColumnOf(data, "cf");
    assert FixedWidth(ColumnOf(data, "cf"), w);
    assert Answer(data, "cf", LowerBytes(start, w), UpperBytes(end, w), false, None);
  }

  /** A key that the walk admits and the range does not, alone in a column, is returned. */
  lemma StrayKeyIsReturned(start: Bound, end: Bound, w: nat, k: nat)
    requires Fits(start, w) && Fits(end, w) && !Crossed(LowerBytes(start, w), UpperBytes(end, w)) && k < Pow256(w)
    requires WithinClosed(LowerBytes(start, w), UpperBytes(end, w), Encode(k, w)) && !InRange(start, end, k)
    ensures !AlwaysRequested(start, end, w)
  {
    var data, key := OneKey(k, w), Encode(k, w);
    assert ColumnOf(data, "cf") == map[key := []];
    assert FixedWidth(ColumnOf(data, "cf"), w);
    var s := [(key, [])];
    OneKeySection(LowerBytes(start, w), UpperBytes(end, w), key);
    assert Answer(data, "cf", LowerBytes(start, w), UpperBytes(end, w), false, Some(s));
    assert !InRange(start, end, Val(s[0].0));
  }

  lemma ExactIsRequested(start: Bound, end: Bound, w: nat, column: Column, s: seq<(Key, Value)>)
    requires Fits(start, w) && Fits(end, w) && ClosedReadingExact(start, end, w)
    requires FixedWidth(column, w) && IsSection(column, LowerBytes(start, w), UpperBytes(end, w), s)
    ensures Requested(column, start, end, s)
  {
    forall k | k in column ensures WithinClosed(LowerBytes(start, w), UpperBytes(end, w), k) <==> InRange(start, end, Val(k)) {
      ValBound(k);
      EncodeOfVal(k);
      ClosedReadingAgrees(start, end, w, Val(k));
    }
  }

  /** The typed range iterator of the in-memory backend gives what was asked for, on every store,
      exactly under that condition; otherwise it aborts on some store or returns a stray key. */
  lemma ClosedReadingExactIff(start: Bound, end: Bound, w: nat)
    requires Fits(start, w) && Fits(end, w)
    ensures ClosedReadingExact(start, end, w) <==> AlwaysRequested(start, end, w)
  {
    if ClosedReadingExact(start, end, w) {
      forall data: Data, cf: string, entries: Option<seq<(Key, Value)>>
        | FixedWidth(ColumnOf(data, cf), w) && Answer(data, cf, LowerBytes(start, w), UpperBytes(end, w), false, entries)
        ensures entries.Some? && Requested(ColumnOf(data, cf), start, end, entries.value)
      {
        ExactIsRequested(start, end, w, ColumnOf(data, cf), entries.value);
      }
    } else if Crossed(LowerBytes(start, w), UpperBytes(end, w)) {
      CrossedAborts(start, end, w);
    } else {
      var stray := if start == Excluded(MaxKey(w)) then MaxKey(w) else Overshoot(end, w).value;
      RangeReadClosed(start, end, w, stray);
      StrayKeyIsReturned(start, end, w, stray);
    }
  }

  /** Asking a store that holds only the key 5 for keys below 5 returns it. */
  method ClosedReadingExample() returns (entries: Option<seq<(Key, Value)>>)
    ensures Encode(5, 1) == [5] && !InRange(Unbounded, Excluded(5), 5)
    ensures entries == Some([([5], [])])
  {
    assert Pow256(0) == 1 && Pow256(1) == 256;
    assert Encode(5, 1) == [5];
    var db := new InMemoryDB();
    db.PutKey("cf", [5], []);
    entries := db.SafeRangeIter("cf", Unbounded, Excluded(5), 1);
    assert ColumnOf(db.data, "cf") == map[[5] := []];
    OneKeySection(None, Some([5]), [5]);
    SectionUnique(map[[5] := []], None, Some([5]), entries.value, [([5], [])]);
  }

  /** Asking the same store for the keys strictly between 5 and 5 aborts, where the answer is that
      there are none. */
  method CrossedReadingExample() returns (entries: Option<seq<(Key, Value)>>)
    ensures forall k: nat :: !InRange(Excluded(5), Excluded(5), k)
    ensures entries.None?
  {
    assert Pow256(0) == 1 && Pow256(1) == 256;
    var db := new InMemoryDB();
    db.PutKey("cf", [5], []);
    AddOneVal(5, 1);
    LexIsNumeric(Encode(5, 1), AddOne(Encode(5, 1)));
    entries := db.SafeRangeIter("cf", Excluded(5), Excluded(5), 1);
    assert [5] in ColumnOf(db.data, "cf");
  }
}
