/** The exact-percentile histogram: points are collected window by window, and a reporter publishes
    percentiles, sums and counts. */
module Histogram {
  import opened Wrappers

  type Label = string
  type Point = nat

  /** Points beyond this many in one window are dropped. */
  const MAX_POINTS: nat := 500_000

  // ---------------------------------------------------------------------------
  // Percentiles
  // ---------------------------------------------------------------------------

  function Insert(s: seq<Point>, x: Point): seq<Point> {
    if s == [] || s[|s| - 1] <= x then s + [x] else Insert(s[..|s| - 1], x) + [s[|s| - 1]]
  }

  function Sort(s: seq<Point>): (t: seq<Point>)
    ensures |t| == |s|
  {
    if s == [] then [] else
      var t := Sort(s[..|s| - 1]);
      InsertLength(t, s[|s| - 1]);
      Insert(t, s[|s| - 1])
  }

  lemma {:induction false} InsertLength(s: seq<Point>, x: Point)
    ensures |Insert(s, x)| == |s| + 1
  {
    if s != [] && s[|s| - 1] > x {
      InsertLength(s[..|s| - 1], x);
    }
  }

  ghost predicate Sorted(s: seq<Point>) {
    forall i, j :: 0 <= i < j < |s| ==> s[i] <= s[j]
  }

  lemma {:induction false} InsertSorted(s: seq<Point>, x: Point)
    requires Sorted(s)
    ensures Sorted(Insert(s, x)) && forall y :: y in Insert(s, x) <==> y in s || y == x
  {
    if s != [] && s[|s| - 1] > x {
      var front, last := s[..|s| - 1], s[|s| - 1];
      InsertSorted(front, x);
      assert s == front + [last];
      var t := Insert(front, x);
      forall i | 0 <= i < |t| ensures t[i] <= last {
        assert t[i] in t;
      }
    }
  }

  lemma {:induction false} SortSorts(s: seq<Point>)
    ensures Sorted(Sort(s)) && forall y :: y in Sort(s) <==> y in s
  {
    if s != [] {
      SortSorts(s[..|s| - 1]);
      InsertSorted(Sort(s[..|s| - 1]), s[|s| - 1]);
      assert s == s[..|s| - 1] + [s[|s| - 1]];
    }
  }

  function Index(len: nat, pct: nat): nat {
    len * pct / 1000
  }

  /** The index is in range exactly for percentiles below 1000 thousandths. */
  lemma IndexInRange(len: nat, pct: nat)
    requires len > 0
    ensures Index(len, pct) < len <==> pct < 1000
  {
    if pct < 1000 {
      assert len * pct <= len * 999;
    } else {
      assert len * pct >= len * 1000;
    }
  }

  function Percentile(data: seq<Point>, pct: nat): Point
    requires data != [] && pct < 1000
  {
    IndexInRange(|data|, pct);
    Sort(data)[Index(|data|, pct)]
  }

  /** How many points are at most, and at least, x. */
  function AtMost(s: seq<Point>, x: Point): nat {
    if s == [] then 0 else AtMost(s[..|s| - 1], x) + (if s[|s| - 1] <= x then 1 else 0)
  }

  function AtLeast(s: seq<Point>, x: Point): nat {
    if s == [] then 0 else AtLeast(s[..|s| - 1], x) + (if s[|s| - 1] >= x then 1 else 0)
  }

  lemma {:induction false} InsertCounts(s: seq<Point>, y: Point, x: Point)
    ensures AtMost(Insert(s, y), x) == AtMost(s, x) + (if y <= x then 1 else 0)
    ensures AtLeast(Insert(s, y), x) == AtLeast(s, x) + (if y >= x then 1 else 0)
  {
    var t := Insert(s, y);
    if s == [] || s[|s| - 1] <= y {
      assert t[..|t| - 1] == s;
    } else {
      InsertCounts(s[..|s| - 1], y, x);
      assert t[..|t| - 1] == Insert(s[..|s| - 1], y);
    }
  }

  lemma {:induction false} SortCounts(s: seq<Point>, x: Point)
    ensures AtMost(Sort(s), x) == AtMost(s, x) && AtLeast(Sort(s), x) == AtLeast(s, x)
  {
    if s != [] {
      SortCounts(s[..|s| - 1], x);
      InsertCounts(Sort(s[..|s| - 1]), s[|s| - 1], x);
    }
  }

  lemma {:induction false} PrefixCounts(t: seq<Point>, n: nat, x: Point)
    requires n <= |t|
    ensures (forall i :: 0 <= i < n ==> t[i] <= x) ==> AtMost(t, x) >= n
    ensures (forall i :: n <= i < |t| ==> t[i] >= x) ==> AtLeast(t, x) >= |t| - n
  {
    if t != [] {
      var front := t[..|t| - 1];
      PrefixCounts(front, if n < |t| then n else n - 1, x);
    }
  }

  /** These are the numbers of such positions. */
  lemma {:induction false} AtMostExact(s: seq<Point>, x: Point, low: set<nat>)
    requires forall i :: i in low <==> 0 <= i < |s| && s[i] <= x
    ensures AtMost(s, x) == |low|
  {
    if s == [] {
      assert low == {};
    } else {
      var n := |s| - 1;
      AtMostExact(s[..n], x, low - {n});
    }
  }

  lemma {:induction false} AtLeastExact(s: seq<Point>, x: Point, high: set<nat>)
    requires forall i :: i in high <==> 0 <= i < |s| && s[i] >= x
    ensures AtLeast(s, x) == |high|
  {
    if s == [] {
      assert high == {};
    } else {
      var n := |s| - 1;
      AtLeastExact(s[..n], x, high - {n});
    }
  }

  lemma {:induction false} CountsApart(s: seq<Point>, x: Point, y: Point)
    requires x < y
    ensures AtMost(s, x) + AtLeast(s, y) <= |s|
  {
    if s != [] {
      CountsApart(s[..|s| - 1], x, y);
    }
  }

  /** The quantile: more than so many thousandths of the points are no larger, and no more than that
      are smaller. */
  ghost predicate IsQuantile(data: seq<Point>, pct: nat, x: Point) {
    x in data && 1000 * AtMost(data, x) > |data| * pct && 1000 * (|data| - AtLeast(data, x)) <= |data| * pct
  }

  /** What is published is the quantile. */
  lemma PercentileRank(data: seq<Point>, pct: nat)
    requires data != [] && pct < 1000
    ensures IsQuantile(data, pct, Percentile(data, pct))
  {
    IndexInRange(|data|, pct);
    SortSorts(data);
    RankInSorted(Sort(data), Index(|data|, pct));
    SortCounts(data, Percentile(data, pct));
    IndexBounds(|data| * pct);
  }

  lemma IndexBounds(n: nat)
    ensures 1000 * (n / 1000) <= n < 1000 * (n / 1000) + 1000
  {
  }

  /** And no other point is. */
  lemma QuantileUnique(data: seq<Point>, pct: nat, x: Point)
    requires data != [] && pct < 1000 && IsQuantile(data, pct, x)
    ensures x == Percentile(data, pct)
  {
    var p := Percentile(data, pct);
    PercentileRank(data, pct);
    if x < p {
      CountsApart(data, x, p);
    } else if p < x {
      CountsApart(data, p, x);
    }
  }

  lemma RankInSorted(t: seq<Point>, i: nat)
    requires Sorted(t) && i < |t|
    ensures t[i] in t && AtMost(t, t[i]) >= i + 1 && AtLeast(t, t[i]) >= |t| - i
  {
    PrefixCounts(t, i + 1, t[i]);
    PrefixCounts(t, i, t[i]);
  }

  // ---------------------------------------------------------------------------
  // Windows
  // ---------------------------------------------------------------------------

  type Points = seq<(Label, Point)>

  function Labels(w: Points): set<Label> {
    set p | p in w :: p.0
  }

  /** The points of one label, in order. */
  function Of(w: Points, name: Label): seq<Point> {
    if w == [] then []
    else Of(w[..|w| - 1], name) + (if w[|w| - 1].0 == name then [w[|w| - 1].1] else [])
  }

  function Sum(s: seq<Point>): nat {
    if s == [] then 0 else Sum(s[..|s| - 1]) + s[|s| - 1]
  }

  /** Totals of a label over the windows reported. */
  function SumOver(windows: seq<Points>, name: Label): nat {
    if windows == [] then 0 else SumOver(windows[..|windows| - 1], name) + Sum(Of(windows[|windows| - 1], name))
  }

  function CountOver(windows: seq<Points>, name: Label): nat {
    if windows == [] then 0 else CountOver(windows[..|windows| - 1], name) + |Of(windows[|windows| - 1], name)|
  }

  function LabelsOver(windows: seq<Points>): set<Label> {
    if windows == [] then {} else LabelsOver(windows[..|windows| - 1]) + Labels(windows[|windows| - 1])
  }

  /** All points of all windows. */
  function Concat(windows: seq<Points>): Points {
    if windows == [] then [] else Concat(windows[..|windows| - 1]) + windows[|windows| - 1]
  }

  lemma {:induction false} SumAdds(s: seq<Point>, t: seq<Point>)
    ensures Sum(s + t) == Sum(s) + Sum(t)
    ensures |t| == 1 ==> Sum(t) == t[0]
  {
    if t == [] {
      assert s + t == s;
    } else {
      var n := |t| - 1;
      assert (s + t)[..|s| + n] == s + t[..n];
      SumAdds(s, t[..n]);
    }
  }

  lemma {:induction false} OfConcat(w: Points, w': Points, name: Label)
    ensures Of(w + w', name) == Of(w, name) + Of(w', name)
    ensures |w'| == 1 ==> Of(w', name) == if w'[0].0 == name then [w'[0].1] else []
  {
    if w' == [] {
      assert w + w' == w;
    } else {
      var n := |w'| - 1;
      assert (w + w')[..|w| + n] == w + w'[..n];
      OfConcat(w, w'[..n], name);
    }
  }

  /** The counters of a label are the sum and the number of its points over all windows reported. */
  lemma {:induction false} TotalsOverAll(windows: seq<Points>, name: Label)
    ensures SumOver(windows, name) == Sum(Of(Concat(windows), name)) && CountOver(windows, name) == |Of(Concat(windows), name)|
  {
    if windows != [] {
      var n := |windows| - 1;
      TotalsOverAll(windows[..n], name);
      OfConcat(Concat(windows[..n]), windows[n], name);
      SumAdds(Of(Concat(windows[..n]), name), Of(windows[n], name));
    }
  }

  /** A label is known once it had a point. */
  lemma {:induction false} KnownLabels(windows: seq<Points>, name: Label)
    ensures name in LabelsOver(windows) <==> Of(Concat(windows), name) != []
  {
    if windows != [] {
      var n := |windows| - 1;
      KnownLabels(windows[..n], name);
      OfConcat(Concat(windows[..n]), windows[n], name);
      LabelHasPoints(windows[n], name);
    }
  }

  lemma {:induction false} LabelHasPoints(w: Points, name: Label)
    ensures name in Labels(w) <==> Of(w, name) != []
  {
    if w != [] {
      LabelHasPoints(w[..|w| - 1], name);
      assert w == w[..|w| - 1] + [w[|w| - 1]];
    }
  }

  /** A window grouped by label. */
  ghost predicate Grouped(data: map<Label, seq<Point>>, w: Points) {
    data.Keys == Labels(w) && forall l :: l in data ==> data[l] == Of(w, l)
  }

  lemma GroupMore(data: map<Label, seq<Point>>, w: Points, p: (Label, Point))
    requires Grouped(data, w)
    ensures Grouped(data[p.0 := (if p.0 in data then data[p.0] else []) + [p.1]], w + [p])
  {
    var w' := w + [p];
    assert w'[..|w'| - 1] == w;
    assert Labels(w') == Labels(w) + {p.0};
    LabelHasPoints(w, p.0);
  }

  // ---------------------------------------------------------------------------
  // The reporter
  // ---------------------------------------------------------------------------

  type Gauges = map<(Label, nat), Point>

  /** What the gauges show for one label: its percentiles in the window, or zero if it had no point. */
  ghost predicate Shows(gauge: Gauges, percentiles: seq<nat>, name: Label, data: seq<Point>) {
    forall i :: 0 <= i < |percentiles| ==>
      && (name, percentiles[i]) in gauge
      && (if data == [] then gauge[(name, percentiles[i])] == 0
          else percentiles[i] < 1000 && gauge[(name, percentiles[i])] == Percentile(data, percentiles[i]))
  }

  function Count(m: map<Label, nat>, name: Label): nat {
    if name in m then m[name] else 0
  }

  class Reporter {
    const percentiles: seq<nat>
    var gauge: Gauges
    var sum: map<Label, nat>
    var count: map<Label, nat>
    var known: set<Label>
    ghost var reported: seq<Points>

    /** Counters are totals over the windows reported, and the gauges show the latest of them. */
    ghost predicate Valid()
      reads this
    {
      && (forall i :: 0 <= i < |percentiles| ==> percentiles[i] < 1000)
      && known == LabelsOver(reported)
      && (forall l :: Count(sum, l) == SumOver(reported, l))
      && (forall l :: Count(count, l) == CountOver(reported, l))
      && (reported != [] ==> forall l :: l in known ==> Shows(gauge, percentiles, l, Of(reported[|reported| - 1], l)))
    }

    constructor (pcts: seq<nat>)
      requires forall i :: 0 <= i < |pcts| ==> pcts[i] < 1000
      ensures Valid() && reported == [] && percentiles == pcts
    {
      percentiles := pcts;
      gauge, sum, count, known, reported := map[], map[], map[], {}, [];
    }

    /** Publishes the percentiles of one label. */
    method SetGauges(name: Label, data: seq<Point>)
      requires forall i :: 0 <= i < |percentiles| ==> percentiles[i] < 1000
      modifies this`gauge
      ensures Shows(gauge, percentiles, name, data)
      ensures forall l, d :: l != name && Shows(old(gauge), percentiles, l, d) ==> Shows(gauge, percentiles, l, d)
    {
      ghost var before := gauge;
      for i := 0 to |percentiles|
        invariant Shows(gauge, percentiles[..i], name, data)
        invariant forall l, p :: l != name && (l, p) in before ==> (l, p) in gauge && gauge[(l, p)] == before[(l, p)]
      {
        var pct := percentiles[i];
        gauge := gauge[(name, pct) := if data == [] then 0 else Percentile(data, pct)];
      }
      assert percentiles[..|percentiles|] == percentiles;
    }

    /** Publishes one label of a window and adds it to the counters. */
    method ReportLabel(name: Label, data: seq<Point>)
      requires forall i :: 0 <= i < |percentiles| ==> percentiles[i] < 1000
      modifies this`gauge, this`sum, this`count
      ensures Shows(gauge, percentiles, name, data)
      ensures forall l, d :: l != name && Shows(old(gauge), percentiles, l, d) ==> Shows(gauge, percentiles, l, d)
      ensures forall l :: Count(sum, l) == Count(old(sum), l) + (if l == name then Sum(data) else 0)
      ensures forall l :: Count(count, l) == Count(old(count), l) + (if l == name then |data| else 0)
    {
      SetGauges(name, data);
      var total := AddUp(data);
      sum := sum[name := Count(sum, name) + total];
      count := count[name := Count(count, name) + |data|];
    }

    /** Publishes every label of a window. */
    method ReportAll(data: map<Label, seq<Point>>)
      requires forall i :: 0 <= i < |percentiles| ==> percentiles[i] < 1000
      modifies this`gauge, this`sum, this`count
      ensures forall l :: l in data ==> Shows(gauge, percentiles, l, data[l])
      ensures forall l, d :: l !in data && Shows(old(gauge), percentiles, l, d) ==> Shows(gauge, percentiles, l, d)
      ensures forall l :: Count(sum, l) == Count(old(sum), l) + (if l in data then Sum(data[l]) else 0)
      ensures forall l :: Count(count, l) == Count(old(count), l) + (if l in data then |data[l]| else 0)
    {
      ghost var gauge0, sum0, count0 := gauge, sum, count;
      var todo := data.Keys;
      while todo != {}
        invariant todo <= data.Keys
        invariant forall l :: l in data && l !in todo ==> Shows(gauge, percentiles, l, data[l])
        invariant forall l, d :: l !in data && Shows(gauge0, percentiles, l, d) ==> Shows(gauge, percentiles, l, d)
        invariant forall l :: Count(sum, l) == Count(sum0, l) + (if l in data && l !in todo then Sum(data[l]) else 0)
        invariant forall l :: Count(count, l) == Count(count0, l) + (if l in data && l !in todo then |data[l]| else 0)
        decreases todo
      {
        var name :| name in todo;
        ReportLabel(name, data[name]);
        todo := todo - {name};
      }
    }

    /** Sets the gauges of labels without a point to zero. */
    method ResetAll(labels: set<Label>)
      requires forall i :: 0 <= i < |percentiles| ==> percentiles[i] < 1000
      modifies this`gauge
      ensures forall l :: l in labels ==> Shows(gauge, percentiles, l, [])
      ensures forall l, d :: l !in labels && Shows(old(gauge), percentiles, l, d) ==> Shows(gauge, percentiles, l, d)
    {
      ghost var gauge0 := gauge;
      var todo := labels;
      while todo != {}
        invariant todo <= labels
        invariant forall l :: l in labels && l !in todo ==> Shows(gauge, percentiles, l, [])
        invariant forall l, d :: l !in labels && Shows(gauge0, percentiles, l, d) ==> Shows(gauge, percentiles, l, d)
        decreases todo
      {
        var name :| name in todo;
        SetGauges(name, []);
        todo := todo - {name};
      }
    }

    /** Reports a window: known labels that are absent from it read zero afterwards. */
    method Report(data: map<Label, seq<Point>>, ghost w: Points)
      requires Valid() && Grouped(data, w)
      modifies this
      ensures Valid() && reported == old(reported) + [w]
    {
      var reset := known - data.Keys;
      WindowAdds(reported, w, data);
      ReportAll(data);
      ResetAll(reset);
      LatestShown(gauge, percentiles, known, data, w);
      known := known + data.Keys;
      reported := reported + [w];
    }
  }

  method AddUp(data: seq<Point>) returns (total: nat)
    ensures total == Sum(data)
  {
    total := 0;
    for i := 0 to |data|
      invariant total == Sum(data[..i])
    {
      assert data[..i + 1][..i] == data[..i];
      total := total + data[i];
    }
    assert data[..|data|] == data;
  }

  lemma LatestShown(gauge: Gauges, percentiles: seq<nat>, known: set<Label>, data: map<Label, seq<Point>>, w: Points)
    requires Grouped(data, w) && forall l :: l !in data ==> Of(w, l) == []
    requires forall l :: l in data ==> Shows(gauge, percentiles, l, data[l])
    requires forall l :: l in known - data.Keys ==> Shows(gauge, percentiles, l, [])
    ensures forall l :: l in known + data.Keys ==> Shows(gauge, percentiles, l, Of(w, l))
  {
    forall l | l in known + data.Keys ensures Shows(gauge, percentiles, l, Of(w, l)) {
      if l in data {
        assert Of(w, l) == data[l];
      } else {
        assert l in known - data.Keys;
      }
    }
  }

  lemma WindowAdds(before: seq<Points>, w: Points, data: map<Label, seq<Point>>)
    requires Grouped(data, w)
    ensures LabelsOver(before + [w]) == LabelsOver(before) + data.Keys
    ensures forall l :: SumOver(before + [w], l) == SumOver(before, l) + (if l in data then Sum(data[l]) else 0)
    ensures forall l :: CountOver(before + [w], l) == CountOver(before, l) + (if l in data then |data[l]| else 0)
    ensures forall l :: l !in data ==> Of(w, l) == []
  {
    assert (before + [w])[..|before|] == before;
    forall l ensures l in data <==> Of(w, l) != [] {
      LabelHasPoints(w, l);
    }
  }

  // ---------------------------------------------------------------------------
  // The collector
  // ---------------------------------------------------------------------------

  /** What is read from the channel before a window's deadline; nothing means that every sender is
      gone.  The reporter may still be at work on an earlier window when the deadline comes. */
  datatype Window = Window(arrivals: seq<Option<(Label, Point)>>, reporterBusy: bool)

  /** The channel is found closed while points are still being taken. */
  predicate Ends(w: Window) {
    exists i :: 0 <= i < |w.arrivals| && i < MAX_POINTS && w.arrivals[i].None?
  }

  /** The first n points of a window that does not end. */
  function Taken(w: Window, n: nat): Points
    requires n <= |w.arrivals| && forall i :: 0 <= i < n && i < MAX_POINTS ==> w.arrivals[i].Some?
  {
    if n == 0 then []
    else Taken(w, n - 1) + (if n <= MAX_POINTS then [w.arrivals[n - 1].value] else [])
  }

  /** Whether the collector is still at work after these windows, and which of them reached the
      reporter: each in whole, up to the first that ends. */
  function Outcome(windows: seq<Window>): (o: (bool, seq<Points>)) {
    if windows == [] then (true, [])
    else
      var before, w := Outcome(windows[..|windows| - 1]), windows[|windows| - 1];
      if !before.0 then before
      else if Ends(w) then (false, before.1)
      else (true, if w.reporterBusy then before.1 else before.1 + [Taken(w, |w.arrivals|)])
  }

  /** The points up to the limit, in order. */
  lemma {:induction false} TakenExact(w: Window, n: nat)
    requires n <= |w.arrivals| && forall i :: 0 <= i < n && i < MAX_POINTS ==> w.arrivals[i].Some?
    ensures |Taken(w, n)| == if n <= MAX_POINTS then n else MAX_POINTS
    ensures forall i :: 0 <= i < |Taken(w, n)| ==> w.arrivals[i] == Some(Taken(w, n)[i])
  {
    if n > 0 {
      TakenExact(w, n - 1);
    }
  }

  /** The collector is still at work after the i-th window. */
  ghost predicate AtWork(windows: seq<Window>, i: nat) {
    i < |windows| && forall j :: 0 <= j <= i ==> !Ends(windows[j])
  }

  /** The points of a window that does not end. */
  ghost predicate Gives(w: Window, points: Points) {
    !Ends(w) && points == Taken(w, |w.arrivals|)
  }

  /** An ascending list of exactly the windows to report, and their points. */
  ghost predicate ReportedFrom(windows: seq<Window>, at: seq<nat>, reported: seq<Points>) {
    && |at| == |reported| && (forall i, j :: 0 <= i < j < |at| ==> at[i] < at[j])
    && (forall k :: 0 <= k < |at| ==> at[k] < |windows| && Gives(windows[at[k]], reported[k]))
    && (forall i :: 0 <= i < |windows| ==> (i in at <==> AtWork(windows, i) && !windows[i].reporterBusy))
  }

  lemma WorkInFront(front: seq<Window>, w: Window, i: nat)
    requires i < |front|
    ensures AtWork(front + [w], i) <==> AtWork(front, i)
  {
    var windows := front + [w];
    assert forall j :: 0 <= j <= i ==> windows[j] == front[j];
  }

  lemma ReportedMore(front: seq<Window>, at: seq<nat>, reported: seq<Points>, w: Window, points: Points)
    requires ReportedFrom(front, at, reported) && AtWork(front + [w], |front|) && !w.reporterBusy && Gives(w, points)
    ensures ReportedFrom(front + [w], at + [|front|], reported + [points])
  {
    var windows, at' := front + [w], at + [|front|];
    forall i | 0 <= i < |windows| ensures i in at' <==> AtWork(windows, i) && !windows[i].reporterBusy {
      assert at'[|at|] == |front|;
      if i < |front| {
        WorkInFront(front, w, i);
        assert i in at' <==> i in at;
      }
    }
  }

  lemma NoneReported(front: seq<Window>, at: seq<nat>, reported: seq<Points>, w: Window)
    requires ReportedFrom(front, at, reported) && !(AtWork(front + [w], |front|) && !w.reporterBusy)
    ensures ReportedFrom(front + [w], at, reported)
  {
    var windows := front + [w];
    forall i | 0 <= i < |windows| ensures i in at <==> AtWork(windows, i) && !windows[i].reporterBusy {
      if i < |front| {
        WorkInFront(front, w, i);
      }
    }
  }

  /** Exactly the windows before the first that ends, and found with an idle reporter, are reported,
      in order. */
  lemma {:induction false} OutcomeExact(windows: seq<Window>) returns (at: seq<nat>)
    ensures Outcome(windows).0 <==> forall i :: 0 <= i < |windows| ==> !Ends(windows[i])
    ensures ReportedFrom(windows, at, Outcome(windows).1)
  {
    at := [];
    if windows != [] {
      var n := |windows| - 1;
      var front, w := windows[..n], windows[n];
      at := OutcomeExact(front);
      assert windows == front + [w];
      WorkAtEnd(front, w);
      if Outcome(windows).0 && !w.reporterBusy {
        ReportedMore(front, at, Outcome(front).1, w, Taken(w, |w.arrivals|));
        at := at + [n];
      } else {
        NoneReported(front, at, Outcome(front).1, w);
      }
    }
  }

  lemma WorkAtEnd(front: seq<Window>, w: Window)
    ensures AtWork(front + [w], |front|) <==> (forall i :: 0 <= i < |front| ==> !Ends(front[i])) && !Ends(w)
  {
    var windows := front + [w];
    assert forall j :: 0 <= j < |front| ==> windows[j] == front[j];
    assert windows[|front|] == w;
  }

  lemma TakenMore(w: Window, n: nat)
    requires n < |w.arrivals| && forall i :: 0 <= i <= n && i < MAX_POINTS ==> w.arrivals[i].Some?
    ensures Taken(w, n + 1) == if n < MAX_POINTS then Taken(w, n) + [w.arrivals[n].value] else Taken(w, n)
  {
  }

  /** Collects points until the deadline, grouped by label. */
  method Collect(w: Window) returns (ok: bool, data: map<Label, seq<Point>>)
    ensures ok == !Ends(w)
    ensures ok ==> Grouped(data, Taken(w, |w.arrivals|))
  {
    data := map[];
    var count := 0;
    for i := 0 to |w.arrivals|
      invariant count == i && forall j :: 0 <= j < i && j < MAX_POINTS ==> w.arrivals[j].Some?
      invariant Grouped(data, Taken(w, i))
    {
      count := count + 1;
      if count <= MAX_POINTS {
        if w.arrivals[i].None? {
          return false, map[];
        }
        var (name, point) := w.arrivals[i].value;
        GroupMore(data, Taken(w, i), w.arrivals[i].value);
        data := data[name := (if name in data then data[name] else []) + [point]];
      }
      TakenMore(w, i);
    }
    return true, data;
  }

  /** One window: collect until the deadline, then report, or drop everything. */
  method Cycle(reporter: Reporter, w: Window) returns (ok: bool)
    requires reporter.Valid()
    modifies reporter
    ensures reporter.Valid() && ok == !Ends(w)
    ensures ok && !w.reporterBusy ==> reporter.reported == old(reporter.reported) + [Taken(w, |w.arrivals|)]
    ensures !ok || w.reporterBusy ==> reporter.reported == old(reporter.reported)
  {
    var data;
    ok, data := Collect(w);
    if ok && !w.reporterBusy {
      reporter.Report(data, Taken(w, |w.arrivals|));
    }
  }

  /** Over a whole run: the counters are the totals of the windows reported, each window is reported
      in whole or dropped in whole, the gauges show the last window reported, and labels known from
      earlier windows and absent from it read zero. */
  method RunWindows(percentiles: seq<nat>, windows: seq<Window>) returns (reporter: Reporter)
    requires forall i :: 0 <= i < |percentiles| ==> percentiles[i] < 1000
    ensures fresh(reporter) && reporter.Valid() && reporter.percentiles == percentiles
    ensures reporter.reported == Outcome(windows).1
  {
    reporter := new Reporter(percentiles);
    var running := true;
    for i := 0 to |windows|
      invariant fresh(reporter) && reporter.Valid() && reporter.percentiles == percentiles
      invariant (running, reporter.reported) == Outcome(windows[..i])
    {
      assert windows[..i + 1][..i] == windows[..i];
      if running {
        running := Cycle(reporter, windows[i]);
      }
    }
    assert windows[..|windows|] == windows;
  }
}
