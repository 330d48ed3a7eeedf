/** The mean of the last values, kept by a running sum. */
module MovingWindow {
  /** A duration in its smallest unit. */
  type Duration = nat

  function Sum(s: seq<Duration>): nat {
    if s == [] then 0 else Sum(s[..|s| - 1]) + s[|s| - 1]
  }

  /** The last n values, or all of them. */
  function Last(s: seq<Duration>, n: nat): seq<Duration> {
    if |s| <= n then s else s[|s| - n..]
  }

  lemma {:induction false} SumDropsFirst(s: seq<Duration>)
    requires s != []
    ensures Sum(s) == s[0] + Sum(s[1..])
  {
    if |s| > 1 {
      SumDropsFirst(s[..|s| - 1]);
      assert s[1..][..|s| - 2] == s[..|s| - 1][1..];
    }
  }

  lemma SumAppends(s: seq<Duration>, x: Duration)
    ensures Sum(s + [x]) == Sum(s) + x
  {
    assert (s + [x])[..|s|] == s;
  }

  lemma {:induction false} SumBetween(s: seq<Duration>, low: nat, high: nat)
    requires forall i :: 0 <= i < |s| ==> low <= s[i] <= high
    ensures low * |s| <= Sum(s) <= high * |s|
  {
    if s != [] {
      var front, last := s[..|s| - 1], s[|s| - 1];
      SumBetween(front, low, high);
      assert low * |s| == low * |front| + low && high * |s| == high * |front| + high;
    }
  }

  class MovingWindow {
    const maxSize: nat
    var values: seq<Duration>
    var sum: nat
    ghost var history: seq<Duration>      // every value ever added

    ghost predicate Valid()
      reads this
    {
      maxSize > 0 && history != [] && values == Last(history, maxSize) && sum == Sum(values)
    }

    constructor (init: Duration, size: nat)
      requires size > 0
      ensures Valid() && maxSize == size && history == [init]
    {
      maxSize, values, sum, history := size, [init], init, [init];
      new;
      SumAppends([], init);
      assert [] + [init] == [init];
    }

    /** Drops the oldest value if the window is full.  The running sum never falls below what is
        taken off, where the source would panic. */
    method AddValue(value: Duration)
      requires Valid()
      modifies this
      ensures Valid() && history == old(history) + [value]
    {
      if |values| == maxSize {
        SumDropsFirst(values);
        assert sum >= values[0];
        sum, values := sum - values[0], values[1..];
      }
      SumAppends(values, value);
      values, sum, history := values + [value], sum + value, history + [value];
    }

    /** The mean, rounded down.  The window is never empty, so the source's case for that is not met. */
    method Get() returns (mean: Duration)
      requires Valid()
      ensures mean == Mean(history, maxSize)
    {
      mean := sum / |values|;
    }
  }

  function Mean(history: seq<Duration>, n: nat): nat
    requires n > 0 && history != []
  {
    Sum(Last(history, n)) / |Last(history, n)|
  }

  /** The mean is the sum of the last values, shared out evenly and rounded down. */
  lemma MeanIsFloor(history: seq<Duration>, n: nat)
    requires n > 0 && history != []
    ensures var last := Last(history, n);
      && |last| == (if |history| < n then |history| else n) && last == history[|history| - |last|..]
      && |last| * Mean(history, n) <= Sum(last) < |last| * Mean(history, n) + |last|
  {
    Shared(Sum(Last(history, n)), |Last(history, n)|);
  }

  lemma Shared(total: nat, n: nat)
    requires n > 0
    ensures n * (total / n) <= total < n * (total / n) + n
  {
    assert total == total / n * n + total % n;
  }

  lemma {:induction false} Multiples(p: nat, q: nat, n: nat)
    requires p < q
    ensures p * n + n <= q * n
  {
    if n > 0 {
      Multiples(p, q, n - 1);
      assert p * n == p * (n - 1) + p && q * n == q * (n - 1) + q;
    }
  }

  lemma Quotient(total: nat, n: nat, low: nat, high: nat)
    requires n > 0 && low * n <= total <= high * n
    ensures low <= total / n <= high
  {
    var q := total / n;
    assert q * n <= total < q * n + n;
    if q < low {
      Multiples(q, low, n);
    }
    if q > high {
      Multiples(high, q, n);
    }
  }

  lemma MeanBetween(history: seq<Duration>, n: nat, low: nat, high: nat)
    requires n > 0 && history != [] && (forall i :: 0 <= i < |Last(history, n)| ==> low <= Last(history, n)[i] <= high)
    ensures low <= Mean(history, n) <= high
  {
    SumBetween(Last(history, n), low, high);
    Quotient(Sum(Last(history, n)), |Last(history, n)|, low, high);
  }

  /** Whatever was added before the window, in any two histories, has no effect on the mean. */
  lemma OnlyTheWindowCounts(before: seq<Duration>, before': seq<Duration>, recent: seq<Duration>, n: nat)
    requires n > 0 && |recent| >= n
    ensures Mean(before + recent, n) == Mean(before' + recent, n)
  {
    assert Last(before + recent, n) == Last(recent, n) == Last(before' + recent, n);
  }
}
