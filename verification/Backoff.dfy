/** Retry delays that grow up to a limit, with jitter. */
module Backoff {
  /** Seconds; delays are not negative. */
  type Seconds = x: real | x >= 0.0

  /** Multiplication by the factor, rounded or not. */
  type Growth = Seconds -> Seconds

  function Smaller(x: Seconds, y: Seconds): Seconds {
    if x <= y then x else y
  }

  /** The jitter drawn for a delay: below the limit, and none if the limit is zero. */
  predicate Drawn(jitter: Seconds, maxJitter: Seconds) {
    jitter < maxJitter || jitter == 0.0
  }

  ghost predicate AllDrawn(jitters: seq<Seconds>, maxJitter: Seconds) {
    forall i :: 0 <= i < |jitters| ==> Drawn(jitters[i], maxJitter)
  }

  class ExponentialBackoff {
    const grow: Growth
    const maxDelay: Seconds
    const maxJitter: Seconds
    const initial: Seconds
    var next: Seconds
    ghost var jitters: seq<Seconds>       // what was drawn so far

    ghost predicate Valid()
      reads this
    {
      AllDrawn(jitters, maxJitter) && next == Delay(initial, grow, maxDelay, jitters)
    }

    constructor (initialDelay: Seconds, growth: Growth, limit: Seconds, jitterLimit: Seconds)
      ensures Valid() && jitters == []
      ensures initial == initialDelay && grow == growth && maxDelay == limit && maxJitter == jitterLimit
    {
      grow, maxDelay, maxJitter, initial := growth, limit, jitterLimit, initialDelay;
      next, jitters := initialDelay, [];
    }

    /** Hands out the delay that the draws so far determine. */
    method Next(jitter: Seconds) returns (delay: Seconds)
      requires Valid() && Drawn(jitter, maxJitter)
      modifies this
      ensures Valid() && jitters == old(jitters) + [jitter]
      ensures delay == Delay(initial, grow, maxDelay, old(jitters))
    {
      delay := next;
      next := Smaller(grow(delay), maxDelay) + jitter;
      jitters := jitters + [jitter];
      assert jitters[..|jitters| - 1] == old(jitters);
    }
  }

  /** The delay after the given draws. */
  function Delay(initial: Seconds, grow: Growth, maxDelay: Seconds, jitters: seq<Seconds>): Seconds {
    if jitters == [] then initial
    else Smaller(grow(Delay(initial, grow, maxDelay, jitters[..|jitters| - 1])), maxDelay) + jitters[|jitters| - 1]
  }

  /** The plain exponential series. */
  function Series(initial: Seconds, grow: Growth, k: nat): Seconds {
    if k == 0 then initial else grow(Series(initial, grow, k - 1))
  }

  lemma NoJitter(initial: Seconds, grow: Growth, maxDelay: Seconds, jitters: seq<Seconds>)
    ensures Delay(initial, grow, maxDelay, []) == initial
    ensures Delay(initial, grow, maxDelay, jitters + [0.0]) == Smaller(grow(Delay(initial, grow, maxDelay, jitters)), maxDelay)
  {
    assert (jitters + [0.0])[..|jitters|] == jitters;
  }

  /** Doubling from a tenth of a second without jitter gives 0.2, 0.4 and 0.8 seconds. */
  lemma Doubling()
    ensures Delay(0.1, ByFactor(2.0), 10.0, [0.0]) == 0.2
    ensures Delay(0.1, ByFactor(2.0), 10.0, [0.0, 0.0]) == 0.4
    ensures Delay(0.1, ByFactor(2.0), 10.0, [0.0, 0.0, 0.0]) == 0.8
  {
    var grow := ByFactor(2.0);
    assert grow(0.1) == 0.2 && grow(0.2) == 0.4 && grow(0.4) == 0.8;
    Next3(0.1, grow, 10.0);
  }

  /** Tripling from a fifth up to one second gives 0.6, 1 and 1 again. */
  lemma TriplingToLimit()
    ensures Delay(0.2, ByFactor(3.0), 1.0, [0.0]) == 0.6
    ensures Delay(0.2, ByFactor(3.0), 1.0, [0.0, 0.0]) == 1.0
    ensures Delay(0.2, ByFactor(3.0), 1.0, [0.0, 0.0, 0.0]) == 1.0
  {
    var grow := ByFactor(3.0);
    assert grow(0.2) == 0.6 && grow(0.6) == 1.8 && grow(1.0) == 3.0;
    Next3(0.2, grow, 1.0);
  }

  lemma Next3(initial: Seconds, grow: Growth, maxDelay: Seconds)
    ensures var d1 := Smaller(grow(initial), maxDelay); var d2 := Smaller(grow(d1), maxDelay);
      && Delay(initial, grow, maxDelay, [0.0]) == d1 && Delay(initial, grow, maxDelay, [0.0, 0.0]) == d2
      && Delay(initial, grow, maxDelay, [0.0, 0.0, 0.0]) == Smaller(grow(d2), maxDelay)
  {
    NoJitter(initial, grow, maxDelay, []);
    NoJitter(initial, grow, maxDelay, [0.0]);
    NoJitter(initial, grow, maxDelay, [0.0, 0.0]);
    assert [] + [0.0] == [0.0] && [0.0] + [0.0] == [0.0, 0.0] && [0.0, 0.0] + [0.0] == [0.0, 0.0, 0.0];
  }

  /** Growing keeps the order and shortens nothing. */
  ghost predicate Expanding(grow: Growth) {
    (forall x, y :: x <= y ==> grow(x) <= grow(y)) && forall x :: grow(x) >= x
  }

  /** Growing lengthens whatever is not below the first delay by at least a step. */
  ghost predicate GrowsBy(grow: Growth, initial: Seconds, step: Seconds) {
    forall x :: x >= initial ==> grow(x) >= x + step
  }

  function ByFactor(factor: Seconds): Growth {
    (x: Seconds) => x * factor
  }

  lemma Products(x: Seconds, y: Seconds, factor: Seconds)
    requires x <= y
    ensures x * factor <= y * factor
  {
  }

  lemma FactorAt(x: Seconds, factor: Seconds, initial: Seconds)
    requires factor >= 1.0
    ensures x * factor >= x && (x >= initial ==> x * factor >= x + initial * (factor - 1.0))
  {
    Products(0.0, x, factor - 1.0);
    if x >= initial {
      Products(initial, x, factor - 1.0);
    }
    assert x * factor == x + x * (factor - 1.0);
  }

  /** A factor of at least one does both. */
  lemma FactorExpands(factor: Seconds, initial: Seconds, step: Seconds)
    requires factor >= 1.0 && step == initial * (factor - 1.0)
    ensures Expanding(ByFactor(factor)) && GrowsBy(ByFactor(factor), initial, step)
  {
    var grow := ByFactor(factor);
    forall x: Seconds, y: Seconds | x <= y ensures grow(x) <= grow(y) {
      Products(x, y, factor);
    }
    forall x: Seconds ensures grow(x) >= x && (x >= initial ==> grow(x) >= x + step) {
      FactorAt(x, factor, initial);
    }
  }

  /** No delay falls below the series cut at the limit, and from the second on none exceeds the limit
      by a full jitter; without jitter the delays are that series. */
  lemma {:induction false} DelayBounds(initial: Seconds, grow: Growth, maxDelay: Seconds, maxJitter: Seconds, jitters: seq<Seconds>)
    requires Expanding(grow) && AllDrawn(jitters, maxJitter)
    ensures var d := Delay(initial, grow, maxDelay, jitters); var cut := Smaller(Series(initial, grow, |jitters|), maxDelay);
      && d >= cut
      && (jitters != [] ==> (d < maxDelay + maxJitter || d <= maxDelay) && (maxJitter == 0.0 ==> d == cut))
  {
    if jitters != [] {
      var n := |jitters| - 1;
      DelayBounds(initial, grow, maxDelay, maxJitter, jitters[..n]);
      assert Drawn(jitters[n], maxJitter);
      var d, x := Delay(initial, grow, maxDelay, jitters[..n]), Series(initial, grow, n);
      assert grow(d) >= grow(Smaller(x, maxDelay)) && grow(maxDelay) >= maxDelay;
    }
  }

  /** A number of equal steps. */
  function Steps(step: Seconds, k: nat): Seconds {
    if k == 0 then 0.0 else Steps(step, k - 1) + step
  }

  lemma {:induction false} SeriesGrows(initial: Seconds, grow: Growth, step: Seconds, k: nat)
    requires GrowsBy(grow, initial, step)
    ensures Series(initial, grow, k) >= initial + Steps(step, k)
  {
    if k > 0 {
      SeriesGrows(initial, grow, step, k - 1);
    }
  }

  /** After so many retries the limit is reached, whatever jitter is drawn, and kept. */
  lemma LimitIsReached(initial: Seconds, grow: Growth, step: Seconds, maxDelay: Seconds, maxJitter: Seconds, jitters: seq<Seconds>)
    requires Expanding(grow) && GrowsBy(grow, initial, step) && AllDrawn(jitters, maxJitter)
    requires initial + Steps(step, |jitters|) >= maxDelay
    ensures Delay(initial, grow, maxDelay, jitters) >= maxDelay
  {
    DelayBounds(initial, grow, maxDelay, maxJitter, jitters);
    SeriesGrows(initial, grow, step, |jitters|);
  }
}
