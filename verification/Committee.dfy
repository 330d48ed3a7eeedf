/** Voting power and thresholds of a consensus committee.

    A committee tolerates f faulty stake out of a total of at least 3f+1; a quorum is
    everything but f.  The facts that carry the protocol are about sets of authorities:
    any two quorums share an authority that is not faulty. */
module Committees {

  type Authority = nat

  datatype Committee = Committee(stakes: seq<nat>) {

    predicate Valid() {
      |stakes| > 0 && Total() > 0
    }

    function Size(): nat {
      |stakes|
    }

    predicate IsValidIndex(a: Authority) {
      a < |stakes|
    }

    function Total(): nat {
      SumAll(stakes, |stakes|)
    }

    function FaultTolerance(): nat
      requires Valid()
    {
      (Total() - 1) / 3
    }

    function QuorumThreshold(): nat
      requires Valid()
    {
      Total() - FaultTolerance()
    }

    /** Stake held by a set of authorities; indices outside the committee hold none. */
    function StakeOf(group: set<Authority>): nat {
      SumUpTo(stakes, |stakes|, group)
    }

    predicate ReachedQuorum(stake: nat)
      requires Valid()
    {
      stake >= QuorumThreshold()
    }

    predicate IsQuorum(group: set<Authority>)
      requires Valid()
    {
      ReachedQuorum(StakeOf(group))
    }
  }

  /** Stake of the first n authorities. */
  function SumAll(stakes: seq<nat>, n: nat): nat
    requires n <= |stakes|
  {
    if n == 0 then 0 else SumAll(stakes, n - 1) + stakes[n - 1]
  }

  /** Stake of the members of `group` among the first n authorities. */
  function SumUpTo(stakes: seq<nat>, n: nat, group: set<Authority>): nat
    requires n <= |stakes|
  {
    if n == 0 then 0
    else SumUpTo(stakes, n - 1, group) + (if n - 1 in group then stakes[n - 1] else 0)
  }

  lemma {:induction false} SumMonotone(stakes: seq<nat>, n: nat, small: set<Authority>, large: set<Authority>)
    requires n <= |stakes|
    requires forall a :: a in small && a < n ==> a in large
    ensures SumUpTo(stakes, n, small) <= SumUpTo(stakes, n, large)
  {
    if n > 0 {
      SumMonotone(stakes, n - 1, small, large);
    }
  }

  lemma {:induction false} SumInclusionExclusion(stakes: seq<nat>, n: nat, a: set<Authority>, b: set<Authority>)
    requires n <= |stakes|
    ensures SumUpTo(stakes, n, a) + SumUpTo(stakes, n, b) == SumUpTo(stakes, n, a + b) + SumUpTo(stakes, n, a * b)
  {
    if n > 0 {
      SumInclusionExclusion(stakes, n - 1, a, b);
    }
  }

  lemma {:induction false} SumAdd(stakes: seq<nat>, n: nat, group: set<Authority>, a: Authority)
    requires n <= |stakes| && a !in group
    ensures SumUpTo(stakes, n, group + {a}) == SumUpTo(stakes, n, group) + (if a < n then stakes[a] else 0)
  {
    if n > 0 {
      SumAdd(stakes, n - 1, group, a);
    }
  }

  lemma StakeMonotone(c: Committee, small: set<Authority>, large: set<Authority>)
    requires small <= large
    ensures c.StakeOf(small) <= c.StakeOf(large)
  {
    SumMonotone(c.stakes, |c.stakes|, small, large);
  }

  lemma {:induction false} SumAtMostAll(stakes: seq<nat>, n: nat, group: set<Authority>)
    requires n <= |stakes|
    ensures SumUpTo(stakes, n, group) <= SumAll(stakes, n)
  {
    if n > 0 {
      SumAtMostAll(stakes, n - 1, group);
    }
  }

  lemma StakeAtMostTotal(c: Committee, group: set<Authority>)
    ensures c.StakeOf(group) <= c.Total()
  {
    SumAtMostAll(c.stakes, |c.stakes|, group);
  }

  lemma {:induction false} SumOfAll(stakes: seq<nat>, n: nat, group: set<Authority>)
    requires n <= |stakes| && forall a :: 0 <= a < n ==> a in group
    ensures SumUpTo(stakes, n, group) == SumAll(stakes, n)
  {
    if n > 0 {
      SumOfAll(stakes, n - 1, group);
    }
  }

  /** Stake is counted authority by authority, each with what it holds; the total is everybody's. */
  lemma StakeIsAdditive(c: Committee, group: set<Authority>, a: Authority, everybody: set<Authority>)
    requires a !in group && forall x :: c.IsValidIndex(x) ==> x in everybody
    ensures c.StakeOf({}) == 0 && c.StakeOf(everybody) == c.Total()
    ensures c.StakeOf(group + {a}) == c.StakeOf(group) + (if a < |c.stakes| then c.stakes[a] else 0)
  {
    EmptyStake(c);
    SumAdd(c.stakes, |c.stakes|, group, a);
    assert forall x :: 0 <= x < |c.stakes| ==> c.IsValidIndex(x);
    SumOfAll(c.stakes, |c.stakes|, everybody);
  }

  /** The fault tolerance is the largest stake of which three times as much is less than the total. */
  lemma ToleranceIsLargest(c: Committee, g: nat)
    requires c.Valid()
    ensures g <= c.FaultTolerance() <==> 3 * g < c.Total()
    ensures 3 * c.FaultTolerance() < c.Total() <= 3 * c.FaultTolerance() + 3
  {
  }

  /** The threshold is what honest authorities reach whatever tolerated part is faulty, and no
      higher: everybody but a faulty set is a quorum exactly when that set is tolerated. */
  lemma HonestReachQuorum(c: Committee, honest: set<Authority>, faulty: set<Authority>)
    requires c.Valid() && honest !! faulty && forall x :: c.IsValidIndex(x) ==> x in honest + faulty
    ensures c.IsQuorum(honest) <==> 3 * c.StakeOf(faulty) < c.Total()
  {
    SumInclusionExclusion(c.stakes, |c.stakes|, honest, faulty);
    assert forall x :: 0 <= x < |c.stakes| ==> c.IsValidIndex(x);
    SumOfAll(c.stakes, |c.stakes|, honest + faulty);
    assert honest * faulty == {};
    EmptyStake(c);
    ToleranceIsLargest(c, c.StakeOf(faulty));
  }

  /** Overlap of two groups, by their weight alone. */
  lemma OverlapStake(c: Committee, a: set<Authority>, b: set<Authority>)
    ensures c.StakeOf(a) + c.StakeOf(b) <= c.Total() + c.StakeOf(a * b)
  {
    SumInclusionExclusion(c.stakes, |c.stakes|, a, b);
    StakeAtMostTotal(c, a + b);
  }

  /** The assertion in the committee's constructor never fails: quorums intersect in more
      than the tolerated fault, whatever the total. */
  lemma QuorumsIntersectBeyondFaults(c: Committee, a: set<Authority>, b: set<Authority>)
    requires c.Valid() && c.IsQuorum(a) && c.IsQuorum(b)
    ensures 2 * c.QuorumThreshold() - c.FaultTolerance() > c.Total()
    ensures c.StakeOf(a * b) > c.FaultTolerance()
  {
    OverlapStake(c, a, b);
  }

  /** Two quorums always share an authority outside any faulty set the committee tolerates. */
  lemma QuorumsShareHonest(c: Committee, a: set<Authority>, b: set<Authority>, faulty: set<Authority>)
      returns (h: Authority)
    requires c.Valid() && c.IsQuorum(a) && c.IsQuorum(b)
    requires c.StakeOf(faulty) <= c.FaultTolerance()
    ensures h in a && h in b && h !in faulty
  {
    QuorumsIntersectBeyondFaults(c, a, b);
    if a * b <= faulty {
      StakeMonotone(c, a * b, faulty);
      assert false;
    }
    h :| h in a * b && h !in faulty;
  }

  lemma QuorumNonEmpty(c: Committee, a: set<Authority>, faulty: set<Authority>) returns (h: Authority)
    requires c.Valid() && c.IsQuorum(a)
    requires c.StakeOf(faulty) <= c.FaultTolerance()
    ensures h in a && h !in faulty
  {
    h := QuorumsShareHonest(c, a, a, faulty);
  }

  /** Counts each authority's vote once and compares the running stake with the quorum. */
  class StakeAggregator {
    const committee: Committee
    var votes: set<Authority>
    var stake: nat

    ghost predicate Valid()
      reads this
    {
      committee.Valid() && stake == committee.StakeOf(votes)
    }

    constructor (c: Committee)
      requires c.Valid()
      ensures Valid() && committee == c && votes == {}
    {
      committee := c;
      votes := {};
      stake := 0;
      new;
      EmptyStake(c);
    }

    method Add(vote: Authority) returns (reached: bool)
      requires Valid() && committee.IsValidIndex(vote)
      modifies this
      ensures Valid() && votes == old(votes) + {vote}
      ensures reached <==> committee.IsQuorum(votes)
    {
      if vote !in votes {
        SumAdd(committee.stakes, |committee.stakes|, votes, vote);
        votes := votes + {vote};
        stake := stake + committee.stakes[vote];
      } else {
        assert votes == votes + {vote};
      }
      reached := committee.ReachedQuorum(stake);
    }
  }

  lemma EmptyStake(c: Committee)
    ensures c.StakeOf({}) == 0
  {
    EmptySum(c.stakes, |c.stakes|);
  }

  lemma {:induction false} EmptySum(stakes: seq<nat>, n: nat)
    requires n <= |stakes|
    ensures SumUpTo(stakes, n, {}) == 0
  {
    if n > 0 {
      EmptySum(stakes, n - 1);
    }
  }

  /** The threshold written into the committee file by the genesis scripts. */
  function ScriptQuorum(total: nat): nat {
    total * 2 / 3
  }

  /** Two thirds of the total, rounded down. */
  lemma ScriptQuorumIsTwoThirds(total: nat)
    ensures 3 * ScriptQuorum(total) <= 2 * total < 3 * ScriptQuorum(total) + 3
  {
  }

  /** Groups whose stake is strictly above the scripted threshold share more than a third of
      the total, for every stake distribution. */
  lemma ScriptQuorumsOverlap(c: Committee, a: set<Authority>, b: set<Authority>)
    requires c.StakeOf(a) > ScriptQuorum(c.Total()) && c.StakeOf(b) > ScriptQuorum(c.Total())
    ensures 3 * c.StakeOf(a * b) > c.Total()
  {
    OverlapStake(c, a, b);
  }

  /** The scripted number, read with the committee's own test ("at least the threshold"). */
  ghost predicate ScriptQuorumsIntersect(total: nat)
    requires total > 0
  {
    forall c: Committee, a: set<Authority>, b: set<Authority> ::
      c.Total() == total && c.StakeOf(a) >= ScriptQuorum(total) && c.StakeOf(b) >= ScriptQuorum(total) ==>
        c.StakeOf(a * b) > (total - 1) / 3
  }

  /** Under that reading it is not a quorum in general: it forces an overlap beyond the
      tolerated fault in every committee of the given total exactly when the total is a
      multiple of three. */
  lemma ScriptQuorumAtLeastReading(total: nat)
    requires total > 0
    ensures ScriptQuorumsIntersect(total) <==> total % 3 == 0
  {
    if total % 3 == 0 {
      forall c: Committee, a: set<Authority>, b: set<Authority>
        | c.Total() == total && c.StakeOf(a) >= ScriptQuorum(total) && c.StakeOf(b) >= ScriptQuorum(total)
        ensures c.StakeOf(a * b) > (total - 1) / 3
      {
        OverlapStake(c, a, b);
      }
    } else {
      var k := total / 3;
      var shared := if total % 3 == 2 then k else if k == 0 then 0 else k - 1;
      var own := ScriptQuorum(total) - shared;
      var c := Committee([own, shared, total - own - shared]);
      ThreeAuthorities(c, {0, 1});
      ThreeAuthorities(c, {1, 2});
      ThreeAuthorities(c, {0, 1} * {1, 2});
      assert c.StakeOf({0, 1} * {1, 2}) <= (total - 1) / 3;
    }
  }

  lemma ThreeAuthorities(c: Committee, g: set<Authority>)
    requires |c.stakes| == 3
    ensures c.Total() == c.stakes[0] + c.stakes[1] + c.stakes[2]
    ensures c.StakeOf(g) == (if 0 in g then c.stakes[0] else 0) + (if 1 in g then c.stakes[1] else 0) + (if 2 in g then c.stakes[2] else 0)
  {
    assert SumUpTo(c.stakes, 1, g) == if 0 in g then c.stakes[0] else 0;
    assert SumUpTo(c.stakes, 2, g) == SumUpTo(c.stakes, 1, g) + if 1 in g then c.stakes[1] else 0;
    assert SumAll(c.stakes, 2) == SumAll(c.stakes, 1) + c.stakes[1] == c.stakes[0] + c.stakes[1];
  }
}
