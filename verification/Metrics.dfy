/**
 Counters and the wait-time histogram of one instance.  The registry keeps one count per
 bucket; what is published is cumulative.
 */
module Metrics {
  import opened WaitingRoom

  /** Upper bounds of the histogram, in seconds. */
  const BUCKETS: seq<real> := [1.0, 5.0, 15.0, 30.0, 60.0, 120.0, 300.0, 600.0]

  /** The bucket an observation falls into: the first bound it does not exceed, |BUCKETS| if none. */
  function Bucket(x: real): (b: nat)
    ensures b <= |BUCKETS|
    ensures forall i :: 0 <= i < |BUCKETS| ==> (b <= i <==> x <= BUCKETS[i])
  {
    if x <= 1.0 then 0 else if x <= 5.0 then 1 else if x <= 15.0 then 2 else if x <= 30.0 then 3
    else if x <= 60.0 then 4 else if x <= 120.0 then 5 else if x <= 300.0 then 6 else if x <= 600.0 then 7 else 8
  }

  /** How many observations are at most `bound`. */
  function AtMost(xs: seq<real>, bound: real): nat {
    if xs == [] then 0 else AtMost(xs[..|xs| - 1], bound) + if xs[|xs| - 1] <= bound then 1 else 0
  }

  function InBucket(xs: seq<real>, b: nat): nat {
    if xs == [] then 0 else InBucket(xs[..|xs| - 1], b) + if Bucket(xs[|xs| - 1]) == b then 1 else 0
  }

  function Sum(xs: seq<real>): real {
    if xs == [] then 0.0 else Sum(xs[..|xs| - 1]) + xs[|xs| - 1]
  }

  lemma {:induction false} AtMostCounts(xs: seq<real>, bound: real)
    ensures AtMost(xs, bound) == |set i | 0 <= i < |xs| && xs[i] <= bound|
  {
    if xs != [] {
      var n := |xs| - 1;
      AtMostCounts(xs[..n], bound);
      var before := set i | 0 <= i < n && xs[..n][i] <= bound;
      assert before == set i | 0 <= i < n && xs[i] <= bound;
      assert (set i | 0 <= i < |xs| && xs[i] <= bound) == before + if xs[n] <= bound then {n} else {};
    }
  }

  /** The published sum is the total of the waits, in whatever batches they came. */
  lemma {:induction false} SumAdds(xs: seq<real>, ys: seq<real>)
    ensures Sum(xs + ys) == Sum(xs) + Sum(ys)
  {
    if ys == [] {
      assert xs + ys == xs;
    } else {
      assert (xs + ys)[..|xs + ys| - 1] == xs + ys[..|ys| - 1];
      SumAdds(xs, ys[..|ys| - 1]);
    }
  }

  lemma SumOne(x: real)
    ensures Sum([x]) == x
  {
    assert Sum([x][..0]) == 0.0;
  }

  /** Observations in the buckets below `b`. */
  function Below(xs: seq<real>, b: nat): nat {
    if b == 0 then 0 else Below(xs, b - 1) + InBucket(xs, b - 1)
  }

  lemma {:induction false} BelowSnoc(xs: seq<real>, x: real, b: nat)
    ensures Below(xs + [x], b) == Below(xs, b) + if Bucket(x) < b then 1 else 0
  {
    assert (xs + [x])[..|xs|] == xs;
    if b > 0 {
      BelowSnoc(xs, x, b - 1);
    }
  }

  /** Adding up the buckets to a bound counts exactly the observations within it. */
  lemma {:induction false} BelowIsAtMost(xs: seq<real>, b: nat)
    requires b <= |BUCKETS|
    ensures b < |BUCKETS| ==> Below(xs, b + 1) == AtMost(xs, BUCKETS[b])
    ensures b == |BUCKETS| ==> Below(xs, b + 1) == |xs|
  {
    if xs == [] {
      BelowNothing(b + 1);
    } else {
      var p, x := xs[..|xs| - 1], xs[|xs| - 1];
      BelowIsAtMost(p, b);
      assert xs == p + [x];
      BelowSnoc(p, x, b + 1);
    }
  }

  lemma {:induction false} BelowNothing(b: nat)
    ensures Below([], b) == 0
  {
    if b > 0 {
      BelowNothing(b - 1);
    }
  }

  /** What a scrape shows of this instance's own series; the last bucket is +Inf. */
  datatype Page = Page(admissions: int, expirations: int, evictions: int, buckets: seq<int>, sum: real, count: int)

  class Registry {
    var admissions: int
    var expirations: int
    var evictions: int
    const waitCounts: array<int>  // per bucket, the last one beyond every bound
    var waitTotal: int
    var waitSum: real
    ghost var observed: seq<real>

    ghost predicate Valid()
      reads this, waitCounts
    {
      && waitCounts.Length == |BUCKETS| + 1
      && (forall b :: 0 <= b < waitCounts.Length ==> waitCounts[b] == InBucket(observed, b))
      && admissions == waitTotal == |observed| && waitSum == Sum(observed)
    }

    constructor ()
      ensures Valid() && fresh(waitCounts) && observed == [] && expirations == evictions == 0
    {
      admissions, expirations, evictions, waitTotal, waitSum, observed := 0, 0, 0, 0, 0.0, [];
      waitCounts := new int[|BUCKETS| + 1](_ => 0);
    }

    method ObserveAdmission(waitSecs: real)
      requires Valid()
      modifies this`admissions, this`waitTotal, this`waitSum, this`observed, waitCounts
      ensures Valid() && observed == old(observed) + [waitSecs]
      ensures admissions == old(admissions) + 1 && waitSum == old(waitSum) + waitSecs
    {
      admissions := admissions + 1;
      var i := |BUCKETS|;
      for b := 0 to |BUCKETS|
        invariant i == |BUCKETS| && Bucket(waitSecs) >= b
      {
        if waitSecs <= BUCKETS[b] {
          i := b;
          break;
        }
      }
      assert i == Bucket(waitSecs);
      observed := observed + [waitSecs];
      assert observed[..|observed| - 1] == old(observed);
      waitCounts[i] := waitCounts[i] + 1;
      waitTotal := waitTotal + 1;
      waitSum := waitSum + waitSecs;
    }

    method AddReconcile(res: ReconcileResult)
      requires Valid()
      modifies this`expirations, this`evictions
      ensures Valid()
      ensures expirations == old(expirations) + res.expired
      ensures evictions == old(evictions) + res.evicted
    {
      expirations := expirations + res.expired;
      evictions := evictions + res.evicted;
    }

    /** Every published bucket counts the observations within its bound; +Inf counts them all. */
    method WriteTo() returns (page: Page)
      requires Valid()
      ensures page.buckets == [
        AtMost(observed, 1.0), AtMost(observed, 5.0), AtMost(observed, 15.0), AtMost(observed, 30.0),
        AtMost(observed, 60.0), AtMost(observed, 120.0), AtMost(observed, 300.0), AtMost(observed, 600.0), |observed|]
      ensures page.count == page.admissions == |observed|
      ensures page.sum == Sum(observed)
      ensures page.expirations == expirations && page.evictions == evictions
    {
      var cum, buckets := 0, [];
      for i := 0 to |BUCKETS|
        invariant cum == Below(observed, i) && |buckets| == i
        invariant forall b :: 0 <= b < i ==> buckets[b] == AtMost(observed, BUCKETS[b])
      {
        BelowIsAtMost(observed, i);
        cum := cum + waitCounts[i];
        buckets := buckets + [cum];
      }
      BelowIsAtMost(observed, |BUCKETS|);
      cum := cum + waitCounts[|BUCKETS|];
      page := Page(admissions, expirations, evictions, buckets + [cum], waitSum, waitTotal);
    }
  }
}
