/**
 The health prober: additive increase after three successes in a row, halving on every
 failure, always within the configured bounds.
 */
module Prober {
  import opened WaitingRoom
  import opened Admission
  import Memory
  import Metrics
  import C = Controller

  const SUCCESSES_PER_INCREASE := 3

  /** Capacity floor and ceiling. */
  datatype Bounds = Bounds(min: int, max: int) {
    predicate Valid() {
      1 <= min <= max
    }

    function Clamp(n: int): int {
      Min(Max(n, min), max)
    }
  }

  /** What the prober moves: the capacity and its success streak. */
  datatype Load = Load(capacity: int, streak: nat)

  /** One probe outcome. */
  function Adjusted(b: Bounds, l: Load, healthy: bool): Load {
    if healthy then
      if l.streak + 1 < SUCCESSES_PER_INCREASE then Load(l.capacity, l.streak + 1)
      else Load(b.Clamp(l.capacity + 1), 0)
    else Load(b.Clamp(l.capacity / 2), 0)
  }

  function AdjustedAll(b: Bounds, l: Load, outcomes: seq<bool>): Load {
    if outcomes == [] then l
    else Adjusted(b, AdjustedAll(b, l, outcomes[..|outcomes| - 1]), outcomes[|outcomes| - 1])
  }

  /** Every run of outcomes stays within the bounds, and the streak below three. */
  lemma {:induction false} StaysWithinBounds(b: Bounds, l: Load, outcomes: seq<bool>)
    requires b.Valid() && b.min <= l.capacity <= b.max && l.streak < SUCCESSES_PER_INCREASE
    ensures var l' := AdjustedAll(b, l, outcomes);
      b.min <= l'.capacity <= b.max && l'.streak < SUCCESSES_PER_INCREASE
  {
    if outcomes != [] {
      StaysWithinBounds(b, l, outcomes[..|outcomes| - 1]);
    }
  }

  function Repeat(healthy: bool, n: nat): (s: seq<bool>)
    ensures |s| == n && forall i :: 0 <= i < n ==> s[i] == healthy
  {
    seq(n, _ => healthy)
  }

  lemma RepeatNext(healthy: bool, n: nat)
    ensures Repeat(healthy, n + 1)[..n] == Repeat(healthy, n)
  {
  }

  function Pow2(k: nat): (p: nat)
    ensures p >= 1
  {
    if k == 0 then 1 else 2 * Pow2(k - 1)
  }

  lemma HalfOfQuotient(c: nat, p: nat)
    requires p >= 1
    ensures c / p / 2 == c / (2 * p)
  {
    var q := c / p;
    var r := c - q * p;
    assert 0 <= r < p;
    var h := q / 2;
    assert q == 2 * h + q % 2;
    var rest := q % 2 * p + r;
    assert c == h * (2 * p) + rest;
    assert 0 <= rest < 2 * p;
    DivIs(h, c, 2 * p);
  }

  /** `k` failures in a row divide the capacity by 2^k, down to the floor. */
  lemma {:induction false} FailuresHalve(b: Bounds, l: Load, k: nat)
    requires b.Valid() && b.min <= l.capacity <= b.max
    ensures AdjustedAll(b, l, Repeat(false, k))
         == Load(Max(b.min, l.capacity / Pow2(k)), if k == 0 then l.streak else 0)
  {
    if k > 0 {
      FailuresHalve(b, l, k - 1);
      RepeatNext(false, k - 1);
      HalfOfQuotient(l.capacity, Pow2(k - 1));
      QuotientAtMost(l.capacity, Pow2(k - 1));
    }
  }

  lemma QuotientAtMost(c: nat, d: nat)
    requires d >= 1
    ensures 0 <= c / d <= c
  {
    DivMonotone(0, c, d);
    var q := c / d;
    MulMonotone(1, d, q);
  }

  /** `n` successes in a row add one per completed streak of three, up to the ceiling. */
  lemma {:induction false} SuccessesGrow(b: Bounds, l: Load, n: nat)
    requires b.Valid() && b.min <= l.capacity <= b.max && l.streak < SUCCESSES_PER_INCREASE
    ensures AdjustedAll(b, l, Repeat(true, n)) == Load(Min(b.max, l.capacity + (l.streak + n) / 3), (l.streak + n) % 3)
  {
    if n > 0 {
      SuccessesGrow(b, l, n - 1);
      RepeatNext(true, n - 1);
    }
  }

  /**
   A capacity outside the bounds, which an administrator or the configuration may set: the
   first failure or completed streak brings it to the nearest bound, at most three outcomes
   from now, and it never leaves again.
   */
  lemma {:induction false} EntersBounds(b: Bounds, l: Load, outcomes: seq<bool>)
    requires b.Valid() && l.streak < SUCCESSES_PER_INCREASE
    ensures var l' := AdjustedAll(b, l, outcomes);
      && l'.streak < SUCCESSES_PER_INCREASE
      && (|outcomes| + l.streak >= 3 || false in outcomes ==> b.min <= l'.capacity <= b.max)
      && (|outcomes| + l.streak < 3 && false !in outcomes ==> l' == Load(l.capacity, l.streak + |outcomes|))
  {
    if outcomes != [] {
      var p := outcomes[..|outcomes| - 1];
      assert outcomes == p + [outcomes[|outcomes| - 1]];
      EntersBounds(b, l, p);
    }
  }

  /** One outcome from any capacity: where it leads, with both bounds written out. */
  lemma AdjustedFromAnywhere(b: Bounds, l: Load, healthy: bool)
    requires b.Valid() && l.streak < SUCCESSES_PER_INCREASE
    ensures var c := Adjusted(b, l, healthy).capacity;
      if healthy && l.streak < 2 then c == l.capacity
      else if healthy then
        if l.capacity >= b.max then c == b.max else if l.capacity < b.min then c == b.min else c == l.capacity + 1
      else
        if l.capacity > 2 * b.max + 1 then c == b.max
        else if l.capacity < 2 * b.min then c == b.min
        else 2 * c == l.capacity || 2 * c + 1 == l.capacity
  {
  }

  /** Who may adjust in this interval: a single instance, the holder of the lease, or nobody. */
  datatype Lease = NoLocker | Granted | Held | Unavailable

  class Prober {
    const bounds: Bounds
    const ctrl: C.Controller
    var successes: nat

    ghost predicate Valid()
      reads this, ctrl, ctrl.store, ctrl.store.Repr, ctrl.metrics, ctrl.metrics.waitCounts
    {
      bounds.Valid() && ctrl.Valid() && successes < SUCCESSES_PER_INCREASE
    }

    constructor (bounds: Bounds, ctrl: C.Controller)
      requires bounds.Valid() && ctrl.Valid()
      ensures Valid() && this.bounds == bounds && this.ctrl == ctrl && successes == 0
    {
      hide C.Controller.Valid;
      this.bounds, this.ctrl, successes := bounds, ctrl, 0;
    }

    /** A round is skipped without a trace unless the lease is ours. */
    method Tick(lease: Lease, probe: bool)
      requires Valid()
      modifies this`successes, ctrl`capacity
      modifies ctrl.store`capacity, ctrl.store`capacitySet, ctrl.store`room
      ensures Valid()
      ensures Load(ctrl.capacity, successes) ==
        if lease == NoLocker || lease == Granted
        then Adjusted(bounds, old(Load(ctrl.capacity, successes)), probe)
        else old(Load(ctrl.capacity, successes))
      ensures ctrl.store.room ==
        if ctrl.capacity == old(ctrl.capacity) then old(ctrl.store.room)
        else old(ctrl.store.room).(override := Some(ctrl.capacity))
    {
      if lease == Held || lease == Unavailable {
        return;
      }
      Adjust(probe);
    }

    /** One step; a capacity that is written is within the bounds and is never rejected. */
    method Adjust(healthy: bool)
      requires Valid()
      modifies this`successes, ctrl`capacity
      modifies ctrl.store`capacity, ctrl.store`capacitySet, ctrl.store`room
      ensures Valid()
      ensures Load(ctrl.capacity, successes) == Adjusted(bounds, old(Load(ctrl.capacity, successes)), healthy)
      ensures ctrl.store.room ==
        if ctrl.capacity == old(ctrl.capacity) then old(ctrl.store.room)
        else old(ctrl.store.room).(override := Some(ctrl.capacity))
      ensures ctrl.capacity != old(ctrl.capacity) ==> bounds.min <= ctrl.capacity <= bounds.max
    {
      hide Memory.Store.Valid, Metrics.Registry.Valid;
      var cur := ctrl.capacity;
      var next;
      if healthy {
        successes := successes + 1;
        if successes < SUCCESSES_PER_INCREASE {
          return;
        }
        successes := 0;
        next := cur + 1;
      } else {
        successes := 0;
        next := cur / 2;
      }
      if next < bounds.min {
        next := bounds.min;
      }
      if next > bounds.max {
        next := bounds.max;
      }
      if next == cur {
        return;
      }
      var ok := ctrl.SetCapacity(next);
      assert ok;
    }
  }
}
