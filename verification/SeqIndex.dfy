/**
 The memory store's position index.  A waiter's position is not found by walking
 the queue: it is the distance of its sequence number from the head's, minus the
 "holes" (numbers evicted from the middle) in between, which two binary searches
 count.  This module holds the invariant that makes that exact.

 `nums` are the sequence numbers in the queue, front first.
 */
module SeqIndex {

  ghost predicate Ascending(xs: seq<nat>) {
    forall i, j :: 0 <= i < j < |xs| ==> xs[i] < xs[j]
  }

  /**
   The weak invariant, which holds throughout a Reconcile pass: from the head to
   `nextSeq` every number is either queued or a hole, and none is both.  Holes at or
   below the current head may still be around.
   */
  ghost predicate Covers(nums: seq<nat>, holes: seq<nat>, nextSeq: nat) {
    && Ascending(nums)
    && Ascending(holes)
    && (forall s :: s in nums ==> s <= nextSeq && s !in holes)
    && (forall s :: s in holes ==> s <= nextSeq)
    && (nums != [] ==> forall s: nat :: nums[0] <= s <= nextSeq && s !in holes ==> s in nums)
  }

  /** The invariant between operations: besides, holes lie strictly behind the head. */
  ghost predicate Exact(nums: seq<nat>, holes: seq<nat>, nextSeq: nat) {
    && Covers(nums, holes, nextSeq)
    && (if nums == [] then holes == [] else forall h :: h in holes ==> nums[0] < h)
  }

  /** `k` splits `xs` into the numbers below `s` and the rest. */
  ghost predicate Cut(xs: seq<nat>, s: int, k: nat) {
    && k <= |xs|
    && (forall i :: 0 <= i < k ==> xs[i] < s)
    && (forall i :: k <= i < |xs| ==> s <= xs[i])
  }

  lemma CutUnique(xs: seq<nat>, s: int, j: nat, k: nat)
    requires Cut(xs, s, j) && Cut(xs, s, k)
    ensures j == k
  {
    var m := if j < k then j else k;
    assert m < |xs| ==> (xs[m] < s <==> m < j) && (xs[m] < s <==> m < k);
  }

  lemma CutBack(xs: seq<nat>, s: int, k: nat, i: nat)
    requires Ascending(xs) && Cut(xs, s, k) && i < |xs| && xs[i] == s - 1
    ensures k == i + 1 && Cut(xs, s - 1, i)
  {
    CutUnique(xs, s, k, i + 1);
  }

  /** Counting queued numbers and holes below `s` measures the distance from the head to `s`. */
  lemma {:induction false} Distance(nums: seq<nat>, holes: seq<nat>, nextSeq: nat, s: nat, q: nat, lo: nat, hi: nat)
    requires nums != [] && Covers(nums, holes, nextSeq)
    requires nums[0] <= s <= nextSeq
    requires Cut(nums, s, q) && Cut(holes, nums[0], lo) && Cut(holes, s, hi)
    ensures q + hi - lo == s - nums[0]
    decreases s
  {
    if s == nums[0] {
      assert q == 0;
      CutUnique(holes, s, lo, hi);
    } else {
      var p := s - 1;
      if p in holes {
        var i :| 0 <= i < |holes| && holes[i] == p;
        CutBack(holes, s, hi, i);
        assert p !in nums;
        Distance(nums, holes, nextSeq, p, q, lo, hi - 1);
      } else {
        var i :| 0 <= i < |nums| && nums[i] == p;
        CutBack(nums, s, q, i);
        Distance(nums, holes, nextSeq, p, q - 1, lo, hi);
      }
    }
  }

  /** The fast position equals the place in the list. */
  lemma FastPosition(nums: seq<nat>, holes: seq<nat>, nextSeq: nat, i: nat, lo: nat, hi: nat)
    requires Covers(nums, holes, nextSeq) && i < |nums|
    requires Cut(holes, nums[0] + 1, lo) && Cut(holes, nums[i], hi)
    ensures nums[0] <= nums[i]
    ensures (nums[i] - nums[0]) + 1 - (hi - lo) == i + 1
  {
    assert nums[0] in nums && nums[i] in nums;
    assert Cut(holes, nums[0], lo) by {
      forall k | lo <= k < |holes| ensures nums[0] <= holes[k] { }
      forall k | 0 <= k < lo ensures holes[k] < nums[0] {
        assert holes[k] in holes;
      }
    }
    Distance(nums, holes, nextSeq, nums[i], i, lo, hi);
  }

  /** The holes are a function of the queue: at most one list keeps the invariant. */
  lemma Canonical(nums: seq<nat>, h1: seq<nat>, h2: seq<nat>, nextSeq: nat)
    requires Exact(nums, h1, nextSeq) && Exact(nums, h2, nextSeq)
    ensures h1 == h2
  {
    if nums != [] {
      forall s ensures s in h1 <==> s in h2 {
        if s in h1 { assert s !in nums; }
        if s in h2 { assert s !in nums; }
      }
      AscendingUnique(h1, h2);
    }
  }

  lemma {:induction false} AscendingUnique(a: seq<nat>, b: seq<nat>)
    requires Ascending(a) && Ascending(b)
    requires forall s :: s in a <==> s in b
    ensures a == b
  {
    assert forall i :: 0 <= i < |a| ==> a[i] in b;
    assert forall i :: 0 <= i < |b| ==> b[i] in a;
    if a != [] && b != [] {
      assert a[0] in a && b[0] in b;
      assert a[0] == b[0];
      forall s ensures s in a[1..] <==> s in b[1..] {
        assert s in a <==> s == a[0] || s in a[1..];
        assert s in b <==> s == b[0] || s in b[1..];
      }
      AscendingUnique(a[1..], b[1..]);
    }
  }

  // ---------- how each change to the queue keeps the invariant ----------

  lemma PushKeeps(nums: seq<nat>, holes: seq<nat>, nextSeq: nat)
    requires Exact(nums, holes, nextSeq)
    ensures Exact(nums + [nextSeq + 1], holes, nextSeq + 1)
  {
    var n := nums + [nextSeq + 1];
    forall i, j | 0 <= i < j < |n| ensures n[i] < n[j] {
      assert n[i] in nums;
    }
    forall s: nat | n[0] <= s <= nextSeq + 1 && s !in holes ensures s in n {
      if s == nextSeq + 1 { assert n[|nums|] == s; }
    }
  }

  lemma EvictKeeps(nums: seq<nat>, holes: seq<nat>, nextSeq: nat, i: nat, holes': seq<nat>)
    requires Covers(nums, holes, nextSeq) && i < |nums|
    requires Ascending(holes') && forall s :: s in holes' <==> s in holes || s == nums[i]
    ensures Covers(nums[..i] + nums[i + 1..], holes', nextSeq)
  {
    var n := nums[..i] + nums[i + 1..];
    assert forall s :: s in n ==> s in nums;
    assert nums[i] in nums;
    forall s: nat | s in nums && s != nums[i] ensures s in n {
      var k :| 0 <= k < |nums| && nums[k] == s;
      assert n[if k < i then k else k - 1] == s;
    }
  }

  lemma PopKeeps(nums: seq<nat>, holes: seq<nat>, nextSeq: nat)
    requires Covers(nums, holes, nextSeq) && nums != []
    ensures Covers(nums[1..], holes, nextSeq)
  {
    assert nums == [nums[0]] + nums[1..];
    assert forall s :: s in nums[1..] ==> s in nums;
    assert forall s :: s in nums && s != nums[0] ==> s in nums[1..];
  }

  lemma PruneKeeps(nums: seq<nat>, holes: seq<nat>, nextSeq: nat, i: nat)
    requires Covers(nums, holes, nextSeq) && nums != [] && Cut(holes, nums[0] + 1, i)
    ensures Exact(nums, holes[i..], nextSeq)
  {
    assert forall h :: h in holes[i..] ==> h in holes;
    forall s: nat | s in holes && nums[0] < s ensures s in holes[i..] {
      var k :| 0 <= k < |holes| && holes[k] == s;
      assert holes[i..][k - i] == s;
    }
  }

  lemma InsertKeeps(holes: seq<nat>, s: nat, i: nat)
    requires Ascending(holes) && s !in holes && Cut(holes, s + 1, i)
    ensures Ascending(holes[..i] + [s] + holes[i..])
    ensures forall x :: x in holes[..i] + [s] + holes[i..] <==> x in holes || x == s
  {
    forall k | i <= k < |holes| ensures s < holes[k] {
      assert holes[k] in holes;
    }
    assert holes == holes[..i] + holes[i..];
  }

  /** Binary search for the smallest index at which the monotone `f` is true, or `n`. */
  method Search(n: nat, f: int --> bool) returns (i: nat)
    requires forall k :: 0 <= k < n ==> f.requires(k)
    requires forall j, k :: 0 <= j < k < n && f(j) ==> f(k)
    ensures i <= n
    ensures forall k :: 0 <= k < i ==> !f(k)
    ensures forall k :: i <= k < n ==> f(k)
  {
    i := 0;
    var j := n;
    while i < j
      invariant 0 <= i <= j <= n
      invariant forall k :: 0 <= k < i ==> !f(k)
      invariant forall k :: j <= k < n ==> f(k)
    {
      var h := (i + j) / 2;
      if !f(h) {
        i := h + 1;
      } else {
        j := h;
      }
    }
  }

  /** Where `holes` reaches `s`, by binary search. */
  method SearchFrom(holes: seq<nat>, s: int) returns (i: nat)
    requires Ascending(holes)
    ensures Cut(holes, s, i)
  {
    var reached := k requires 0 <= k < |holes| => s <= holes[k];
    i := Search(|holes|, reached);
    assert forall k :: 0 <= k < i ==> !reached(k);
    forall k | 0 <= k < |holes| ensures reached(k) <==> s <= holes[k] { }
  }
}
