/**
 What one Reconcile pass does, stated ticket by ticket: who leaves, who enters, where
 everybody else ends up, and that a second pass finds nothing to do.
 */
module ReconcileLaws {
  import opened WaitingRoom

  // ---------- the exact effect ----------

  /** Number of ghosts among the waiters of `q`. */
  function Ghosts(q: seq<Waiter>, ttl: int, now: int): nat {
    if q == [] then 0
    else Ghosts(q[..|q| - 1], ttl, now) + if Ghost(q[|q| - 1], ttl, now) then 1 else 0
  }

  /** A survivor's index is its old index minus the ghosts that were ahead of it. */
  lemma {:induction false} SurvivorIndex(q: seq<Waiter>, i: nat, ttl: int, now: int)
    requires i < |q| && !Ghost(q[i], ttl, now)
    ensures Ghosts(q[..i], ttl, now) <= i
    ensures i - Ghosts(q[..i], ttl, now) < |Survivors(q, ttl, now)|
    ensures Survivors(q, ttl, now)[i - Ghosts(q[..i], ttl, now)] == q[i]
  {
    SurvivorsCount(q[..i], ttl, now);
    if i == |q| - 1 {
      SnocSurvivors(q, i, ttl, now);
      assert q[..i + 1] == q;
    } else {
      var p := q[..|q| - 1];
      SurvivorIndex(p, i, ttl, now);
      assert p[..i] == q[..i];
    }
  }

  lemma {:induction false} SurvivorsCount(q: seq<Waiter>, ttl: int, now: int)
    ensures |Survivors(q, ttl, now)| == |q| - Ghosts(q, ttl, now)
  {
    if q != [] {
      SurvivorsCount(q[..|q| - 1], ttl, now);
    }
  }

  /**
   Every ticket after a pass.  An idle session is gone; a waiter is evicted exactly when
   it is a ghost; otherwise, with `place` its old position minus the evicted ahead, it is
   promoted exactly when `place` is within the promoted count and waits at
   `place - promoted` if not.
   */
  lemma ExactEffect(r: Room, cap: int, activeTTL: int, queueTTL: int, now: int, order: seq<Id>, id: Id)
    requires r.Valid() && IsScan(r.active, activeTTL, now, order)
    ensures var r' := Reconciled(r, cap, activeTTL, queueTTL, now, order);
      var report := Report(r, cap, activeTTL, queueTTL, now);
      if id in r.active then
        if Idle(r.active[id], activeTTL, now) then Snap(r', id).status == Unknown
        else id in r'.active && r'.active[id] == r.active[id]
      else if IsQueued(r.queue, id) then
        var i := Find(r.queue, id);
        var place := i + 1 - Ghosts(r.queue[..i], queueTTL, now);
        if Ghost(r.queue[i], queueTTL, now) then Snap(r', id).status == Unknown
        else if place <= report.promoted then id in r'.active && r'.active[id] == Session(now, now)
        else Snap(r', id).status == Queued && Snap(r', id).position == place - report.promoted
      else Snap(r', id).status == Unknown
  {
    if IsQueued(r.queue, id) && !Ghost(r.queue[Find(r.queue, id)], queueTTL, now) {
      hide Kept, Survivors, Promoted, Evicted, Expired, Room.Valid;
      SurvivorEffect(r, cap, activeTTL, queueTTL, now, order, id);
    } else {
      hide Promoted, Evicted, Expired, Survivors, Ghosts, Room.Valid;
      OthersEffect(r, cap, activeTTL, queueTTL, now, order, id);
    }
  }

  lemma SurvivorEffect(r: Room, cap: int, activeTTL: int, queueTTL: int, now: int, order: seq<Id>, id: Id)
    requires r.Valid() && IsScan(r.active, activeTTL, now, order)
    requires IsQueued(r.queue, id) && !Ghost(r.queue[Find(r.queue, id)], queueTTL, now)
    ensures var r' := Reconciled(r, cap, activeTTL, queueTTL, now, order);
      var promoted := Report(r, cap, activeTTL, queueTTL, now).promoted;
      var place := Find(r.queue, id) + 1 - Ghosts(r.queue[..Find(r.queue, id)], queueTTL, now);
      && id !in r.active
      && if place <= promoted then id in r'.active && r'.active[id] == Session(now, now)
         else Snap(r', id).status == Queued && Snap(r', id).position == place - promoted
  {
    hide Ordered, Survivors, Admitted, Ids, EmaAll, Durations;
    var mid := Evicted(Expired(r, activeTTL, now, order), queueTTL, now);
    ExpiredValid(r, activeTTL, now, order);
    EvictedValid(Expired(r, activeTTL, now, order), queueTTL, now);
    PromotedEffect(mid, cap, now, id);
    var i := Find(r.queue, id);
    assert r.queue[i].id == id;
    SurvivorIndex(r.queue, i, queueTTL, now);
    FindAt(mid.queue, i - Ghosts(r.queue[..i], queueTTL, now));
  }

  lemma OthersEffect(r: Room, cap: int, activeTTL: int, queueTTL: int, now: int, order: seq<Id>, id: Id)
    requires r.Valid() && IsScan(r.active, activeTTL, now, order)
    requires IsQueued(r.queue, id) ==> Ghost(r.queue[Find(r.queue, id)], queueTTL, now)
    ensures var r', kept := Reconciled(r, cap, activeTTL, queueTTL, now, order), Kept(r.active, activeTTL, now);
      && (IsQueued(r.queue, id) ==> id !in r.active)
      && !IsQueued(r'.queue, id)
      && (id in r'.active <==> id in kept)
      && (id in kept ==> r'.active[id] == kept[id])
  {
    hide Ordered, Survivors, Admitted, Ids, EmaAll, Durations, Kept;
    var mid := Evicted(Expired(r, activeTTL, now, order), queueTTL, now);
    ExpiredValid(r, activeTTL, now, order);
    EvictedValid(Expired(r, activeTTL, now, order), queueTTL, now);
    PromotedEffect(mid, cap, now, id);
    NotAmongSurvivors(r, id, queueTTL, now);
    assert IsQueued(r.queue, id) ==> r.queue[Find(r.queue, id)].id == id;
  }

  /** The promotion phase takes the first `Free` waiters and moves everybody else up. */
  lemma PromotedEffect(r: Room, cap: int, now: int, id: Id)
    requires r.Valid()
    ensures var r', n := Promoted(r, cap, now), Free(r, cap);
      if IsQueued(r.queue, id) then
        var k := Find(r.queue, id);
        if k < n then id in r'.active && r'.active[id] == Session(now, now)
        else Snap(r', id).status == Queued && Snap(r', id).position == k + 1 - n
      else
        && !IsQueued(r'.queue, id)
        && (id in r'.active <==> id in r.active)
        && (id in r.active ==> r'.active[id] == r.active[id])
  {
    hide Ordered, Find, Ids;
    var n := Free(r, cap);
    PromotedValid(r, cap, now);
    AdmittedAre(r.active, r.queue[..n], now);
    TakeDrop(r.queue, n, id);
    if IsQueued(r.queue, id) {
      assert r.queue[Find(r.queue, id)].id !in r.active;
    }
  }

  lemma NotAmongSurvivors(r: Room, id: Id, ttl: int, now: int)
    requires r.Valid()
    requires IsQueued(r.queue, id) ==> Ghost(r.queue[Find(r.queue, id)], ttl, now)
    ensures forall w :: w in Survivors(r.queue, ttl, now) ==> w.id != id
  {
    SurvivorsAre(r.queue, ttl, now);
    forall w | w in Survivors(r.queue, ttl, now) ensures w.id != id {
      var i :| 0 <= i < |r.queue| && r.queue[i] == w;
      FindAt(r.queue, i);
    }
  }

  /** The report counts the idle sessions, the ghosts and the free slots that could be filled. */
  lemma ReportCounts(r: Room, cap: int, activeTTL: int, queueTTL: int, now: int)
    ensures var idle := set id | id in r.active && Idle(r.active[id], activeTTL, now);
      var report := Report(r, cap, activeTTL, queueTTL, now);
      var left := |r.queue| - report.evicted;
      && report.expired == |idle|
      && report.evicted == Ghosts(r.queue, queueTTL, now)
      && report.promoted == Min(Max(0, cap - (|r.active| - |idle|)), left)
      && |report.waitedSecs| == report.promoted
  {
    SurvivorsCount(r.queue, queueTTL, now);
    var idle := set id | id in r.active && Idle(r.active[id], activeTTL, now);
    var kept := Kept(r.active, activeTTL, now);
    assert r.active.Keys == kept.Keys + idle;
    assert |r.active.Keys| == |kept.Keys| + |idle|;
  }

  // ---------- the times a pass reports and averages ----------

  /**
   The wait reported for the ticket promoted at `place` is the time since it was enqueued:
   a thousandth of the milliseconds.
   */
  lemma WaitsAreTrue(r: Room, cap: int, activeTTL: int, queueTTL: int, now: int, id: Id)
    requires IsQueued(r.queue, id) && !Ghost(r.queue[Find(r.queue, id)], queueTTL, now)
    ensures var i := Find(r.queue, id);
      var place, report := i + 1 - Ghosts(r.queue[..i], queueTTL, now), Report(r, cap, activeTTL, queueTTL, now);
      && place >= 1 && |report.waitedSecs| == report.promoted
      && (place <= report.promoted ==>
            report.waitedSecs[place - 1] * 1000.0 == (now - r.queue[i].enqueuedAt) as real)
  {
    SurvivorIndex(r.queue, Find(r.queue, id), queueTTL, now);
  }

  /** A session's duration runs from its admission to its last request. */
  lemma DurationsAreTrue(active: map<Id, Session>, order: seq<Id>, k: nat)
    requires k < |order| && forall id :: id in order ==> id in active
    ensures |Durations(active, order)| == |order| && order[k] in order
    ensures Durations(active, order)[k] * 1000.0 == (active[order[k]].lastSeen - active[order[k]].admittedAt) as real
  {
  }

  /**
   The average after a pass.  The last session met counts for a fifth, what the average was
   before it for four fifths, in milliseconds; an average of 0 is replaced outright.
   */
  lemma AverageMoves(r: Room, cap: int, activeTTL: int, queueTTL: int, now: int, order: seq<Id>)
    requires IsScan(r.active, activeTTL, now, order)
    ensures var avg := Reconciled(r, cap, activeTTL, queueTTL, now, order).avg;
      if order == [] then avg == r.avg
      else
        var last := order[|order| - 1];
        && last in r.active
        && var before := EmaAll(r.avg, Durations(r.active, order)[..|order| - 1]);
           var ms := (r.active[last].lastSeen - r.active[last].admittedAt) as real;
           && (|order| == 1 ==> before == r.avg)
           && (if before == 0.0 then avg * 1000.0 == ms else avg * 5000.0 == ms + 4.0 * (before * 1000.0))
  {
    if order != [] {
      assert order[|order| - 1] in order;
      DurationsAreTrue(r.active, order, |order| - 1);
      EmptyAverage(r.avg);
      assert |order| == 1 ==> Durations(r.active, order)[..0] == [];
    }
  }

  lemma EmptyAverage(avg: real)
    ensures EmaAll(avg, []) == avg
  {
  }

  // ---------- longest wait first ----------

  ghost predicate EnqueueClock(q: seq<Waiter>) {
    forall i, j :: 0 <= i < j < |q| ==> q[i].enqueuedAt <= q[j].enqueuedAt
  }

  lemma {:induction false} SurvivorsKeepClock(q: seq<Waiter>, ttl: int, now: int)
    requires EnqueueClock(q)
    ensures EnqueueClock(Survivors(q, ttl, now))
  {
    if q != [] {
      var p := q[..|q| - 1];
      SurvivorsKeepClock(p, ttl, now);
      SurvivorsAre(p, ttl, now);
      forall w | w in Survivors(p, ttl, now) ensures w.enqueuedAt <= q[|q| - 1].enqueuedAt {
        assert w in p;
      }
    }
  }

  ghost predicate Falling(waits: seq<real>) {
    forall i, j :: 0 <= i < j < |waits| ==> waits[i] >= waits[j]
  }

  /** Of the tickets one pass lets in, each waited at least as long as the next. */
  lemma WaitsFall(r: Room, cap: int, activeTTL: int, queueTTL: int, now: int)
    requires EnqueueClock(r.queue)
    ensures Falling(Report(r, cap, activeTTL, queueTTL, now).waitedSecs)
  {
    SurvivorsKeepClock(r.queue, queueTTL, now);
  }

  // ---------- a second pass ----------

  /** Nobody is idle, nobody is a ghost, and no slot is free while somebody waits. */
  ghost predicate Settled(r: Room, cap: int, activeTTL: int, queueTTL: int, now: int) {
    && (forall id :: id in r.active ==> !Idle(r.active[id], activeTTL, now))
    && (forall w :: w in r.queue ==> !Ghost(w, queueTTL, now))
    && (|r.active| >= cap || r.queue == [])
  }

  lemma {:induction false} NoGhosts(q: seq<Waiter>, ttl: int, now: int)
    ensures Survivors(q, ttl, now) == q <==> forall w :: w in q ==> !Ghost(w, ttl, now)
    ensures |Survivors(q, ttl, now)| == |q| ==> Survivors(q, ttl, now) == q
  {
    if q != [] {
      var p, w := q[..|q| - 1], q[|q| - 1];
      NoGhosts(p, ttl, now);
      assert q == p + [w];
      SurvivorsAre(q, ttl, now);
      if |Survivors(q, ttl, now)| == |q| {
        assert !Ghost(w, ttl, now);
      }
    }
  }

  /** Work conservation: after any pass every slot is taken or nobody waits. */
  lemma WorkConserving(r: Room, cap: int, activeTTL: int, queueTTL: int, now: int, order: seq<Id>)
    requires r.Valid() && IsScan(r.active, activeTTL, now, order)
    ensures var r' := Reconciled(r, cap, activeTTL, queueTTL, now, order);
      |r'.active| >= cap || r'.queue == []
  {
    var mid := Evicted(Expired(r, activeTTL, now, order), queueTTL, now);
    ExpiredValid(r, activeTTL, now, order);
    EvictedValid(Expired(r, activeTTL, now, order), queueTTL, now);
    PromotedValid(mid, cap, now);
  }

  /** A pass leaves the room settled, unless a negative TTL makes the newly promoted idle at once. */
  lemma ReconcileSettles(r: Room, cap: int, activeTTL: int, queueTTL: int, now: int, order: seq<Id>)
    requires r.Valid() && IsScan(r.active, activeTTL, now, order)
    ensures Settled(Reconciled(r, cap, activeTTL, queueTTL, now, order), cap, activeTTL, queueTTL, now)
       <==> activeTTL >= 0 || Report(r, cap, activeTTL, queueTTL, now).promoted == 0
  {
    hide Ordered, Ids, Survivors, Find;
    WorkConserving(r, cap, activeTTL, queueTTL, now, order);
    var mid := Evicted(Expired(r, activeTTL, now, order), queueTTL, now);
    var r' := Promoted(mid, cap, now);
    var n := Free(mid, cap);
    var heads := mid.queue[..n];
    AdmittedAre(mid.active, heads, now);
    SurvivorsAre(r.queue, queueTTL, now);
    assert forall w :: w in r'.queue ==> w in mid.queue;
    if n > 0 {
      IdAt(heads, 0);
      assert r'.active[heads[0].id] == Session(now, now);
    }
  }

  /**
   With a negative window the pass that lets somebody in is not the last: the same pass
   again, at the same instant, ends the session that the first one began.
   */
  lemma NegativeWindowUnsettles(id: Id, ttl: int, qttl: int, now: int)
    requires ttl < 0 <= qttl
    ensures var r := EMPTY.(queue := [Waiter(id, 1, now, now)], nextSeq := 1);
      && r.Valid() && IsScan(r.active, ttl, now, [])
      && var r' := Reconciled(r, 1, ttl, qttl, now, []);
         && Report(r, 1, ttl, qttl, now).promoted == 1 && id in r'.active
         && Report(r', 1, ttl, qttl, now).expired == 1
         && !Settled(r', 1, ttl, qttl, now)
  {
    hide EmaAll, Durations, Find, Survivors, Admitted, Ids;
    var q := [Waiter(id, 1, now, now)];
    var r := EMPTY.(queue := q, nextSeq := 1);
    OnlySurvivor(q[0], qttl, now);
    OnlyHead(q[0], now);
    assert q[..1] == q;
    assert Kept(r.active, ttl, now) == map[];
    assert Reconciled(r, 1, ttl, qttl, now, []).active == map[id := Session(now, now)];
    assert Kept(map[id := Session(now, now)], ttl, now) == map[];
  }

  lemma OnlySurvivor(w: Waiter, ttl: int, now: int)
    requires !Ghost(w, ttl, now)
    ensures Survivors([w], ttl, now) == [w]
  {
    assert Survivors([w][..0], ttl, now) == [];
  }

  lemma OnlyHead(w: Waiter, now: int)
    ensures Admitted(map[], [w], now) == map[w.id := Session(now, now)]
  {
    assert Admitted(map[], [w][..0], now) == map[];
  }

  /** A pass reports nothing exactly when the room is settled, and then it changes nothing. */
  lemma SettledIsFixed(r: Room, cap: int, activeTTL: int, queueTTL: int, now: int, order: seq<Id>)
    requires IsScan(r.active, activeTTL, now, order)
    ensures Settled(r, cap, activeTTL, queueTTL, now)
       <==> Report(r, cap, activeTTL, queueTTL, now) == ReconcileResult(0, 0, 0, [])
    ensures Settled(r, cap, activeTTL, queueTTL, now) ==>
      order == [] && Reconciled(r, cap, activeTTL, queueTTL, now, order) == r
  {
    NoGhosts(r.queue, queueTTL, now);
    ReportCounts(r, cap, activeTTL, queueTTL, now);
    var idle := set id | id in r.active && Idle(r.active[id], activeTTL, now);
    var kept := Kept(r.active, activeTTL, now);
    assert forall id :: id in r.active && Idle(r.active[id], activeTTL, now) ==> id in idle;
    if idle == {} {
      assert kept == r.active;
      ScanCount(r.active, activeTTL, now, order);
    }
    if Report(r, cap, activeTTL, queueTTL, now) == ReconcileResult(0, 0, 0, []) {
      assert idle == {};
    }
  }

  /** Reconcile is idempotent. */
  lemma Idempotent(r: Room, cap: int, activeTTL: int, queueTTL: int, now: int, order: seq<Id>, again: seq<Id>)
    requires r.Valid() && activeTTL >= 0 && IsScan(r.active, activeTTL, now, order)
    requires IsScan(Reconciled(r, cap, activeTTL, queueTTL, now, order).active, activeTTL, now, again)
    ensures var r' := Reconciled(r, cap, activeTTL, queueTTL, now, order);
      && Reconciled(r', cap, activeTTL, queueTTL, now, again) == r'
      && Report(r', cap, activeTTL, queueTTL, now) == ReconcileResult(0, 0, 0, [])
  {
    ReconcileSettles(r, cap, activeTTL, queueTTL, now, order);
    SettledIsFixed(Reconciled(r, cap, activeTTL, queueTTL, now, order), cap, activeTTL, queueTTL, now, again);
  }

  // ---------- the average ----------

  ghost predicate InHull(x: real, ds: seq<real>) {
    exists i, j :: 0 <= i < |ds| && 0 <= j < |ds| && ds[i] <= x <= ds[j]
  }

  /**
   After at least one session the average lies between the shortest and the longest,
   although the value 0 doubles as "no data" and reseeds it.
   */
  lemma {:induction false} EmaInHull(ds: seq<real>)
    requires ds != []
    ensures InHull(EmaAll(0.0, ds), ds)
  {
    var p, d := ds[..|ds| - 1], ds[|ds| - 1];
    var k := |ds| - 1;
    if p == [] {
      assert ds[k] <= EmaAll(0.0, ds) <= ds[k];
    } else {
      EmaInHull(p);
      var a := EmaAll(0.0, p);
      var i, j :| 0 <= i < |p| && 0 <= j < |p| && p[i] <= a <= p[j];
      var lo, hi := if ds[i] <= d then i else k, if ds[j] >= d then j else k;
      assert ds[i] == p[i] && ds[j] == p[j];
      assert ds[lo] <= EmaAll(0.0, ds) <= ds[hi];
    }
  }

  lemma {:induction false} EmaConcat(avg: real, ds: seq<real>, es: seq<real>)
    ensures EmaAll(avg, ds + es) == EmaAll(EmaAll(avg, ds), es)
  {
    if es == [] {
      assert ds + es == ds;
    } else {
      assert (ds + es)[..|ds + es| - 1] == ds + es[..|es| - 1];
      EmaConcat(avg, ds, es[..|es| - 1]);
    }
  }
}
