/**
 The shared store: the Lua scripts as methods over sorted sets and hashes.  Each script
 is one atomic step of the server and is proved against the same functions on rooms as
 the in-process store.
 */
module Valkey {
  import opened WaitingRoom
  import opened ReconcileSteps

  /** A sorted set: members and their scores. */
  type ZSet = map<Id, int>

  predicate LexLess(a: Id, b: Id) {
    if b == [] then false
    else if a == [] then true
    else a[0] < b[0] || (a[0] == b[0] && LexLess(a[1..], b[1..]))
  }

  /** The order of a sorted set: by score, then by name. */
  predicate Before(z: ZSet, a: Id, b: Id)
    requires a in z && b in z
  {
    z[a] < z[b] || (z[a] == z[b] && LexLess(a, b))
  }

  /** ZRANK of a member. */
  function ZRank(z: ZSet, id: Id): nat
    requires id in z
  {
    |set x | x in z && Before(z, x, id)|
  }

  ghost predicate IsMin(z: ZSet, head: Id) {
    head in z && forall x :: x in z ==> z[head] <= z[x]
  }

  /** The member of least score (ZPOPMIN's choice, before it is removed). */
  method ZMin(z: ZSet) returns (head: Id)
    requires z != map[]
    ensures IsMin(z, head)
  {
    var todo := z.Keys;
    head :| head in todo;
    todo := todo - {head};
    while todo != {}
      invariant head in z && todo <= z.Keys
      invariant forall x :: x in z && x !in todo ==> z[head] <= z[x]
      decreases |todo|
    {
      var x :| x in todo;
      todo := todo - {x};
      if z[x] < z[head] {
        head := x;
      }
    }
  }

  /** ZRANGEBYSCORE -inf (bound: the members scored below `bound`, ascending. */
  method ZRangeBelow(z: ZSet, bound: int) returns (ids: seq<Id>)
    ensures forall id :: id in ids <==> id in z && z[id] < bound
    ensures forall i, j :: 0 <= i < j < |ids| ==>
      ids[i] != ids[j] && ids[i] in z && ids[j] in z && z[ids[i]] <= z[ids[j]]
  {
    ids := [];
    var rest := z;
    while rest != map[]
      invariant rest.Keys <= z.Keys && forall id :: id in rest ==> rest[id] == z[id]
      invariant forall id :: id in ids <==> id in z && id !in rest
      invariant forall id :: id in ids ==> z[id] < bound
      invariant forall i, j :: 0 <= i < j < |ids| ==>
        ids[i] != ids[j] && ids[i] in z && ids[j] in z && z[ids[i]] <= z[ids[j]]
      invariant forall i, id :: 0 <= i < |ids| && id in rest ==> ids[i] in z && z[ids[i]] <= z[id]
      decreases |rest|
    {
      var head := ZMin(rest);
      if rest[head] >= bound {
        break;
      }
      ghost var before := rest;
      rest := rest - {head};
      assert rest.Keys == before.Keys - {head};
      assert |rest| < |before|;
      ids := ids + [head];
    }
  }

  // ---------- what the keys say about a room ----------

  predicate Stored(order: ZSet, seen: ZSet, enqueued: map<Id, int>, w: Waiter) {
    && w.id in order && w.id in seen && w.id in enqueued
    && w == Waiter(w.id, w.seqNo, enqueued[w.id], seen[w.id]) && order[w.id] == w.seqNo
  }

  ghost predicate QueueHolds(order: ZSet, seen: ZSet, enqueued: map<Id, int>, q: seq<Waiter>) {
    && order.Keys == seen.Keys == enqueued.Keys == Ids(q)
    && forall i :: 0 <= i < |q| ==> Stored(order, seen, enqueued, q[i])
  }

  ghost predicate ActiveHolds(active: ZSet, admitted: map<Id, int>, sessions: map<Id, Session>) {
    && active.Keys == admitted.Keys == sessions.Keys
    && forall id :: id in sessions ==> sessions[id] == Session(admitted[id], active[id])
  }

  lemma QueueFacts(order: ZSet, seen: ZSet, enqueued: map<Id, int>, q: seq<Waiter>, id: Id)
    requires QueueHolds(order, seen, enqueued, q) && Ordered(q)
    ensures id in order <==> IsQueued(q, id)
    ensures id in order ==>
      id in seen && id in enqueued && q[Find(q, id)] == Waiter(id, order[id], enqueued[id], seen[id])
    ensures |order| == |q|
  {
    hide Ordered;
    IdsQueued(q, id);
    IdsCount(q);
    if id in order {
      assert Stored(order, seen, enqueued, q[Find(q, id)]);
    }
    assert |order.Keys| == |q|;
  }

  lemma ActiveFacts(active: ZSet, admitted: map<Id, int>, sessions: map<Id, Session>)
    requires ActiveHolds(active, admitted, sessions)
    ensures |active| == |sessions|
  {
    assert |active.Keys| == |sessions.Keys|;
  }

  lemma {:induction false} LexIrreflexive(a: Id)
    ensures !LexLess(a, a)
  {
    if a != [] {
      LexIrreflexive(a[1..]);
    }
  }

  /** Scores order the members as the line does. */
  lemma ScoresFollowLine(order: ZSet, seen: ZSet, enqueued: map<Id, int>, q: seq<Waiter>, x: Id, id: Id)
    requires QueueHolds(order, seen, enqueued, q) && Ordered(q)
    requires x in order && id in order
    ensures Before(order, x, id) <==> Find(q, x) < Find(q, id)
  {
    QueueFacts(order, seen, enqueued, q, x);
    QueueFacts(order, seen, enqueued, q, id);
    LexIrreflexive(id);
  }

  /** The rank by score is the place in the line. */
  lemma RankIsPlace(order: ZSet, seen: ZSet, enqueued: map<Id, int>, q: seq<Waiter>, id: Id)
    requires QueueHolds(order, seen, enqueued, q) && Ordered(q) && IsQueued(q, id)
    ensures id in order && ZRank(order, id) == Find(q, id)
  {
    hide Ordered, Before, Ids, Find;
    var k := Find(q, id);
    QueueFacts(order, seen, enqueued, q, id);
    var ahead := set x | x in order && Before(order, x, id);
    forall x ensures x in ahead <==> x in Ids(q[..k]) {
      QueueFacts(order, seen, enqueued, q, x);
      TakeDrop(q, k, x);
      if x in order {
        ScoresFollowLine(order, seen, enqueued, q, x, id);
      }
    }
    assert ahead == Ids(q[..k]);
    OrderedParts(q, k);
    IdsCount(q[..k]);
  }

  /** The least score is the head of the line. */
  lemma MinIsHead(order: ZSet, seen: ZSet, enqueued: map<Id, int>, q: seq<Waiter>, head: Id)
    requires QueueHolds(order, seen, enqueued, q) && Ordered(q)
    requires IsMin(order, head)
    ensures q != [] && head == q[0].id
  {
    QueueFacts(order, seen, enqueued, q, head);
    assert Stored(order, seen, enqueued, q[0]);
  }

  // ---------- how the scripts' writes move the room ----------

  lemma SeenHolds(order: ZSet, seen: ZSet, enqueued: map<Id, int>, q: seq<Waiter>, id: Id, now: int)
    requires QueueHolds(order, seen, enqueued, q) && Ordered(q) && IsQueued(q, id)
    ensures var k := Find(q, id);
      QueueHolds(order, seen[id := now], enqueued, q[k := q[k].(lastSeen := now)])
  {
    hide Ordered, Ids;
    var k := Find(q, id);
    QueueFacts(order, seen, enqueued, q, id);
    OthersDiffer(q, k);
    IdsSame(q, q[k := q[k].(lastSeen := now)]);
  }

  lemma PushHolds(order: ZSet, seen: ZSet, enqueued: map<Id, int>, q: seq<Waiter>, id: Id, n: nat, now: int)
    requires QueueHolds(order, seen, enqueued, q) && Ordered(q) && id !in order
    ensures QueueHolds(order[id := n], seen[id := now], enqueued[id := now], q + [Waiter(id, n, now, now)])
  {
    hide Ordered;
    var w := Waiter(id, n, now, now);
    IdsConcat(q, [w]);
    IdsNext([w], 0);
    forall i | 0 <= i < |q| ensures q[i].id != id {
      assert Stored(order, seen, enqueued, q[i]);
    }
  }

  lemma EvictHolds(order: ZSet, seen: ZSet, enqueued: map<Id, int>, q: seq<Waiter>, ttl: int, now: int, gone: set<Id>)
    requires QueueHolds(order, seen, enqueued, q) && Ordered(q)
    requires forall id :: id in gone <==> id in seen && seen[id] < now - ttl
    ensures QueueHolds(order - gone, seen - gone, enqueued - gone, Survivors(q, ttl, now))
    ensures |gone| == |q| - |Survivors(q, ttl, now)|
  {
    hide Ordered, Find, Ids, Survivors;
    var s := Survivors(q, ttl, now);
    SurvivorsAre(q, ttl, now);
    forall i | 0 <= i < |s| ensures Stored(order - gone, seen - gone, enqueued - gone, s[i]) {
      assert s[i] in q;
      assert Stored(order, seen, enqueued, s[i]);
    }
    SurvivorIds(order, seen, enqueued, q, ttl, now, gone);
    assert Ids(q) == Ids(s) + gone;
    IdsCount(q);
    IdsCount(s);
  }

  lemma GhostsHold(order: ZSet, seen: ZSet, enqueued: map<Id, int>, q: seq<Waiter>, ttl: int, now: int, ghosts: seq<Id>)
    requires QueueHolds(order, seen, enqueued, q) && Ordered(q)
    requires forall i, j :: 0 <= i < j < |ghosts| ==> ghosts[i] != ghosts[j]
    requires forall id :: id in ghosts <==> id in seen && seen[id] < now - ttl
    ensures QueueHolds(Without(order, ghosts), Without(seen, ghosts), Without(enqueued, ghosts), Survivors(q, ttl, now))
    ensures |ghosts| == |q| - |Survivors(q, ttl, now)|
  {
    EvictHolds(order, seen, enqueued, q, ttl, now, SetOf(ghosts));
    DistinctCount(ghosts);
  }

  lemma SurvivorIds(order: ZSet, seen: ZSet, enqueued: map<Id, int>, q: seq<Waiter>, ttl: int, now: int, gone: set<Id>)
    requires QueueHolds(order, seen, enqueued, q)
    requires forall id :: id in gone <==> id in seen && seen[id] < now - ttl
    ensures Ids(Survivors(q, ttl, now)) == Ids(q) - gone
  {
    hide Ids, IsQueued, Survivors;
    var s := Survivors(q, ttl, now);
    SurvivorsAre(q, ttl, now);
    forall w | w in q ensures w.id in gone <==> Ghost(w, ttl, now) {
      assert Stored(order, seen, enqueued, w);
    }
    forall id ensures id in Ids(s) <==> id in Ids(q) && id !in gone {
      IdsQueued(s, id);
      IdsQueued(q, id);
      if id in Ids(q) && id !in gone {
        var i :| 0 <= i < |q| && q[i].id == id;
        assert q[i] in s;
      }
      if id in Ids(s) {
        var i :| 0 <= i < |s| && s[i].id == id;
        assert s[i] in q;
      }
    }
  }

  lemma PopHolds(order: ZSet, seen: ZSet, enqueued: map<Id, int>, q: seq<Waiter>, id: Id)
    requires QueueHolds(order, seen, enqueued, q) && Ordered(q) && q != [] && id == q[0].id
    ensures QueueHolds(order - {id}, seen - {id}, enqueued - {id}, q[1..])
  {
    hide Ordered;
    IdsDrop(q, 0);
    assert q[..0] + q[0 + 1..] == q[1..];
    OthersDiffer(q, 0);
    forall i | 0 <= i < |q[1..]| ensures Stored(order - {id}, seen - {id}, enqueued - {id}, q[1..][i]) {
      assert Stored(order, seen, enqueued, q[i + 1]);
    }
  }

  lemma ExpireHolds(active: ZSet, admitted: map<Id, int>, sessions: map<Id, Session>, ttl: int, now: int, ids: seq<Id>)
    requires ActiveHolds(active, admitted, sessions)
    requires forall i, j :: 0 <= i < j < |ids| ==> ids[i] != ids[j]
    requires forall id :: id in ids <==> id in active && active[id] < now - ttl
    ensures IsScan(sessions, ttl, now, ids)
    ensures ActiveHolds(Without(active, ids), Without(admitted, ids), Kept(sessions, ttl, now))
  {
  }

  /** The keys determine the queue they hold. */
  lemma {:induction false} QueueDetermined(
      order: ZSet, seen: ZSet, enqueued: map<Id, int>, p: seq<Waiter>, q: seq<Waiter>)
    requires QueueHolds(order, seen, enqueued, p) && Ordered(p)
    requires QueueHolds(order, seen, enqueued, q) && Ordered(q)
    ensures p == q
    decreases |p|
  {
    IdsCount(p);
    IdsCount(q);
    if p != [] {
      IdAt(p, 0);
      forall x | x in order ensures order[p[0].id] <= order[x] {
        QueueFacts(order, seen, enqueued, p, x);
      }
      MinIsHead(order, seen, enqueued, q, p[0].id);
      assert Stored(order, seen, enqueued, p[0]) && Stored(order, seen, enqueued, q[0]);
      var id := p[0].id;
      PopHolds(order, seen, enqueued, p, id);
      PopHolds(order, seen, enqueued, q, id);
      QueueDetermined(order - {id}, seen - {id}, enqueued - {id}, p[1..], q[1..]);
      assert p == [p[0]] + p[1..] && q == [q[0]] + q[1..];
    }
  }

  /** All keys together hold the room. */
  ghost predicate Holds(
      order: ZSet, seen: ZSet, enqueued: map<Id, int>, active: ZSet, admitted: map<Id, int>,
      avg: Option<real>, seqNo: nat, capacityKey: Option<int>, r: Room)
  {
    && r.Valid()
    && QueueHolds(order, seen, enqueued, r.queue)
    && ActiveHolds(active, admitted, r.active)
    && r.avg == avg.GetOr(0.0) && r.nextSeq == seqNo && r.override == capacityKey
  }

  class Store {
    var order: ZSet              // queued ids by sequence number
    var seen: ZSet               // queued ids by lastSeen
    var active: ZSet             // active ids by lastSeen
    var admitted: map<Id, int>   // active ids to admittedAt
    var enqueued: map<Id, int>   // queued ids to enqueuedAt
    var avg: Option<real>        // absent until the first session ends
    var seqNo: nat
    var capacityKey: Option<int>
    ghost var room: Room

    ghost predicate Valid()
      reads this
    {
      Holds(order, seen, enqueued, active, admitted, avg, seqNo, capacityKey, room)
    }

    lemma Counts()
      requires Valid()
      ensures |order| == |room.queue| && |active| == |room.active|
    {
      QueueFacts(order, seen, enqueued, room.queue, "");
      ActiveFacts(active, admitted, room.active);
    }

    constructor ()
      ensures Valid() && room == EMPTY
    {
      order, seen, active, admitted, enqueued := map[], map[], map[], map[], map[];
      avg, seqNo, capacityKey := None, 0, None;
      room := EMPTY;
      IdsNone();
    }

    method TryAdmit(id: Id, cap: int, now: int) returns (ok: bool)
      requires Valid()
      modifies this
      ensures Valid()
      ensures ok == Admits(old(room), id, cap)
      ensures room == Tried(old(room), id, cap, now)
    {
      Counts();
      TriedHolds(order, seen, enqueued, active, admitted, avg, seqNo, capacityKey, room, id, cap, now);
      hide Holds;
      if id in active {
        active := active[id := now];
        room := Tried(room, id, cap, now);
        return true;
      }
      if |active| < cap && |order| == 0 {
        active := active[id := now];
        admitted := admitted[id := now];
        room := Tried(room, id, cap, now);
        return true;
      }
      return false;
    }

    /** Unlike the in-process store, an already active id is reported but not refreshed. */
    method Enqueue(id: Id, now: int) returns (snap: Snapshot)
      requires Valid()
      modifies this
      ensures Valid()
      ensures room == Enqueued(old(room), id, now, false)
      ensures snap == Snap(room, id)
    {
      hide QueueHolds, Ordered, ZRank, Find, Ids;
      EnqueuedValid(room, id, now, false);
      SeenValid(room, id, now);
      ActiveFacts(active, admitted, room.active);
      QueueFacts(order, seen, enqueued, room.queue, id);
      if id in active {
        return Snapshot(Active, 0, |order|, |active|);
      }
      if id !in order {
        PushHolds(order, seen, enqueued, room.queue, id, seqNo + 1, now);
        seqNo := seqNo + 1;
        order, enqueued := order[id := seqNo], enqueued[id := now];
      } else {
        SeenHolds(order, seen, enqueued, room.queue, id, now);
      }
      seen := seen[id := now];
      room := Enqueued(room, id, now, false);
      EnqueuedIsQueued(old(room), id, now);
      QueueFacts(order, seen, enqueued, room.queue, id);
      RankIsPlace(order, seen, enqueued, room.queue, id);
      snap := Snapshot(Queued, ZRank(order, id) + 1, |order|, |active|);
    }

    method Lookup(id: Id, now: int) returns (snap: Snapshot)
      requires Valid()
      modifies this
      ensures Valid()
      ensures room == Seen(old(room), id, now)
      ensures snap == Snap(old(room), id)
    {
      hide QueueHolds, Ordered, ZRank, Find, Ids;
      SeenValid(room, id, now);
      ActiveFacts(active, admitted, room.active);
      QueueFacts(order, seen, enqueued, room.queue, id);
      var qlen, act := |order|, |active|;
      if id in active {
        active := active[id := now];
        room := Seen(room, id, now);
        return Snapshot(Active, 0, qlen, act);
      }
      if id in order {
        RankIsPlace(order, seen, enqueued, room.queue, id);
        SeenHolds(order, seen, enqueued, room.queue, id, now);
        seen := seen[id := now];
        room := Seen(room, id, now);
        return Snapshot(Queued, ZRank(order, id) + 1, qlen, act);
      }
      return Snapshot(Unknown, 0, qlen, act);
    }

    method Touch(id: Id, now: int) returns (ok: bool)
      requires Valid()
      modifies this
      ensures Valid()
      ensures room == Touched(old(room), id, now)
      ensures ok <==> id in old(room).active
      ensures room == if ok then old(room).(active := old(room).active[id := old(room).active[id].(lastSeen := now)])
                      else old(room)
    {
      hide QueueHolds, Ordered, Find;
      SeenValid(room, id, now);
      if id in active {
        active := active[id := now];
        room := Touched(room, id, now);
        return true;
      }
      return false;
    }

    method Reconcile(cap: int, activeTTL: int, queueTTL: int, now: int)
      returns (res: ReconcileResult, ghost order': seq<Id>)
      requires Valid()
      modifies this
      ensures Valid()
      ensures IsScan(old(room).active, activeTTL, now, order')
      ensures room == Reconciled(old(room), cap, activeTTL, queueTTL, now, order')
      ensures res == Report(old(room), cap, activeTTL, queueTTL, now)
    {
      hide QueueHolds, ActiveHolds, Ordered, Kept, Survivors, Admitted, EmaAll, Durations, IsScan;
      var expired := ExpireIdle(activeTTL, now);
      order' := expired;
      ScanCount(old(room).active, activeTTL, now, order');
      var ghosts := EvictGhosts(queueTTL, now);
      var promoted, waited := PromoteHeads(cap, now);
      res := ReconcileResult(promoted, |expired|, |ghosts|, waited);
    }

    method GetStats() returns (s: Stats)
      requires Valid()
      ensures s == room.Summary()
    {
      QueueFacts(order, seen, enqueued, room.queue, "");
      ActiveFacts(active, admitted, room.active);
      s := Stats(|order|, |active|, avg.GetOr(0.0));
    }

    method SetCapacity(cap: int)
      requires Valid()
      modifies this`capacityKey, this`room
      ensures Valid()
      ensures room == old(room).(override := Some(cap))
    {
      hide QueueHolds, ActiveHolds, Ordered;
      capacityKey := Some(cap);
      room := room.(override := Some(cap));
    }

    method GetCapacity() returns (cap: int, isSet: bool)
      requires Valid()
      ensures isSet == room.override.Some?
      ensures isSet ==> cap == room.override.value
    {
      cap, isSet := capacityKey.GetOr(0), capacityKey.Some?;
    }

    method Flush() returns (n: nat)
      requires Valid()
      modifies this
      ensures Valid()
      ensures room == Flushed(old(room))
      ensures n == |old(room).queue|
    {
      QueueFacts(order, seen, enqueued, room.queue, "");
      IdsNone();
      n := |order|;
      order, seen, enqueued := map[], map[], map[];
      room := Flushed(room);
    }

    // ---------- the phases of the reconcile script ----------

    method ExpireIdle(ttl: int, now: int) returns (expired: seq<Id>)
      requires Valid()
      modifies this
      ensures Valid()
      ensures IsScan(old(room).active, ttl, now, expired)
      ensures room == Expired(old(room), ttl, now, expired)
    {
      hide QueueHolds, Ordered, Kept, EmaAll, Durations, Ema, Room.Valid, Without;
      expired := ZRangeBelow(active, now - ttl);
      ExpireHolds(active, admitted, room.active, ttl, now, expired);
      ghost var sessions := room.active;
      NoDurations(sessions, room.avg);
      WithoutNone(active, expired);
      WithoutNone(admitted, expired);
      for i := 0 to |expired|
        invariant Frame(old(order), old(seen), old(enqueued), old(seqNo), old(capacityKey), old(room))
        invariant active == Without(old(active), expired[..i])
        invariant admitted == Without(old(admitted), expired[..i])
        invariant avg.GetOr(0.0) == EmaAll(room.avg, Durations(sessions, expired[..i]))
      {
        var id := expired[i];
        NextDuration(sessions, expired, i, room.avg);
        WithoutNext(old(active), expired, i);
        WithoutNext(old(admitted), expired, i);
        var lastSeen := active[id];
        var admittedAt := if id in admitted then admitted[id] else lastSeen;
        var dur := Secs(lastSeen - admittedAt);
        if avg == None || avg.value == 0.0 {
          avg := Some(dur);
        } else {
          avg := Some(EMA_ALPHA * dur + 0.8 * avg.value);
        }
        EmaBranches(dur);
        active, admitted := active - {id}, admitted - {id};
      }
      ExpiredValid(room, ttl, now, expired);
      room := Expired(room, ttl, now, expired);
    }

    ghost predicate Frame(
        order: ZSet, seen: ZSet, enqueued: map<Id, int>, seqNo: nat, capacityKey: Option<int>, room: Room)
      reads this
    {
      && this.order == order && this.seen == seen && this.enqueued == enqueued
      && this.seqNo == seqNo && this.capacityKey == capacityKey && this.room == room
    }

    method EvictGhosts(ttl: int, now: int) returns (ghosts: seq<Id>)
      requires Valid()
      modifies this
      ensures Valid()
      ensures room == WaitingRoom.Evicted(old(room), ttl, now)
      ensures |ghosts| == |old(room).queue| - |room.queue|
    {
      hide QueueHolds, ActiveHolds, Ordered, Survivors, Without;
      ghosts := ZRangeBelow(seen, now - ttl);
      GhostsHold(order, seen, enqueued, room.queue, ttl, now, ghosts);
      WithoutNone(order, ghosts);
      WithoutNone(seen, ghosts);
      WithoutNone(enqueued, ghosts);
      for i := 0 to |ghosts|
        invariant room == old(room) && active == old(active) && admitted == old(admitted)
        invariant avg == old(avg) && seqNo == old(seqNo) && capacityKey == old(capacityKey)
        invariant order == Without(old(order), ghosts[..i])
        invariant seen == Without(old(seen), ghosts[..i])
        invariant enqueued == Without(old(enqueued), ghosts[..i])
      {
        WithoutNext(old(order), ghosts, i);
        WithoutNext(old(seen), ghosts, i);
        WithoutNext(old(enqueued), ghosts, i);
        order, seen, enqueued := order - {ghosts[i]}, seen - {ghosts[i]}, enqueued - {ghosts[i]};
      }
      EvictedValid(room, ttl, now);
      room := WaitingRoom.Evicted(room, ttl, now);
    }

    method PromoteHeads(cap: int, now: int) returns (promoted: nat, waited: seq<real>)
      requires Valid()
      modifies this
      ensures Valid()
      ensures room == WaitingRoom.Promoted(old(room), cap, now)
      ensures promoted == Free(old(room), cap)
      ensures waited == Waits(old(room).queue[..promoted], now)
    {
      hide QueueHolds, ActiveHolds, Ordered, Admitted, IsMin, Room.Valid;
      promoted, waited := 0, [];
      ghost var start := room;
      AdmitNone(start, now);
      Counts();
      while |active| < cap
        invariant Valid()
        invariant promoted <= |start.queue|
        invariant |active| == |start.active| + promoted && |order| == |room.queue|
        invariant |active| > cap ==> promoted == 0
        invariant waited == Waits(start.queue[..promoted], now)
        invariant room == AdmittedSoFar(start, promoted, now)
        decreases cap - |active|
      {
        if |order| == 0 {
          break;
        }
        AdmitNext(start, promoted, now);
        var head := ZMin(order);
        var enq := PromoteHead(head, now);
        promoted := promoted + 1;
        waited := waited + [Secs(now - enq)];
      }
    }

    /** Move the popped head `id` into the active set. */
    method PromoteHead(id: Id, now: int) returns (enq: int)
      requires Valid() && room.queue != [] && IsMin(order, id)
      modifies this
      ensures Valid() && |active| == |old(active)| + 1 && |order| == |room.queue|
      ensures room == PromoteOne(old(room), now)
      ensures enq == old(room).queue[0].enqueuedAt
    {
      hide Holds, IsMin, PromoteOne;
      PromoteHolds(order, seen, enqueued, active, admitted, avg, seqNo, capacityKey, room, id, now);
      order, seen := order - {id}, seen - {id};
      enq := if id in enqueued then enqueued[id] else now;
      enqueued := enqueued - {id};
      active, admitted := active[id := now], admitted[id := now];
      room := PromoteOne(room, now);
    }
  }

  /** `m` once the members `ids` have been removed. */
  ghost function Without(m: map<Id, int>, ids: seq<Id>): map<Id, int> {
    m - SetOf(ids)
  }

  lemma WithoutNone(m: map<Id, int>, ids: seq<Id>)
    ensures Without(m, ids[..0]) == m && ids[..|ids|] == ids
  {
  }

  lemma WithoutNext(m: map<Id, int>, ids: seq<Id>, i: nat)
    requires i < |ids| && forall j, k :: 0 <= j < k < |ids| ==> ids[j] != ids[k]
    ensures Without(m, ids[..i + 1]) == Without(m, ids[..i]) - {ids[i]}
    ensures ids[i] in m ==> ids[i] in Without(m, ids[..i]) && Without(m, ids[..i])[ids[i]] == m[ids[i]]
  {
  }

  lemma AdmitHolds(active: ZSet, admitted: map<Id, int>, sessions: map<Id, Session>, id: Id, now: int)
    requires ActiveHolds(active, admitted, sessions) && id !in sessions
    ensures ActiveHolds(active[id := now], admitted[id := now], sessions[id := Session(now, now)])
    ensures |active[id := now]| == |active| + 1
  {
  }

  /** ZPOPMIN takes the head of the line. */
  lemma PopMinHolds(order: ZSet, seen: ZSet, enqueued: map<Id, int>, q: seq<Waiter>, id: Id)
    requires QueueHolds(order, seen, enqueued, q) && Ordered(q)
    requires IsMin(order, id)
    ensures q != [] && id == q[0].id && id in enqueued && enqueued[id] == q[0].enqueuedAt
    ensures QueueHolds(order - {id}, seen - {id}, enqueued - {id}, q[1..])
    ensures |order - {id}| == |q[1..]|
  {
    QueueFacts(order, seen, enqueued, q, id);
    assert (order - {id}).Keys == order.Keys - {id};
    MinIsHead(order, seen, enqueued, q, id);
    PopHolds(order, seen, enqueued, q, id);
    assert Stored(order, seen, enqueued, q[0]);
  }

  /** Both ways in: a heartbeat of an active ticket, and an admission into a free slot. */
  lemma TriedHolds(
      order: ZSet, seen: ZSet, enqueued: map<Id, int>, active: ZSet, admitted: map<Id, int>,
      avg: Option<real>, seqNo: nat, capacityKey: Option<int>, r: Room, id: Id, cap: int, now: int)
    requires Holds(order, seen, enqueued, active, admitted, avg, seqNo, capacityKey, r)
    ensures id in active <==> id in r.active
    ensures id in active ==>
      Holds(order, seen, enqueued, active[id := now], admitted, avg, seqNo, capacityKey, Tried(r, id, cap, now))
    ensures id !in active && Admits(r, id, cap) ==>
      Holds(order, seen, enqueued, active[id := now], admitted[id := now], avg, seqNo, capacityKey,
            Tried(r, id, cap, now))
    ensures id !in active && !Admits(r, id, cap) ==> Tried(r, id, cap, now) == r
  {
    hide QueueHolds, Ordered, Find, Room.Valid;
    TriedValid(r, id, cap, now);
  }

  lemma PromoteHolds(
      order: ZSet, seen: ZSet, enqueued: map<Id, int>, active: ZSet, admitted: map<Id, int>,
      avg: Option<real>, seqNo: nat, capacityKey: Option<int>, r: Room, id: Id, now: int)
    requires Holds(order, seen, enqueued, active, admitted, avg, seqNo, capacityKey, r)
    requires r.queue != [] && IsMin(order, id)
    ensures Holds(order - {id}, seen - {id}, enqueued - {id}, active[id := now], admitted[id := now],
                  avg, seqNo, capacityKey, PromoteOne(r, now))
    ensures |order - {id}| == |PromoteOne(r, now).queue| && |active[id := now]| == |active| + 1
    ensures id in enqueued && enqueued[id] == r.queue[0].enqueuedAt
  {
    hide QueueHolds, ActiveHolds, Ordered, Ids;
    PromoteOneValid(r, now);
    AdmitHolds(active, admitted, r.active, r.queue[0].id, now);
    PopMinHolds(order, seen, enqueued, r.queue, id);
  }

  lemma EnqueuedIsQueued(r: Room, id: Id, now: int)
    requires id !in r.active
    ensures IsQueued(Enqueued(r, id, now, false).queue, id) && id !in Enqueued(r, id, now, false).active
  {
    var q := Enqueued(r, id, now, false).queue;
    assert q[Find(r.queue, id)].id == id;
  }

  lemma EmaBranches(dur: real)
    ensures Ema(0.0, dur) == dur
    ensures forall a :: a != 0.0 ==> Ema(a, dur) == EMA_ALPHA * dur + 0.8 * a
  {
  }
}
