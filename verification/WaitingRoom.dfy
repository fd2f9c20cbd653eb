/**
 The waiting room as every store implements it: a FIFO queue of waiters, the
 set of active sessions, the session-duration average and the capacity
 override.  Each store operation is a function from room to room; the two store
 classes (Memory, Valkey) are proved against these functions, and the laws of
 the room (Reconcile, Runs, Replicas) are proved about them.

 Times and durations are integer milliseconds; averages are reals, in seconds.
 */
module WaitingRoom {

  type Id = string

  datatype Option<+T> = None | Some(value: T) {
    function GetOr(default: T): T {
      if Some? then value else default
    }
  }

  datatype Status = Unknown | Queued | Active

  datatype Snapshot = Snapshot(status: Status, position: int, queueLength: int, activeCount: int)

  datatype Stats = Stats(queueLength: int, activeCount: int, avgSessionSecs: real)

  datatype ReconcileResult = ReconcileResult(promoted: int, expired: int, evicted: int, waitedSecs: seq<real>)

  /** A queued ticket; `seqNo` is the monotonic number it got when it was enqueued. */
  datatype Waiter = Waiter(id: Id, seqNo: nat, enqueuedAt: int, lastSeen: int)

  /** An admitted ticket. */
  datatype Session = Session(admittedAt: int, lastSeen: int)

  datatype Room = Room(
    queue: seq<Waiter>,
    active: map<Id, Session>,
    avg: real,
    nextSeq: nat,
    override: Option<int>)
  {
    /** FIFO numbering, one place per ticket, and never both queued and active. */
    ghost predicate Valid() {
      && Ordered(queue)
      && (forall i :: 0 <= i < |queue| ==> 1 <= queue[i].seqNo <= nextSeq)
      && (forall i :: 0 <= i < |queue| ==> queue[i].id !in active)
    }

    function Summary(): Stats {
      Stats(|queue|, |active|, avg)
    }
  }

  const EMPTY := Room([], map[], 0.0, 0, None)

  ghost predicate Ordered(q: seq<Waiter>) {
    forall i, j :: 0 <= i < j < |q| ==> q[i].seqNo < q[j].seqNo && q[i].id != q[j].id
  }

  function Secs(ms: int): real {
    ms as real / 1000.0
  }

  function Max(a: int, b: int): int {
    if a < b then b else a
  }

  function Min(a: int, b: int): int {
    if a < b then a else b
  }

  // ---------- places in the queue ----------

  /** Index of the first waiter with this id, or |q| when there is none. */
  function Find(q: seq<Waiter>, id: Id): (i: nat)
    ensures i <= |q|
    ensures i < |q| ==> q[i].id == id
    ensures forall j :: 0 <= j < i ==> q[j].id != id
  {
    if q == [] then 0
    else if q[0].id == id then 0
    else 1 + Find(q[1..], id)
  }

  predicate IsQueued(q: seq<Waiter>, id: Id) {
    Find(q, id) < |q|
  }

  lemma FindAt(q: seq<Waiter>, i: nat)
    requires Ordered(q) && i < |q|
    ensures Find(q, q[i].id) == i
  {
  }

  ghost function Ids(q: seq<Waiter>): set<Id> {
    if q == [] then {} else Ids(q[..|q| - 1]) + {q[|q| - 1].id}
  }

  lemma IdsNone()
    ensures Ids([]) == {}
  {
  }

  lemma IdsNext(q: seq<Waiter>, i: nat)
    requires i < |q|
    ensures Ids(q[..i + 1]) == Ids(q[..i]) + {q[i].id}
  {
    assert q[..i + 1][..i] == q[..i];
  }

  lemma {:induction false} IdAt(q: seq<Waiter>, i: nat)
    requires i < |q|
    ensures q[i].id in Ids(q)
  {
    if i < |q| - 1 {
      IdAt(q[..|q| - 1], i);
    }
  }

  lemma {:induction false} IdsQueued(q: seq<Waiter>, id: Id)
    ensures id in Ids(q) <==> IsQueued(q, id)
    ensures id in Ids(q) <==> exists i :: 0 <= i < |q| && q[i].id == id
  {
    if IsQueued(q, id) {
      IdAt(q, Find(q, id));
    }
    if q != [] && id in Ids(q) && id != q[|q| - 1].id {
      IdsQueued(q[..|q| - 1], id);
    }
  }

  lemma {:induction false} IdsCount(q: seq<Waiter>)
    requires Ordered(q)
    ensures |Ids(q)| == |q|
  {
    if q != [] {
      var p := q[..|q| - 1];
      IdsCount(p);
      IdsQueued(p, q[|q| - 1].id);
    }
  }

  lemma {:induction false} IdsConcat(p: seq<Waiter>, q: seq<Waiter>)
    ensures Ids(p + q) == Ids(p) + Ids(q)
  {
    if q == [] {
      assert p + q == p;
    } else {
      assert (p + q)[..|p + q| - 1] == p + q[..|q| - 1];
      IdsConcat(p, q[..|q| - 1]);
    }
  }

  /** Dropping one place drops exactly its id. */
  lemma IdsDrop(q: seq<Waiter>, i: nat)
    requires Ordered(q) && i < |q|
    ensures Ids(q[..i] + q[i + 1..]) == Ids(q) - {q[i].id}
  {
    hide Ordered, IsQueued;
    var p, s := q[..i], q[i + 1..];
    assert q == p + ([q[i]] + s);
    IdsConcat(p, [q[i]] + s);
    IdsConcat([q[i]], s);
    IdsConcat(p, s);
    IdsNext([q[i]], 0);
    OthersDiffer(q, i);
    IdsQueued(p, q[i].id);
    IdsQueued(s, q[i].id);
  }

  lemma OthersDiffer(q: seq<Waiter>, k: nat)
    requires Ordered(q) && k < |q|
    ensures forall w :: w in q[..k] ==> w.id != q[k].id
    ensures forall w :: w in q[k + 1..] ==> w.id != q[k].id
    ensures forall i :: 0 <= i < |q| && i != k ==> q[i].id != q[k].id
  {
  }

  /** Rewriting a place without renaming it leaves the ids alone. */
  lemma {:induction false} IdsSame(q: seq<Waiter>, p: seq<Waiter>)
    requires |q| == |p| && forall i :: 0 <= i < |q| ==> q[i].id == p[i].id
    ensures Ids(q) == Ids(p)
  {
    if q != [] {
      IdsSame(q[..|q| - 1], p[..|p| - 1]);
    }
  }

  /** Looking a ticket up in the first `n` places, and in the others. */
  lemma TakeDrop(q: seq<Waiter>, n: nat, id: Id)
    requires Ordered(q) && n <= |q|
    ensures id in Ids(q[..n]) <==> Find(q, id) < n
    ensures Find(q[n..], id) == if Find(q, id) < n then |q| - n else Find(q, id) - n
    ensures IsQueued(q, id) ==> q[Find(q, id)].id == id
  {
    IdsQueued(q[..n], id);
    FindDrop(q, n, id);
    if Find(q, id) < n {
      assert q[..n][Find(q, id)].id == id;
    }
  }

  lemma {:induction false} FindDrop(q: seq<Waiter>, n: nat, id: Id)
    requires Ordered(q) && n <= |q|
    ensures Find(q[n..], id) == if Find(q, id) < n then |q| - n else Find(q, id) - n
  {
    if n == 0 {
      assert q[0..] == q;
    } else {
      FindDrop(q[1..], n - 1, id);
      assert q[1..][n - 1..] == q[n..];
    }
  }

  // ---------- single-ticket operations ----------

  function Snap(r: Room, id: Id): Snapshot {
    if id in r.active then Snapshot(Active, 0, |r.queue|, |r.active|)
    else if IsQueued(r.queue, id) then Snapshot(Queued, Find(r.queue, id) + 1, |r.queue|, |r.active|)
    else Snapshot(Unknown, 0, |r.queue|, |r.active|)
  }

  /** A heartbeat: the ticket, queued or active, was seen at `now`. */
  function Seen(r: Room, id: Id, now: int): Room {
    if id in r.active then
      r.(active := r.active[id := r.active[id].(lastSeen := now)])
    else if IsQueued(r.queue, id) then
      var i := Find(r.queue, id);
      r.(queue := r.queue[i := r.queue[i].(lastSeen := now)])
    else r
  }

  function Touched(r: Room, id: Id, now: int): Room {
    if id in r.active then Seen(r, id, now) else r
  }

  /** Whether TryAdmit lets `id` in: it already is, or a slot is free and nobody waits. */
  predicate Admits(r: Room, id: Id, cap: int) {
    id in r.active || (|r.active| < cap && r.queue == [])
  }

  function Tried(r: Room, id: Id, cap: int, now: int): Room {
    if id in r.active then Seen(r, id, now)
    else if Admits(r, id, cap) then r.(active := r.active[id := Session(now, now)])
    else r
  }

  /**
   Enqueue.  `slides` says whether enqueueing an already active ticket refreshes its
   session: the memory store does (true), the Valkey store does not (false).
   */
  function Enqueued(r: Room, id: Id, now: int, slides: bool): Room {
    if id in r.active then
      if slides then Seen(r, id, now) else r
    else if IsQueued(r.queue, id) then Seen(r, id, now)
    else r.(queue := r.queue + [Waiter(id, r.nextSeq + 1, now, now)], nextSeq := r.nextSeq + 1)
  }

  function Flushed(r: Room): Room {
    r.(queue := [])
  }

  // ---------- Reconcile, phase by phase ----------

  const EMA_ALPHA: real := 0.2

  /** One step of the session-duration average, 0 meaning "no data yet". */
  function Ema(avg: real, duration: real): real {
    if avg == 0.0 then duration else EMA_ALPHA * duration + (1.0 - EMA_ALPHA) * avg
  }

  function EmaAll(avg: real, durations: seq<real>): real {
    if durations == [] then avg
    else Ema(EmaAll(avg, durations[..|durations| - 1]), durations[|durations| - 1])
  }

  predicate Idle(s: Session, ttl: int, now: int) {
    now - s.lastSeen > ttl
  }

  /** `order` lists every idle session once: the order in which a pass visits them. */
  ghost predicate IsScan(active: map<Id, Session>, ttl: int, now: int, order: seq<Id>) {
    && (forall i, j :: 0 <= i < j < |order| ==> order[i] != order[j])
    && (forall id :: id in order <==> id in active && Idle(active[id], ttl, now))
  }

  function Durations(active: map<Id, Session>, order: seq<Id>): seq<real>
    requires forall id :: id in order ==> id in active
  {
    seq(|order|, i requires 0 <= i < |order| =>
      assert order[i] in order; Secs(active[order[i]].lastSeen - active[order[i]].admittedAt))
  }

  function Kept(active: map<Id, Session>, ttl: int, now: int): map<Id, Session> {
    map id | id in active && !Idle(active[id], ttl, now) :: active[id]
  }

  ghost function Expired(r: Room, ttl: int, now: int, order: seq<Id>): Room
    requires IsScan(r.active, ttl, now, order)
  {
    r.(active := Kept(r.active, ttl, now), avg := EmaAll(r.avg, Durations(r.active, order)))
  }

  predicate Ghost(w: Waiter, ttl: int, now: int) {
    now - w.lastSeen > ttl
  }

  function Survivors(q: seq<Waiter>, ttl: int, now: int): (s: seq<Waiter>)
    ensures |s| <= |q|
  {
    if q == [] then []
    else
      var w := q[|q| - 1];
      Survivors(q[..|q| - 1], ttl, now) + if Ghost(w, ttl, now) then [] else [w]
  }

  function Evicted(r: Room, ttl: int, now: int): Room {
    r.(queue := Survivors(r.queue, ttl, now))
  }

  /** How many heads fit into the free slots. */
  function Free(r: Room, cap: int): (n: nat)
    ensures n <= |r.queue|
  {
    Min(Max(0, cap - |r.active|), |r.queue|)
  }

  function Admitted(active: map<Id, Session>, heads: seq<Waiter>, now: int): map<Id, Session> {
    if heads == [] then active
    else Admitted(active, heads[..|heads| - 1], now)[heads[|heads| - 1].id := Session(now, now)]
  }

  function Promoted(r: Room, cap: int, now: int): Room {
    var n := Free(r, cap);
    r.(queue := r.queue[n..], active := Admitted(r.active, r.queue[..n], now))
  }

  function Waits(heads: seq<Waiter>, now: int): seq<real> {
    seq(|heads|, i requires 0 <= i < |heads| => Secs(now - heads[i].enqueuedAt))
  }

  ghost function Reconciled(r: Room, cap: int, activeTTL: int, queueTTL: int, now: int, order: seq<Id>): Room
    requires IsScan(r.active, activeTTL, now, order)
  {
    Promoted(Evicted(Expired(r, activeTTL, now, order), queueTTL, now), cap, now)
  }

  /** What a Reconcile pass reports; the scan order plays no part in it. */
  function Report(r: Room, cap: int, activeTTL: int, queueTTL: int, now: int): ReconcileResult {
    var kept := Kept(r.active, activeTTL, now);
    var rest := Survivors(r.queue, queueTTL, now);
    var n := Free(r.(active := kept, queue := rest), cap);
    ReconcileResult(n, |r.active| - |kept|, |r.queue| - |rest|, Waits(rest[..n], now))
  }

  // ---------- facts used by every implementation ----------

  lemma SnocSurvivors(q: seq<Waiter>, k: nat, ttl: int, now: int)
    requires k < |q|
    ensures Survivors(q[..k + 1], ttl, now)
         == Survivors(q[..k], ttl, now) + if Ghost(q[k], ttl, now) then [] else [q[k]]
  {
    assert q[..k + 1][..k] == q[..k];
  }

  /** Survivors are exactly the waiters that are no ghosts, in their old order. */
  lemma {:induction false} SurvivorsAre(q: seq<Waiter>, ttl: int, now: int)
    ensures forall w :: w in Survivors(q, ttl, now) <==> w in q && !Ghost(w, ttl, now)
    ensures Ordered(q) ==> Ordered(Survivors(q, ttl, now))
  {
    if q != [] {
      var p := q[..|q| - 1];
      SurvivorsAre(p, ttl, now);
      assert q == p + [q[|q| - 1]];
      if Ordered(q) {
        assert Ordered(p);
        forall w | w in Survivors(p, ttl, now)
          ensures w.seqNo < q[|q| - 1].seqNo && w.id != q[|q| - 1].id
        {
          assert w in p;
        }
      }
    }
  }

  lemma {:induction false} AdmittedAre(active: map<Id, Session>, heads: seq<Waiter>, now: int)
    ensures Admitted(active, heads, now).Keys == active.Keys + Ids(heads)
    ensures forall id :: id in Ids(heads) ==> Admitted(active, heads, now)[id] == Session(now, now)
    ensures forall id :: id in active && id !in Ids(heads) ==> Admitted(active, heads, now)[id] == active[id]
  {
    if heads != [] {
      var p := heads[..|heads| - 1];
      AdmittedAre(active, p, now);
    }
  }

  lemma {:induction false} AdmittedCount(active: map<Id, Session>, heads: seq<Waiter>, now: int)
    requires Ordered(heads) && forall i :: 0 <= i < |heads| ==> heads[i].id !in active
    ensures |Admitted(active, heads, now)| == |active| + |heads|
  {
    AdmittedAre(active, heads, now);
    IdsCount(heads);
    forall id | id in Ids(heads) ensures id !in active {
      IdsQueued(heads, id);
    }
    assert |Admitted(active, heads, now).Keys| == |active.Keys| + |Ids(heads)|;
  }

  /** An idle session leaves exactly once per scan entry, so the scan length is the number expired. */
  lemma {:induction false} ScanCount(active: map<Id, Session>, ttl: int, now: int, order: seq<Id>)
    requires IsScan(active, ttl, now, order)
    ensures |order| == |active| - |Kept(active, ttl, now)|
  {
    DistinctCount(order);
    var stale := set id | id in order;
    assert active.Keys == Kept(active, ttl, now).Keys + stale;
    assert |active.Keys| == |Kept(active, ttl, now).Keys| + |stale|;
  }

  lemma {:induction false} DistinctCount(order: seq<Id>)
    requires forall i, j :: 0 <= i < j < |order| ==> order[i] != order[j]
    ensures |set id | id in order| == |order|
  {
    if order != [] {
      var p, last := order[..|order| - 1], order[|order| - 1];
      DistinctCount(p);
      assert order == p + [last];
      assert (set id | id in order) == (set id | id in p) + {last};
      assert last !in p;
    }
  }

  // ---------- every operation keeps the room valid ----------

  lemma SeenValid(r: Room, id: Id, now: int)
    requires r.Valid()
    ensures Seen(r, id, now).Valid()
    ensures |Seen(r, id, now).queue| == |r.queue| && Seen(r, id, now).active.Keys == r.active.Keys
    ensures forall x :: Find(Seen(r, id, now).queue, x) == Find(r.queue, x)
  {
    hide Ordered;
    var q := Seen(r, id, now).queue;
    OrderedSame(r.queue, q);
    forall x ensures Find(q, x) == Find(r.queue, x) {
      SameIds(r.queue, q, x);
    }
  }

  /** Rewriting places without renaming or renumbering them keeps the order. */
  lemma OrderedSame(q: seq<Waiter>, p: seq<Waiter>)
    requires |q| == |p| && forall i :: 0 <= i < |q| ==> q[i].id == p[i].id && q[i].seqNo == p[i].seqNo
    ensures Ordered(q) ==> Ordered(p)
  {
  }

  lemma OrderedParts(q: seq<Waiter>, n: nat)
    requires Ordered(q) && n <= |q|
    ensures Ordered(q[..n]) && Ordered(q[n..])
  {
  }

  /** A touch moves lastSeen of an active ticket, and nothing else. */
  lemma TouchedIs(r: Room, id: Id, now: int)
    ensures Touched(r, id, now)
         == if id in r.active then r.(active := r.active[id := r.active[id].(lastSeen := now)]) else r
  {
  }

  lemma SizeOfSeen(r: Room, id: Id, now: int)
    ensures |Seen(r, id, now).active| == |r.active| && |Seen(r, id, now).queue| == |r.queue|
    ensures Seen(r, id, now).nextSeq == r.nextSeq
  {
    assert Seen(r, id, now).active.Keys == r.active.Keys;
    assert |Seen(r, id, now).active.Keys| == |r.active|;
  }

  lemma SameIds(q: seq<Waiter>, p: seq<Waiter>, id: Id)
    requires |q| == |p| && forall i :: 0 <= i < |q| ==> q[i].id == p[i].id
    ensures Find(q, id) == Find(p, id)
  {
    if q != [] {
      SameIds(q[1..], p[1..], id);
    }
  }

  lemma EnqueuedValid(r: Room, id: Id, now: int, slides: bool)
    requires r.Valid()
    ensures Enqueued(r, id, now, slides).Valid()
  {
    SeenValid(r, id, now);
  }

  lemma TriedValid(r: Room, id: Id, cap: int, now: int)
    requires r.Valid()
    ensures Tried(r, id, cap, now).Valid()
  {
    SeenValid(r, id, now);
  }

  lemma ExpiredValid(r: Room, ttl: int, now: int, order: seq<Id>)
    requires r.Valid() && IsScan(r.active, ttl, now, order)
    ensures Expired(r, ttl, now, order).Valid()
  {
  }

  lemma EvictedValid(r: Room, ttl: int, now: int)
    requires r.Valid()
    ensures Evicted(r, ttl, now).Valid()
  {
    SurvivorsAre(r.queue, ttl, now);
    var s := Survivors(r.queue, ttl, now);
    forall i | 0 <= i < |s| ensures 1 <= s[i].seqNo <= r.nextSeq && s[i].id !in r.active {
      assert s[i] in r.queue;
    }
  }

  lemma PromotedValid(r: Room, cap: int, now: int)
    requires r.Valid()
    ensures Promoted(r, cap, now).Valid()
    ensures |Promoted(r, cap, now).active| == |r.active| + Free(r, cap)
  {
    hide Ordered, Ids, Admitted;
    var n := Free(r, cap);
    var heads, rest := r.queue[..n], r.queue[n..];
    OrderedParts(r.queue, n);
    AdmittedAre(r.active, heads, now);
    AdmittedCount(r.active, heads, now);
    forall i | 0 <= i < |rest| ensures rest[i].id !in Admitted(r.active, heads, now) {
      TakeDrop(r.queue, n, rest[i].id);
      FindAt(r.queue, n + i);
    }
  }

  lemma ReconciledValid(r: Room, cap: int, activeTTL: int, queueTTL: int, now: int, order: seq<Id>)
    requires r.Valid() && IsScan(r.active, activeTTL, now, order)
    ensures Reconciled(r, cap, activeTTL, queueTTL, now, order).Valid()
  {
    ExpiredValid(r, activeTTL, now, order);
    EvictedValid(Expired(r, activeTTL, now, order), queueTTL, now);
    PromotedValid(Evicted(Expired(r, activeTTL, now, order), queueTTL, now), cap, now);
  }
}
