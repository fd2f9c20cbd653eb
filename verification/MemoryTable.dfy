/**
 The memory store's contents as a value: what its entries say, ticket by ticket, and
 how that represents a room.  The lemmas follow each update of the store; the class
 in Memory.dfy only has to relate its objects to this table.
 */
module MemoryTable {
  import opened WaitingRoom
  import opened SeqIndex
  import opened ReconcileSteps

  /** The mutable fields of one entry. */
  datatype Row = Row(status: Status, enqueuedAt: int, admittedAt: int, lastSeen: int, seqNo: nat)

  type Table = map<Id, Row>

  ghost function Nums(q: seq<Waiter>): (nums: seq<nat>)
    ensures |nums| == |q|
  {
    seq(|q|, i requires 0 <= i < |q| => q[i].seqNo)
  }

  predicate IsWaiter(t: Table, w: Waiter) {
    w.id in t && t[w.id].status == Queued &&
    w == Waiter(w.id, t[w.id].seqNo, t[w.id].enqueuedAt, t[w.id].lastSeen)
  }

  ghost predicate AllWaiters(t: Table, q: seq<Waiter>) {
    forall i :: 0 <= i < |q| ==> IsWaiter(t, q[i])
  }

  predicate IsSession(t: Table, id: Id, s: Session) {
    id in t && t[id].status == Active && s == Session(t[id].admittedAt, t[id].lastSeen)
  }

  /** The table holds the room's waiters and sessions, and nothing else. */
  ghost predicate Represents(t: Table, r: Room) {
    && t.Keys == r.active.Keys + Ids(r.queue)
    && (forall id :: id in r.active ==> IsSession(t, id, r.active[id]))
    && AllWaiters(t, r.queue)
  }

  ghost predicate Mirrors(t: Table, r: Room, holes: seq<nat>) {
    r.Valid() && Represents(t, r) && Covers(Nums(r.queue), holes, r.nextSeq)
  }

  lemma BeatRepresents(t: Table, r: Room, id: Id, now: int)
    requires r.Valid() && Represents(t, r) && id in t
    ensures Represents(t[id := t[id].(lastSeen := now)], Seen(r, id, now))
    ensures forall i :: 0 <= i < |r.queue| ==> Seen(r, id, now).queue[i].id == r.queue[i].id
    ensures id in r.active <==> t[id].status == Active
    ensures id !in r.active <==> IsQueued(r.queue, id)
  {
    hide Ordered, Ids;
    SeenValid(r, id, now);
    IdsQueued(r.queue, id);
    IdsSame(r.queue, Seen(r, id, now).queue);
    var t' := t[id := t[id].(lastSeen := now)];
    assert t'.Keys == t.Keys;
    if id !in r.active {
      BeatQueued(t, r, Find(r.queue, id), now);
    }
  }

  lemma BeatQueued(t: Table, r: Room, k: nat, now: int)
    requires r.Valid() && Represents(t, r) && k < |r.queue|
    ensures var id, w := r.queue[k].id, r.queue[k].(lastSeen := now);
      AllWaiters(t[id := t[id].(lastSeen := now)], r.queue[k := w])
  {
    hide Ordered;
    OthersDiffer(r.queue, k);
  }

  lemma PushRepresents(t: Table, r: Room, id: Id, now: int)
    requires r.Valid() && Represents(t, r) && id !in t
    ensures id !in r.active && !IsQueued(r.queue, id)
    ensures Represents(t[id := Row(Queued, now, 0, now, r.nextSeq + 1)], Enqueued(r, id, now, true))
  {
    hide Ordered;
    IdsQueued(r.queue, id);
    var w := Waiter(id, r.nextSeq + 1, now, now);
    IdsConcat(r.queue, [w]);
    assert Ids([w]) == {id};
    PushWaiters(t, r.queue, w);
  }

  lemma PushWaiters(t: Table, q: seq<Waiter>, w: Waiter)
    requires AllWaiters(t, q) && w.id !in t
    ensures AllWaiters(t[w.id := Row(Queued, w.enqueuedAt, 0, w.lastSeen, w.seqNo)], q + [w])
  {
  }

  lemma AdmitRepresents(t: Table, r: Room, id: Id, now: int)
    requires r.Valid() && Represents(t, r) && id !in t
    ensures id !in r.active && !IsQueued(r.queue, id)
    ensures Represents(t[id := Row(Active, 0, now, now, 0)], r.(active := r.active[id := Session(now, now)]))
  {
    hide Ordered;
    IdsQueued(r.queue, id);
  }

  lemma ExpireRepresents(t: Table, r: Room, id: Id)
    requires r.Valid() && Represents(t, r) && id in t && t[id].status == Active
    ensures id in r.active && r.active[id] == Session(t[id].admittedAt, t[id].lastSeen)
    ensures Represents(t - {id}, r.(active := r.active - {id}))
    ensures |r.active - {id}| == |r.active| - 1
  {
    hide Ordered;
    IdsQueued(r.queue, id);
    assert (r.active - {id}).Keys == r.active.Keys - {id};
  }

  lemma EvictRepresents(t: Table, r: Room, i: nat)
    requires r.Valid() && Represents(t, r) && i < |r.queue|
    ensures Represents(t - {r.queue[i].id}, EvictOne(r, i))
  {
    hide Ordered;
    var id := r.queue[i].id;
    IdsDrop(r.queue, i);
    OthersDiffer(r.queue, i);
    var q' := r.queue[..i] + r.queue[i + 1..];
    forall j | 0 <= j < |q'| ensures q'[j] == r.queue[if j < i then j else j + 1] { }
  }

  lemma PromoteRepresents(t: Table, r: Room, now: int)
    requires r.Valid() && Represents(t, r) && r.queue != []
    ensures r.queue[0].id in t && r.queue[0].id !in r.active
    ensures Represents(Promote(t, r.queue[0].id, now), PromoteOne(r, now))
  {
    hide Find, Promote, Ordered, Ids, IsSession, AllWaiters;
    IdsDrop(r.queue, 0);
    assert r.queue[..0] + r.queue[0 + 1..] == r.queue[1..];
    IdAt(r.queue, 0);
    PromoteWaiters(t, r.queue, now);
    PromoteSessions(t, r.active, r.queue[0].id, now);
  }

  lemma PromoteWaiters(t: Table, q: seq<Waiter>, now: int)
    requires Ordered(q) && AllWaiters(t, q) && q != []
    ensures AllWaiters(Promote(t, q[0].id, now), q[1..])
  {
    hide Ordered;
    OthersDiffer(q, 0);
    forall i | 0 <= i < |q[1..]| ensures IsWaiter(Promote(t, q[0].id, now), q[1..][i]) {
      assert IsWaiter(t, q[i + 1]);
    }
  }

  lemma PromoteSessions(t: Table, active: map<Id, Session>, id: Id, now: int)
    requires id in t && forall x :: x in active ==> IsSession(t, x, active[x])
    ensures var t', a' := Promote(t, id, now), active[id := Session(now, now)];
      t'.Keys == t.Keys && a'.Keys == active.Keys + {id} && forall x :: x in a' ==> IsSession(t', x, a'[x])
  {
  }

  function Promote(t: Table, id: Id, now: int): Table
    requires id in t
  {
    t[id := t[id].(status := Active, admittedAt := now, lastSeen := now)]
  }

  lemma EvictOneValid(r: Room, i: nat)
    requires r.Valid() && i < |r.queue|
    ensures EvictOne(r, i).Valid()
    ensures Nums(EvictOne(r, i).queue) == Nums(r.queue)[..i] + Nums(r.queue)[i + 1..]
  {
    var q := EvictOne(r, i).queue;
    forall j | 0 <= j < |q| ensures q[j] == r.queue[if j < i then j else j + 1] { }
  }

  lemma FlushRepresents(t: Table, r: Room, t': Table)
    requires r.Valid() && Represents(t, r)
    requires forall id :: id in t' <==> id in t && id !in Ids(r.queue)
    requires forall id :: id in t' ==> t'[id] == t[id]
    ensures Represents(t', Flushed(r))
  {
    forall id | id in r.active ensures id !in Ids(r.queue) {
      IdsQueued(r.queue, id);
    }
  }

  // ---------- the same updates, with the index: all that the class relies on ----------

  lemma MirrorsFacts(t: Table, r: Room, holes: seq<nat>)
    requires Mirrors(t, r, holes)
    ensures Ascending(holes) && Covers(Nums(r.queue), holes, r.nextSeq)
    ensures forall id :: id in r.active ==> id in t
    ensures |Nums(r.queue)| == |r.queue|
    ensures forall i :: 0 <= i < |r.queue| ==> IsWaiter(t, r.queue[i]) && Nums(r.queue)[i] == r.queue[i].seqNo
  {
  }

  lemma RowFacts(t: Table, r: Room, holes: seq<nat>, id: Id)
    requires Mirrors(t, r, holes)
    ensures id in t <==> id in r.active || IsQueued(r.queue, id)
    ensures id in r.active ==> IsSession(t, id, r.active[id]) && !IsQueued(r.queue, id)
    ensures IsQueued(r.queue, id) ==>
      && id in t && t[id].status == Queued
      && r.queue[Find(r.queue, id)].id == id && r.queue[Find(r.queue, id)].seqNo == t[id].seqNo
  {
    IdsQueued(r.queue, id);
    if IsQueued(r.queue, id) {
      assert IsWaiter(t, r.queue[Find(r.queue, id)]);
    }
  }

  lemma RelabelMirrors(t: Table, r: Room, holes: seq<nat>, r': Room)
    requires Mirrors(t, r, holes)
    requires r'.queue == r.queue && r'.active == r.active && r'.nextSeq == r.nextSeq
    ensures Mirrors(t, r', holes)
  {
  }

  lemma BeatMirrors(t: Table, r: Room, holes: seq<nat>, id: Id, now: int)
    requires Mirrors(t, r, holes) && id in t
    ensures Mirrors(t[id := t[id].(lastSeen := now)], Seen(r, id, now), holes)
    ensures Nums(Seen(r, id, now).queue) == Nums(r.queue)
    ensures |Seen(r, id, now).queue| == |r.queue| && |Seen(r, id, now).active| == |r.active|
    ensures forall i :: 0 <= i < |r.queue| ==> Seen(r, id, now).queue[i].id == r.queue[i].id
    ensures Snap(Seen(r, id, now), id) == Snap(r, id)
    ensures Seen(r, id, now) == r.(queue := Seen(r, id, now).queue, active := Seen(r, id, now).active)
  {
    BeatRepresents(t, r, id, now);
    SeenValid(r, id, now);
    assert Nums(Seen(r, id, now).queue) == Nums(r.queue);
  }

  lemma PushMirrors(t: Table, r: Room, holes: seq<nat>, id: Id, now: int)
    requires Mirrors(t, r, holes) && Exact(Nums(r.queue), holes, r.nextSeq) && id !in t
    ensures var r' := Enqueued(r, id, now, true);
      && r' == r.(queue := r.queue + [Waiter(id, r.nextSeq + 1, now, now)], nextSeq := r.nextSeq + 1)
      && Mirrors(t[id := Row(Queued, now, 0, now, r.nextSeq + 1)], r', holes)
      && Exact(Nums(r'.queue), holes, r'.nextSeq)
  {
    hide Represents, Covers, Exact, Ordered, Find, IsQueued, Room.Valid;
    PushRepresents(t, r, id, now);
    EnqueuedValid(r, id, now, true);
    PushKeeps(Nums(r.queue), holes, r.nextSeq);
    ExactCovers(Nums(r.queue) + [r.nextSeq + 1], holes, r.nextSeq + 1);
    assert Nums(Enqueued(r, id, now, true).queue) == Nums(r.queue) + [r.nextSeq + 1];
  }

  lemma ExactCovers(nums: seq<nat>, holes: seq<nat>, nextSeq: nat)
    requires Exact(nums, holes, nextSeq)
    ensures Covers(nums, holes, nextSeq)
  {
  }

  lemma AdmitMirrors(t: Table, r: Room, holes: seq<nat>, id: Id, cap: int, now: int)
    requires Mirrors(t, r, holes) && |r.active| < cap && r.queue == []
    requires id in t ==> t[id].status != Active
    ensures id !in t && Admits(r, id, cap)
    ensures Tried(r, id, cap, now) == r.(active := r.active[id := Session(now, now)])
    ensures |Tried(r, id, cap, now).active| == |r.active| + 1
    ensures Mirrors(t[id := Row(Active, 0, now, now, 0)], Tried(r, id, cap, now), holes)
  {
    hide Represents, Covers, Ordered, Find, Room.Valid;
    RowFacts(t, r, holes, id);
    AdmitRepresents(t, r, id, now);
    TriedValid(r, id, cap, now);
    assert Tried(r, id, cap, now).active.Keys == r.active.Keys + {id};
  }

  lemma ExpireMirrors(t: Table, r: Room, holes: seq<nat>, id: Id)
    requires Mirrors(t, r, holes) && id in r.active
    ensures |ExpireOne(r, id).active| == |r.active| - 1
    ensures ExpireOne(r, id) == r.(active := ExpireOne(r, id).active,
                                   avg := Ema(r.avg, Secs(r.active[id].lastSeen - r.active[id].admittedAt)))
    ensures Mirrors(t - {id}, ExpireOne(r, id), holes)
    ensures forall i :: 0 <= i < |r.queue| ==> r.queue[i].id != id
  {
    assert forall i :: 0 <= i < |r.queue| ==> IsWaiter(t, r.queue[i]);
    assert IsSession(t, id, r.active[id]);
    ExpireRepresents(t, r, id);
  }

  lemma EvictMirrors(t: Table, r: Room, holes: seq<nat>, i: nat, holes': seq<nat>)
    requires Mirrors(t, r, holes) && i < |r.queue|
    requires Ascending(holes') && forall s :: s in holes' <==> s in holes || s == r.queue[i].seqNo
    ensures Mirrors(t - {r.queue[i].id}, EvictOne(r, i), holes')
  {
    EvictRepresents(t, r, i);
    EvictOneValid(r, i);
    EvictKeeps(Nums(r.queue), holes, r.nextSeq, i, holes');
  }

  lemma PromoteMirrors(t: Table, r: Room, holes: seq<nat>, now: int)
    requires Mirrors(t, r, holes) && r.queue != []
    ensures r.queue[0].id in t
    ensures |PromoteOne(r, now).active| == |r.active| + 1
    ensures Mirrors(Promote(t, r.queue[0].id, now), PromoteOne(r, now), holes)
  {
    hide Ordered, Find, Represents, Promote, PromoteOne;
    PromoteRepresents(t, r, now);
    PromoteOneValid(r, now);
    assert Nums(PromoteOne(r, now).queue) == Nums(r.queue)[1..];
    PopKeeps(Nums(r.queue), holes, r.nextSeq);
  }

  lemma FlushMirrors(t: Table, r: Room, holes: seq<nat>)
    requires Mirrors(t, r, holes)
    ensures Mirrors(t - Ids(r.queue), Flushed(r), [])
    ensures Exact(Nums(Flushed(r).queue), [], r.nextSeq)
  {
    FlushRepresents(t, r, t - Ids(r.queue));
  }

  lemma PruneMirrors(t: Table, r: Room, holes: seq<nat>, i: nat)
    requires Mirrors(t, r, holes)
    requires if r.queue == [] then i == |holes| else Cut(holes, r.queue[0].seqNo + 1, i)
    ensures Mirrors(t, r, holes[i..])
    ensures Exact(Nums(r.queue), holes[i..], r.nextSeq)
  {
    if r.queue != [] {
      PruneKeeps(Nums(r.queue), holes, r.nextSeq, i);
    }
  }

  lemma EvictFacts(t: Table, r: Room, holes: seq<nat>, i: nat)
    requires Mirrors(t, r, holes) && i < |r.queue|
    ensures IsWaiter(t, r.queue[i])
    ensures Ascending(holes) && r.queue[i].seqNo !in holes
    ensures forall j :: 0 <= j < |r.queue| && j != i ==> r.queue[j].id != r.queue[i].id
  {
    assert Nums(r.queue)[i] in Nums(r.queue);
    OthersDiffer(r.queue, i);
  }
}
