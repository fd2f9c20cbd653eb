/**
 The in-process store: a map of entries, a FIFO list of the queued ones and the
 position index.  Entries are shared between the map and the list and updated in
 place.  Every operation is one critical section, and is proved against the
 function on rooms that says what it does.
 */
module Memory {
  import opened WaitingRoom
  import opened SeqIndex
  import opened MemoryTable
  import opened ReconcileSteps

  class Entry {
    const id: Id
    var status: Status
    var enqueuedAt: int
    var admittedAt: int
    var lastSeen: int
    var seqNo: nat

    function Fields(): Row
      reads this
    {
      Row(status, enqueuedAt, admittedAt, lastSeen, seqNo)
    }

    constructor (id: Id)
      ensures this.id == id && Fields() == Row(Unknown, 0, 0, 0, 0)
    {
      this.id := id;
      status, enqueuedAt, admittedAt, lastSeen, seqNo := Unknown, 0, 0, 0, 0;
    }

    constructor Waiting(id: Id, now: int, seqNo: nat)
      ensures this.id == id && Fields() == Row(Queued, now, 0, now, seqNo)
    {
      this.id := id;
      this.status, this.enqueuedAt, this.admittedAt, this.lastSeen, this.seqNo := Queued, now, 0, now, seqNo;
    }
  }

  /** Map and list share their entries, and the table mirrors what these say. */
  ghost predicate Linked(entries: map<Id, Entry>, list: seq<Entry>, t: Table, q: seq<Waiter>, repr: set<Entry>)
    reads repr
  {
    && entries.Keys == t.Keys
    && (forall id :: id in entries ==>
          entries[id] in repr && entries[id].id == id && entries[id].Fields() == t[id])
    && (forall i :: 0 <= i < |list| == |q| ==> q[i].id in entries && list[i] == entries[q[i].id])
  }

  /** A fresh entry joins the map, and the tail of the list if it waits. */
  lemma LinkNew(entries: map<Id, Entry>, list: seq<Entry>, t: Table, q: seq<Waiter>, repr: set<Entry>, e: Entry)
    requires Linked(entries, list, t, q, repr) && e.id !in entries && |list| == |q|
    ensures Linked(entries[e.id := e], list, t[e.id := e.Fields()], q, repr + {e})
    ensures forall w: Waiter :: w.id == e.id ==>
      Linked(entries[e.id := e], list + [e], t[e.id := e.Fields()], q + [w], repr + {e})
  {
  }

  /** Everything that waits leaves. */
  lemma LinkFlush(entries: map<Id, Entry>, list: seq<Entry>, t: Table, q: seq<Waiter>, repr: set<Entry>)
    requires Linked(entries, list, t, q, repr)
    ensures Linked(entries - Ids(q), [], t - Ids(q), [], repr)
  {
  }

  /** An entry leaves the map, and its place in the list if it has one. */
  lemma LinkDrop(entries: map<Id, Entry>, list: seq<Entry>, t: Table, q: seq<Waiter>, repr: set<Entry>, id: Id)
    requires Linked(entries, list, t, q, repr) && |list| == |q|
    ensures (forall j :: 0 <= j < |q| ==> q[j].id != id) ==>
      Linked(entries - {id}, list, t - {id}, q, repr)
    ensures forall i :: 0 <= i < |q| && (forall j :: 0 <= j < |q| && j != i ==> q[j].id != id) ==>
      Linked(entries - {id}, list[..i] + list[i + 1..], t - {id}, q[..i] + q[i + 1..], repr)
  {
  }

  class Store {
    var entries: map<Id, Entry>
    var queue: seq<Entry>
    var active: int
    var avgSession: real
    var capacity: int
    var capacitySet: bool
    var nextSeq: nat
    var holes: seq<nat>
    ghost var Repr: set<Entry>
    ghost var table: Table  // what the entries say
    ghost var room: Room    // what the store as a whole represents

    /** What holds between any two phases of Reconcile. */
    ghost predicate Consistent()
      reads this, Repr
    {
      && Linked(entries, queue, table, room.queue, Repr)
      && |queue| == |room.queue|
      && Mirrors(table, room, holes)
      && active == |room.active|
      && avgSession == room.avg && nextSeq == room.nextSeq
      && room.override == (if capacitySet then Some(capacity) else None)
    }

    /** What holds between any two operations. */
    ghost predicate Valid()
      reads this, Repr
    {
      Consistent() && Exact(Nums(room.queue), holes, nextSeq)
    }

    /** Reading through a place of the list. */
    lemma WaiterAt(i: nat)
      requires Consistent() && i < |queue|
      ensures room.queue[i].id in entries && entries[room.queue[i].id] == queue[i]
      ensures room.queue[i] == Waiter(queue[i].id, queue[i].seqNo, queue[i].enqueuedAt, queue[i].lastSeen)
      ensures queue[i].status == Queued
    {
      hide Exact, Covers;
      MirrorsFacts(table, room, holes);
    }

    lemma QueueIds()
      requires Consistent()
      ensures forall i :: 0 <= i < |queue| ==> queue[i].id == room.queue[i].id
    {
      hide Mirrors;
    }

    /** Reading through the map. */
    lemma EntryOf(id: Id)
      requires Consistent()
      ensures id in entries <==> id in room.active || IsQueued(room.queue, id)
      ensures id in entries <==> id in table
      ensures id in entries ==> entries[id].id == id && entries[id] in Repr && table[id] == entries[id].Fields()
      ensures id in room.active ==> room.active[id] == Session(entries[id].admittedAt, entries[id].lastSeen)
      ensures id in entries ==> (id in room.active <==> entries[id].status == Active)
      ensures id in entries ==> (IsQueued(room.queue, id) <==> entries[id].status == Queued)
      ensures IsQueued(room.queue, id) ==> room.queue[Find(room.queue, id)].seqNo == entries[id].seqNo
    {
      hide Mirrors, Exact, Covers, Find, IsQueued;
      RowFacts(table, room, holes, id);
    }

    constructor ()
      ensures Valid() && room == EMPTY && Repr == {}
    {
      entries, queue, holes := map[], [], [];
      active, avgSession, nextSeq := 0, 0.0, 0;
      capacity, capacitySet := 0, false;
      table, room, Repr := map[], EMPTY, {};
    }

    method TryAdmit(id: Id, cap: int, now: int) returns (ok: bool)
      requires Valid()
      modifies this, Repr
      ensures Valid() && fresh(Repr - old(Repr))
      ensures ok == Admits(old(room), id, cap)
      ensures room == Tried(old(room), id, cap, now)
    {
      hide Mirrors, Exact, Linked, Find, Seen;
      EntryOf(id);
      if id in entries && entries[id].status == Active {
        Beat(entries[id], now);
        return true;
      }
      if active >= cap || |queue| > 0 {
        return false;
      }
      // the queue is empty, so an entry that is not active does not exist
      AdmitNew(id, cap, now);
      return true;
    }

    method AdmitNew(id: Id, ghost cap: int, now: int)
      requires Valid() && id !in entries && active < cap && queue == []
      modifies this
      ensures Valid() && fresh(Repr - old(Repr))
      ensures room == Tried(old(room), id, cap, now)
    {
      hide Mirrors, Exact, Covers, Linked, Entry.Fields, Tried;
      EntryOf(id);
      AdmitMirrors(table, room, holes, id, cap, now);
      var e := new Entry(id);
      entries, Repr := entries[id := e], Repr + {e};
      AdmitLocked(e, now);
      LinkNew(old(entries), queue, table, room.queue, old(Repr), e);
      table := table[id := e.Fields()];
      room := Tried(room, id, cap, now);
    }

    method Enqueue(id: Id, now: int) returns (snap: Snapshot)
      requires Valid()
      modifies this, Repr
      ensures Valid() && fresh(Repr - old(Repr))
      ensures room == Enqueued(old(room), id, now, true)
      ensures snap == Snap(room, id)
    {
      hide Mirrors, Exact, Linked, Find, Seen, Snap;
      EntryOf(id);
      if id in entries {
        Beat(entries[id], now);
      } else {
        Push(id, now);
      }
      snap := SnapshotLocked(entries[id]);
    }

    /** A new ticket goes to the tail of the list. */
    method Push(id: Id, now: int)
      requires Valid() && id !in entries
      modifies this
      ensures Valid() && id in entries && entries[id].id == id && fresh(Repr - old(Repr))
      ensures room == Enqueued(old(room), id, now, true)
    {
      hide Mirrors, Exact, Covers, Linked, Enqueued, Entry.Fields;
      EntryOf(id);
      PushMirrors(table, room, holes, id, now);
      nextSeq := nextSeq + 1;
      var e := new Entry.Waiting(id, now, nextSeq);
      LinkNew(entries, queue, table, room.queue, Repr, e);
      entries, Repr := entries[id := e], Repr + {e};
      queue := queue + [e];
      table := table[id := e.Fields()];
      room := Enqueued(room, id, now, true);
    }

    method Lookup(id: Id, now: int) returns (snap: Snapshot)
      requires Valid()
      modifies this`room, this`table, Repr
      ensures Valid()
      ensures room == Seen(old(room), id, now)
      ensures snap == Snap(old(room), id)
    {
      hide Mirrors, Exact, Linked, Find;
      EntryOf(id);
      if id !in entries {
        return Snapshot(Unknown, 0, |queue|, active);
      }
      Beat(entries[id], now);
      snap := SnapshotLocked(entries[id]);
    }

    method Touch(id: Id, now: int) returns (ok: bool)
      requires Valid()
      modifies this`room, this`table, Repr
      ensures Valid()
      ensures room == Touched(old(room), id, now)
      ensures ok <==> id in old(room).active
      ensures room == if ok then old(room).(active := old(room).active[id := old(room).active[id].(lastSeen := now)])
                      else old(room)
    {
      hide Mirrors, Exact, Linked, Find, Seen;
      TouchedIs(room, id, now);
      EntryOf(id);
      if id !in entries || entries[id].status != Active {
        return false;
      }
      Beat(entries[id], now);
      return true;
    }

    method Reconcile(cap: int, activeTTL: int, queueTTL: int, now: int)
      returns (res: ReconcileResult, ghost order: seq<Id>)
      requires Valid()
      modifies this, Repr
      ensures Valid() && Repr == old(Repr)
      ensures IsScan(old(room).active, activeTTL, now, order)
      ensures room == Reconciled(old(room), cap, activeTTL, queueTTL, now, order)
      ensures res == Report(old(room), cap, activeTTL, queueTTL, now)
      ensures room == old(room) ==> holes == old(holes)
    {
      hide Mirrors, Exact, Linked, Kept, Survivors, Admitted, EmaAll, Durations;
      var expired, evicted, promoted, waited;
      expired, order := ExpireIdle(activeTTL, now);
      ScanCount(old(room).active, activeTTL, now, order);
      evicted := EvictGhosts(queueTTL, now);
      promoted, waited := PromoteHeads(cap, now);
      PruneHolesLocked();
      res := ReconcileResult(promoted, expired, evicted, waited);
      if room == old(room) {
        Canonical(Nums(room.queue), old(holes), holes, nextSeq);
      }
    }

    method GetStats() returns (s: Stats)
      requires Valid()
      ensures s == room.Summary()
    {
      s := Stats(|queue|, active, avgSession);
    }

    method SetCapacity(cap: int)
      requires Valid()
      modifies this`capacity, this`capacitySet, this`room
      ensures Valid()
      ensures room == old(room).(override := Some(cap))
    {
      hide Mirrors, Exact;
      RelabelMirrors(table, room, holes, room.(override := Some(cap)));
      capacity, capacitySet := cap, true;
      room := room.(override := Some(cap));
    }

    method GetCapacity() returns (cap: int, isSet: bool)
      requires Valid()
      ensures isSet == room.override.Some?
      ensures isSet ==> cap == room.override.value
    {
      cap, isSet := capacity, capacitySet;
    }

    method Flush() returns (n: nat)
      requires Valid()
      modifies this
      ensures Valid() && Repr == old(Repr)
      ensures room == Flushed(old(room))
      ensures n == |old(room).queue|
    {
      hide Mirrors, Exact, Linked, Ids;
      n := |queue|;
      ghost var q := room.queue;
      IdsNone();
      QueueIds();
      LinkFlush(entries, queue, table, q, Repr);
      for i := 0 to |queue|
        invariant queue == old(queue) && room == old(room) && table == old(table)
        invariant holes == old(holes) && Repr == old(Repr)
        invariant entries == old(entries) - Ids(q[..i])
        invariant active == old(active) && avgSession == old(avgSession) && nextSeq == old(nextSeq)
        invariant capacity == old(capacity) && capacitySet == old(capacitySet)
      {
        IdsNext(q, i);
        entries := entries - {queue[i].id};
      }
      assert q[..|q|] == q;
      FlushMirrors(table, room, holes);
      table := table - Ids(q);
      queue, holes := [], [];
      room := Flushed(room);
    }

    // ---------- the phases of Reconcile ----------

    /** Phase 1.  The map is visited in an arbitrary order, of which `order` keeps the expired ids. */
    method ExpireIdle(ttl: int, now: int) returns (expired: nat, ghost order: seq<Id>)
      requires Valid()
      modifies this
      ensures Valid() && Repr == old(Repr)
      ensures IsScan(old(room).active, ttl, now, order) && expired == |order|
      ensures room == Expired(old(room), ttl, now, order)
    {
      hide Mirrors, Exact, Linked, Scanned, Expired, IsQueued, ExpireOne;
      expired, order := 0, [];
      var pending := entries.Keys;
      ghost var start := room;
      SessionsHaveEntries();
      ScanStart(start, ttl, now, pending);
      while pending != {}
        invariant Valid() && Repr == old(Repr)
        invariant pending <= entries.Keys && expired == |order|
        invariant Scanned(start, ttl, now, pending, order, room)
        decreases |pending|
      {
        var id :| id in pending;
        EntryOf(id);
        var e := entries[id];
        if e.status == Active && now - e.lastSeen > ttl {
          ScanStep(start, ttl, now, pending, order, id, room);
          Expire(e);
          order := order + [id];
          expired := expired + 1;
        } else {
          ScanSkip(start, ttl, now, pending, order, id, room);
        }
        pending := pending - {id};
      }
      ScanDone(start, ttl, now, order, room);
    }

    lemma SessionsHaveEntries()
      requires Consistent()
      ensures room.active.Keys <= entries.Keys
    {
      MirrorsFacts(table, room, holes);
    }

    /** Delete an idle session, feeding the average with its duration. */
    method Expire(e: Entry)
      requires Valid() && e.id in entries && entries[e.id] == e && e.status == Active
      modifies this
      ensures Valid() && Repr == old(Repr)
      ensures e.id in old(room).active && entries.Keys == old(entries).Keys - {e.id}
      ensures room == ExpireOne(old(room), e.id)
    {
      hide Mirrors, Exact, Linked, IsQueued, Entry.Fields, ExpireOne, Find, Ema, Secs;
      EntryOf(e.id);
      FeedAverage(Secs(e.lastSeen - e.admittedAt));
      ExpireMirrors(table, room, holes, e.id);
      LinkDrop(entries, queue, table, room.queue, Repr, e.id);
      entries, table := entries - {e.id}, table - {e.id};
      room := ExpireOne(room, e.id);
      active := active - 1;
    }

    method FeedAverage(duration: real)
      modifies this`avgSession
      ensures avgSession == Ema(old(avgSession), duration)
    {
      if avgSession == 0.0 {
        avgSession := duration;
      } else {
        avgSession := EMA_ALPHA * duration + (1.0 - EMA_ALPHA) * avgSession;
      }
    }

    /** Phase 2.  Removals from the middle leave holes in the numbering. */
    method EvictGhosts(ttl: int, now: int) returns (evicted: nat)
      requires Consistent()
      modifies this
      ensures Consistent() && Repr == old(Repr)
      ensures room == WaitingRoom.Evicted(old(room), ttl, now)
      ensures evicted == |old(room).queue| - |room.queue|
    {
      hide Mirrors, Linked, Sifted, Survivors;
      evicted := 0;
      var i := 0;
      ghost var start, k := room.queue, 0;
      SiftStart(start, ttl, now);
      while i < |queue|
        invariant Consistent() && Repr == old(Repr)
        invariant Sifted(start, ttl, now, k, i, room.queue)
        invariant room == old(room).(queue := room.queue)
        invariant evicted == |start| - |room.queue|
        decreases |start| - k
      {
        var e := queue[i];
        WaiterAt(i);
        SiftStep(start, ttl, now, k, i, room.queue);
        if now - e.lastSeen > ttl {
          EvictAt(i);
          evicted := evicted + 1;
        } else {
          i := i + 1;
        }
        k := k + 1;
      }
      SiftDone(start, ttl, now, k, i, room.queue);
    }

    /** Drop the ghost at index `i` of the list. */
    method EvictAt(i: nat)
      requires Consistent() && i < |queue|
      modifies this
      ensures Consistent() && Repr == old(Repr)
      ensures room == EvictOne(old(room), i)
    {
      hide Mirrors, Linked, Entry.Fields;
      var e := queue[i];
      WaiterAt(i);
      EvictFacts(table, room, holes, i);
      ghost var oldHoles := holes;
      AddHoleLocked(e.seqNo);
      EvictMirrors(table, room, oldHoles, i, holes);
      LinkDrop(entries, queue, table, room.queue, Repr, e.id);
      queue := queue[..i] + queue[i + 1..];
      entries, table := entries - {e.id}, table - {e.id};
      room := EvictOne(room, i);
    }

    /** Phase 3.  Heads of the queue move into free slots. */
    method PromoteHeads(cap: int, now: int) returns (promoted: nat, waited: seq<real>)
      requires Consistent()
      modifies this, Repr
      ensures Consistent() && Repr == old(Repr)
      ensures room == WaitingRoom.Promoted(old(room), cap, now)
      ensures promoted == Free(old(room), cap)
      ensures waited == Waits(old(room).queue[..promoted], now)
    {
      hide Mirrors, Linked, Admitted;
      promoted, waited := 0, [];
      ghost var start := room;
      AdmitNone(start, now);
      while active < cap
        invariant Consistent() && Repr == old(Repr)
        invariant promoted <= |start.queue|
        invariant active == |start.active| + promoted
        invariant active > cap ==> promoted == 0
        invariant waited == Waits(start.queue[..promoted], now)
        invariant room == AdmittedSoFar(start, promoted, now)
        decreases cap - active
      {
        if |queue| == 0 {
          break;
        }
        var e := queue[0];
        WaiterAt(0);
        waited := waited + [Secs(now - e.enqueuedAt)];
        AdmitNext(start, promoted, now);
        PromoteHead(now);
        promoted := promoted + 1;
      }
    }

    /** Move the first waiter into the active set. */
    method PromoteHead(now: int)
      requires Consistent() && queue != []
      modifies this, Repr
      ensures Consistent() && Repr == old(Repr)
      ensures active == old(active) + 1
      ensures room == PromoteOne(old(room), now)
    {
      hide Mirrors, Entry.Fields;
      var e := queue[0];
      WaiterAt(0);
      EntryOf(e.id);
      PromoteMirrors(table, room, holes, now);
      queue := queue[1..];
      AdmitLocked(e, now);
      table := table[e.id := e.Fields()];
      room := PromoteOne(room, now);
    }

    // ---------- helpers that run under the lock ----------

    /** The heartbeat every operation on an existing entry ends with. */
    method Beat(e: Entry, now: int)
      requires Valid() && e.id in entries && entries[e.id] == e
      modifies this`room, this`table, e
      ensures Valid()
      ensures room == Seen(old(room), e.id, now)
      ensures Snap(room, e.id) == Snap(old(room), e.id)
    {
      hide Mirrors, Exact, Seen, Snap;
      BeatMirrors(table, room, holes, e.id, now);
      e.lastSeen := now;
      table := table[e.id := e.Fields()];
      room := Seen(room, e.id, now);
    }

    method AdmitLocked(e: Entry, now: int)
      modifies e, this`active
      ensures e.Fields() == old(e.Fields()).(status := Active, admittedAt := now, lastSeen := now)
      ensures active == old(active) + 1
    {
      e.status, e.admittedAt, e.lastSeen := Active, now, now;
      active := active + 1;
    }

    /** The view of one ticket, its position taken from the index and not from the list. */
    method SnapshotLocked(e: Entry) returns (snap: Snapshot)
      requires Valid() && e.id in entries && entries[e.id] == e
      ensures snap == Snap(room, e.id)
    {
      hide Mirrors, Exact, Linked, Covers, Find;
      snap := Snapshot(e.status, 0, |queue|, active);
      EntryOf(e.id);
      if e.status == Queued {
        WaiterAt(0);
        MirrorsFacts(table, room, holes);
        var front, own := queue[0].seqNo, e.seqNo;
        var lo: int := SearchFrom(holes, front + 1);
        var hi: int := SearchFrom(holes, own);
        FastPosition(Nums(room.queue), holes, nextSeq, Find(room.queue, e.id), lo, hi);
        snap := snap.(position := (own - front) + 1 - (hi - lo));
      }
    }

    /** Record an eviction from the middle, keeping the holes ascending. */
    method AddHoleLocked(seqNo: nat)
      requires Ascending(holes) && seqNo !in holes
      modifies this`holes
      ensures Ascending(holes)
      ensures forall s :: s in holes <==> s in old(holes) || s == seqNo
    {
      var n := |holes|;
      if n == 0 || holes[n - 1] < seqNo {
        holes := holes + [seqNo];
        return;
      }
      var i := SearchFrom(holes, seqNo + 1);
      InsertKeeps(holes, seqNo, i);
      holes := holes[..i] + [seqNo] + holes[i..];
    }

    /** Drop the holes the head has moved past. */
    method PruneHolesLocked()
      requires Consistent()
      modifies this`holes
      ensures Valid()
    {
      hide Mirrors, Exact, Linked, Covers;
      if |queue| == 0 {
        PruneMirrors(table, room, holes, |holes|);
        assert holes[|holes|..] == [];
        holes := [];
        return;
      }
      WaiterAt(0);
      MirrorsFacts(table, room, holes);
      var i := SearchFrom(holes, queue[0].seqNo + 1);
      PruneMirrors(table, room, holes, i);
      holes := holes[i..];
    }
  }
}
