/**
 Reconcile one ticket at a time: the single steps the stores' loops take, and how far a
 loop has got towards the phase it implements.
 */
module ReconcileSteps {
  import opened WaitingRoom

  function ExpireOne(r: Room, id: Id): Room
    requires id in r.active
  {
    r.(active := r.active - {id}, avg := Ema(r.avg, Secs(r.active[id].lastSeen - r.active[id].admittedAt)))
  }

  function EvictOne(r: Room, i: nat): Room
    requires i < |r.queue|
  {
    r.(queue := r.queue[..i] + r.queue[i + 1..])
  }

  function PromoteOne(r: Room, now: int): Room
    requires r.queue != []
  {
    r.(queue := r.queue[1..], active := r.active[r.queue[0].id := Session(now, now)])
  }

  lemma PromoteOneValid(r: Room, now: int)
    requires r.Valid() && r.queue != []
    ensures PromoteOne(r, now).Valid()
    ensures |PromoteOne(r, now).active| == |r.active| + 1
    ensures Ordered(r.queue) && r.queue[0].id !in r.active
    ensures PromoteOne(r, now) == r.(queue := r.queue[1..], active := r.active[r.queue[0].id := Session(now, now)])
  {
    assert PromoteOne(r, now).active.Keys == r.active.Keys + {r.queue[0].id};
  }

  // ---------- progress of the scan of idle sessions ----------

  ghost function SetOf(order: seq<Id>): set<Id> {
    set id | id in order
  }

  /** Part of the scan of `start` is done: its idle sessions are pending or gone, in the order `order`. */
  ghost predicate Scanned(start: Room, ttl: int, now: int, pending: set<Id>, order: seq<Id>, r: Room) {
    && (forall i, j :: 0 <= i < j < |order| ==> order[i] != order[j])
    && (forall id :: id in order ==> id in start.active && Idle(start.active[id], ttl, now) && id !in pending)
    && (forall id :: id in start.active && Idle(start.active[id], ttl, now) ==> id in pending || id in order)
    && r == start.(active := start.active - SetOf(order), avg := EmaAll(start.avg, Durations(start.active, order)))
  }

  lemma ScanStart(start: Room, ttl: int, now: int, pending: set<Id>)
    requires start.active.Keys <= pending
    ensures Scanned(start, ttl, now, pending, [], start)
  {
    assert start.active - SetOf([]) == start.active;
  }

  lemma ScanSkip(start: Room, ttl: int, now: int, pending: set<Id>, order: seq<Id>, id: Id, r: Room)
    requires Scanned(start, ttl, now, pending, order, r) && id in pending
    requires id in r.active ==> !Idle(r.active[id], ttl, now)
    ensures Scanned(start, ttl, now, pending - {id}, order, r)
  {
  }

  lemma ScanStep(start: Room, ttl: int, now: int, pending: set<Id>, order: seq<Id>, id: Id, r: Room)
    requires Scanned(start, ttl, now, pending, order, r) && id in pending
    requires id in r.active && Idle(r.active[id], ttl, now)
    ensures Scanned(start, ttl, now, pending - {id}, order + [id], ExpireOne(r, id))
  {
    assert Durations(start.active, order + [id])[..|order|] == Durations(start.active, order);
    assert SetOf(order + [id]) == SetOf(order) + {id};
    assert start.active - SetOf(order) - {id} == start.active - SetOf(order + [id]);
  }

  lemma ScanDone(start: Room, ttl: int, now: int, order: seq<Id>, r: Room)
    requires Scanned(start, ttl, now, {}, order, r)
    ensures IsScan(start.active, ttl, now, order)
    ensures r == Expired(start, ttl, now, order)
  {
    assert start.active - SetOf(order) == Kept(start.active, ttl, now);
  }

  // ---------- progress of the eviction ----------

  /** `k` waiters of `start` have been looked at, `i` of them stay at the front of `q`. */
  ghost predicate Sifted(start: seq<Waiter>, ttl: int, now: int, k: nat, i: nat, q: seq<Waiter>) {
    && k <= |start|
    && i == |Survivors(start[..k], ttl, now)|
    && q == Survivors(start[..k], ttl, now) + start[k..]
  }

  lemma SiftStart(start: seq<Waiter>, ttl: int, now: int)
    ensures Sifted(start, ttl, now, 0, 0, start)
  {
  }

  lemma SiftStep(start: seq<Waiter>, ttl: int, now: int, k: nat, i: nat, q: seq<Waiter>)
    requires Sifted(start, ttl, now, k, i, q) && i < |q|
    ensures k < |start| && q[i] == start[k]
    ensures if Ghost(q[i], ttl, now) then Sifted(start, ttl, now, k + 1, i, q[..i] + q[i + 1..])
            else Sifted(start, ttl, now, k + 1, i + 1, q)
  {
    SnocSurvivors(start, k, ttl, now);
  }

  lemma SiftDone(start: seq<Waiter>, ttl: int, now: int, k: nat, i: nat, q: seq<Waiter>)
    requires Sifted(start, ttl, now, k, i, q) && i >= |q|
    ensures q == Survivors(start, ttl, now)
  {
    assert start[..k] == start;
  }

  // ---------- progress of the promotion ----------

  /** The room after `k` of the heads of `start` have been admitted. */
  ghost function AdmittedSoFar(start: Room, k: nat, now: int): Room
    requires k <= |start.queue|
  {
    start.(queue := start.queue[k..], active := Admitted(start.active, start.queue[..k], now))
  }

  lemma AdmitNone(start: Room, now: int)
    ensures AdmittedSoFar(start, 0, now) == start
  {
  }

  lemma AdmitNext(start: Room, k: nat, now: int)
    requires k < |start.queue|
    ensures AdmittedSoFar(start, k + 1, now) == PromoteOne(AdmittedSoFar(start, k, now), now)
    ensures Waits(start.queue[..k + 1], now) == Waits(start.queue[..k], now) + [Secs(now - start.queue[k].enqueuedAt)]
  {
    assert start.queue[..k + 1][..k] == start.queue[..k];
    assert start.queue[k..][1..] == start.queue[k + 1..];
  }

  // ---------- the durations met so far ----------

  lemma NoDurations(sessions: map<Id, Session>, avg: real)
    ensures EmaAll(avg, Durations(sessions, [])) == avg
  {
  }

  lemma NextDuration(sessions: map<Id, Session>, order: seq<Id>, i: nat, avg: real)
    requires i < |order| && (forall id :: id in order ==> id in sessions)
    requires forall j, k :: 0 <= j < k < |order| ==> order[j] != order[k]
    ensures order[i] in sessions && order[i] !in SetOf(order[..i])
    ensures SetOf(order[..i + 1]) == SetOf(order[..i]) + {order[i]}
    ensures EmaAll(avg, Durations(sessions, order[..i + 1]))
         == Ema(EmaAll(avg, Durations(sessions, order[..i])),
                Secs(sessions[order[i]].lastSeen - sessions[order[i]].admittedAt))
  {
    assert order[i] in order;
    assert Durations(sessions, order[..i + 1])[..i] == Durations(sessions, order[..i]);
  }
}
