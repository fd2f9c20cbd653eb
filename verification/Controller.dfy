/**
 The admission controller of one instance over the in-process store, call by call: its
 capacity, its reconcile gap, its statistics cache and the metrics it feeds.  Calls that
 interleave are the subject of Replicas.dfy.
 */
module Controller {
  import opened WaitingRoom
  import opened Admission
  import Runs
  import Memory
  import Metrics

  datatype CachedStats = CachedStats(stats: Stats, at: int)

  class Controller {
    const store: Memory.Store
    const cfg: Config
    const metrics: Metrics.Registry
    var capacity: int
    var lastReconcile: int
    var statsCache: Option<CachedStats>

    ghost predicate Valid()
      reads this, store, store.Repr, metrics, metrics.waitCounts
    {
      store.Valid() && metrics.Valid() && cfg.capacity >= 1 && capacity >= 1
    }

    /** admissions_total - expirations_total is the number of active users. */
    ghost predicate Balanced()
      reads store, metrics
    {
      metrics.admissions - metrics.expirations == |store.room.active|
    }

    constructor (store: Memory.Store, cfg: Config, metrics: Metrics.Registry)
      requires store.Valid() && metrics.Valid() && cfg.capacity >= 1
      ensures Valid() && this.store == store && this.cfg == cfg && this.metrics == metrics
      ensures capacity == cfg.capacity && statsCache == None && lastReconcile == 0
    {
      hide Memory.Store.Valid, Metrics.Registry.Valid;
      this.store, this.cfg, this.metrics := store, cfg, metrics;
      capacity, lastReconcile, statsCache := cfg.capacity, 0, None;
    }

    /** Rejects anything below 1, and then changes nothing. */
    method SetCapacity(n: int) returns (ok: bool)
      requires Valid()
      modifies this`capacity, store`capacity, store`capacitySet, store`room
      ensures Valid() && ok == (n >= 1)
      ensures ok ==> capacity == n && store.room == old(store.room).(override := Some(n))
      ensures !ok ==> capacity == old(capacity) && store.room == old(store.room)
      ensures old(Balanced()) ==> Balanced()
    {
      hide Memory.Store.Valid, Metrics.Registry.Valid;
      if n < 1 {
        return false;
      }
      store.SetCapacity(n);
      capacity := n;
      return true;
    }

    /** Adopt the stored override if it is usable, the configured value otherwise. */
    method RefreshCapacity()
      requires Valid()
      modifies this`capacity
      ensures Valid()
      ensures capacity == Effective(store.room.override, cfg.capacity)
    {
      hide Memory.Store.Valid, Metrics.Registry.Valid;
      var n, isSet := store.GetCapacity();
      if isSet && n >= 1 {
        capacity := n;
      } else {
        capacity := cfg.capacity;
      }
    }

    /** The request path: at most one Reconcile per gap. */
    method MaybeReconcile(now: int) returns (ghost ran: bool, ghost order: seq<Id>)
      requires Valid()
      modifies this`lastReconcile, store, store.Repr
      modifies metrics, metrics.waitCounts
      ensures Valid() && store.Repr == old(store.Repr)
      ensures ran <==> cfg.minReconcileGap <= 0 || now - old(lastReconcile) >= cfg.minReconcileGap
      ensures lastReconcile == if ran then now else old(lastReconcile)
      ensures ran ==> Scans(old(store.room), cfg, now, order)
      ensures store.room == if ran then PassRoom(old(store.room), cfg, capacity, now, order) else old(store.room)
      ensures Tallied(old(store.room), now, ran, old(metrics.observed), old(metrics.expirations), old(metrics.evictions))
      ensures old(Balanced()) ==> Balanced()
    {
      hide Memory.Store.Valid, Metrics.Registry.Valid, PassReport, PassRoom, Scans;
      if cfg.minReconcileGap > 0 {
        var last := lastReconcile;
        if now - last < cfg.minReconcileGap {
          return false, [];
        }
        lastReconcile := now;
      }
      order := DoReconcile(now);
      ran := true;
    }

    /** The metrics since they stood at the given values: what a pass over `r`, if it ran, reports. */
    ghost predicate Tallied(r: Room, now: int, ran: bool, observed: seq<real>, expirations: int, evictions: int)
      reads this`capacity, metrics
    {
      var report := Reported(r, now, ran);
      && metrics.observed == observed + report.waitedSecs
      && metrics.expirations == expirations + report.expired
      && metrics.evictions == evictions + report.evicted
    }

    function Reported(r: Room, now: int, ran: bool): ReconcileResult
      reads this`capacity
    {
      if ran then PassReport(r, cfg, capacity, now) else ReconcileResult(0, 0, 0, [])
    }

    /** One pass of the store, reported to the metrics: each promotion is an admission with its wait. */
    method DoReconcile(now: int) returns (ghost order: seq<Id>)
      requires Valid()
      modifies this`lastReconcile, store, store.Repr, metrics, metrics.waitCounts
      ensures Valid() && store.Repr == old(store.Repr) && lastReconcile == now
      ensures Scans(old(store.room), cfg, now, order)
      ensures store.room == PassRoom(old(store.room), cfg, capacity, now, order)
      ensures Tallied(old(store.room), now, true, old(metrics.observed), old(metrics.expirations), old(metrics.evictions))
      ensures old(Balanced()) ==> Balanced()
    {
      hide Memory.Store.Valid, Reconciled, Report, IsScan;
      lastReconcile := now;
      RoomOf(store);
      PassBalances(store.room, capacity, cfg.activeTTL, cfg.queueTTL, now);
      var res;
      res, order := store.Reconcile(capacity, cfg.activeTTL, cfg.queueTTL, now);
      metrics.AddReconcile(res);
      ghost var before := metrics.observed;
      for i := 0 to |res.waitedSecs|
        invariant Valid() && store.Repr == old(store.Repr) && lastReconcile == now
        invariant store.room == PassRoom(old(store.room), cfg, capacity, now, order)
        invariant metrics.observed == before + res.waitedSecs[..i]
        invariant metrics.expirations == old(metrics.expirations) + res.expired
        invariant metrics.evictions == old(metrics.evictions) + res.evicted
      {
        assert res.waitedSecs[..i + 1] == res.waitedSecs[..i] + [res.waitedSecs[i]];
        metrics.ObserveAdmission(res.waitedSecs[i]);
      }
    }

    /** Decide one request for ticket `id`; `later` is the clock when the estimate is made. */
    method Check(id: Id, now: int, later: int)
      returns (res: Result, ghost ran: bool, ghost order: seq<Id>)
      requires Valid()
      modifies this, store, store.Repr, metrics, metrics.waitCounts
      ensures Valid() && fresh(store.Repr - old(store.Repr)) && capacity == old(capacity)
      ensures ran <==> cfg.minReconcileGap <= 0 || now - old(lastReconcile) >= cfg.minReconcileGap
      ensures ran ==> Scans(old(store.room), cfg, now, order)
      ensures var r := if ran then PassRoom(old(store.room), cfg, capacity, now, order) else old(store.room);
        && store.room == CheckRoom(r, id, capacity, now)
        && res == CheckResult(r, id, capacity).(eta := res.eta)
        && metrics.observed == old(metrics.observed) + Reported(old(store.room), now, ran).waitedSecs
             + if Snap(r, id).status == Unknown && id in store.room.active then [0.0] else []
      ensures var report := Reported(old(store.room), now, ran);
        && metrics.expirations == old(metrics.expirations) + report.expired
        && metrics.evictions == old(metrics.evictions) + report.evicted
      ensures lastReconcile == if ran then now else old(lastReconcile)
      ensures Tells(res, old(statsCache), later) && statsCache == CacheAfter(res, old(statsCache), later)
      ensures old(Balanced()) ==> Balanced()
    {
      hide Memory.Store.Valid, Metrics.Registry.Valid, Seen, Touched, Enqueued, Room.Valid, Tells, CacheAfter, Find,
        Reported, PassRoom, Scans;
      ran, order := MaybeReconcile(now);
      ghost var r := store.room;
      CheckIsTrue(r, id, capacity, now) by { RoomOf(store); }
      UnknownUnseen(r, id, now);
      var snap := store.Lookup(id, now);
      match snap.status
      case Active =>
        var ok := store.Touch(id, now);
        res := MakeResult(Proxy, snap, later);
      case Queued =>
        res := MakeResult(Wait, snap, later);
      case Unknown =>
        var admitted := store.TryAdmit(id, capacity, now);
        if admitted {
          metrics.ObserveAdmission(0.0);
          snap := snap.(status := Active, activeCount := snap.activeCount + 1);
          res := MakeResult(Proxy, snap, later);
        } else {
          snap := store.Enqueue(id, now);
          res := MakeResult(Wait, snap, later);
        }
    }

    /** A status poll: reconcile and look up, never enqueue. */
    method StatusOf(id: Id, now: int, later: int)
      returns (res: Result, ghost ran: bool, ghost order: seq<Id>)
      requires Valid()
      modifies this, store, store.Repr, metrics, metrics.waitCounts
      ensures Valid() && store.Repr == old(store.Repr) && capacity == old(capacity)
      ensures ran <==> cfg.minReconcileGap <= 0 || now - old(lastReconcile) >= cfg.minReconcileGap
      ensures ran ==> Scans(old(store.room), cfg, now, order)
      ensures var r := if ran then PassRoom(old(store.room), cfg, capacity, now, order) else old(store.room);
        && store.room == Seen(r, id, now)
        && res == StatusResult(r, id, capacity).(eta := res.eta)
      ensures Tallied(old(store.room), now, ran, old(metrics.observed), old(metrics.expirations), old(metrics.evictions))
      ensures lastReconcile == if ran then now else old(lastReconcile)
      ensures Tells(res, old(statsCache), later) && statsCache == CacheAfter(res, old(statsCache), later)
      ensures old(Balanced()) ==> Balanced()
    {
      hide Memory.Store.Valid, Metrics.Registry.Valid, Seen, Tells, CacheAfter, Tallied, PassRoom, Scans;
      ran, order := MaybeReconcile(now);
      SizeOfSeen(store.room, id, now);
      var snap := store.Lookup(id, now);
      var decision := Wait;
      if snap.status == Active {
        decision := Proxy;
      } else if snap.status == Unknown {
        if snap.activeCount < capacity && snap.queueLength == 0 {
          decision := Proxy;
        } else {
          snap := snap.(position := snap.queueLength + 1);
        }
      }
      res := MakeResult(decision, snap, later);
    }

    /** The body of the janitor loop. */
    method Tick(now: int) returns (ghost order: seq<Id>)
      requires Valid()
      modifies this`capacity, this`lastReconcile, store, store.Repr, metrics, metrics.waitCounts
      ensures Valid() && store.Repr == old(store.Repr)
      ensures capacity == Effective(old(store.room).override, cfg.capacity)
      ensures Scans(old(store.room), cfg, now, order)
      ensures store.room == PassRoom(old(store.room), cfg, capacity, now, order) && lastReconcile == now
      ensures Tallied(old(store.room), now, true, old(metrics.observed), old(metrics.expirations), old(metrics.evictions))
      ensures old(Balanced()) ==> Balanced()
    {
      hide Memory.Store.Valid, Metrics.Registry.Valid, PassReport, PassRoom, Scans;
      RefreshCapacity();
      order := DoReconcile(now);
    }

    /** A Wait with a position is told exactly the estimate, anybody else none. */
    ghost predicate Tells(res: Result, cache: Option<CachedStats>, later: int)
      requires capacity >= 1
      reads this`capacity, store
    {
      if Asks(res) then IsEstimate(res.eta, res.position, EtaAverage(cache, later), cfg.activeTTL, capacity)
      else res.eta == 0
    }

    predicate Asks(res: Result) {
      res.decision == Wait && res.position > 0
    }

    predicate Young(cache: Option<CachedStats>, now: int) {
      cfg.statsCacheTTL > 0 && cache.Some? && now - cache.value.at < cfg.statsCacheTTL
    }

    /** The average behind an estimate: a young reading's, else the store's at this moment. */
    ghost function EtaAverage(cache: Option<CachedStats>, later: int): real
      reads store
    {
      if Young(cache, later) then cache.value.stats.avgSessionSecs else store.room.avg
    }

    ghost function CacheAfter(res: Result, cache: Option<CachedStats>, later: int): Option<CachedStats>
      reads store
    {
      if Asks(res) && cfg.statsCacheTTL > 0 && !Young(cache, later) then Some(CachedStats(store.room.Summary(), later))
      else cache
    }

    method MakeResult(d: Decision, snap: Snapshot, later: int) returns (res: Result)
      requires Valid()
      modifies this`statsCache
      ensures Valid()
      ensures res == ResultOf(d, snap, res.eta)
      ensures Tells(res, old(statsCache), later) && statsCache == CacheAfter(res, old(statsCache), later)
    {
      hide Memory.Store.Valid, Metrics.Registry.Valid, Eta, IsEstimate;
      var eta := 0;
      if d == Wait && snap.position > 0 {
        var stats := EtaStats(later);
        eta := Eta(snap.position, stats.avgSessionSecs, cfg.activeTTL, capacity);
        EtaIsExact(eta, snap.position, stats.avgSessionSecs, cfg.activeTTL, capacity);
      }
      res := ResultOf(d, snap, eta);
    }

    method EtaStats(now: int) returns (stats: Stats)
      requires Valid()
      modifies this`statsCache
      ensures Valid()
      ensures if Young(old(statsCache), now)
        then stats == old(statsCache).value.stats && statsCache == old(statsCache)
        else stats == store.room.Summary()
             && statsCache == if cfg.statsCacheTTL > 0 then Some(CachedStats(stats, now)) else old(statsCache)
    {
      hide Memory.Store.Valid, Metrics.Registry.Valid;
      if cfg.statsCacheTTL <= 0 {
        stats := store.GetStats();
        return;
      }
      if statsCache.Some? && now - statsCache.value.at < cfg.statsCacheTTL {
        return statsCache.value.stats;
      }
      stats := store.GetStats();
      statsCache := Some(CachedStats(stats, now));
    }
  }

  /** The capacity a replica adopts: a usable override, else what it was configured with. */
  function Effective(override: Option<int>, configured: int): int {
    if override.Some? && override.value >= 1 then override.value else configured
  }

  lemma RoomOf(s: Memory.Store)
    requires s.Valid()
    ensures s.room.Valid()
  {
  }

  lemma PassBalances(r: Room, cap: int, activeTTL: int, queueTTL: int, now: int)
    ensures forall order :: r.Valid() && IsScan(r.active, activeTTL, now, order) ==>
      var report := Report(r, cap, activeTTL, queueTTL, now);
      |Reconciled(r, cap, activeTTL, queueTTL, now, order).active| == |r.active| - report.expired + |report.waitedSecs|
  {
    forall order | r.Valid() && IsScan(r.active, activeTTL, now, order)
      ensures var report := Report(r, cap, activeTTL, queueTTL, now);
        |Reconciled(r, cap, activeTTL, queueTTL, now, order).active| == |r.active| - report.expired + |report.waitedSecs|
    {
      Runs.StepBalances(r, Runs.Reconcile(cap, activeTTL, queueTTL, now, order), true);
    }
  }

  lemma UnknownUnseen(r: Room, id: Id, now: int)
    ensures Snap(r, id).status == Unknown ==> Seen(r, id, now) == r
  {
  }
}
