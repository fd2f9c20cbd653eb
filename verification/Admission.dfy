/**
 The admission decision as a function of the room: what one request does after its
 Reconcile, what a status poll says, and the estimated wait.
 */
module Admission {
  import opened WaitingRoom
  import opened ReconcileLaws
  import opened Runs

  datatype Decision = Proxy | Wait

  /** The outcome of a request or of a status poll; `eta` is in nanoseconds. */
  datatype Result = Result(decision: Decision, position: int, queueLength: int, activeCount: int, eta: int)

  /** The policy; durations in milliseconds. */
  datatype Config = Config(capacity: int, activeTTL: int, queueTTL: int, minReconcileGap: int, statsCacheTTL: int)

  // ---------- the pass before a decision ----------

  /** `order` is one in which a pass of this controller may meet the idle sessions. */
  ghost predicate Scans(r: Room, c: Config, now: int, order: seq<Id>) {
    IsScan(r.active, c.activeTTL, now, order)
  }

  ghost function PassRoom(r: Room, c: Config, cap: int, now: int, order: seq<Id>): Room
    requires Scans(r, c, now, order)
  {
    Reconciled(r, cap, c.activeTTL, c.queueTTL, now, order)
  }

  function PassReport(r: Room, c: Config, cap: int, now: int): ReconcileResult {
    Report(r, cap, c.activeTTL, c.queueTTL, now)
  }

  /**
   What the policy decides: sessions end by the inactivity window, waiters leave by the
   queue TTL, the slots up to the capacity are filled, and the report says how many.
   */
  lemma PassFollowsPolicy(r: Room, c: Config, cap: int, now: int, order: seq<Id>, id: Id)
    requires r.Valid() && Scans(r, c, now, order)
    ensures var r', report := PassRoom(r, c, cap, now, order), PassReport(r, c, cap, now);
      && (if id in r.active then id in r'.active <==> now - r.active[id].lastSeen <= c.activeTTL
          else if IsQueued(r.queue, id) then
            id in r'.active || IsQueued(r'.queue, id) <==> now - r.queue[Find(r.queue, id)].lastSeen <= c.queueTTL
          else id !in r'.active && !IsQueued(r'.queue, id))
      && (|r'.active| >= cap || r'.queue == [])
      && |r'.active| == |r.active| - report.expired + |report.waitedSecs| <= Max(cap, |r.active|)
      && |r'.queue| == |r.queue| - report.evicted - |report.waitedSecs|
  {
    hide Reconciled, Report, Kept, Survivors, Room.Valid, Ordered, Find, Ghosts;
    var op := Op.Reconcile(cap, c.activeTTL, c.queueTTL, now, order);
    ExactEffect(r, cap, c.activeTTL, c.queueTTL, now, order, id);
    WorkConserving(r, cap, c.activeTTL, c.queueTTL, now, order);
    StepBalances(r, op, true);
    StepBound(r, op, true);
    ReportCounts(r, cap, c.activeTTL, c.queueTTL, now);
  }

  // ---------- decisions ----------

  function ResultOf(d: Decision, snap: Snapshot, eta: int): Result {
    Result(d, snap.position, snap.queueLength, snap.activeCount, eta)
  }

  /** The room after a Check of `id`, its Reconcile done. */
  function CheckRoom(r: Room, id: Id, cap: int, now: int): Room {
    var seen := Seen(r, id, now);
    match Snap(r, id).status
    case Active => Touched(seen, id, now)
    case Queued => seen
    case Unknown =>
      if Admits(seen, id, cap) then Tried(seen, id, cap, now) else Enqueued(seen, id, now, true)
  }

  /** What the Check answers, the estimate aside. */
  function CheckResult(r: Room, id: Id, cap: int): Result {
    var snap := Snap(r, id);
    match snap.status
    case Active => ResultOf(Proxy, snap, 0)
    case Queued => ResultOf(Wait, snap, 0)
    case Unknown =>
      if Admits(r, id, cap) then ResultOf(Proxy, snap.(status := Active, activeCount := snap.activeCount + 1), 0)
      else ResultOf(Wait, Snapshot(Queued, |r.queue| + 1, |r.queue| + 1, |r.active|), 0)
  }

  /** What a status poll answers, the estimate aside. */
  function StatusResult(r: Room, id: Id, cap: int): Result {
    var snap := Snap(r, id);
    match snap.status
    case Active => ResultOf(Proxy, snap, 0)
    case Queued => ResultOf(Wait, snap, 0)
    case Unknown =>
      if snap.activeCount < cap && snap.queueLength == 0 then ResultOf(Proxy, snap, 0)
      else ResultOf(Wait, snap.(position := snap.queueLength + 1), 0)
  }

  /** CheckResult tells the truth about CheckRoom. */
  lemma CheckIsTrue(r: Room, id: Id, cap: int, now: int)
    requires r.Valid()
    ensures var r', res := CheckRoom(r, id, cap, now), CheckResult(r, id, cap);
      && r'.Valid()
      && (res.decision == Proxy <==> id in r'.active) && (res.decision == Proxy ==> res.position == 0)
      && (res.decision == Wait ==> Snap(r', id) == Snapshot(Queued, res.position, res.queueLength, res.activeCount))
      && res.queueLength == |r'.queue| && res.activeCount == |r'.active|
  {
    hide Ordered, Find;
    SeenValid(r, id, now);
    var seen := Seen(r, id, now);
    SizeOfSeen(r, id, now);
    if id in r.active {
      SeenValid(seen, id, now);
      SizeOfSeen(seen, id, now);
    } else if IsQueued(r.queue, id) {
    } else if Admits(seen, id, cap) {
      TriedValid(seen, id, cap, now);
      assert Tried(seen, id, cap, now).active.Keys == seen.active.Keys + {id};
      assert |Tried(seen, id, cap, now).active.Keys| == |seen.active| + 1;
    } else {
      EnqueuedValid(seen, id, now, true);
      TailFind(seen.queue, Waiter(id, seen.nextSeq + 1, now, now));
    }
  }

  /**
   What a status poll answers: Proxy for an active ticket, or for an unknown one that a
   request would let in; otherwise Wait, with the place in line, the tail for an unknown one.
   */
  lemma StatusIsTrue(r: Room, id: Id, cap: int)
    requires r.Valid()
    ensures var res := StatusResult(r, id, cap);
      && res.queueLength == |r.queue| && res.activeCount == |r.active|
      && (res.decision == Proxy <==> id in r.active || (r.queue == [] && |r.active| < cap))
      && (res.decision == Proxy ==> res.position == 0)
      && (res.decision == Wait ==>
            1 <= res.position <= |r.queue| + 1
            && if res.position == |r.queue| + 1 then forall w :: w in r.queue ==> w.id != id
               else r.queue[res.position - 1].id == id)
  {
    assert IsQueued(r.queue, id) ==> r.queue[Find(r.queue, id)].id == id;
  }

  lemma TailFind(q: seq<Waiter>, w: Waiter)
    requires !IsQueued(q, w.id)
    ensures Find(q + [w], w.id) == |q|
  {
    assert (q + [w])[|q|] == w;
    forall i | 0 <= i < |q| ensures (q + [w])[i].id != w.id { }
  }

  /** A heartbeat at `now` leaves a settled room settled. */
  lemma SeenSettled(r: Room, cap: int, activeTTL: int, queueTTL: int, now: int, id: Id)
    requires r.Valid() && activeTTL >= 0 && queueTTL >= 0
    requires Settled(r, cap, activeTTL, queueTTL, now)
    ensures Settled(Seen(r, id, now), cap, activeTTL, queueTTL, now)
  {
    SizeOfSeen(r, id, now);
  }

  lemma SeenView(r: Room, id: Id, now: int)
    requires r.Valid()
    ensures Snap(Seen(r, id, now), id) == Snap(r, id)
  {
    SeenValid(r, id, now);
    SizeOfSeen(r, id, now);
  }

  /**
   A status poll predicts the next request: polling `id` and then requesting it at the same
   instant, a Reconcile before each, gives the same decision and position.
   */
  lemma StatusPredictsCheck(r: Room, c: Config, cap: int, now: int, id: Id, order: seq<Id>, again: seq<Id>)
    requires r.Valid() && c.activeTTL >= 0 && c.queueTTL >= 0
    requires Scans(r, c, now, order)
    requires Scans(Seen(PassRoom(r, c, cap, now, order), id, now), c, now, again)
    ensures var reconciled := PassRoom(r, c, cap, now, order);
      var polled := Seen(reconciled, id, now);
      var requested := PassRoom(polled, c, cap, now, again);
      var status, check := StatusResult(reconciled, id, cap), CheckResult(requested, id, cap);
      status.decision == check.decision && status.position == check.position
  {
    hide Reconciled, Ordered, Room.Valid, IsScan;
    var reconciled := PassRoom(r, c, cap, now, order);
    var polled := Seen(reconciled, id, now);
    ReconciledValid(r, cap, c.activeTTL, c.queueTTL, now, order);
    ReconcileSettles(r, cap, c.activeTTL, c.queueTTL, now, order);
    SeenSettled(reconciled, cap, c.activeTTL, c.queueTTL, now, id);
    SettledIsFixed(polled, cap, c.activeTTL, c.queueTTL, now, again);
    SeenView(reconciled, id, now);
    SizeOfSeen(reconciled, id, now);
  }

  // ---------- the estimated wait ----------

  const NANOS_PER_SECOND := 1000000000.0
  const NANOS_PER_MS := 1000000

  /** The program's integer division truncates toward zero. */
  function Quotient(a: int, b: int): int
    requires b >= 1
  {
    if a >= 0 then a / b else -(-a / b)
  }

  /** The average session in nanoseconds, falling back to the inactivity window without data. */
  function SessionNanos(avgSecs: real, activeTTL: int): int {
    if avgSecs > 0.0 then (avgSecs * NANOS_PER_SECOND).Floor else activeTTL * NANOS_PER_MS
  }

  /** position * average session / capacity. */
  function Eta(position: int, avgSecs: real, activeTTL: int, cap: int): int
    requires cap >= 1
  {
    Quotient(position * SessionNanos(avgSecs, activeTTL), cap)
  }

  /** `n` is the average session, rounded down to a nanosecond, or the window of `activeTTL` milliseconds. */
  predicate IsSession(n: int, avgSecs: real, activeTTL: int) {
    if avgSecs > 0.0 then n as real <= avgSecs * 1000000000.0 < (n + 1) as real
    else n == activeTTL * 1000000
  }

  /** `q` is `a / b` truncated, said without dividing. */
  predicate Truncates(q: int, a: int, b: int) {
    if a >= 0 then b * q <= a < b * q + b else b * q - b < a <= b * q
  }

  /** `eta` nanoseconds is the estimate: the `cap` slots take `eta` each to serve `position` sessions. */
  ghost predicate IsEstimate(eta: int, position: int, avgSecs: real, activeTTL: int, cap: int) {
    exists n :: IsSession(n, avgSecs, activeTTL) && Truncates(eta, position * n, cap)
  }

  lemma DivIs(q: int, a: int, b: int)
    requires b >= 1
    ensures b * q <= a < b * q + b <==> q == a / b
  {
    var d := a / b;
    assert b * d <= a < b * d + b;
    if b * q <= a < b * q + b {
      OrderOfFactors(q, d + 1, b);
      OrderOfFactors(d, q + 1, b);
    }
  }

  lemma QuotientTruncates(q: int, a: int, b: int)
    requires b >= 1
    ensures Truncates(q, a, b) <==> q == Quotient(a, b)
  {
    if a >= 0 {
      DivIs(q, a, b);
    } else {
      DivIs(-q, -a, b);
      Negated(b, q);
    }
  }

  lemma Negated(b: int, q: int)
    ensures b * -q == -(b * q)
  {
  }

  lemma OneSession(n: int, avgSecs: real, activeTTL: int)
    ensures IsSession(n, avgSecs, activeTTL) <==> n == SessionNanos(avgSecs, activeTTL)
  {
  }

  /** The estimate is exact: Eta is the one number that fits the description. */
  lemma EtaIsExact(eta: int, position: int, avgSecs: real, activeTTL: int, cap: int)
    requires cap >= 1
    ensures IsEstimate(eta, position, avgSecs, activeTTL, cap) <==> eta == Eta(position, avgSecs, activeTTL, cap)
  {
    hide IsSession, SessionNanos, Truncates, Quotient;
    var session := SessionNanos(avgSecs, activeTTL);
    OneSession(session, avgSecs, activeTTL);
    forall n | IsSession(n, avgSecs, activeTTL) ensures n == session {
      OneSession(n, avgSecs, activeTTL);
    }
    QuotientTruncates(eta, position * session, cap);
  }

  lemma DivMonotone(a: int, b: int, c: int)
    requires a <= b && c >= 1
    ensures a / c <= b / c
  {
    var p, q := a / c, b / c;
    assert c * p <= a && b < c * q + c == c * (q + 1);
    OrderOfFactors(p, q + 1, c);
  }

  /** A positive factor can be cancelled from a strict inequality. */
  lemma OrderOfFactors(x: int, y: int, c: int)
    requires c >= 1 && c * x < c * y
    ensures x < y
  {
    MulMonotone(if y <= x then y else x, x, c);
  }

  lemma MulMonotone(a: int, b: int, c: int)
    requires a <= b && c >= 0
    ensures a * c <= b * c
  {
  }

  lemma QuotientMonotone(a: int, b: int, c: int)
    requires a <= b && c >= 1
    ensures Quotient(a, c) <= Quotient(b, c)
  {
    if a >= 0 {
      DivMonotone(a, b, c);
    } else if b < 0 {
      DivMonotone(-b, -a, c);
    } else {
      DivMonotone(0, -a, c);
      DivMonotone(0, b, c);
    }
  }

  /** Further back never means a shorter estimate. */
  lemma EtaMonotone(p: int, q: int, avgSecs: real, activeTTL: int, cap: int)
    requires p <= q && activeTTL >= 0 && cap >= 1
    ensures Eta(p, avgSecs, activeTTL, cap) <= Eta(q, avgSecs, activeTTL, cap)
  {
    hide Quotient;
    var session := SessionNanos(avgSecs, activeTTL);
    MulMonotone(p, q, session);
    QuotientMonotone(p * session, q * session, cap);
  }

  /**
   Whatever sessions have completed, none of them longer than `longest` milliseconds, the
   estimate is at most position * max(activeTTL, longest) / capacity.
   */
  lemma EtaBound(position: int, ds: seq<real>, longest: int, activeTTL: int, cap: int)
    requires position >= 0 && activeTTL >= 0 && cap >= 1
    requires forall i :: 0 <= i < |ds| ==> ds[i] * 1000.0 <= longest as real
    ensures Eta(position, EmaAll(0.0, ds), activeTTL, cap)
         <= position * (Max(activeTTL, longest) * NANOS_PER_MS) / cap
  {
    hide Quotient;
    var session := SessionNanos(EmaAll(0.0, ds), activeTTL);
    var bound := Max(activeTTL, longest) * NANOS_PER_MS;
    SessionBound(ds, longest, activeTTL);
    MulMonotone(session, bound, position);
    assert position * session == session * position && position * bound == bound * position;
    QuotientMonotone(position * session, position * bound, cap);
    MulMonotone(0, bound, position);
    PositiveQuotient(position * bound, cap);
  }

  lemma SessionBound(ds: seq<real>, longest: int, activeTTL: int)
    requires activeTTL >= 0 && forall i :: 0 <= i < |ds| ==> ds[i] * 1000.0 <= longest as real
    ensures SessionNanos(EmaAll(0.0, ds), activeTTL) <= Max(activeTTL, longest) * NANOS_PER_MS
    ensures Max(activeTTL, longest) >= 0
  {
    if ds != [] {
      EmaInHull(ds);
    }
  }

  lemma PositiveQuotient(a: int, b: int)
    requires a >= 0 && b >= 1
    ensures Quotient(a, b) == a / b
  {
  }

  /**
   The estimate in any store that started empty, after any run of operations: if no session
   has yet lasted longer than `longest` milliseconds, nobody is told to wait longer than
   position * max(activeTTL, longest) / capacity.
   */
  lemma EtaOfRun(ops: seq<Op>, slides: bool, position: int, longest: int, activeTTL: int, cap: int)
    requires LegalRun(EMPTY, ops, slides)
    requires position >= 0 && activeTTL >= 0 && cap >= 1
    requires var ds := Completed(EMPTY, ops, slides);
      forall i :: 0 <= i < |ds| ==> ds[i] * 1000.0 <= longest as real
    ensures Eta(position, Run(EMPTY, ops, slides).avg, activeTTL, cap)
         <= position * (Max(activeTTL, longest) * NANOS_PER_MS) / cap
  {
    AverageOfRun(EMPTY, ops, slides);
    EtaBound(position, Completed(EMPTY, ops, slides), longest, activeTTL, cap);
  }
}
