/**
 Whole runs of store operations, in any order and with any arguments: first-in
 first-out, the capacity bound, conservation of tickets and the average.
 */
module Runs {
  import opened WaitingRoom
  import opened ReconcileLaws
  import opened SeqIndex

  /** One atomic store operation; a Reconcile comes with the order in which it met the idle sessions. */
  datatype Op =
    | TryAdmit(id: Id, cap: int, now: int)
    | Enqueue(id: Id, now: int)
    | Lookup(id: Id, now: int)
    | Touch(id: Id, now: int)
    | Reconcile(cap: int, activeTTL: int, queueTTL: int, now: int, order: seq<Id>)
    | Flush
    | SetCapacity(cap: int)
    | GetCapacity
    | GetStats

  ghost predicate Legal(r: Room, op: Op) {
    op.Reconcile? ==> IsScan(r.active, op.activeTTL, op.now, op.order)
  }

  /** The room after `op`; `slides` distinguishes the two stores (see WaitingRoom.Enqueued). */
  ghost function Apply(r: Room, op: Op, slides: bool): Room
    requires Legal(r, op)
  {
    match op
    case TryAdmit(id, cap, now) => Tried(r, id, cap, now)
    case Enqueue(id, now) => Enqueued(r, id, now, slides)
    case Lookup(id, now) => Seen(r, id, now)
    case Touch(id, now) => Touched(r, id, now)
    case Reconcile(cap, activeTTL, queueTTL, now, order) => Reconciled(r, cap, activeTTL, queueTTL, now, order)
    case Flush => Flushed(r)
    case SetCapacity(cap) => r.(override := Some(cap))
    case GetCapacity => r
    case GetStats => r
  }

  ghost predicate LegalRun(r: Room, ops: seq<Op>, slides: bool)
    decreases |ops|
  {
    ops == [] || (Legal(r, ops[0]) && LegalRun(Apply(r, ops[0], slides), ops[1..], slides))
  }

  ghost function Run(r: Room, ops: seq<Op>, slides: bool): Room
    requires LegalRun(r, ops, slides)
    decreases |ops|
  {
    if ops == [] then r else Run(Apply(r, ops[0], slides), ops[1..], slides)
  }

  lemma StepValid(r: Room, op: Op, slides: bool)
    requires r.Valid() && Legal(r, op)
    ensures Apply(r, op, slides).Valid()
  {
    hide Ordered;
    match op
    case TryAdmit(id, cap, now) => TriedValid(r, id, cap, now);
    case Enqueue(id, now) => EnqueuedValid(r, id, now, slides);
    case Lookup(id, now) => SeenValid(r, id, now);
    case Touch(id, now) => SeenValid(r, id, now);
    case Reconcile(cap, activeTTL, queueTTL, now, order) =>
      ReconciledValid(r, cap, activeTTL, queueTTL, now, order);
    case Flush =>
      assert Ordered([]) by { EmptyOrdered(); }
    case SetCapacity(cap) =>
    case GetCapacity =>
    case GetStats =>
  }

  lemma EmptyOrdered()
    ensures Ordered([])
  {
  }

  // ---------- the sequence numbers an operation promotes ----------

  /** The queue as Reconcile's promotion phase finds it, and how many it takes. */
  ghost function Line(r: Room, op: Op): seq<Waiter>
    requires op.Reconcile?
  {
    Survivors(r.queue, op.queueTTL, op.now)
  }

  ghost function Taken(r: Room, op: Op): (n: nat)
    requires op.Reconcile?
    ensures n <= |Line(r, op)|
  {
    Free(r.(active := Kept(r.active, op.activeTTL, op.now), queue := Line(r, op)), op.cap)
  }

  ghost function Promotes(r: Room, op: Op): seq<nat> {
    if op.Reconcile? then
      seq(Taken(r, op), i requires 0 <= i < Taken(r, op) => Line(r, op)[i].seqNo)
    else []
  }

  /** Every promotion of a run, in the order in which they happen. */
  ghost function PromotionLog(r: Room, ops: seq<Op>, slides: bool): seq<nat>
    requires LegalRun(r, ops, slides)
    decreases |ops|
  {
    if ops == [] then []
    else Promotes(r, ops[0]) + PromotionLog(Apply(r, ops[0], slides), ops[1..], slides)
  }

  ghost predicate HasSeq(q: seq<Waiter>, n: nat) {
    exists i :: 0 <= i < |q| && q[i].seqNo == n
  }

  /** What one operation does to the numbering. */
  lemma StepNumbers(r: Room, op: Op, slides: bool)
    requires r.Valid() && Legal(r, op)
    ensures var r' := Apply(r, op, slides);
      && r.nextSeq <= r'.nextSeq
      && (forall w :: w in r'.queue ==> HasSeq(r.queue, w.seqNo) || w.seqNo > r.nextSeq)
  {
    var r' := Apply(r, op, slides);
    if op.Reconcile? {
      SurvivorsAre(r.queue, op.queueTTL, op.now);
      forall w | w in r'.queue ensures HasSeq(r.queue, w.seqNo) {
        assert w in Line(r, op);
        assert w in r.queue;
      }
    } else {
      forall w | w in r'.queue ensures HasSeq(r.queue, w.seqNo) || w.seqNo > r.nextSeq {
        var i :| 0 <= i < |r'.queue| && r'.queue[i] == w;
        if i < |r.queue| {
          assert r.queue[i].seqNo == w.seqNo;
        }
      }
    }
  }

  /** Promotions come off the head: in order, and ahead of everybody who still waits. */
  lemma StepPromotes(r: Room, op: Op, slides: bool)
    requires r.Valid() && Legal(r, op)
    ensures var log, r' := Promotes(r, op), Apply(r, op, slides);
      && Ascending(log)
      && (forall n :: n in log ==> HasSeq(r.queue, n) && n <= r.nextSeq)
      && (forall n, w :: n in log && w in r'.queue ==> n < w.seqNo)
  {
    if op.Reconcile? {
      var line, n := Line(r, op), Taken(r, op);
      SurvivorsAre(r.queue, op.queueTTL, op.now);
      forall k | 0 <= k < n ensures HasSeq(r.queue, line[k].seqNo) && line[k].seqNo <= r.nextSeq {
        assert line[k] in r.queue;
      }
      var r' := Apply(r, op, slides);
      assert r'.queue == line[n..];
    }
  }

  /**
   First in, first out, over any run: tickets are promoted in the order of their sequence
   numbers, and every promoted number is smaller than every number still queued.
   */
  lemma {:induction false} FifoRun(r: Room, ops: seq<Op>, slides: bool)
    requires r.Valid() && LegalRun(r, ops, slides)
    ensures var log := PromotionLog(r, ops, slides);
      && Ascending(log)
      && (forall n :: n in log ==> HasSeq(r.queue, n) || n > r.nextSeq)
      && (forall n, w :: n in log && w in Run(r, ops, slides).queue ==> n < w.seqNo)
    decreases |ops|
  {
    if ops != [] {
      var op, r' := ops[0], Apply(r, ops[0], slides);
      StepValid(r, op, slides);
      FifoRun(r', ops[1..], slides);
      StepNumbers(r, op, slides);
      StepPromotes(r, op, slides);
      RunNumbers(r', ops[1..], slides);
      var now, later := Promotes(r, op), PromotionLog(r', ops[1..], slides);
      forall m | m in later ensures HasSeq(r.queue, m) || m > r.nextSeq {
        if HasSeq(r'.queue, m) {
          var i :| 0 <= i < |r'.queue| && r'.queue[i].seqNo == m;
          assert r'.queue[i] in r'.queue;
        }
      }
      AheadOf(r, r', now, later, Run(r, ops, slides).queue);
    }
  }

  lemma AheadOf(r: Room, r': Room, now: seq<nat>, later: seq<nat>, left: seq<Waiter>)
    requires Ascending(now) && Ascending(later) && r.nextSeq <= r'.nextSeq
    requires forall n :: n in now ==> n <= r.nextSeq
    requires forall n, w :: n in now && w in r'.queue ==> n < w.seqNo
    requires forall m :: m in later ==> HasSeq(r'.queue, m) || m > r'.nextSeq
    requires forall w :: w in left ==> HasSeq(r'.queue, w.seqNo) || w.seqNo > r'.nextSeq
    ensures Ascending(now + later)
    ensures forall n, w :: n in now && w in left ==> n < w.seqNo
  {
    forall n, m: nat | n in now && (HasSeq(r'.queue, m) || m > r'.nextSeq) ensures n < m {
      if HasSeq(r'.queue, m) {
        var i :| 0 <= i < |r'.queue| && r'.queue[i].seqNo == m;
        assert r'.queue[i] in r'.queue;
      }
    }
    var all := now + later;
    forall i, j | 0 <= i < j < |all| ensures all[i] < all[j] {
      if i < |now| <= j {
        assert all[i] in now && all[j] in later;
      }
    }
  }

  lemma {:induction false} RunNumbers(r: Room, ops: seq<Op>, slides: bool)
    requires r.Valid() && LegalRun(r, ops, slides)
    ensures var r' := Run(r, ops, slides);
      && r'.Valid() && r.nextSeq <= r'.nextSeq
      && (forall w :: w in r'.queue ==> HasSeq(r.queue, w.seqNo) || w.seqNo > r.nextSeq)
    decreases |ops|
  {
    if ops != [] {
      var r1 := Apply(r, ops[0], slides);
      StepValid(r, ops[0], slides);
      StepNumbers(r, ops[0], slides);
      RunNumbers(r1, ops[1..], slides);
      forall w | w in Run(r, ops, slides).queue ensures HasSeq(r.queue, w.seqNo) || w.seqNo > r.nextSeq {
        if HasSeq(r1.queue, w.seqNo) {
          var i :| 0 <= i < |r1.queue| && r1.queue[i].seqNo == w.seqNo;
          assert r1.queue[i] in r1.queue;
        }
      }
    }
  }

  // ---------- nobody overtakes, nobody is thrown out ----------

  /**
   A ticket becomes active only off the head of the queue: from inside the queue when all
   smaller numbers have left it, from outside only while nobody waits.
   */
  ghost predicate Fair(r: Room, r': Room) {
    forall id :: id in r'.active && id !in r.active ==>
      if IsQueued(r.queue, id)
      then forall w :: w in r'.queue ==> r.queue[Find(r.queue, id)].seqNo < w.seqNo
      else r.queue == []
  }

  lemma StepFair(r: Room, op: Op, slides: bool)
    requires r.Valid() && Legal(r, op)
    ensures Fair(r, Apply(r, op, slides))
  {
    if op.Reconcile? {
      forall id | id in Apply(r, op, slides).active && id !in r.active
        ensures IsQueued(r.queue, id)
        ensures forall w :: w in Apply(r, op, slides).queue ==> r.queue[Find(r.queue, id)].seqNo < w.seqNo
      {
        PromotedFromHead(r, op, slides, id);
      }
    } else {
      var r' := Apply(r, op, slides);
      assert r'.active.Keys <= r.active.Keys + (if op.TryAdmit? && r.queue == [] then {op.id} else {});
    }
  }

  lemma PromotedFromHead(r: Room, op: Op, slides: bool, id: Id)
    requires r.Valid() && Legal(r, op) && op.Reconcile?
    requires id in Apply(r, op, slides).active && id !in r.active
    ensures IsQueued(r.queue, id)
    ensures r.queue[Find(r.queue, id)].seqNo in Promotes(r, op)
    ensures forall w :: w in Apply(r, op, slides).queue ==> r.queue[Find(r.queue, id)].seqNo < w.seqNo
  {
    hide Room.Valid, Ordered, Survivors, Kept, Admitted, Ids, IsQueued, Find;
    var line, n := Line(r, op), Taken(r, op);
    StepPromotes(r, op, slides);
    ValidOrdered(r);
    KeptAmong(r.active, op.activeTTL, op.now);
    AdmittedAre(Kept(r.active, op.activeTTL, op.now), line[..n], op.now);
    var i := TakenPlace(r.queue, op.queueTTL, op.now, n, id);
    assert Promotes(r, op)[i] == line[i].seqNo;
  }

  lemma KeptAmong(active: map<Id, Session>, ttl: int, now: int)
    ensures Kept(active, ttl, now).Keys <= active.Keys
  {
  }

  /** Where one of the first `n` survivors stood in the queue. */
  lemma TakenPlace(q: seq<Waiter>, ttl: int, now: int, n: nat, id: Id) returns (i: nat)
    requires Ordered(q) && n <= |Survivors(q, ttl, now)| && id in Ids(Survivors(q, ttl, now)[..n])
    ensures i < n && IsQueued(q, id) && q[Find(q, id)] == Survivors(q, ttl, now)[i]
  {
    hide Ordered, Survivors, Ids;
    var line := Survivors(q, ttl, now);
    IdsQueued(line[..n], id);
    i :| 0 <= i < n && line[..n][i].id == id;
    SurvivorsAre(q, ttl, now);
    assert line[i] in q;
    var k :| 0 <= k < |q| && q[k] == line[i];
    FindAt(q, k);
  }

  lemma ValidOrdered(r: Room)
    requires r.Valid()
    ensures Ordered(r.queue)
  {
  }

  /** A session ends only by its own idleness; in particular lowering the capacity ends none. */
  lemma OnlyIdleLeave(r: Room, op: Op, slides: bool, id: Id)
    requires r.Valid() && Legal(r, op) && id in r.active
    ensures id !in Apply(r, op, slides).active
       <==> op.Reconcile? && Idle(r.active[id], op.activeTTL, op.now)
    ensures id in Apply(r, op, slides).active ==>
      Apply(r, op, slides).active[id].admittedAt == r.active[id].admittedAt
  {
    if op.Reconcile? {
      ExactEffect(r, op.cap, op.activeTTL, op.queueTTL, op.now, op.order, id);
    }
  }

  // ---------- the capacity bound ----------

  function Passed(op: Op): int {
    if op.TryAdmit? || op.Reconcile? then op.cap else 0
  }

  /** The largest capacity any operation of the run was given. */
  function Peak(ops: seq<Op>): int {
    if ops == [] then 0 else Max(Passed(ops[0]), Peak(ops[1..]))
  }

  /** An operation that lets anybody in ends within the capacity it was given. */
  lemma StepBound(r: Room, op: Op, slides: bool)
    requires r.Valid() && Legal(r, op)
    ensures |Apply(r, op, slides).active| <= Max(|r.active|, Passed(op))
  {
    if op.Reconcile? {
      var mid := r.(active := Kept(r.active, op.activeTTL, op.now), queue := Line(r, op));
      ExpiredValid(r, op.activeTTL, op.now, op.order);
      EvictedValid(Expired(r, op.activeTTL, op.now, op.order), op.queueTTL, op.now);
      PromotedValid(Evicted(Expired(r, op.activeTTL, op.now, op.order), op.queueTTL, op.now), op.cap, op.now);
      assert mid.active.Keys <= r.active.Keys;
      SubsetSize(mid.active.Keys, r.active.Keys);
      assert |mid.active| == |mid.active.Keys| && |r.active| == |r.active.Keys|;
    } else if op.TryAdmit? && op.id !in r.active {
      assert r.active[op.id := Session(op.now, op.now)].Keys == r.active.Keys + {op.id};
    } else {
      assert Apply(r, op, slides).active.Keys == r.active.Keys;
      assert |Apply(r, op, slides).active| == |r.active.Keys|;
    }
  }

  /** Whoever lets somebody in leaves at most as many active as the capacity it was given. */
  lemma ActivationWithinCap(r: Room, op: Op, slides: bool, id: Id)
    requires r.Valid() && Legal(r, op)
    requires id in Apply(r, op, slides).active && id !in r.active
    ensures |Apply(r, op, slides).active| <= Passed(op)
  {
    if op.Reconcile? {
      hide Room.Valid, Ordered, Survivors, Kept, Ids, IsQueued, Find;
      PromotedFromHead(r, op, slides, id);
      ExpiredValid(r, op.activeTTL, op.now, op.order);
      EvictedValid(Expired(r, op.activeTTL, op.now, op.order), op.queueTTL, op.now);
      PromotedValid(Evicted(Expired(r, op.activeTTL, op.now, op.order), op.queueTTL, op.now), op.cap, op.now);
    } else {
      assert Apply(r, op, slides).active.Keys <= r.active.Keys + (if op.TryAdmit? then {op.id} else {});
    }
  }

  lemma {:induction false} SubsetSize(a: set<Id>, b: set<Id>)
    requires a <= b
    ensures |a| <= |b|
  {
    assert b == a + (b - a);
  }

  /** Capacities may change from call to call: the active set never outgrows the largest of them. */
  lemma {:induction false} CapacityRun(r: Room, ops: seq<Op>, slides: bool)
    requires r.Valid() && LegalRun(r, ops, slides)
    ensures |Run(r, ops, slides).active| <= Max(|r.active|, Peak(ops))
    decreases |ops|
  {
    if ops != [] {
      StepValid(r, ops[0], slides);
      StepBound(r, ops[0], slides);
      CapacityRun(Apply(r, ops[0], slides), ops[1..], slides);
    }
  }

  // ---------- conservation ----------

  /** What a run did to the two populations. */
  datatype Tally = Tally(joined: int, promoted: int, evicted: int, flushed: int, direct: int, expired: int) {
    function Plus(t: Tally): Tally {
      Tally(joined + t.joined, promoted + t.promoted, evicted + t.evicted,
            flushed + t.flushed, direct + t.direct, expired + t.expired)
    }
  }

  /** The tally of one operation, from what it reports to its caller and whom it was about. */
  function Count(r: Room, op: Op): Tally {
    match op
    case TryAdmit(id, cap, _) =>
      Tally(0, 0, 0, 0, if id !in r.active && Admits(r, id, cap) then 1 else 0, 0)
    case Enqueue(id, _) =>
      Tally(if id !in r.active && !IsQueued(r.queue, id) then 1 else 0, 0, 0, 0, 0, 0)
    case Reconcile(cap, activeTTL, queueTTL, now, _) =>
      var report := Report(r, cap, activeTTL, queueTTL, now);
      Tally(0, report.promoted, report.evicted, 0, 0, report.expired)
    case Flush => Tally(0, 0, 0, |r.queue|, 0, 0)
    case _ => Tally(0, 0, 0, 0, 0, 0)
  }

  ghost function CountAll(r: Room, ops: seq<Op>, slides: bool): Tally
    requires LegalRun(r, ops, slides)
    decreases |ops|
  {
    if ops == [] then Tally(0, 0, 0, 0, 0, 0)
    else Count(r, ops[0]).Plus(CountAll(Apply(r, ops[0], slides), ops[1..], slides))
  }

  /** The books of the queue, of the active set and of the sequence counter balance. */
  ghost predicate Balances(r: Room, t: Tally, r': Room) {
    && r'.nextSeq == r.nextSeq + t.joined
    && |r'.queue| == |r.queue| + t.joined - t.promoted - t.evicted - t.flushed
    && |r'.active| == |r.active| + t.promoted + t.direct - t.expired
  }

  lemma StepBalances(r: Room, op: Op, slides: bool)
    requires r.Valid() && Legal(r, op)
    ensures Balances(r, Count(r, op), Apply(r, op, slides))
  {
    if op.Reconcile? {
      ReconcileBalances(r, op, slides);
    } else {
      var r' := Apply(r, op, slides);
      SizeOfSeen(r, if op.TryAdmit? || op.Enqueue? || op.Lookup? || op.Touch? then op.id else "",
                 if op.TryAdmit? || op.Enqueue? || op.Lookup? || op.Touch? then op.now else 0);
      if op.TryAdmit? && op.id !in r.active && Admits(r, op.id, op.cap) {
        assert r'.active.Keys == r.active.Keys + {op.id};
        assert |r'.active| == |r'.active.Keys|;
      }
    }
  }

  lemma ReconcileBalances(r: Room, op: Op, slides: bool)
    requires r.Valid() && Legal(r, op) && op.Reconcile?
    ensures Balances(r, Count(r, op), Apply(r, op, slides))
  {
    hide Room.Valid;
    ExpiredValid(r, op.activeTTL, op.now, op.order);
    EvictedValid(Expired(r, op.activeTTL, op.now, op.order), op.queueTTL, op.now);
    PromotedValid(Evicted(Expired(r, op.activeTTL, op.now, op.order), op.queueTTL, op.now), op.cap, op.now);
  }

  /** Tickets are conserved: nobody enters or leaves either population uncounted, over any run. */
  lemma {:induction false} Conservation(r: Room, ops: seq<Op>, slides: bool)
    requires r.Valid() && LegalRun(r, ops, slides)
    ensures Balances(r, CountAll(r, ops, slides), Run(r, ops, slides))
    decreases |ops|
  {
    if ops != [] {
      StepValid(r, ops[0], slides);
      StepBalances(r, ops[0], slides);
      Conservation(Apply(r, ops[0], slides), ops[1..], slides);
    }
  }

  // ---------- longest wait first, over a run ----------

  /** The clock of the Enqueue calls does not run backwards. */
  ghost predicate EnqueuesInOrder(ops: seq<Op>) {
    forall i, j :: 0 <= i < j < |ops| && ops[i].Enqueue? && ops[j].Enqueue? ==> ops[i].now <= ops[j].now
  }

  /** Nobody in the queue was enqueued later than an Enqueue still to come. */
  ghost predicate EnqueuedBefore(q: seq<Waiter>, ops: seq<Op>) {
    forall w, op :: w in q && op in ops && op.Enqueue? ==> w.enqueuedAt <= op.now
  }

  /** Every pass of the run reports the waits of those it lets in longest first. */
  ghost predicate LongestFirst(r: Room, ops: seq<Op>, slides: bool)
    requires LegalRun(r, ops, slides)
    decreases |ops|
  {
    ops == [] ||
    var op := ops[0];
    && (op.Reconcile? ==> Falling(Report(r, op.cap, op.activeTTL, op.queueTTL, op.now).waitedSecs))
    && LongestFirst(Apply(r, op, slides), ops[1..], slides)
  }

  lemma StepKeepsClock(r: Room, ops: seq<Op>, slides: bool)
    requires ops != [] && Legal(r, ops[0]) && EnqueuesInOrder(ops)
    requires EnqueueClock(r.queue) && EnqueuedBefore(r.queue, ops)
    ensures EnqueueClock(Apply(r, ops[0], slides).queue)
    ensures EnqueuedBefore(Apply(r, ops[0], slides).queue, ops[1..])
  {
    var op, q := ops[0], Apply(r, ops[0], slides).queue;
    if op.Reconcile? {
      SurvivorsKeepClock(r.queue, op.queueTTL, op.now);
      SurvivorsAre(r.queue, op.queueTTL, op.now);
      hide Survivors, Admitted, Kept, Report;
      assert forall w :: w in q ==> w in Line(r, op);
      assert forall w :: w in Line(r, op) ==> w in r.queue;
    } else {
      hide EnqueueClock, EnqueuedBefore, EnqueuesInOrder;
      TailKeepsClock(r.queue, q, ops);
    }
  }

  /** Keeping the enqueue times of those in the queue, and giving a new one the time of its Enqueue. */
  lemma TailKeepsClock(q: seq<Waiter>, q': seq<Waiter>, ops: seq<Op>)
    requires ops != [] && EnqueuesInOrder(ops) && EnqueueClock(q) && EnqueuedBefore(q, ops)
    requires forall i :: 0 <= i < |q'| ==>
      if i < |q| then q'[i].enqueuedAt == q[i].enqueuedAt
      else i == |q| && ops[0].Enqueue? && q'[i].enqueuedAt == ops[0].now
    ensures EnqueueClock(q') && EnqueuedBefore(q', ops[1..])
  {
    forall w, op | w in q' && op in ops[1..] && op.Enqueue? ensures w.enqueuedAt <= op.now {
      var i, j :| 0 <= i < |q'| && q'[i] == w && 0 <= j < |ops| - 1 && ops[1..][j] == op;
      assert ops[j + 1] == op;
      if i < |q| {
        assert q[i] in q && op in ops;
      }
    }
    forall i, j | 0 <= i < j < |q'| ensures q'[i].enqueuedAt <= q'[j].enqueuedAt {
      if j == |q| {
        assert q[i] in q && ops[0] in ops;
      }
    }
  }

  /** With enqueue times in order, every pass of every run lets the longest waits in first. */
  lemma {:induction false} WaitsFallInRun(r: Room, ops: seq<Op>, slides: bool)
    requires LegalRun(r, ops, slides) && EnqueuesInOrder(ops)
    requires EnqueueClock(r.queue) && EnqueuedBefore(r.queue, ops)
    ensures LongestFirst(r, ops, slides)
    decreases |ops|
  {
    if ops != [] {
      var op := ops[0];
      StepKeepsClock(r, ops, slides);
      if op.Reconcile? {
        WaitsFall(r, op.cap, op.activeTTL, op.queueTTL, op.now);
      }
      WaitsFallInRun(Apply(r, op, slides), ops[1..], slides);
    }
  }

  /** In particular from an empty store. */
  lemma WaitsFallFromEmpty(ops: seq<Op>, slides: bool)
    requires LegalRun(EMPTY, ops, slides) && EnqueuesInOrder(ops)
    ensures LongestFirst(EMPTY, ops, slides)
  {
    WaitsFallInRun(EMPTY, ops, slides);
  }

  // ---------- the average over a run ----------

  /** The durations of the sessions an operation completes, in the order in which it meets them. */
  ghost function Ended(r: Room, op: Op): seq<real>
    requires Legal(r, op)
  {
    if op.Reconcile? then Durations(r.active, op.order) else []
  }

  /** The durations of all sessions a run completes, as the stores meet them. */
  ghost function Completed(r: Room, ops: seq<Op>, slides: bool): seq<real>
    requires LegalRun(r, ops, slides)
    decreases |ops|
  {
    if ops == [] then []
    else Ended(r, ops[0]) + Completed(Apply(r, ops[0], slides), ops[1..], slides)
  }

  lemma {:induction false} AverageOfRun(r: Room, ops: seq<Op>, slides: bool)
    requires LegalRun(r, ops, slides)
    ensures Run(r, ops, slides).avg == EmaAll(r.avg, Completed(r, ops, slides))
    decreases |ops|
  {
    if ops != [] {
      hide Apply, EmaAll, Durations;
      var r' := Apply(r, ops[0], slides);
      AverageOfRun(r', ops[1..], slides);
      EmaConcat(r.avg, Ended(r, ops[0]), Completed(r', ops[1..], slides));
      AverageOfStep(r, ops[0], slides);
    }
  }

  lemma AverageOfStep(r: Room, op: Op, slides: bool)
    requires Legal(r, op)
    ensures EmaAll(Apply(r, op, slides).avg, []) == Apply(r, op, slides).avg == EmaAll(r.avg, Ended(r, op))
    ensures EmaAll(r.avg, []) == r.avg
  {
  }

  /** From an empty room, the average lies among the completed durations as soon as there is one. */
  lemma AverageInHull(ops: seq<Op>, slides: bool)
    requires LegalRun(EMPTY, ops, slides)
    ensures var ds := Completed(EMPTY, ops, slides);
      if ds == [] then Run(EMPTY, ops, slides).avg == 0.0 else InHull(Run(EMPTY, ops, slides).avg, ds)
  {
    AverageOfRun(EMPTY, ops, slides);
    if Completed(EMPTY, ops, slides) != [] {
      EmaInHull(Completed(EMPTY, ops, slides));
    }
  }
}
