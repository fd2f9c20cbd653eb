/**
 The two stores behind one interface.  Run side by side they give the same answers and
 stay in agreement, with one exception that is a real difference of the code: enqueueing
 an already active ticket refreshes its session in process memory but not in Valkey.
 */
module Conformance {
  import opened WaitingRoom
  import opened ReconcileLaws
  import opened Runs
  import Memory
  import Valkey

  datatype Answer =
    | Flag(b: bool)
    | View(snap: Snapshot)
    | Pass(report: ReconcileResult)
    | Removed(n: nat)
    | Done
    | Override(value: Option<int>)
    | Summary(queueLength: int, activeCount: int)  // the average aside

  /** What a store answers. */
  function AnswerOf(r: Room, op: Op): Answer {
    match op
    case TryAdmit(id, cap, _) => Flag(Admits(r, id, cap))
    case Enqueue(id, now) => View(Snap(Enqueued(r, id, now, false), id))
    case Lookup(id, _) => View(Snap(r, id))
    case Touch(id, _) => Flag(id in r.active)
    case Reconcile(cap, activeTTL, queueTTL, now, _) => Pass(Report(r, cap, activeTTL, queueTTL, now))
    case Flush => Removed(|r.queue|)
    case SetCapacity(_) => Done
    case GetCapacity => Override(r.override)
    case GetStats => Summary(|r.queue|, |r.active|)
  }

  /** The same call; the order in which a Reconcile meets the idle sessions is the store's own. */
  predicate SameCall(a: Op, b: Op) {
    if a.Reconcile? then b.Reconcile? && b.(order := a.order) == a else a == b
  }

  /** Equal but for the average, which depends on the order of the scan. */
  predicate Agree(a: Room, b: Room) {
    a == b.(avg := a.avg)
  }

  /** The one call on which the stores part: it moves an active ticket's lastSeen in one of them only. */
  predicate Parts(r: Room, op: Op) {
    op.Enqueue? && op.id in r.active && r.active[op.id].lastSeen != op.now
  }

  lemma SlideSeen(r: Room, id: Id, now: int)
    requires id in r.active
    ensures Snap(Seen(r, id, now), id) == Snap(r, id)
    ensures Seen(r, id, now) == r <==> r.active[id].lastSeen == now
  {
    var s := Seen(r, id, now);
    assert s.active.Keys == r.active.Keys;
    assert |s.active.Keys| == |s.active|;
    if r.active[id].lastSeen == now {
      assert s.active == r.active;
    } else {
      assert s.active[id] != r.active[id];
    }
  }

  /** From agreeing rooms both stores answer alike, and agree afterwards unless the call parts them. */
  lemma StepAgrees(a: Room, b: Room, x: Op, y: Op)
    requires Agree(a, b) && SameCall(x, y) && Legal(a, x) && Legal(b, y)
    ensures AnswerOf(a, x) == AnswerOf(b, y)
    ensures Agree(Apply(a, x, true), Apply(b, y, false)) <==> !Parts(a, x)
    ensures a == b && x == y && !Parts(a, x) ==> Apply(a, x, true) == Apply(b, y, false)
  {
    if x.Reconcile? {
      PassesAgree(a, b, x, y);
    } else {
      hide Reconciled, Report, Find, IsScan;
      if x.Enqueue? && x.id in a.active {
        SlideSeen(a, x.id, x.now);
      }
    }
  }

  /** The order of the scan reaches nothing but the average. */
  lemma PassesAgree(a: Room, b: Room, x: Op, y: Op)
    requires Agree(a, b) && x.Reconcile? && SameCall(x, y) && Legal(a, x) && Legal(b, y)
    ensures AnswerOf(a, x) == AnswerOf(b, y)
    ensures Agree(Apply(a, x, true), Apply(b, y, false))
    ensures a == b && x == y ==> Apply(a, x, true) == Apply(b, y, false)
  {
    hide Survivors, Admitted, Kept, EmaAll, Durations;
  }

  ghost predicate SameCalls(xs: seq<Op>, ys: seq<Op>) {
    |xs| == |ys| && forall i :: 0 <= i < |xs| ==> SameCall(xs[i], ys[i])
  }

  /** No call of the run is of the parting kind. */
  ghost predicate Together(r: Room, ops: seq<Op>)
    requires LegalRun(r, ops, true)
    decreases |ops|
  {
    ops == [] || (!Parts(r, ops[0]) && Together(Apply(r, ops[0], true), ops[1..]))
  }

  ghost function Answers(r: Room, ops: seq<Op>, slides: bool): seq<Answer>
    requires LegalRun(r, ops, slides)
    decreases |ops|
  {
    if ops == [] then [] else [AnswerOf(r, ops[0])] + Answers(Apply(r, ops[0], slides), ops[1..], slides)
  }

  /** Conformance of whole runs: the same calls on both stores give the same answers throughout. */
  lemma {:induction false} RunsAgree(a: Room, b: Room, xs: seq<Op>, ys: seq<Op>)
    requires Agree(a, b) && SameCalls(xs, ys)
    requires LegalRun(a, xs, true) && LegalRun(b, ys, false) && Together(a, xs)
    ensures Answers(a, xs, true) == Answers(b, ys, false)
    ensures Agree(Run(a, xs, true), Run(b, ys, false))
    decreases |xs|
  {
    if xs != [] {
      StepAgrees(a, b, xs[0], ys[0]);
      RunsAgree(Apply(a, xs[0], true), Apply(b, ys[0], false), xs[1..], ys[1..]);
    }
  }

  ghost predicate TogetherShared(r: Room, ops: seq<Op>)
    requires LegalRun(r, ops, false)
    decreases |ops|
  {
    ops == [] || (!Parts(r, ops[0]) && TogetherShared(Apply(r, ops[0], false), ops[1..]))
  }

  /**
   Simulation: every run of the shared store is a run of the in-process store, average
   included, for the map order that visits idle sessions as the sorted set does.
   */
  lemma {:induction false} SharedRunIsMemoryRun(r: Room, ops: seq<Op>)
    requires LegalRun(r, ops, false) && TogetherShared(r, ops)
    ensures LegalRun(r, ops, true)
    ensures Run(r, ops, true) == Run(r, ops, false)
    decreases |ops|
  {
    if ops != [] {
      StepAgrees(r, r, ops[0], ops[0]);
      SharedRunIsMemoryRun(Apply(r, ops[0], false), ops[1..]);
    }
  }

  /**
   The difference is visible: a session idle since before the window, enqueued again
   within it, survives the next pass in process memory and is gone in Valkey.
   */
  lemma PartingShows(r: Room, id: Id, t: int, kept: Op, gone: Op)
    requires r.Valid() && id in r.active && kept.Reconcile? && SameCall(kept, gone)
    requires Legal(Apply(r, Op.Enqueue(id, t), true), kept) && Legal(Apply(r, Op.Enqueue(id, t), false), gone)
    requires r.active[id].lastSeen < kept.now - kept.activeTTL <= t
    ensures Snap(Apply(Apply(r, Op.Enqueue(id, t), true), kept, true), id).status == Active
    ensures Snap(Apply(Apply(r, Op.Enqueue(id, t), false), gone, false), id).status == Unknown
  {
    hide Ordered;
    StepValid(r, Op.Enqueue(id, t), true);
    ExactEffect(Apply(r, Op.Enqueue(id, t), true), kept.cap, kept.activeTTL, kept.queueTTL, kept.now, kept.order, id);
    ExactEffect(r, gone.cap, gone.activeTTL, gone.queueTTL, gone.now, gone.order, id);
  }

  lemma EnqueueAnswer(r: Room, id: Id, now: int)
    ensures Snap(Enqueued(r, id, now, true), id) == Snap(Enqueued(r, id, now, false), id)
  {
    if id in r.active {
      SlideSeen(r, id, now);
    }
  }

  // ---------- the classes, side by side ----------

  /** Any call on the in-process store; `done` is the call with the order its map yielded. */
  method Perform(m: Memory.Store, op: Op) returns (a: Answer, ghost done: Op)
    requires m.Valid()
    modifies m, m.Repr
    ensures m.Valid() && fresh(m.Repr - old(m.Repr))
    ensures SameCall(op, done) && Legal(old(m.room), done)
    ensures m.room == Apply(old(m.room), done, true)
    ensures a == AnswerOf(old(m.room), done)
  {
    hide Memory.Store.Valid, Snap, Enqueued, Seen, Tried, Touched, Reconciled, Report, Admits, IsScan;
    done := op;
    match op
    case TryAdmit(id, cap, now) =>
      var ok := m.TryAdmit(id, cap, now);
      a := Flag(ok);
    case Enqueue(id, now) =>
      EnqueueAnswer(m.room, id, now);
      var snap := m.Enqueue(id, now);
      a := View(snap);
    case Lookup(id, now) =>
      var snap := m.Lookup(id, now);
      a := View(snap);
    case Touch(id, now) =>
      var ok := m.Touch(id, now);
      a := Flag(ok);
    case Reconcile(cap, activeTTL, queueTTL, now, _) =>
      ghost var order;
      var report;
      report, order := m.Reconcile(cap, activeTTL, queueTTL, now);
      done := Op.Reconcile(cap, activeTTL, queueTTL, now, order);
      a := Pass(report);
    case Flush =>
      var n := m.Flush();
      a := Removed(n);
    case SetCapacity(cap) =>
      m.SetCapacity(cap);
      a := Done;
    case GetCapacity =>
      var cap, isSet := m.GetCapacity();
      a := Override(if isSet then Some(cap) else None);
    case GetStats =>
      var stats := m.GetStats();
      a := Summary(stats.queueLength, stats.activeCount);
  }

  /** Any call on the shared store. */
  method PerformShared(v: Valkey.Store, op: Op) returns (a: Answer, ghost done: Op)
    requires v.Valid()
    modifies v
    ensures v.Valid()
    ensures SameCall(op, done) && Legal(old(v.room), done)
    ensures v.room == Apply(old(v.room), done, false)
    ensures a == AnswerOf(old(v.room), done)
  {
    hide Valkey.Store.Valid, Snap, Enqueued, Seen, Tried, Touched, Reconciled, Report, Admits, IsScan;
    done := op;
    match op
    case TryAdmit(id, cap, now) =>
      var ok := v.TryAdmit(id, cap, now);
      a := Flag(ok);
    case Enqueue(id, now) =>
      var snap := v.Enqueue(id, now);
      a := View(snap);
    case Lookup(id, now) =>
      var snap := v.Lookup(id, now);
      a := View(snap);
    case Touch(id, now) =>
      var ok := v.Touch(id, now);
      a := Flag(ok);
    case Reconcile(cap, activeTTL, queueTTL, now, _) =>
      ghost var order;
      var report;
      report, order := v.Reconcile(cap, activeTTL, queueTTL, now);
      done := Op.Reconcile(cap, activeTTL, queueTTL, now, order);
      a := Pass(report);
    case Flush =>
      var n := v.Flush();
      a := Removed(n);
    case SetCapacity(cap) =>
      v.SetCapacity(cap);
      a := Done;
    case GetCapacity =>
      var cap, isSet := v.GetCapacity();
      a := Override(if isSet then Some(cap) else None);
    case GetStats =>
      var stats := v.GetStats();
      a := Summary(stats.queueLength, stats.activeCount);
  }

  /** One call on both: equal answers always, agreement afterwards exactly if the call does not part them. */
  method Lockstep(m: Memory.Store, v: Valkey.Store, op: Op) returns (am: Answer, av: Answer)
    requires m.Valid() && v.Valid() && Agree(m.room, v.room)
    modifies m, m.Repr, v
    ensures m.Valid() && v.Valid() && fresh(m.Repr - old(m.Repr))
    ensures am == av
    ensures Agree(m.room, v.room) <==> !Parts(old(m.room), op)
  {
    hide Memory.Store.Valid, Valkey.Store.Valid, Apply, AnswerOf, Legal;
    ghost var x, y;
    am, x := Perform(m, op);
    av, y := PerformShared(v, op);
    StepAgrees(old(m.room), old(v.room), x, y);
  }
}
