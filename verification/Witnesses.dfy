/**
 The conditions in Replicas are needed: runs from the initial state in which a promise
 fails that the code keeps only while no two Checks of one ticket overlap.
 */
module Witnesses {
  import opened WaitingRoom
  import opened Admission
  import opened Runs
  import opened ReconcileLaws
  import opened Replicas
  import opened Sequential

  ghost predicate Reachable(w: World, s: Sys) {
    exists steps :: Leads(w, Init(w), steps, s)
  }

  lemma InitReachable(w: World)
    ensures Reachable(w, Init(w))
  {
    NoStep(w, Init(w));
  }

  lemma StepReachable(w: World, s: Sys, step: Step)
    requires WellFormed(w, s) && Reachable(w, s) && Enabled(w, s, step)
    ensures WellFormed(w, Do(w, s, step)) && Reachable(w, Do(w, s, step))
  {
    hide Enabled, Do, WellFormed, Init, Leads;
    var steps :| Leads(w, Init(w), steps, s);
    OneMore(w, Init(w), steps, s, step);
  }

  // ---------- small steps ----------

  /** Only call `i` has moved, and no capacity was cached. */
  ghost predicate OnlyMoved(s: Sys, s': Sys, i: nat)
    requires i < |s.calls|
  {
    && |s'.calls| == |s.calls| && s'.cached == s.cached
    && (forall k :: 0 <= k < |s.calls| && k != i ==> s'.calls[k] == s.calls[k])
    && s'.calls[i] == s.calls[i].(pc := s'.calls[i].pc, end := s'.calls[i].end)
  }

  lemma Acting(w: World, s: Sys, i: nat, order: seq<Id>, m: Move) returns (s': Sys)
    requires WellFormed(w, s) && Reachable(w, s)
    requires i < |s.calls| && Running(s.calls[i]) && m == MoveOf(w, s, i, order) && m.cache.None?
    requires m.op.Some? ==> Legal(s.room, m.op.value)
    ensures WellFormed(w, s') && Reachable(w, s') && OnlyMoved(s, s', i) && s'.calls[i].pc == m.pc
    ensures s'.room == if m.op.Some? then Apply(s.room, m.op.value, w.slides) else s.room
    ensures var k := s.calls[i].replica; s'.metrics == s.metrics[k := s.metrics[k].Plus(m.counts)]
    ensures m.op.Some? && m.op.value.TryAdmit? && m.op.value.id in s.room.active ==> s'.rejoins == s.rejoins + 1
    ensures !(m.op.Some? && m.op.value.TryAdmit?) ==> s'.rejoins == s.rejoins
    ensures m.op.Some? && m.op.value.TryAdmit? && m.op.value.id !in s.room.active ==> s'.rejoins == s.rejoins
  {
    hide Next, Apply, Promotes, Count, Legal, Reachable;
    StepReachable(w, s, Advance(i, order));
    s' := Do(w, s, Advance(i, order));
  }

  lemma Starting(w: World, s: Sys, task: Task, now: int, skip: bool) returns (s': Sys)
    requires WellFormed(w, s) && Reachable(w, s) && w.cfgs != []
    requires Asks(task) && w.solo == iset{}
    ensures WellFormed(w, s') && Reachable(w, s')
    ensures |s'.calls| == |s.calls| + 1 && s'.calls[..|s.calls|] == s.calls
    ensures var c := s'.calls[|s.calls|];
      c.replica == 0 && c.task == task && c.now == now && c.pc == FirstPc(task, skip)
    ensures s'.room == s.room && s'.cached == s.cached && s'.metrics == s.metrics && s'.rejoins == s.rejoins
  {
    hide Reachable, FirstPc;
    StepReachable(w, s, Start(0, task, now, skip));
    s' := Do(w, s, Start(0, task, now, skip));
  }

  /** A Check whose ticket is unknown looks it up and loads the capacity. */
  lemma GoesToTry(w: World, s: Sys, i: nat) returns (s': Sys)
    requires WellFormed(w, s) && Reachable(w, s) && i < |s.calls|
    requires s.calls[i].task.CheckTask? && s.calls[i].pc == Look && Absent(s.room, s.calls[i].task.id)
    ensures WellFormed(w, s') && Reachable(w, s') && OnlyMoved(s, s', i)
    ensures s'.calls[i].pc == Try(Snap(s.room, s.calls[i].task.id), s.cached[s.calls[i].replica])
    ensures s'.room == s.room && s'.metrics == s.metrics && s'.rejoins == s.rejoins
  {
    hide WellFormed, Reachable, Find;
    var c, snap := s.calls[i], Snap(s.room, s.calls[i].task.id);
    CallFits(w, s, i);
    var s1 := Acting(w, s, i, [], Acts(Op.Lookup(c.task.id, c.now), LoadAdmitCapacity(snap)));
    assert s1.room == s.room && s1.metrics == s.metrics;
    s' := Acting(w, s1, i, [], Silent(Try(snap, s.cached[c.replica])));
    assert s'.metrics == s.metrics;
  }

  lemma CallFits(w: World, s: Sys, i: nat)
    requires WellFormed(w, s) && i < |s.calls|
    ensures s.calls[i].replica < |w.cfgs| == |s.metrics| == |s.cached|
  {
  }

  // ---------- a ticket admitted twice ----------

  /**
   Two Checks of one ticket that overlap on an empty room both look it up before either
   admits it: the second admission is a rejoin.  Two admissions are published for one active
   ticket, so the exact law of ExactAtRest fails where ConservationAtRest holds.
   */
  lemma OverlapRejoins(w: World, id: Id) returns (steps: seq<Step>)
    requires |w.cfgs| == 1 && w.cfgs[0].capacity >= 1 && w.solo == iset{}
    ensures LegalSteps(w, Init(w), steps)
    ensures var s := After(w, Init(w), steps);
      && Quiescent(s) && s.rejoins == 1 && |s.room.active| == 1
      && Total(s.metrics) == Counters(2, 0, 0)
  {
    hide WellFormed, Reachable, Total, LegalSteps, After, Init;
    var s := BothTry(w, id);
    hide Snap;
    s := Admitting(w, s, 0, 0);
    s := Admitting(w, s, 1, 1);
    s := Counting(w, s, 0);
    s := Counting(w, s, 1);
    steps := HowReached(w, s);
    OneTotal(Counters(2, 0, 0));
    assert s.metrics == [Counters(2, 0, 0)];
    assert s.room.active.Keys == {id} && |s.room.active.Keys| == 1;
  }

  lemma BothTry(w: World, id: Id) returns (s: Sys)
    requires |w.cfgs| == 1 && w.cfgs[0].capacity >= 1 && w.solo == iset{}
    ensures WellFormed(w, s) && Reachable(w, s) && s.room == EMPTY && s.metrics == [ZERO] && s.rejoins == 0
    ensures |s.calls| == 2 && forall i :: 0 <= i < 2 ==>
      && s.calls[i].replica == 0 && s.calls[i].task == CheckTask(id)
      && s.calls[i].pc.Try? && s.calls[i].pc.cap >= 1
  {
    hide WellFormed, Reachable;
    InitReachable(w);
    s := Starting(w, Init(w), CheckTask(id), 0, true);
    s := Starting(w, s, CheckTask(id), 0, true);
    s := GoesToTry(w, s, 0);
    s := GoesToTry(w, s, 1);
  }

  lemma HowReached(w: World, s: Sys) returns (steps: seq<Step>)
    requires Reachable(w, s)
    ensures LegalSteps(w, Init(w), steps) && After(w, Init(w), steps) == s
  {
    steps :| Leads(w, Init(w), steps, s);
  }

  lemma OneTotal(c: Counters)
    ensures Total([c]) == c
  {
    assert Total([]) == ZERO;
  }

  /** A TryAdmit that succeeds: again (`rejoined` 1) or for the first time. */
  lemma Admitting(w: World, s: Sys, i: nat, rejoined: int) returns (s': Sys)
    requires WellFormed(w, s) && Reachable(w, s) && i < |s.calls|
    requires s.calls[i].task.CheckTask? && s.calls[i].pc.Try?
    requires Admits(s.room, s.calls[i].task.id, s.calls[i].pc.cap)
    requires rejoined == if s.calls[i].task.id in s.room.active then 1 else 0
    ensures WellFormed(w, s') && Reachable(w, s') && OnlyMoved(s, s', i)
    ensures s'.calls[i].pc == CountAdmission(s.calls[i].pc.snap)
    ensures s'.room == Tried(s.room, s.calls[i].task.id, s.calls[i].pc.cap, s.calls[i].now)
    ensures s'.room.active.Keys == s.room.active.Keys + {s.calls[i].task.id} && s'.room.queue == s.room.queue
    ensures s'.metrics == s.metrics && s'.rejoins == s.rejoins + rejoined
  {
    hide WellFormed, Reachable, Find;
    var c := s.calls[i];
    CallFits(w, s, i);
    s' := Acting(w, s, i, [], Acts(Op.TryAdmit(c.task.id, c.pc.cap, c.now), CountAdmission(c.pc.snap)));
    assert s'.metrics == s.metrics;
  }

  lemma Counting(w: World, s: Sys, i: nat) returns (s': Sys)
    requires WellFormed(w, s) && Reachable(w, s) && i < |s.calls|
    requires s.calls[i].pc.CountAdmission?
    ensures WellFormed(w, s') && Reachable(w, s') && OnlyMoved(s, s', i) && !Running(s'.calls[i])
    ensures s'.room == s.room && s'.rejoins == s.rejoins
    ensures var k := s.calls[i].replica; k < |s.metrics| && s'.metrics == s.metrics[k := s.metrics[k].Plus(Counters(1, 0, 0))]
  {
    hide WellFormed, Reachable;
    CallFits(w, s, i);
    s' := Acting(w, s, i, [], MoveOf(w, s, i, []));
  }

  // ---------- a Wait for a ticket already let in ----------

  /** A session that fills the only slot, and two Checks of another ticket that it has turned away. */
  ghost predicate BothRefused(w: World, s: Sys, full: Id, id: Id, late: int) {
    && WellFormed(w, s) && Reachable(w, s)
    && s.room == EMPTY.(active := map[full := Session(0, 0)]) && |s.cached| >= 1 && s.cached[0] == 1
    && |s.calls| == 3
    && forall i :: 1 <= i < 3 ==> IsCall(s.calls[i], CheckTask(id), late, Join)
  }

  predicate IsCall(c: Call, task: Task, now: int, pc: Pc) {
    c.replica == 0 && c.task == task && c.now == now && c.pc == pc
  }

  lemma SlotTaken(w: World, full: Id) returns (s: Sys)
    requires w.cfgs != [] && w.cfgs[0].capacity == 1 && w.solo == iset{}
    ensures WellFormed(w, s) && Reachable(w, s)
    ensures s.room == EMPTY.(active := map[full := Session(0, 0)]) && |s.calls| == 1
    ensures |s.cached| >= 1 && s.cached[0] == 1
  {
    hide WellFormed, Reachable;
    InitReachable(w);
    s := Starting(w, Init(w), CheckTask(full), 0, true);
    s := GoesToTry(w, s, 0);
    s := Admitting(w, s, 0, 0);
  }

  lemma TwoRefused(w: World, full: Id, id: Id, late: int) returns (s: Sys)
    requires w.cfgs != [] && w.cfgs[0].capacity == 1 && w.solo == iset{} && full != id
    ensures BothRefused(w, s, full, id, late)
  {
    hide WellFormed, Reachable, Snap, Init;
    s := SlotTaken(w, full);
    ghost var r := s.room;
    s := Starting(w, s, CheckTask(id), late, true);
    s := Starting(w, s, CheckTask(id), late, true);
    s := GoesToTry(w, s, 1);
    s := GoesToTry(w, s, 2);
    s := Refused(w, s, 1);
    s := Refused(w, s, 2);
  }

  lemma OneJoined(w: World, full: Id, id: Id, late: int) returns (s: Sys)
    requires w.cfgs != [] && w.cfgs[0].capacity == 1 && w.solo == iset{} && full != id
    ensures WellFormed(w, s) && Reachable(w, s) && |s.cached| >= 1 && s.cached[0] == 1
    ensures s.room == Room([Waiter(id, 1, late, late)], map[full := Session(0, 0)], 0.0, 1, None)
    ensures |s.calls| == 3 && IsCall(s.calls[2], CheckTask(id), late, Join)
  {
    hide WellFormed, Reachable, Snap, Init;
    s := TwoRefused(w, full, id, late);
    s := Joining(w, s, 1);
  }

  lemma Refused(w: World, s: Sys, i: nat) returns (s': Sys)
    requires WellFormed(w, s) && Reachable(w, s) && i < |s.calls|
    requires s.calls[i].task.CheckTask? && s.calls[i].pc.Try?
    requires !Admits(s.room, s.calls[i].task.id, s.calls[i].pc.cap)
    ensures WellFormed(w, s') && Reachable(w, s') && OnlyMoved(s, s', i)
    ensures s'.calls[i].pc == Join && s'.room == s.room
  {
    hide WellFormed, Reachable, Find;
    var c := s.calls[i];
    CallFits(w, s, i);
    s' := Acting(w, s, i, [], Acts(Op.TryAdmit(c.task.id, c.pc.cap, c.now), Join));
  }

  lemma Joining(w: World, s: Sys, i: nat) returns (s': Sys)
    requires WellFormed(w, s) && Reachable(w, s) && i < |s.calls|
    requires s.calls[i].task.CheckTask? && s.calls[i].pc == Join
    ensures WellFormed(w, s') && Reachable(w, s') && OnlyMoved(s, s', i)
    ensures s'.room == Enqueued(s.room, s.calls[i].task.id, s.calls[i].now, w.slides)
    ensures s'.calls[i].pc == Done(Wait, Snap(s'.room, s.calls[i].task.id))
  {
    hide WellFormed, Reachable, Find;
    CallFits(w, s, i);
    s' := Acting(w, s, i, [], MoveOf(w, s, i, []));
  }

  /** A status poll's pass, once its time has come to end the session `full`. */
  lemma Passing(w: World, s: Sys, full: Id, id: Id, late: int) returns (s': Sys)
    requires WellFormed(w, s) && Reachable(w, s) && w.cfgs != [] && w.solo == iset{} && full != id
    requires late == w.cfgs[0].activeTTL + 1 > 0 && w.cfgs[0].queueTTL >= 0
    requires |s.cached| >= 1 && s.cached[0] == 1
    requires s.room == Room([Waiter(id, 1, late, late)], map[full := Session(0, 0)], 0.0, 1, None)
    ensures WellFormed(w, s') && Reachable(w, s')
    ensures |s'.calls| == |s.calls| + 1 && s'.calls[..|s.calls|] == s.calls
    ensures s'.room.queue == [] && s'.room.active == map[id := Session(late, late)]
  {
    hide WellFormed, Reachable, Report, Snap, Enqueued, Reconciled;
    var i := |s.calls|;
    var s1 := Starting(w, s, StatusTask(id), late, false);
    s' := Acting(w, s1, i, [], Silent(Pass(1)));
    var ttl, qttl := w.cfgs[0].activeTTL, w.cfgs[0].queueTTL;
    s' := Acting(w, s', i, [full], MoveOf(w, s', i, [full]));
    PassSwaps(s.room, full, id, late, ttl, qttl);
  }

  /** The pass ends the only session and lets the only waiter in. */
  lemma PassSwaps(r: Room, full: Id, id: Id, late: int, ttl: int, qttl: int)
    requires full != id && late == ttl + 1 > 0 && qttl >= 0
    requires r == Room([Waiter(id, 1, late, late)], map[full := Session(0, 0)], 0.0, 1, None)
    ensures IsScan(r.active, ttl, late, [full])
    ensures var r' := Reconciled(r, 1, ttl, qttl, late, [full]);
      r'.queue == [] && r'.active == map[id := Session(late, late)]
  {
    hide Find, EmaAll, Durations;
    var line := r.queue;
    OnlySurvivor(line[0], qttl, late);
    assert Kept(r.active, ttl, late) == map[];
    OnlyHead(line[0], late);
    assert line[..1] == line;
  }

  lemma EnqueueActive(r: Room, id: Id, now: int, slides: bool)
    requires r.queue == [] && r.active == map[id := Session(now, now)]
    ensures var r' := Enqueued(r, id, now, slides);
      id in r'.active && Snap(r', id) == Snapshot(Active, 0, 0, 1)
  {
    SizeOfSeen(r, id, now);
  }

  lemma NeverQueuedAtZero(h: seq<Room>, c: Call, id: Id, res: Result)
    requires res.position == 0
    ensures !QueuedDuring(h, c, id, res)
  {
  }

  /**
   Two Checks of one ticket overlap; the first one queues it, a pass lets it in, and then
   the second one's Enqueue finds it active: it answers Wait at position 0, and no instant
   of the call is one at which the ticket was queued with that answer.
   */
  lemma OverlapWaits(w: World, full: Id, id: Id) returns (steps: seq<Step>)
    requires w.cfgs != [] && w.solo == iset{} && full != id
    requires w.cfgs[0].capacity == 1 && w.cfgs[0].activeTTL >= 0 && w.cfgs[0].queueTTL >= 0
    ensures LegalSteps(w, Init(w), steps)
    ensures var s, res := After(w, Init(w), steps), Result(Wait, 0, 0, 1, 0);
      && |s.calls| > 2 && s.calls[2].task == CheckTask(id) && s.calls[2].pc == Finished(Some(res))
      && id in s.room.active && !QueuedDuring(s.history, s.calls[2], id, res)
  {
    hide WellFormed, Reachable, LegalSteps, After, Init, Enqueued, Snap;
    var late := w.cfgs[0].activeTTL + 1;
    var s := OneJoined(w, full, id, late);
    assert s.calls[..3][2] == s.calls[2];
    s := Passing(w, s, full, id, late);
    EnqueueActive(s.room, id, late, w.slides);
    s := Joining(w, s, 2);
    steps := HowReached(w, s);
    NeverQueuedAtZero(s.history, s.calls[2], id, Result(Wait, 0, 0, 1, 0));
  }
}
