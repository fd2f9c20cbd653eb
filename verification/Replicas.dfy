/**
 Many replicas over one store.  Every call in flight is a program counter; a step of the
 system starts a call or lets one call take its next atomic action: a load or store of
 its replica's capacity, one store operation, or the update of its replica's counters.
 Calls interleave arbitrarily, janitors and administrators among them.
 */
module Replicas {
  import opened WaitingRoom
  import opened Admission
  import opened Runs
  import opened SeqIndex
  import ReconcileLaws
  import C = Controller

  datatype Task =
    | CheckTask(id: Id)
    | StatusTask(id: Id)
    | JanitorTask(pass: bool)  // refresh the capacity, and usually reconcile
    | SetTask(n: int)
    | FlushTask

  /** Where a call is; each constructor names the action it takes next. */
  datatype Pc =
    | ReadOverride
    | AdoptCapacity(override: Option<int>)
    | LoadCapacity
    | Pass(cap: int)
    | CountPass(report: ReconcileResult)
    | Look
    | TouchIt(snap: Snapshot)
    | LoadAdmitCapacity(snap: Snapshot)
    | Try(snap: Snapshot, cap: int)
    | CountAdmission(snap: Snapshot)
    | Join
    | Judge(snap: Snapshot)
    | WriteOverride
    | WriteCapacity
    | Empty
    | Finished(result: Option<Result>)

  /** A call, with the indices in the history of rooms between which it has run so far. */
  datatype Call = Call(replica: nat, task: Task, now: int, pc: Pc, start: nat, end: nat)

  datatype Counters = Counters(admissions: int, expirations: int, evictions: int) {
    function Plus(c: Counters): Counters {
      Counters(admissions + c.admissions, expirations + c.expirations, evictions + c.evictions)
    }
    function Minus(c: Counters): Counters {
      Counters(admissions - c.admissions, expirations - c.expirations, evictions - c.evictions)
    }
  }

  const ZERO := Counters(0, 0, 0)

  /**
   The fixed part: the replicas' configurations, which of the two stores is used, and the
   tickets that promise never to have two Checks in flight at once (only the exact form of
   the conservation law is about them).
   */
  datatype World = World(cfgs: seq<Config>, slides: bool, solo: iset<Id>)

  /** The state; `log`, `tally`, `rejoins`, `peak` and `history` record what has happened. */
  datatype Sys = Sys(
    room: Room, cached: seq<int>, calls: seq<Call>, metrics: seq<Counters>,
    log: seq<nat>, tally: Tally, rejoins: int, peak: int, history: seq<Room>)

  datatype Step =
    | Start(replica: nat, task: Task, now: int, skip: bool)
    | Advance(call: nat, order: seq<Id>)
    | Meddle(override: Option<int>)  // somebody rewrites or deletes the stored capacity

  // ---------- one action of one call ----------

  /** What an action does: a store operation, the next program counter, the capacity to cache, the counts. */
  datatype Move = Move(op: Option<Op>, pc: Pc, cache: Option<int>, counts: Counters)

  function Silent(pc: Pc): Move {
    Move(None, pc, None, ZERO)
  }

  function Acts(op: Op, pc: Pc): Move {
    Move(Some(op), pc, None, ZERO)
  }

  function Done(d: Decision, snap: Snapshot): Pc {
    Finished(Some(ResultOf(d, snap, 0)))
  }

  function Next(w: World, r: Room, cap: int, c: Call, order: seq<Id>): Move
    requires c.replica < |w.cfgs|
  {
    var cfg := w.cfgs[c.replica];
    match c.pc
    case ReadOverride => Silent(AdoptCapacity(r.override))
    case AdoptCapacity(v) =>
      if !c.task.JanitorTask? then Silent(Finished(None))
      else Move(None, if c.task.pass then LoadCapacity else Finished(None),
                Some(C.Effective(v, cfg.capacity)), ZERO)
    case LoadCapacity => Silent(Pass(cap))
    case Pass(n) =>
      Acts(Op.Reconcile(n, cfg.activeTTL, cfg.queueTTL, c.now, order),
           CountPass(Report(r, n, cfg.activeTTL, cfg.queueTTL, c.now)))
    case CountPass(report) =>
      Move(None, if Asks(c.task) then Look else Finished(None), None, Owed(c))
    case Look => LookMove(r, c)
    case TouchIt(snap) =>
      if c.task.CheckTask? then Acts(Touch(c.task.id, c.now), Done(Proxy, snap)) else Silent(Finished(None))
    case LoadAdmitCapacity(snap) => Silent(Try(snap, cap))
    case Try(snap, n) =>
      if c.task.CheckTask? then
        Acts(TryAdmit(c.task.id, n, c.now), if Admits(r, c.task.id, n) then CountAdmission(snap) else Join)
      else Silent(Finished(None))
    case CountAdmission(snap) =>
      Move(None, Done(Proxy, snap.(status := Active, activeCount := snap.activeCount + 1)), None, Owed(c))
    case Join =>
      if c.task.CheckTask? then
        Acts(Op.Enqueue(c.task.id, c.now), Done(Wait, Snap(Enqueued(r, c.task.id, c.now, w.slides), c.task.id)))
      else Silent(Finished(None))
    case Judge(snap) =>
      Silent(if !c.task.StatusTask? then Finished(None)
             else if snap.activeCount < cap && snap.queueLength == 0 then Done(Proxy, snap)
             else Done(Wait, snap.(position := snap.queueLength + 1)))
    case WriteOverride =>
      if c.task.SetTask? then Acts(Op.SetCapacity(c.task.n), WriteCapacity) else Silent(Finished(None))
    case WriteCapacity =>
      if c.task.SetTask? then Move(None, Finished(None), Some(c.task.n), ZERO) else Silent(Finished(None))
    case Empty => Acts(Flush, Finished(None))
    case Finished(_) => Silent(c.pc)
  }

  predicate Asks(t: Task) {
    t.CheckTask? || t.StatusTask?
  }

  /** The lookup both request paths share, and where each status leads. */
  function LookMove(r: Room, c: Call): Move {
    if !Asks(c.task) then Silent(Finished(None))
    else
      var snap := Snap(r, c.task.id);
      Acts(Op.Lookup(c.task.id, c.now),
           match snap.status
           case Active => if c.task.CheckTask? then TouchIt(snap) else Done(Proxy, snap)
           case Queued => Done(Wait, snap)
           case Unknown => if c.task.CheckTask? then LoadAdmitCapacity(snap) else Judge(snap))
  }

  /** Events that have happened in the store but are not yet in its replica's counters. */
  function Owed(c: Call): Counters {
    match c.pc
    case CountPass(report) => Counters(|report.waitedSecs|, report.expired, report.evicted)
    case CountAdmission(_) => Counters(1, 0, 0)
    case _ => ZERO
  }

  // ---------- steps and runs of the whole system ----------

  ghost function Init(w: World): (s: Sys)
    ensures WellFormed(w, s)
  {
    Sys(EMPTY, seq(|w.cfgs|, i requires 0 <= i < |w.cfgs| => w.cfgs[i].capacity), [],
        seq(|w.cfgs|, _ => ZERO), [], Tally(0, 0, 0, 0, 0, 0), 0, 0, [EMPTY])
  }

  predicate Running(c: Call) {
    !c.pc.Finished?
  }

  function FirstPc(t: Task, skip: bool): Pc {
    match t
    case CheckTask(_) => if skip then Look else LoadCapacity
    case StatusTask(_) => if skip then Look else LoadCapacity
    case JanitorTask(_) => ReadOverride
    case SetTask(n) => if n < 1 then Finished(None) else WriteOverride
    case FlushTask => Empty
  }

  /** One janitor per replica, and one Check at a time for the tickets that promise so. */
  ghost predicate MayStart(w: World, s: Sys, replica: nat, task: Task) {
    && replica < |w.cfgs|
    && forall i :: 0 <= i < |s.calls| && Running(s.calls[i]) ==>
         && !(task.JanitorTask? && s.calls[i].task.JanitorTask? && s.calls[i].replica == replica)
         && !(task.CheckTask? && task.id in w.solo && s.calls[i].task == task)
  }

  ghost predicate WellFormed(w: World, s: Sys) {
    && |s.cached| == |s.metrics| == |w.cfgs|
    && s.history != [] && s.history[|s.history| - 1] == s.room
    && forall i :: 0 <= i < |s.calls| ==>
         s.calls[i].replica < |w.cfgs| && s.calls[i].start <= s.calls[i].end < |s.history|
  }

  ghost predicate Enabled(w: World, s: Sys, step: Step)
    requires WellFormed(w, s)
  {
    match step
    case Start(replica, task, _, _) => MayStart(w, s, replica, task)
    case Advance(i, order) =>
      && i < |s.calls| && Running(s.calls[i])
      && var m := MoveOf(w, s, i, order);
         m.op.Some? ==> Legal(s.room, m.op.value)
    case Meddle(_) => true
  }

  ghost function MoveOf(w: World, s: Sys, i: nat, order: seq<Id>): Move
    requires WellFormed(w, s) && i < |s.calls|
  {
    Next(w, s.room, s.cached[s.calls[i].replica], s.calls[i], order)
  }

  /** The store's side of a step. */
  ghost function Perform(s: Sys, op: Op, slides: bool): Sys
    requires Legal(s.room, op)
  {
    s.(room := Apply(s.room, op, slides),
       log := s.log + Promotes(s.room, op),
       tally := s.tally.Plus(Count(s.room, op)),
       rejoins := s.rejoins + (if op.TryAdmit? && op.id in s.room.active then 1 else 0),
       peak := Max(s.peak, Passed(op)))
  }

  ghost function Do(w: World, s: Sys, step: Step): Sys
    requires WellFormed(w, s) && Enabled(w, s, step)
  {
    match step
    case Start(replica, task, now, skip) =>
      var at := |s.history| - 1;
      s.(calls := s.calls + [Call(replica, task, now, FirstPc(task, skip), at, at)])
    case Advance(i, order) =>
      var m, c := MoveOf(w, s, i, order), s.calls[i];
      var t := if m.op.Some? then Perform(s, m.op.value, w.slides) else s;
      t.(calls := s.calls[i := c.(pc := m.pc, end := |s.history|)],
         cached := if m.cache.Some? then s.cached[c.replica := m.cache.value] else s.cached,
         metrics := s.metrics[c.replica := s.metrics[c.replica].Plus(m.counts)],
         history := s.history + [t.room])
    case Meddle(v) =>
      var room := s.room.(override := v);
      s.(room := room, history := s.history + [room])
  }

  /** Every step keeps the state well formed. */
  lemma StepWellFormed(w: World, s: Sys, step: Step)
    requires WellFormed(w, s) && Enabled(w, s, step)
    ensures WellFormed(w, Do(w, s, step))
  {
    hide Next, Apply, Promotes, Count, Legal;
  }

  ghost predicate LegalSteps(w: World, s: Sys, steps: seq<Step>)
    requires WellFormed(w, s)
    decreases |steps|
  {
    steps == [] ||
    (Enabled(w, s, steps[0]) && (StepWellFormed(w, s, steps[0]); LegalSteps(w, Do(w, s, steps[0]), steps[1..])))
  }

  /** The state after a run. */
  ghost function After(w: World, s: Sys, steps: seq<Step>): (s': Sys)
    requires WellFormed(w, s) && LegalSteps(w, s, steps)
    ensures WellFormed(w, s')
    decreases |steps|
  {
    if steps == [] then s
    else
      StepWellFormed(w, s, steps[0]);
      After(w, Do(w, s, steps[0]), steps[1..])
  }

  // ---------- the room under interleaving ----------

  /**
   The room is valid and within the largest capacity ever used; promotions have come in
   the order of the sequence numbers, all ahead of everybody still queued; and the books
   of both populations balance.
   */
  ghost predicate RoomSafe(s: Sys) {
    && s.room.Valid()
    && |s.room.active| <= s.peak && 0 <= s.peak
    && Ascending(s.log)
    && (forall n :: n in s.log ==> n <= s.room.nextSeq)
    && (forall n, x :: n in s.log && x in s.room.queue ==> n < x.seqNo)
    && Balances(EMPTY, s.tally, s.room)
  }

  lemma PerformSafe(s: Sys, op: Op, slides: bool)
    requires RoomSafe(s) && Legal(s.room, op)
    ensures RoomSafe(Perform(s, op, slides))
  {
    hide Apply, Promotes, Count, Room.Valid;
    StepValid(s.room, op, slides);
    StepBound(s.room, op, slides);
    StepBalances(s.room, op, slides);
    StepPromotes(s.room, op, slides);
    StepNumbers(s.room, op, slides);
    LogGrows(s.room, Apply(s.room, op, slides), s.log, Promotes(s.room, op));
  }

  lemma LogGrows(r: Room, r': Room, log: seq<nat>, more: seq<nat>)
    requires Ascending(log) && Ascending(more) && r.nextSeq <= r'.nextSeq
    requires forall n :: n in log ==> n <= r.nextSeq
    requires forall n, x :: n in log && x in r.queue ==> n < x.seqNo
    requires forall n :: n in more ==> HasSeq(r.queue, n) && n <= r.nextSeq
    requires forall n, x :: n in more && x in r'.queue ==> n < x.seqNo
    requires forall x :: x in r'.queue ==> HasSeq(r.queue, x.seqNo) || x.seqNo > r.nextSeq
    ensures Ascending(log + more)
    ensures forall n :: n in log + more ==> n <= r'.nextSeq
    ensures forall n, x :: n in log + more && x in r'.queue ==> n < x.seqNo
  {
    forall n, m: nat | n in log && HasSeq(r.queue, m) ensures n < m {
      var i :| 0 <= i < |r.queue| && r.queue[i].seqNo == m;
      assert r.queue[i] in r.queue;
    }
    var all := log + more;
    forall i, j | 0 <= i < j < |all| ensures all[i] < all[j] {
      if i < |log| <= j {
        assert all[i] in log && all[j] in more;
      }
    }
  }

  /** One step of the system as the room sees it: nothing, a new override, or one store operation. */
  lemma StepRoom(w: World, s: Sys, step: Step)
    requires WellFormed(w, s) && Enabled(w, s, step)
    ensures var s' := Do(w, s, step);
      || (exists op :: Legal(s.room, op) && s'.room == Apply(s.room, op, w.slides)
                       && s'.log == s.log + Promotes(s.room, op) && s'.tally == s.tally.Plus(Count(s.room, op))
                       && s'.peak == Max(s.peak, Passed(op)))
      || (s'.room == s.room.(override := s'.room.override) && s'.log == s.log && s'.tally == s.tally
          && s'.peak == s.peak)
  {
    hide Next, Apply, Promotes, Count, Legal;
    if step.Advance? && MoveOf(w, s, step.call, step.order).op.Some? {
      var op := MoveOf(w, s, step.call, step.order).op.value;
      assert Do(w, s, step).room == Apply(s.room, op, w.slides);
    }
  }

  lemma StepSafe(w: World, s: Sys, step: Step)
    requires WellFormed(w, s) && Enabled(w, s, step) && RoomSafe(s)
    ensures RoomSafe(Do(w, s, step))
  {
    hide Next, Apply, Promotes, Count, Legal, Ordered;
    if step.Advance? && MoveOf(w, s, step.call, step.order).op.Some? {
      PerformSafe(s, MoveOf(w, s, step.call, step.order).op.value, w.slides);
    }
  }

  /** Safety over every interleaving. */
  lemma {:induction false} AlwaysSafe(w: World, s: Sys, steps: seq<Step>)
    requires WellFormed(w, s) && LegalSteps(w, s, steps) && RoomSafe(s)
    ensures RoomSafe(After(w, s, steps))
    decreases |steps|
  {
    if steps != [] {
      StepSafe(w, s, steps[0]);
      StepWellFormed(w, s, steps[0]);
      AlwaysSafe(w, Do(w, s, steps[0]), steps[1..]);
    }
  }

  /** No step of any interleaving lets a ticket overtake another, or a stranger enter past a queue. */
  lemma NoOvertaking(w: World, s: Sys, step: Step)
    requires WellFormed(w, s) && Enabled(w, s, step) && RoomSafe(s)
    ensures Fair(s.room, Do(w, s, step).room)
  {
    hide Next, Promotes, Count, Do;
    StepRoom(w, s, step);
    forall op | Legal(s.room, op) ensures Fair(s.room, Apply(s.room, op, w.slides)) {
      StepFair(s.room, op, w.slides);
    }
  }

  /** A request found active slides its window when it acts, however long ago it was looked up. */
  lemma TouchSlides(w: World, s: Sys, i: nat, id: Id)
    requires WellFormed(w, s) && Enabled(w, s, Advance(i, []))
    requires s.calls[i].task == CheckTask(id) && s.calls[i].pc.TouchIt? && id in s.room.active
    ensures var r', session := Do(w, s, Advance(i, [])).room, s.room.active[id];
      r' == s.room.(active := s.room.active[id := Session(session.admittedAt, s.calls[i].now)])
  {
    hide Promotes, Count;
  }

  // ---------- every replica's capacity is usable ----------

  ghost predicate Configured(w: World) {
    forall i :: 0 <= i < |w.cfgs| ==> w.cfgs[i].capacity >= 1
  }

  /** Every capacity cached, loaded or about to be written is at least 1, whatever the stored override. */
  ghost predicate CapacitiesUsable(s: Sys) {
    && (forall k :: 0 <= k < |s.cached| ==> s.cached[k] >= 1)
    && (forall i :: 0 <= i < |s.calls| ==> UsableAt(s.calls[i]))
  }

  predicate UsableAt(c: Call) {
    match c.pc
    case Pass(cap) => cap >= 1
    case Try(_, cap) => cap >= 1
    case WriteOverride => c.task.SetTask? ==> c.task.n >= 1
    case WriteCapacity => c.task.SetTask? ==> c.task.n >= 1
    case _ => true
  }

  lemma StepUsable(w: World, s: Sys, step: Step)
    requires Configured(w) && WellFormed(w, s) && Enabled(w, s, step) && CapacitiesUsable(s)
    ensures CapacitiesUsable(Do(w, s, step))
  {
    hide Apply, Promotes, Count, Legal, Perform, Next, UsableAt;
    if step.Advance? {
      var c := s.calls[step.call];
      MoveUsable(w, s.room, s.cached[c.replica], c, step.order, |s.history|);
    } else if step.Start? {
      var at := |s.history| - 1;
      StartUsable(Call(step.replica, step.task, step.now, FirstPc(step.task, step.skip), at, at), step.skip);
    }
  }

  lemma MoveUsable(w: World, r: Room, cap: int, c: Call, order: seq<Id>, end: nat)
    requires c.replica < |w.cfgs| && w.cfgs[c.replica].capacity >= 1 && cap >= 1 && UsableAt(c)
    ensures var m := Next(w, r, cap, c, order);
      UsableAt(c.(pc := m.pc, end := end)) && (m.cache.Some? ==> m.cache.value >= 1)
  {
    hide Report, Snap, Enqueued, Admits;
  }

  lemma StartUsable(c: Call, skip: bool)
    requires c.pc == FirstPc(c.task, skip)
    ensures UsableAt(c)
  {
  }

  lemma {:induction false} AlwaysUsable(w: World, s: Sys, steps: seq<Step>)
    requires Configured(w) && WellFormed(w, s) && LegalSteps(w, s, steps) && CapacitiesUsable(s)
    ensures CapacitiesUsable(After(w, s, steps))
    decreases |steps|
  {
    if steps != [] {
      StepUsable(w, s, steps[0]);
      StepWellFormed(w, s, steps[0]);
      AlwaysUsable(w, Do(w, s, steps[0]), steps[1..]);
    }
  }

  // ---------- conservation across store and counters ----------

  function Total(xs: seq<Counters>): Counters {
    if xs == [] then ZERO else Total(xs[..|xs| - 1]).Plus(xs[|xs| - 1])
  }

  lemma {:induction false} TotalUpdate(xs: seq<Counters>, i: nat, v: Counters)
    requires i < |xs|
    ensures Total(xs[i := v]) == Total(xs).Minus(xs[i]).Plus(v)
  {
    var p := xs[..|xs| - 1];
    if i == |p| {
      assert xs[i := v][..|p|] == p;
    } else {
      assert xs[i := v][..|p|] == p[i := v];
      TotalUpdate(p, i, v);
    }
  }

  lemma TotalSnoc(xs: seq<Counters>, v: Counters)
    ensures Total(xs + [v]) == Total(xs).Plus(v)
  {
    assert (xs + [v])[..|xs|] == xs;
  }

  /** What the calls in flight still owe their replicas' counters. */
  function Debts(calls: seq<Call>): (ds: seq<Counters>)
    ensures |ds| == |calls|
  {
    seq(|calls|, i requires 0 <= i < |calls| => Owed(calls[i]))
  }

  /** Counted and owed events together are the events of the store. */
  ghost predicate BooksBalance(s: Sys) {
    Total(s.metrics).Plus(Total(Debts(s.calls))) == Recorded(s)
  }

  /** The countable events of one store operation; a TryAdmit of an active ticket is a rejoin. */
  function Events(r: Room, op: Op): Counters {
    var t := Count(r, op);
    Counters(t.promoted + t.direct + (if op.TryAdmit? && op.id in r.active then 1 else 0), t.expired, t.evicted)
  }

  function Recorded(s: Sys): Counters {
    Counters(s.tally.promoted + s.tally.direct + s.rejoins, s.tally.expired, s.tally.evicted)
  }

  lemma PerformRecords(s: Sys, op: Op, slides: bool)
    requires Legal(s.room, op)
    ensures Recorded(Perform(s, op, slides)) == Recorded(s).Plus(Events(s.room, op))
  {
    hide Apply, Promotes, Count, Passed;
  }

  /** Debts before plus events equal debts after plus counts. */
  ghost predicate Balanced(r: Room, c: Call, m: Move) {
    Owed(c.(pc := m.pc)).Plus(m.counts) == Owed(c).Plus(if m.op.Some? then Events(r, m.op.value) else ZERO)
  }

  /** A store operation owes its events; any other action pays what is owed. */
  ghost predicate DefersOrPays(r: Room, c: Call, m: Move) {
    if m.op.Some? then Owed(c.(pc := m.pc)) == Events(r, m.op.value) && Owed(c) == m.counts == ZERO
    else Owed(c.(pc := m.pc)) == ZERO && m.counts == Owed(c)
  }

  lemma MoveDefersOrPays(w: World, r: Room, cap: int, c: Call, order: seq<Id>)
    requires c.replica < |w.cfgs|
    ensures DefersOrPays(r, c, Next(w, r, cap, c, order))
  {
    hide Report, Snap, Enqueued, IsQueued;
    if c.pc.Pass? {
      var cfg := w.cfgs[c.replica];
      OneWaitEach(r, c.pc.cap, cfg.activeTTL, cfg.queueTTL, c.now);
    }
  }

  lemma OneWaitEach(r: Room, cap: int, activeTTL: int, queueTTL: int, now: int)
    ensures var report := Report(r, cap, activeTTL, queueTTL, now); report.promoted == |report.waitedSecs|
  {
  }

  /** An action turns store events into debts, or debts into counts. */
  lemma MoveBalances(w: World, r: Room, cap: int, c: Call, order: seq<Id>)
    requires c.replica < |w.cfgs|
    ensures Balanced(r, c, Next(w, r, cap, c, order))
  {
    hide Next, Events, Owed;
    MoveDefersOrPays(w, r, cap, c, order);
  }

  lemma StepBooks(w: World, s: Sys, step: Step)
    requires WellFormed(w, s) && Enabled(w, s, step) && BooksBalance(s)
    ensures BooksBalance(Do(w, s, step))
  {
    hide Next, Apply, Promotes, Count, Legal, Perform, Total, Owed, Events;
    var s' := Do(w, s, step);
    match step
    case Start(replica, task, now, skip) =>
      var at := |s.history| - 1;
      var c := Call(replica, task, now, FirstPc(task, skip), at, at);
      assert Debts(s.calls + [c]) == Debts(s.calls) + [Owed(c)];
      TotalSnoc(Debts(s.calls), Owed(c));
      NothingOwedYet(c, skip);
    case Advance(i, order) =>
      var m, c := MoveOf(w, s, i, order), s.calls[i];
      var c' := c.(pc := m.pc, end := |s.history|);
      assert Debts(s.calls[i := c']) == Debts(s.calls)[i := Owed(c')];
      TotalUpdate(Debts(s.calls), i, Owed(c'));
      TotalUpdate(s.metrics, c.replica, s.metrics[c.replica].Plus(m.counts));
      MoveBalances(w, s.room, s.cached[c.replica], c, order);
      OwedIsPc(c, c', m.pc);
      if m.op.Some? {
        PerformRecords(s, m.op.value, w.slides);
      }
    case Meddle(_) =>
  }

  lemma OwedIsPc(c: Call, c': Call, pc: Pc)
    requires c' == c.(pc := pc, end := c'.end)
    ensures Owed(c') == Owed(c.(pc := pc))
  {
  }

  lemma NothingOwedYet(c: Call, skip: bool)
    requires c.pc == FirstPc(c.task, skip)
    ensures Owed(c) == ZERO
  {
  }

  lemma {:induction false} AlwaysBooks(w: World, s: Sys, steps: seq<Step>)
    requires WellFormed(w, s) && LegalSteps(w, s, steps) && BooksBalance(s)
    ensures BooksBalance(After(w, s, steps))
    decreases |steps|
  {
    if steps != [] {
      StepBooks(w, s, steps[0]);
      StepWellFormed(w, s, steps[0]);
      AlwaysBooks(w, Do(w, s, steps[0]), steps[1..]);
    }
  }

  ghost predicate Quiescent(s: Sys) {
    forall i :: 0 <= i < |s.calls| ==> !Running(s.calls[i])
  }

  lemma {:induction false} NoDebts(calls: seq<Call>)
    requires forall i :: 0 <= i < |calls| ==> !Running(calls[i])
    ensures Total(Debts(calls)) == ZERO
  {
    hide Total, Owed, Report;
    if calls == [] {
      assert Debts(calls) == [];
      EmptyTotal();
    } else {
      var p := calls[..|calls| - 1];
      NoDebts(p);
      NothingOwed(calls[|calls| - 1]);
      assert Debts(calls) == Debts(p) + [Owed(calls[|calls| - 1])];
      TotalSnoc(Debts(p), Owed(calls[|calls| - 1]));
    }
  }

  lemma EmptyTotal()
    ensures Total([]) == ZERO
  {
  }

  lemma NothingOwed(c: Call)
    requires !Running(c)
    ensures Owed(c) == ZERO
  {
  }

  lemma {:induction false} InitSums(w: World)
    ensures RoomSafe(Init(w)) && BooksBalance(Init(w))
  {
    hide Total;
    ZeroTotal(Init(w).metrics);
    assert Debts([]) == [];
    EmptyTotal();
  }

  lemma {:induction false} ZeroTotal(xs: seq<Counters>)
    requires forall i :: 0 <= i < |xs| ==> xs[i] == ZERO
    ensures Total(xs) == ZERO
  {
    hide Total;
    if xs == [] {
      EmptyTotal();
    } else {
      var p := xs[..|xs| - 1];
      ZeroTotal(p);
      assert xs == p + [ZERO];
      TotalSnoc(p, ZERO);
    }
  }

  /**
   With no call in flight, over any run from the start: the published admissions minus
   expirations are the active tickets plus the rejoins (admissions of a ticket that
   another Check had already let in), and the tickets ever queued are those promoted,
   evicted, flushed or still waiting.
   */
  lemma ConservationAtRest(w: World, steps: seq<Step>)
    requires LegalSteps(w, Init(w), steps)
    ensures var s := After(w, Init(w), steps);
      Quiescent(s) ==>
        && Total(s.metrics).admissions - Total(s.metrics).expirations == |s.room.active| + s.rejoins
        && Total(s.metrics).evictions == s.tally.evicted
        && s.room.nextSeq == s.tally.promoted + s.tally.evicted + s.tally.flushed + |s.room.queue|
  {
    hide After, LegalSteps, WellFormed, Init, Total, Owed, Room.Valid, Ascending;
    var s := After(w, Init(w), steps);
    InitSums(w);
    AlwaysSafe(w, Init(w), steps);
    AlwaysBooks(w, Init(w), steps);
    if Quiescent(s) {
      NoDebts(s.calls);
    }
  }

  // ---------- tickets with one Check at a time ----------

  ghost predicate Absent(r: Room, id: Id) {
    id !in r.active && !IsQueued(r.queue, id)
  }

  /** Two Checks of one ticket in flight at once. */
  predicate Rivals(a: Call, b: Call) {
    Running(a) && Running(b) && a.task.CheckTask? && a.task == b.task
  }

  predicate Entering(c: Call) {
    c.task.CheckTask? && (c.pc.LoadAdmitCapacity? || c.pc.Try? || c.pc.Join?)
  }

  /**
   For every ticket that promised so: at most one Check is in flight, and from its Lookup
   to its TryAdmit or Enqueue the ticket stays unknown to the store.
   */
  ghost predicate SoloHeld(w: World, s: Sys) {
    && (forall i, j :: 0 <= i < j < |s.calls| && Rivals(s.calls[i], s.calls[j]) ==> s.calls[i].task.id !in w.solo)
    && (forall i :: 0 <= i < |s.calls| && Entering(s.calls[i]) && s.calls[i].task.id in w.solo ==>
          Absent(s.room, s.calls[i].task.id))
  }

  /** Only a TryAdmit or Enqueue of the ticket itself brings it into the room. */
  lemma StaysAbsent(r: Room, op: Op, slides: bool, id: Id)
    requires r.Valid() && Legal(r, op) && Absent(r, id)
    requires (op.TryAdmit? || op.Enqueue?) && op.id == id ==> op.TryAdmit? && !Admits(r, id, op.cap)
    ensures Absent(Apply(r, op, slides), id)
  {
    hide Ordered;
    if op.Reconcile? {
      ReconcileLaws.ExactEffect(r, op.cap, op.activeTTL, op.queueTTL, op.now, op.order, id);
    } else if op.TryAdmit? || op.Enqueue? || op.Lookup? || op.Touch? {
      SeenValid(r, op.id, op.now);
      if op.Enqueue? && id != op.id && !IsQueued(r.queue, op.id) {
        var w := Waiter(op.id, r.nextSeq + 1, op.now, op.now);
        assert forall i :: 0 <= i < |r.queue| ==> (r.queue + [w])[i].id != id;
      }
    }
  }

  /** The operation a call performs that could bring in a ticket is about the call's own ticket. */
  lemma MoveIsOwn(w: World, s: Sys, i: nat, order: seq<Id>)
    requires WellFormed(w, s) && i < |s.calls|
    ensures var m, c := MoveOf(w, s, i, order), s.calls[i];
      m.op.Some? && (m.op.value.TryAdmit? || m.op.value.Enqueue?) ==>
        c.task.CheckTask? && m.op.value.id == c.task.id && (c.pc.Try? || c.pc.Join?)
    ensures var m, c := MoveOf(w, s, i, order), s.calls[i];
      c.task.CheckTask? && (m.pc.LoadAdmitCapacity? || m.pc.Try? || m.pc.Join?) ==>
        if c.pc.Look? then Snap(s.room, c.task.id).status == Unknown
        else Entering(c) && (m.op.Some? ==> m.op.value.TryAdmit? && !Admits(s.room, c.task.id, m.op.value.cap))
  {
    hide Apply, Survivors, Kept, Find, Snap;
  }

  lemma StepSolo(w: World, s: Sys, step: Step)
    requires WellFormed(w, s) && Enabled(w, s, step) && RoomSafe(s) && SoloHeld(w, s)
    ensures SoloHeld(w, Do(w, s, step))
  {
    match step
    case Start(replica, task, now, skip) =>
      hide Next, Apply, Promotes, Count, Legal, Perform, RoomSafe;
    case Meddle(v) =>
    case Advance(i, order) =>
      var s' := Do(w, s, step);
      forall j, k | 0 <= j < k < |s'.calls| && Rivals(s'.calls[j], s'.calls[k])
        ensures s'.calls[j].task.id !in w.solo
      {
        assert Rivals(s.calls[j], s.calls[k]);
      }
      forall k | 0 <= k < |s'.calls| && Entering(s'.calls[k]) && s'.calls[k].task.id in w.solo
        ensures Absent(s'.room, s'.calls[k].task.id)
      {
        AdvanceKeepsAbsent(w, s, i, order, k);
      }
  }

  lemma NoRival(w: World, s: Sys, i: nat, k: nat)
    requires SoloHeld(w, s) && i < |s.calls| && k < |s.calls| && i != k
    requires Rivals(s.calls[i], s.calls[k])
    ensures s.calls[k].task.id !in w.solo
  {
    if k < i {
      assert Rivals(s.calls[k], s.calls[i]);
    }
  }

  /** While one call acts, the tickets of the others (and its own, until it enters) stay unknown. */
  lemma AdvanceKeepsAbsent(w: World, s: Sys, i: nat, order: seq<Id>, k: nat)
    requires WellFormed(w, s) && Enabled(w, s, Advance(i, order)) && RoomSafe(s) && SoloHeld(w, s)
    requires k < |s.calls|
    requires var c' := Do(w, s, Advance(i, order)).calls[k];
      Entering(c') && c'.task.id in w.solo
    ensures Absent(Do(w, s, Advance(i, order)).room, s.calls[k].task.id)
  {
    hide Next, Apply, Promotes, Count, Room.Valid;
    var m, id := MoveOf(w, s, i, order), s.calls[k].task.id;
    MoveIsOwn(w, s, i, order);
    assert Absent(s.room, id);
    if m.op.Some? {
      if (m.op.value.TryAdmit? || m.op.value.Enqueue?) && m.op.value.id == id && k != i {
        NoRival(w, s, i, k);
      }
      StaysAbsent(s.room, m.op.value, w.slides, id);
    }
  }

  // ---------- no ticket is admitted twice ----------

  ghost predicate EverySolo(w: World) {
    forall id :: id in w.solo
  }

  lemma StepRejoins(w: World, s: Sys, step: Step)
    requires WellFormed(w, s) && Enabled(w, s, step) && SoloHeld(w, s) && EverySolo(w)
    ensures Do(w, s, step).rejoins == s.rejoins
  {
    hide Next, Apply, Promotes, Count, Legal;
    if step.Advance? {
      MoveIsOwn(w, s, step.call, step.order);
      if MoveOf(w, s, step.call, step.order).op.Some? && MoveOf(w, s, step.call, step.order).op.value.TryAdmit? {
        TryIsEntering(w, s, step.call, step.order);
      }
    }
  }

  lemma TryIsEntering(w: World, s: Sys, i: nat, order: seq<Id>)
    requires WellFormed(w, s) && i < |s.calls|
    requires var m := MoveOf(w, s, i, order); m.op.Some? && m.op.value.TryAdmit?
    ensures Entering(s.calls[i])
  {
    hide Report, Snap, Enqueued;
  }

  lemma {:induction false} AlwaysSolo(w: World, s: Sys, steps: seq<Step>)
    requires WellFormed(w, s) && LegalSteps(w, s, steps) && RoomSafe(s) && SoloHeld(w, s)
    ensures SoloHeld(w, After(w, s, steps))
    ensures EverySolo(w) ==> After(w, s, steps).rejoins == s.rejoins
    decreases |steps|
  {
    if steps != [] {
      StepWellFormed(w, s, steps[0]);
      StepSafe(w, s, steps[0]);
      StepSolo(w, s, steps[0]);
      if EverySolo(w) {
        StepRejoins(w, s, steps[0]);
      }
      AlwaysSolo(w, Do(w, s, steps[0]), steps[1..]);
    }
  }

  /** If no ticket ever has two Checks in flight, admissions minus expirations are the active tickets. */
  lemma ExactAtRest(w: World, steps: seq<Step>)
    requires LegalSteps(w, Init(w), steps) && EverySolo(w)
    ensures var s := After(w, Init(w), steps);
      Quiescent(s) ==> Total(s.metrics).admissions - Total(s.metrics).expirations == |s.room.active|
  {
    InitSums(w);
    AlwaysSolo(w, Init(w), steps);
    ConservationAtRest(w, steps);
  }

  // ---------- every decision is justified by an instant inside the call ----------

  /** Two calls for one ticket that ran at the same time. */
  predicate Overlap(a: Call, b: Call) {
    a.task == b.task && a.start < b.end && b.start < a.end
  }

  ghost predicate Overlapped(calls: seq<Call>, i: nat)
    requires i < |calls|
  {
    exists k :: 0 <= k < |calls| && k != i && Overlap(calls[i], calls[k])
  }

  /** Another call for the ticket of call `i` has acted since that one began. */
  ghost predicate Raced(calls: seq<Call>, i: nat)
    requires i < |calls|
  {
    exists k :: 0 <= k < |calls| && k != i && calls[k].task == calls[i].task && calls[i].start < calls[k].end
  }

  /** From its Lookup on, the ticket of an entering Check is unknown, unless another Check of it acts. */
  ghost predicate EntersUnknown(s: Sys) {
    forall i :: 0 <= i < |s.calls| && Entering(s.calls[i]) ==>
      Absent(s.room, s.calls[i].task.id) || Raced(s.calls, i)
  }

  /** Acting only moves the end of a call, so a race once run stays run. */
  lemma RacedStays(calls: seq<Call>, i: nat, k: nat, c: Call)
    requires i < |calls| && k < |calls| && Raced(calls, i)
    requires c.task == calls[k].task && c.start == calls[k].start && calls[k].end <= c.end
    ensures Raced(calls[k := c], i)
  {
    var j :| 0 <= j < |calls| && j != i && calls[j].task == calls[i].task && calls[i].start < calls[j].end;
    assert calls[k := c][j].task == calls[k := c][i].task && calls[k := c][i].start < calls[k := c][j].end;
  }

  lemma OverlappedStays(calls: seq<Call>, i: nat, k: nat, c: Call)
    requires i < |calls| && k < |calls| && Overlapped(calls, i)
    requires c.task == calls[k].task && c.start == calls[k].start && calls[k].end <= c.end
    ensures Overlapped(calls[k := c], i)
  {
    var j :| 0 <= j < |calls| && j != i && Overlap(calls[i], calls[j]);
    assert Overlap(calls[k := c][i], calls[k := c][j]);
  }

  lemma StepEntersUnknown(w: World, s: Sys, step: Step)
    requires WellFormed(w, s) && Enabled(w, s, step) && RoomSafe(s) && EntersUnknown(s)
    ensures EntersUnknown(Do(w, s, step))
  {
    match step
    case Start(replica, task, now, skip) =>
      hide Next, Apply, Promotes, Count, Legal, Perform, RoomSafe;
      var s' := Do(w, s, step);
      forall i | 0 <= i < |s'.calls| && Entering(s'.calls[i])
        ensures Absent(s'.room, s'.calls[i].task.id) || Raced(s'.calls, i)
      {
        if Raced(s.calls, i) {
          var k :| 0 <= k < |s.calls| && k != i
            && s.calls[k].task == s.calls[i].task && s.calls[i].start < s.calls[k].end;
          assert s'.calls[k].task == s'.calls[i].task && s'.calls[i].start < s'.calls[k].end;
        }
      }
    case Meddle(v) =>
    case Advance(i, order) =>
      forall k | 0 <= k < |s.calls| && Entering(Do(w, s, step).calls[k])
        ensures Absent(Do(w, s, step).room, s.calls[k].task.id) || Raced(Do(w, s, step).calls, k)
      {
        AdvanceEntersUnknown(w, s, i, order, k);
      }
  }

  /** When one call acts, a ticket another one is bringing in stays unknown, or it has been raced. */
  lemma AdvanceEntersUnknown(w: World, s: Sys, i: nat, order: seq<Id>, k: nat)
    requires WellFormed(w, s) && Enabled(w, s, Advance(i, order)) && RoomSafe(s) && EntersUnknown(s)
    requires k < |s.calls| && Entering(Do(w, s, Advance(i, order)).calls[k])
    ensures var s' := Do(w, s, Advance(i, order));
      Absent(s'.room, s.calls[k].task.id) || Raced(s'.calls, k)
  {
    hide Next, Apply, Promotes, Count, Absent, Room.Valid;
    var s', m, id := Do(w, s, Advance(i, order)), MoveOf(w, s, i, order), s.calls[k].task.id;
    MoveIsOwn(w, s, i, order);
    if k == i && s.calls[i].pc.Look? {
      UnknownIsAbsent(s.room, id);
    }
    if Absent(s.room, id) {
      if m.op.Some? {
        if (m.op.value.TryAdmit? || m.op.value.Enqueue?) && m.op.value.id == id && k != i {
          assert s'.calls[i].task == s'.calls[k].task && s'.calls[k].start < s'.calls[i].end;
        } else {
          StaysAbsent(s.room, m.op.value, w.slides, id);
        }
      }
    } else {
      RacedStays(s.calls, k, i, s'.calls[i]);
    }
  }

  lemma UnknownIsAbsent(r: Room, id: Id)
    ensures Snap(r, id).status == Unknown <==> Absent(r, id)
  {
  }

  ghost predicate ActiveDuring(h: seq<Room>, c: Call, id: Id) {
    exists j :: c.start <= j <= c.end && j < |h| && id in h[j].active
  }

  /** At some instant of the call the ticket was known, queued or active, with exactly this answer. */
  ghost predicate KnownDuring(h: seq<Room>, c: Call, id: Id, res: Result) {
    exists j :: c.start <= j <= c.end && j < |h| && Shows(h[j], id, res)
  }

  ghost predicate QueuedDuring(h: seq<Room>, c: Call, id: Id, res: Result) {
    exists j :: c.start <= j <= c.end && j < |h|
      && Snap(h[j], id) == Snapshot(Queued, res.position, res.queueLength, res.activeCount)
  }

  predicate Shows(r: Room, id: Id, res: Result) {
    var snap := Snap(r, id);
    && snap.status != Unknown
    && snap.position == res.position && snap.queueLength == res.queueLength && snap.activeCount == res.activeCount
  }

  /**
   What a Check has behind it.  A Wait describes an instant at which the ticket was queued
   exactly if its position is at least 1, and always if no other Check of it overlapped.
   */
  ghost predicate Justified(h: seq<Room>, c: Call, overlapped: bool) {
    c.task.CheckTask? ==>
      match c.pc
      case TouchIt(_) => ActiveDuring(h, c, c.task.id)
      case CountAdmission(_) => ActiveDuring(h, c, c.task.id)
      case Finished(Some(res)) =>
        if res.decision == Proxy then ActiveDuring(h, c, c.task.id)
        else
          && KnownDuring(h, c, c.task.id, res)
          && (res.position >= 1 <==> QueuedDuring(h, c, c.task.id, res))
          && (!overlapped ==> res.position >= 1)
      case _ => true
  }

  ghost predicate AllJustified(s: Sys) {
    forall i :: 0 <= i < |s.calls| ==> Justified(s.history, s.calls[i], Overlapped(s.calls, i))
  }

  /** A known answer is a queued one exactly if it has a position. */
  lemma KnownIsQueued(h: seq<Room>, c: Call, id: Id, res: Result)
    requires KnownDuring(h, c, id, res)
    ensures res.position >= 1 <==> QueuedDuring(h, c, id, res)
  {
    var j :| c.start <= j <= c.end && j < |h| && Shows(h[j], id, res);
    assert res.position >= 1 ==> Snap(h[j], id) == Snapshot(Queued, res.position, res.queueLength, res.activeCount);
  }

  /** More history takes no instant away, and an overlap once there is no objection. */
  lemma StaysJustified(h: seq<Room>, r: Room, c: Call, overlapped: bool, still: bool)
    requires Justified(h, c, overlapped) && (overlapped ==> still)
    ensures Justified(h + [r], c, still)
  {
    if c.task.CheckTask? {
      var id := c.task.id;
      if ActiveDuring(h, c, id) {
        ActiveStays(h, r, c, c, id);
      }
      if c.pc.Finished? && c.pc.result.Some? && c.pc.result.value.decision == Wait {
        var res := c.pc.result.value;
        var j :| c.start <= j <= c.end && j < |h| && Shows(h[j], id, res);
        assert Shows((h + [r])[j], id, res);
        KnownIsQueued(h + [r], c, id, res);
      }
    }
  }

  lemma ActiveStays(h: seq<Room>, r: Room, c: Call, c': Call, id: Id)
    requires ActiveDuring(h, c, id) && c'.start == c.start && c.end <= c'.end
    ensures ActiveDuring(h + [r], c', id)
  {
    var j :| c.start <= j <= c.end && j < |h| && id in h[j].active;
    assert (h + [r])[j] == h[j];
  }

  /** An enqueued ticket is known afterwards, and queued if it was unknown before. */
  lemma EnqueuedShows(r: Room, id: Id, now: int, slides: bool)
    ensures var r' := Enqueued(r, id, now, slides);
      && Shows(r', id, ResultOf(Wait, Snap(r', id), 0))
      && (Absent(r, id) ==> Snap(r', id).position >= 1)
  {
    var r' := Enqueued(r, id, now, slides);
    if Absent(r, id) {
      TailFind(r.queue, Waiter(id, r.nextSeq + 1, now, now));
    } else if id !in r.active {
      assert r'.queue[Find(r.queue, id)].id == id;
    }
  }

  /** The action of a Check leaves it justified. */
  lemma MoveJustified(w: World, h: seq<Room>, r: Room, cap: int, c: Call, order: seq<Id>, r': Room, overlapped: bool)
    requires c.replica < |w.cfgs| && c.task.CheckTask? && Running(c)
    requires h != [] && h[|h| - 1] == r && c.start <= c.end < |h|
    requires Justified(h, c, overlapped)
    requires c.pc.Join? ==> Absent(r, c.task.id) || overlapped
    requires var m := Next(w, r, cap, c, order);
      if m.op.Some? then Legal(r, m.op.value) && r' == Apply(r, m.op.value, w.slides) else r' == r
    ensures Justified(h + [r'], c.(pc := Next(w, r, cap, c, order).pc, end := |h|), overlapped)
  {
    var m, id := Next(w, r, cap, c, order), c.task.id;
    var c' := c.(pc := m.pc, end := |h|);
    var h' := h + [r'];
    assert h'[|h| - 1] == r && h'[|h|] == r';
    if c.pc.TouchIt? || c.pc.CountAdmission? {
      ActiveStays(h, r', c, c', id);
    } else if c.pc.Look? {
      LookJustified(h', |h| - 1, c', Snap(r, id), overlapped);
    } else if c.pc.Try? {
      hide Report;
      assert m.pc.CountAdmission? ==> id in h'[|h|].active;
    } else if c.pc.Join? {
      EnqueuedShows(r, id, c.now, w.slides);
      assert Shows(h'[|h|], id, c'.pc.result.value);
      KnownIsQueued(h', c', id, c'.pc.result.value);
    }
  }

  lemma LookJustified(h: seq<Room>, j: nat, c: Call, snap: Snapshot, overlapped: bool)
    requires c.task.CheckTask? && c.start <= j <= c.end && j < |h| && snap == Snap(h[j], c.task.id)
    requires c.pc == match snap.status
                     case Active => TouchIt(snap)
                     case Queued => Done(Wait, snap)
                     case Unknown => LoadAdmitCapacity(snap)
    ensures Justified(h, c, overlapped)
  {
    if snap.status == Queued {
      assert Shows(h[j], c.task.id, ResultOf(Wait, snap, 0));
      KnownIsQueued(h, c, c.task.id, ResultOf(Wait, snap, 0));
    }
  }

  lemma StepJustified(w: World, s: Sys, step: Step)
    requires WellFormed(w, s) && Enabled(w, s, step) && EntersUnknown(s) && AllJustified(s)
    ensures AllJustified(Do(w, s, step))
  {
    hide Next, Apply, Promotes, Count, Legal, Justified, Overlapped;
    var s' := Do(w, s, step);
    forall k | 0 <= k < |s'.calls| ensures Justified(s'.history, s'.calls[k], Overlapped(s'.calls, k)) {
      match step
      case Start(replica, task, now, skip) =>
        if k == |s.calls| {
          NewJustified(s'.history, s'.calls[k], skip, Overlapped(s'.calls, k));
        } else {
          StartJustified(s.history, s.calls, s'.calls[|s.calls|], k);
        }
      case Meddle(_) =>
        StaysJustified(s.history, s'.room, s.calls[k], Overlapped(s.calls, k), Overlapped(s.calls, k));
      case Advance(i, order) => AdvanceJustified(w, s, i, order, k);
    }
  }

  lemma AdvanceJustified(w: World, s: Sys, i: nat, order: seq<Id>, k: nat)
    requires WellFormed(w, s) && Enabled(w, s, Advance(i, order)) && EntersUnknown(s) && AllJustified(s)
    requires k < |s.calls|
    ensures var s' := Do(w, s, Advance(i, order));
      Justified(s'.history, s'.calls[k], Overlapped(s'.calls, k))
  {
    hide Next, Apply, Promotes, Count, Legal, Justified, Overlapped, Raced;
    var s', m, c := Do(w, s, Advance(i, order)), MoveOf(w, s, i, order), s.calls[i];
    if Overlapped(s.calls, k) {
      OverlappedStays(s.calls, k, i, s'.calls[i]);
    }
    if k != i {
      StaysJustified(s.history, s'.room, s.calls[k], Overlapped(s.calls, k), Overlapped(s'.calls, k));
    } else if c.task.CheckTask? {
      if c.pc.Join? && Raced(s.calls, i) {
        RacedOverlaps(s.calls, i, s'.calls[i]);
      }
      StillJustified(s.history, c, Overlapped(s.calls, i), Overlapped(s'.calls, i));
      MoveJustified(w, s.history, s.room, s.cached[c.replica], c, order, s'.room, Overlapped(s'.calls, i));
    } else {
      OtherJustified(s'.history, s'.calls[k], Overlapped(s'.calls, k));
    }
  }

  /** A raced call that acts now has overlapped its rival. */
  lemma RacedOverlaps(calls: seq<Call>, i: nat, c: Call)
    requires i < |calls| && Raced(calls, i)
    requires c.task == calls[i].task && c.start == calls[i].start
    requires forall k :: 0 <= k < |calls| ==> calls[k].start < c.end
    ensures Overlapped(calls[i := c], i)
  {
    var k :| 0 <= k < |calls| && k != i && calls[k].task == calls[i].task && calls[i].start < calls[k].end;
    assert Overlap(calls[i := c][i], calls[i := c][k]);
  }

  lemma StillJustified(h: seq<Room>, c: Call, overlapped: bool, still: bool)
    requires Justified(h, c, overlapped) && (overlapped ==> still)
    ensures Justified(h, c, still)
  {
  }

  lemma StartJustified(h: seq<Room>, calls: seq<Call>, c: Call, k: nat)
    requires k < |calls| && Justified(h, calls[k], Overlapped(calls, k))
    ensures Justified(h, (calls + [c])[k], Overlapped(calls + [c], k))
  {
    if Overlapped(calls, k) {
      var j :| 0 <= j < |calls| && j != k && Overlap(calls[k], calls[j]);
      assert Overlap((calls + [c])[k], (calls + [c])[j]);
    }
    StillJustified(h, calls[k], Overlapped(calls, k), Overlapped(calls + [c], k));
  }

  lemma NewJustified(h: seq<Room>, c: Call, skip: bool, overlapped: bool)
    requires c.pc == FirstPc(c.task, skip)
    ensures Justified(h, c, overlapped)
  {
  }

  lemma OtherJustified(h: seq<Room>, c: Call, overlapped: bool)
    requires !c.task.CheckTask?
    ensures Justified(h, c, overlapped)
  {
  }

  /**
   Over every interleaving: a Check that answers Proxy ran while its ticket was active at
   some instant inside the call.  One that answers Wait ran while its ticket was known with
   exactly the returned position and counts; that instant is a queued one exactly if the
   position is at least 1, and it is if no other Check of the ticket overlapped this call.
   */
  lemma {:induction false} AlwaysJustified(w: World, s: Sys, steps: seq<Step>)
    requires WellFormed(w, s) && LegalSteps(w, s, steps) && RoomSafe(s) && EntersUnknown(s) && AllJustified(s)
    ensures AllJustified(After(w, s, steps))
    decreases |steps|
  {
    if steps != [] {
      StepWellFormed(w, s, steps[0]);
      StepSafe(w, s, steps[0]);
      StepEntersUnknown(w, s, steps[0]);
      StepJustified(w, s, steps[0]);
      AlwaysJustified(w, Do(w, s, steps[0]), steps[1..]);
    }
  }

  /**
   The promise to one caller: in any run from the start, call `i`, a finished Check of `id`
   that answers Wait and that no other Check of `id` overlapped, had an instant at which its
   ticket was queued at exactly the returned position, with exactly the returned counts.
   */
  lemma LoneWaitWasQueued(w: World, steps: seq<Step>, i: nat, id: Id, res: Result)
    requires LegalSteps(w, Init(w), steps)
    requires var s := After(w, Init(w), steps);
      i < |s.calls| && s.calls[i].task == CheckTask(id) && s.calls[i].pc == Finished(Some(res)) && res.decision == Wait
    requires var calls := After(w, Init(w), steps).calls;
      forall k :: 0 <= k < |calls| && k != i && calls[k].task == CheckTask(id) ==>
        !(calls[i].start < calls[k].end && calls[k].start < calls[i].end)
    ensures var s := After(w, Init(w), steps);
      exists j :: s.calls[i].start <= j <= s.calls[i].end && j < |s.history|
        && Snap(s.history[j], id) == Snapshot(Queued, res.position, res.queueLength, res.activeCount)
  {
    hide LegalSteps, Init, Total;
    InitSums(w);
    InitCalm(w);
    AlwaysJustified(w, Init(w), steps);
    var s := After(w, Init(w), steps);
    assert !Overlapped(s.calls, i);
    assert Justified(s.history, s.calls[i], false);
    assert QueuedDuring(s.history, s.calls[i], id, res);
  }

  lemma InitCalm(w: World)
    ensures EntersUnknown(Init(w)) && AllJustified(Init(w)) && SoloHeld(w, Init(w))
  {
  }

  /** Everything above, for every run from the initial state of a configured world. */
  lemma FromTheStart(w: World, steps: seq<Step>)
    requires Configured(w) && LegalSteps(w, Init(w), steps)
    ensures var s := After(w, Init(w), steps);
      RoomSafe(s) && CapacitiesUsable(s) && BooksBalance(s) && SoloHeld(w, s) && AllJustified(s)
  {
    InitSums(w);
    InitCalm(w);
    AlwaysSafe(w, Init(w), steps);
    AlwaysUsable(w, Init(w), steps);
    AlwaysBooks(w, Init(w), steps);
    AlwaysSolo(w, Init(w), steps);
    AlwaysJustified(w, Init(w), steps);
  }
}
