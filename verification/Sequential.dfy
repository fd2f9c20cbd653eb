/**
 The two views of the controller agree: a call of the interleaved system that nobody
 interrupts does, to the room, to its replica's capacity and to its counters, what the
 sequential controller does, whatever calls are in flight elsewhere.
 */
module Sequential {
  import opened WaitingRoom
  import opened Admission
  import opened Runs
  import opened Replicas

  // ---------- runs in which one call acts alone ----------

  /** `steps` lead from `s` to `s'`. */
  ghost predicate Leads(w: World, s: Sys, steps: seq<Step>, s': Sys) {
    WellFormed(w, s) && LegalSteps(w, s, steps) && After(w, s, steps) == s'
  }

  lemma NoStep(w: World, s: Sys)
    requires WellFormed(w, s)
    ensures Leads(w, s, [], s)
  {
  }

  lemma OneStep(w: World, s: Sys, step: Step)
    requires WellFormed(w, s) && Enabled(w, s, step) && WellFormed(w, Do(w, s, step))
    ensures Leads(w, s, [step], Do(w, s, step))
  {
    hide Enabled, Do, WellFormed;
    assert [step][1..] == [];
    NoStep(w, Do(w, s, step));
  }

  lemma {:induction false} OneMore(w: World, s: Sys, steps: seq<Step>, s1: Sys, step: Step)
    requires Leads(w, s, steps, s1) && WellFormed(w, s1) && Enabled(w, s1, step)
    ensures WellFormed(w, Do(w, s1, step)) && Leads(w, s, steps + [step], Do(w, s1, step))
    decreases |steps|
  {
    hide Enabled, Do, WellFormed;
    StepWellFormed(w, s1, step);
    if steps == [] {
      assert steps + [step] == [step];
      OneStep(w, s, step);
    } else {
      StepWellFormed(w, s, steps[0]);
      assert (steps + [step])[1..] == steps[1..] + [step];
      OneMore(w, Do(w, s, steps[0]), steps[1..], s1, step);
    }
  }

  predicate OnlyCall(steps: seq<Step>, i: nat) {
    forall k :: 0 <= k < |steps| ==> steps[k].Advance? && steps[k].call == i
  }

  /** `s'` is reached from `s` by starting a call and letting it alone act. */
  ghost predicate Alone(w: World, s: Sys, start: Step, s': Sys) {
    exists rest :: OnlyCall(rest, |s.calls|) && Leads(w, s, [start] + rest, s')
  }

  /** What the call started by `start` has done so far, and that nothing else has changed. */
  ghost predicate Did(w: World, s: Sys, start: Step, s': Sys, room: Room, cap: int, counts: Counters, pc: Pc)
    requires start.Start?
  {
    && WellFormed(w, s) && WellFormed(w, s') && start.replica < |w.cfgs|
    && s'.room == room
    && s'.cached == s.cached[start.replica := cap]
    && s'.metrics == s.metrics[start.replica := s.metrics[start.replica].Plus(counts)]
    && |s'.calls| == |s.calls| + 1 && s'.calls[..|s.calls|] == s.calls
    && var c := s'.calls[|s.calls|]; c == CallOf(start, pc).(start := c.start, end := c.end)
  }

  function CallOf(start: Step, pc: Pc): Call
    requires start.Start?
  {
    Call(start.replica, start.task, start.now, pc, 0, 0)
  }

  lemma NothingMore(c: Counters)
    ensures c.Plus(ZERO) == ZERO.Plus(c) == c
  {
  }

  /** What a call does next does not depend on when it began. */
  lemma NextIsTimeless(w: World, r: Room, cap: int, c: Call, order: seq<Id>)
    requires c.replica < |w.cfgs|
    ensures Next(w, r, cap, c, order) == Next(w, r, cap, c.(start := 0, end := 0), order)
  {
    hide Report, Snap, Enqueued;
  }

  lemma Begin(w: World, s: Sys, start: Step) returns (s': Sys)
    requires WellFormed(w, s) && start.Start? && Enabled(w, s, start)
    ensures start.replica < |w.cfgs|
    ensures Alone(w, s, start, s')
    ensures Did(w, s, start, s', s.room, s.cached[start.replica], ZERO, FirstPc(start.task, start.skip))
  {
    NoStep(w, s);
    OneMore(w, s, [], s, start);
    s' := Do(w, s, start);
    assert [] + [start] == [start] + [];
    assert OnlyCall([], |s.calls|);
  }

  /** One more action of the call, with what it leads to. */
  lemma Act(w: World, s: Sys, start: Step, s1: Sys, order: seq<Id>, room: Room, cap: int, counts: Counters, pc: Pc,
            m: Move, room': Room, cap': int, counts': Counters) returns (s': Sys)
    requires start.Start? && start.replica < |w.cfgs|
    requires Alone(w, s, start, s1) && Did(w, s, start, s1, room, cap, counts, pc) && !pc.Finished?
    requires Next(w, room, cap, CallOf(start, pc), order) == m
    requires if m.op.Some? then Legal(room, m.op.value) && room' == Apply(room, m.op.value, w.slides) else room' == room
    requires cap' == m.cache.GetOr(cap) && counts' == counts.Plus(m.counts)
    ensures Alone(w, s, start, s') && Did(w, s, start, s', room', cap', counts', m.pc)
  {
    hide Next, Apply, Promotes, Count, Legal, Leads;
    var step := Advance(|s.calls|, order);
    var c := s1.calls[|s.calls|];
    NextIsTimeless(w, room, cap, c, order);
    assert c.(start := 0, end := 0) == CallOf(start, pc);
    assert MoveOf(w, s1, |s.calls|, order) == m;
    var rest :| OnlyCall(rest, |s.calls|) && Leads(w, s, [start] + rest, s1);
    OneMore(w, s, [start] + rest, s1, step);
    assert [start] + rest + [step] == [start] + (rest + [step]);
    s' := Do(w, s1, step);
    assert OnlyCall(rest + [step], |s.calls|);
    assert s'.calls[..|s.calls|] == s.calls;
  }

  // ---------- the administrator's calls ----------

  /** SetCapacity alone: rejected below 1 without a trace; otherwise stored and cached. */
  lemma SetAlone(w: World, s: Sys, start: Step, n: int) returns (s': Sys)
    requires WellFormed(w, s) && start.Start? && Enabled(w, s, start) && start.task == SetTask(n)
    ensures Alone(w, s, start, s')
    ensures if n >= 1
      then Did(w, s, start, s', s.room.(override := Some(n)), n, ZERO, Finished(None))
      else Did(w, s, start, s', s.room, s.cached[start.replica], ZERO, Finished(None))
  {
    hide Alone, Did, Next, Apply, Enabled, Counters.Plus;
    s' := Begin(w, s, start);
    NothingMore(ZERO);
    SetMoves(w, s.room, s.cached[start.replica], start, n);
    if n >= 1 {
      var r, cap := s.room, s.cached[start.replica];
      var r' := r.(override := Some(n));
      s' := Act(w, s, start, s', [], r, cap, ZERO, WriteOverride, Acts(Op.SetCapacity(n), WriteCapacity), r', cap, ZERO);
      s' := Act(w, s, start, s', [], r', cap, ZERO, WriteCapacity, Move(None, Finished(None), Some(n), ZERO), r', n, ZERO);
    }
  }

  lemma SetMoves(w: World, r: Room, cap: int, start: Step, n: int)
    requires start.Start? && start.replica < |w.cfgs| && start.task == SetTask(n)
    ensures Next(w, r, cap, CallOf(start, WriteOverride), []) == Acts(Op.SetCapacity(n), WriteCapacity)
    ensures Apply(r, Op.SetCapacity(n), w.slides) == r.(override := Some(n))
    ensures var r' := r.(override := Some(n));
      Next(w, r', cap, CallOf(start, WriteCapacity), []) == Move(None, Finished(None), Some(n), ZERO)
  {
  }

  /** Flush alone: everybody in line is sent away, no session ends. */
  lemma FlushAlone(w: World, s: Sys, start: Step) returns (s': Sys)
    requires WellFormed(w, s) && start.Start? && Enabled(w, s, start) && start.task == FlushTask
    ensures Alone(w, s, start, s')
    ensures Did(w, s, start, s', s.room.(queue := []), s.cached[start.replica], ZERO, Finished(None))
  {
    hide Alone, Did, Enabled, Counters.Plus;
    s' := Begin(w, s, start);
    NothingMore(ZERO);
    var cap := s.cached[start.replica];
    s' := Act(w, s, start, s', [], s.room, cap, ZERO, Empty, Acts(Flush, Finished(None)), Flushed(s.room), cap, ZERO);
  }

  // ---------- the pass every caller shares ----------

  /** The configuration under which a call runs. */
  function Cfg(w: World, start: Step): Config
    requires start.Start? && start.replica < |w.cfgs|
  {
    w.cfgs[start.replica]
  }

  /** What a pass adds to the counters: an admission per reported wait, the expired and the evicted. */
  function PassCounts(w: World, r: Room, cap: int, start: Step): Counters
    requires start.Start? && start.replica < |w.cfgs|
  {
    var report := PassReport(r, Cfg(w, start), cap, start.now);
    Counters(|report.waitedSecs|, report.expired, report.evicted)
  }

  lemma PassAlone(w: World, s: Sys, start: Step, s1: Sys, order: seq<Id>, cap: int) returns (s': Sys)
    requires start.Start? && start.replica < |w.cfgs| && Alone(w, s, start, s1) && Did(w, s, start, s1, s.room, cap, ZERO, LoadCapacity)
    requires Scans(s.room, Cfg(w, start), start.now, order)
    ensures Alone(w, s, start, s')
    ensures Did(w, s, start, s', PassRoom(s.room, Cfg(w, start), cap, start.now, order), cap, PassCounts(w, s.room, cap, start),
                if Asks(start.task) then Look else Finished(None))
  {
    hide Alone, Did, Report, Reconciled, IsScan, Next, Apply, PassRoom, PassCounts, Scans, Counters.Plus;
    var r, cfg := s.room, Cfg(w, start);
    var report := PassReport(r, cfg, cap, start.now);
    PassMoves(w, r, cap, start, order);
    NothingMore(ZERO);
    NothingMore(PassCounts(w, r, cap, start));
    var r', counts := PassRoom(r, Cfg(w, start), cap, start.now, order), PassCounts(w, r, cap, start);
    var op := Op.Reconcile(cap, cfg.activeTTL, cfg.queueTTL, start.now, order);
    var next := if Asks(start.task) then Look else Finished(None);
    s' := Act(w, s, start, s1, order, r, cap, ZERO, LoadCapacity, Silent(Pass(cap)), r, cap, ZERO);
    s' := Act(w, s, start, s', order, r, cap, ZERO, Pass(cap), Acts(op, CountPass(report)), r', cap, ZERO);
    s' := Act(w, s, start, s', order, r', cap, ZERO, CountPass(report), Move(None, next, None, counts), r', cap, counts);
  }

  lemma PassMoves(w: World, r: Room, cap: int, start: Step, order: seq<Id>)
    requires start.Start? && start.replica < |w.cfgs| && Scans(r, Cfg(w, start), start.now, order)
    ensures var cfg := Cfg(w, start);
      var report := PassReport(r, cfg, cap, start.now);
      var op := Op.Reconcile(cap, cfg.activeTTL, cfg.queueTTL, start.now, order);
      var r' := PassRoom(r, Cfg(w, start), cap, start.now, order);
      && Next(w, r, cap, CallOf(start, LoadCapacity), order) == Silent(Pass(cap))
      && Next(w, r, cap, CallOf(start, Pass(cap)), order) == Acts(op, CountPass(report))
      && Legal(r, op) && Apply(r, op, w.slides) == r'
      && Next(w, r', cap, CallOf(start, CountPass(report)), order)
         == Move(None, if Asks(start.task) then Look else Finished(None), None, PassCounts(w, r, cap, start))
  {
    hide Report, Reconciled, IsScan, Snap, Enqueued;
  }

  /**
   A janitor round alone: the stored override is adopted if it is at least 1, the configured
   capacity if not, and the pass runs at that capacity.
   */
  lemma JanitorAlone(w: World, s: Sys, start: Step, order: seq<Id>) returns (s': Sys)
    requires WellFormed(w, s) && start.Start? && Enabled(w, s, start) && start.task.JanitorTask?
    requires Scans(s.room, Cfg(w, start), start.now, order)
    ensures Alone(w, s, start, s')
    ensures var stored := s.room.override;
      var cap := if stored.Some? && stored.value >= 1 then stored.value else Cfg(w, start).capacity;
      if start.task.pass
      then Did(w, s, start, s', PassRoom(s.room, Cfg(w, start), cap, start.now, order), cap, PassCounts(w, s.room, cap, start), Finished(None))
      else Did(w, s, start, s', s.room, cap, ZERO, Finished(None))
  {
    hide Alone, Did, PassRoom, PassCounts, Scans, Next, Apply, Enabled, Counters.Plus;
    NothingMore(ZERO);
    s' := Begin(w, s, start);
    AdoptMoves(w, s.room, s.cached[start.replica], start, order);
    var r, stored := s.room, s.room.override;
    var cap := if stored.Some? && stored.value >= 1 then stored.value else Cfg(w, start).capacity;
    var was, next := s.cached[start.replica], if start.task.pass then LoadCapacity else Finished(None);
    s' := Act(w, s, start, s', order, r, was, ZERO, ReadOverride, Silent(AdoptCapacity(stored)), r, was, ZERO);
    s' := Act(w, s, start, s', order, r, was, ZERO, AdoptCapacity(stored), Move(None, next, Some(cap), ZERO), r, cap, ZERO);
    if start.task.pass {
      s' := PassAlone(w, s, start, s', order, cap);
    }
  }

  lemma AdoptMoves(w: World, r: Room, cap: int, start: Step, order: seq<Id>)
    requires start.Start? && start.replica < |w.cfgs| && start.task.JanitorTask?
    ensures var adopted := if r.override.Some? && r.override.value >= 1 then r.override.value else Cfg(w, start).capacity;
      && Next(w, r, cap, CallOf(start, ReadOverride), order) == Silent(AdoptCapacity(r.override))
      && Next(w, r, cap, CallOf(start, AdoptCapacity(r.override)), order)
         == Move(None, if start.task.pass then LoadCapacity else Finished(None), Some(adopted), ZERO)
  {
  }

  // ---------- the two request paths ----------

  /** The room a request finds: after its pass, unless the reconcile gap lets it skip that. */
  ghost function FoundRoom(w: World, r: Room, cap: int, start: Step, order: seq<Id>): Room
    requires start.Start? && start.replica < |w.cfgs| && (start.skip || Scans(r, Cfg(w, start), start.now, order))
  {
    if start.skip then r else PassRoom(r, Cfg(w, start), cap, start.now, order)
  }

  function FoundCounts(w: World, r: Room, cap: int, start: Step): Counters
    requires start.Start? && start.replica < |w.cfgs|
  {
    if start.skip then ZERO else PassCounts(w, r, cap, start)
  }

  lemma AskAlone(w: World, s: Sys, start: Step, order: seq<Id>) returns (s': Sys)
    requires WellFormed(w, s) && start.Start? && Enabled(w, s, start) && Asks(start.task)
    requires start.skip || Scans(s.room, Cfg(w, start), start.now, order)
    ensures start.replica < |w.cfgs| && Alone(w, s, start, s')
    ensures var cap := s.cached[start.replica];
      Did(w, s, start, s', FoundRoom(w, s.room, cap, start, order), cap, FoundCounts(w, s.room, cap, start), Look)
  {
    hide Alone, Did, Enabled, Scans, PassRoom, PassCounts, Counters.Plus;
    s' := Begin(w, s, start);
    if !start.skip {
      s' := PassAlone(w, s, start, s', order, s.cached[start.replica]);
    }
  }

  /**
   A request alone is one Check of the sequential controller: on the room it finds, at its
   replica's capacity, counting its pass and a direct admission.
   */
  lemma CheckAlone(w: World, s: Sys, start: Step, order: seq<Id>, id: Id) returns (s': Sys)
    requires WellFormed(w, s) && start.Start? && Enabled(w, s, start) && start.task == CheckTask(id)
    requires start.skip || Scans(s.room, Cfg(w, start), start.now, order)
    requires s.room.Valid()
    ensures start.replica < |w.cfgs| && Alone(w, s, start, s')
    ensures var cap := s.cached[start.replica];
      var r, counts := FoundRoom(w, s.room, cap, start, order), FoundCounts(w, s.room, cap, start);
      var r' := CheckRoom(r, id, cap, start.now);
      var admitted := if Snap(r, id).status == Unknown && id in r'.active then Counters(1, 0, 0) else ZERO;
      Did(w, s, start, s', r', cap, counts.Plus(admitted), Finished(Some(CheckResult(r, id, cap))))
  {
    hide Alone, Did, Enabled, Scans, FoundRoom, FoundCounts, Counters.Plus, Next, Apply, Snap, Admits,
      CheckRoom, CheckResult, Seen, Touched, Tried, Enqueued, Room.Valid;
    s' := AskAlone(w, s, start, order);
    var cap, now := s.cached[start.replica], start.now;
    var r, counts := FoundRoom(w, s.room, cap, start, order), FoundCounts(w, s.room, cap, start);
    FoundValid(w, s.room, cap, start, order);
    NothingMore(counts);
    var snap, r1 := Snap(r, id), Seen(r, id, now);
    CheckMoves(w, r, cap, start, id);
    match snap.status
    case Active =>
      s' := Act(w, s, start, s', [], r, cap, counts, Look, Acts(Op.Lookup(id, now), TouchIt(snap)), r1, cap, counts);
      s' := Act(w, s, start, s', [], r1, cap, counts, TouchIt(snap), Acts(Touch(id, now), Done(Proxy, snap)),
                Touched(r1, id, now), cap, counts);
    case Queued =>
      s' := Act(w, s, start, s', [], r, cap, counts, Look, Acts(Op.Lookup(id, now), Done(Wait, snap)), r1, cap, counts);
    case Unknown =>
      s' := Act(w, s, start, s', [], r, cap, counts, Look, Acts(Op.Lookup(id, now), LoadAdmitCapacity(snap)), r, cap, counts);
      s' := Act(w, s, start, s', [], r, cap, counts, LoadAdmitCapacity(snap), Silent(Try(snap, cap)), r, cap, counts);
      var tried := Tried(r, id, cap, now);
      if Admits(r, id, cap) {
        var seen, one := snap.(status := Active, activeCount := snap.activeCount + 1), Counters(1, 0, 0);
        s' := Act(w, s, start, s', [], r, cap, counts, Try(snap, cap), Acts(TryAdmit(id, cap, now), CountAdmission(snap)),
                  tried, cap, counts);
        s' := Act(w, s, start, s', [], tried, cap, counts, CountAdmission(snap), Move(None, Done(Proxy, seen), None, one),
                  tried, cap, counts.Plus(one));
      } else {
        var last := Enqueued(r, id, now, w.slides);
        s' := Act(w, s, start, s', [], r, cap, counts, Try(snap, cap), Acts(TryAdmit(id, cap, now), Join), r, cap, counts);
        s' := Act(w, s, start, s', [], r, cap, counts, Join,
                  Acts(Op.Enqueue(id, now), Done(Wait, Snap(last, id))), last, cap, counts);
      }
  }

  lemma FoundValid(w: World, r: Room, cap: int, start: Step, order: seq<Id>)
    requires start.Start? && start.replica < |w.cfgs| && (start.skip || Scans(r, Cfg(w, start), start.now, order))
    requires r.Valid()
    ensures FoundRoom(w, r, cap, start, order).Valid()
  {
    if !start.skip {
      ReconciledValid(r, cap, Cfg(w, start).activeTTL, Cfg(w, start).queueTTL, start.now, order);
    }
  }

  /** Every action of a Check, branch by branch, and where the branch ends. */
  lemma CheckMoves(w: World, r: Room, cap: int, start: Step, id: Id)
    requires start.Start? && start.replica < |w.cfgs| && start.task == CheckTask(id) && r.Valid()
    ensures var now, snap := start.now, Snap(r, id);
      var r', res := CheckRoom(r, id, cap, now), CheckResult(r, id, cap);
      match snap.status
      case Active =>
        && LookFinds(w, r, cap, start, id, TouchIt(snap))
        && Next(w, Seen(r, id, now), cap, CallOf(start, TouchIt(snap)), []) == Acts(Touch(id, now), Done(Proxy, snap))
        && Apply(Seen(r, id, now), Touch(id, now), w.slides) == Touched(Seen(r, id, now), id, now) == r'
        && Done(Proxy, snap) == Finished(Some(res))
      case Queued =>
        && LookFinds(w, r, cap, start, id, Done(Wait, snap))
        && Seen(r, id, now) == r' && Done(Wait, snap) == Finished(Some(res))
      case Unknown =>
        && LookFinds(w, r, cap, start, id, LoadAdmitCapacity(snap)) && Seen(r, id, now) == r
        && Next(w, r, cap, CallOf(start, LoadAdmitCapacity(snap)), []) == Silent(Try(snap, cap))
        && Apply(r, TryAdmit(id, cap, now), w.slides) == Tried(r, id, cap, now)
        && Next(w, r, cap, CallOf(start, Try(snap, cap)), [])
           == Acts(TryAdmit(id, cap, now), if Admits(r, id, cap) then CountAdmission(snap) else Join)
        && if Admits(r, id, cap) then
             var seen := snap.(status := Active, activeCount := snap.activeCount + 1);
             && Next(w, Tried(r, id, cap, now), cap, CallOf(start, CountAdmission(snap)), [])
                == Move(None, Done(Proxy, seen), None, Counters(1, 0, 0))
             && Tried(r, id, cap, now) == r' && id in r'.active && Done(Proxy, seen) == Finished(Some(res))
           else
             var last := Enqueued(r, id, now, w.slides);
             && Tried(r, id, cap, now) == r
             && Next(w, r, cap, CallOf(start, Join), []) == Acts(Op.Enqueue(id, now), Done(Wait, Snap(last, id)))
             && Apply(r, Op.Enqueue(id, now), w.slides) == last
             && last == r' && id !in r'.active && Done(Wait, Snap(last, id)) == Finished(Some(res))
  {
    hide Find, Report, Reconciled, Room.Valid;
    CheckIsTrue(r, id, cap, start.now);
  }

  /** The shared lookup. */
  ghost predicate LookFinds(w: World, r: Room, cap: int, start: Step, id: Id, pc: Pc)
    requires start.Start? && start.replica < |w.cfgs|
  {
    && Next(w, r, cap, CallOf(start, Look), []) == Acts(Op.Lookup(id, start.now), pc)
    && Apply(r, Op.Lookup(id, start.now), w.slides) == Seen(r, id, start.now)
  }

  /** A status poll alone: a heartbeat on the room it finds, and the answer for that room. */
  lemma StatusAlone(w: World, s: Sys, start: Step, order: seq<Id>, id: Id) returns (s': Sys)
    requires WellFormed(w, s) && start.Start? && Enabled(w, s, start) && start.task == StatusTask(id)
    requires start.skip || Scans(s.room, Cfg(w, start), start.now, order)
    ensures start.replica < |w.cfgs| && Alone(w, s, start, s')
    ensures var cap := s.cached[start.replica];
      var r := FoundRoom(w, s.room, cap, start, order);
      Did(w, s, start, s', Seen(r, id, start.now), cap, FoundCounts(w, s.room, cap, start),
          Finished(Some(StatusResult(r, id, cap))))
  {
    hide Alone, Did, Enabled, Scans, FoundRoom, FoundCounts, Counters.Plus, Next, Apply, Snap, Seen, StatusResult;
    s' := AskAlone(w, s, start, order);
    var cap, now := s.cached[start.replica], start.now;
    var r, counts := FoundRoom(w, s.room, cap, start, order), FoundCounts(w, s.room, cap, start);
    NothingMore(counts);
    var snap, r1, done := Snap(r, id), Seen(r, id, now), Finished(Some(StatusResult(r, id, cap)));
    StatusMoves(w, r, cap, start, id);
    if snap.status == Unknown {
      s' := Act(w, s, start, s', [], r, cap, counts, Look, Acts(Op.Lookup(id, now), Judge(snap)), r1, cap, counts);
      s' := Act(w, s, start, s', [], r1, cap, counts, Judge(snap), Silent(done), r1, cap, counts);
    } else {
      s' := Act(w, s, start, s', [], r, cap, counts, Look, Acts(Op.Lookup(id, now), done), r1, cap, counts);
    }
  }

  lemma StatusMoves(w: World, r: Room, cap: int, start: Step, id: Id)
    requires start.Start? && start.replica < |w.cfgs| && start.task == StatusTask(id)
    ensures var snap, done := Snap(r, id), Finished(Some(StatusResult(r, id, cap)));
      && LookFinds(w, r, cap, start, id, if snap.status == Unknown then Judge(snap) else done)
      && (snap.status == Unknown ==>
            Next(w, Seen(r, id, start.now), cap, CallOf(start, Judge(snap)), []) == Silent(done))
  {
    hide Find, Report, Reconciled;
  }
}
