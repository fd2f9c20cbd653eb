/**
 How a capacity override spreads.  Once no SetCapacity is in flight and nobody rewrites the
 stored value, a replica whose janitor has completed one refresh begun since then has the
 stored capacity cached, and keeps it.
 */
module Agreement {
  import opened WaitingRoom
  import opened Runs
  import opened Replicas
  import opened Admission
  import C = Controller

  /** No write to the capacity, stored or cached by an administrator, is pending. */
  ghost predicate NoSetters(s: Sys) {
    forall i :: 0 <= i < |s.calls| && s.calls[i].task.SetTask? ==> !Running(s.calls[i])
  }

  /** At most the caching of the stored capacity itself is still pending. */
  ghost predicate OnlyEchoes(s: Sys, v: Option<int>) {
    forall i :: 0 <= i < |s.calls| && s.calls[i].task.SetTask? && Running(s.calls[i]) ==> Echo(s.calls[i], v)
  }

  predicate Echo(c: Call, v: Option<int>) {
    c.task.SetTask? && c.pc.WriteCapacity? && v == Some(c.task.n) && c.task.n >= 1
  }

  predicate Janitor(c: Call, replica: nat) {
    c.task.JanitorTask? && c.replica == replica
  }

  /** Two rounds of one replica's janitor loop. */
  predicate SameLoop(a: Call, b: Call) {
    a.task.JanitorTask? && b.task.JanitorTask? && a.replica == b.replica
  }

  /** Each replica's janitor loop has at most one round in flight. */
  ghost predicate OneJanitor(s: Sys) {
    forall i, j :: 0 <= i < j < |s.calls| && Running(s.calls[i]) && Running(s.calls[j]) ==>
      !SameLoop(s.calls[i], s.calls[j])
  }

  predicate QuietStep(step: Step) {
    !step.Meddle? && !(step.Start? && step.task.SetTask?)
  }

  predicate Adopted(c: Call) {
    !c.pc.ReadOverride? && !c.pc.AdoptCapacity?
  }

  /** Some janitor round of the replica begun after call number `since` has adopted a capacity. */
  ghost predicate Refreshed(s: Sys, since: nat, replica: nat) {
    exists i :: since <= i < |s.calls| && Janitor(s.calls[i], replica) && Adopted(s.calls[i])
  }

  ghost predicate Spreading(w: World, s: Sys, since: nat, v: Option<int>)
    requires WellFormed(w, s)
  {
    && s.room.override == v && OnlyEchoes(s, v) && OneJanitor(s) && since <= |s.calls|
    && (forall i :: since <= i < |s.calls| && s.calls[i].task.JanitorTask? && s.calls[i].pc.AdoptCapacity? ==>
          s.calls[i].pc.override == v)
    && (forall i, k :: 0 <= k < since <= i < |s.calls| && SameLoop(s.calls[k], s.calls[i]) ==>
          !Running(s.calls[k]))
    && (forall r :: 0 <= r < |w.cfgs| && Refreshed(s, since, r) ==>
          s.cached[r] == C.Effective(v, w.cfgs[r].capacity))
  }

  /** What an action may do to the capacity: only a janitor and an administrator write it. */
  lemma CapacityMoves(w: World, r: Room, cap: int, c: Call, order: seq<Id>, v: Option<int>)
    requires c.replica < |w.cfgs| && (c.task.SetTask? ==> Echo(c, v))
    ensures var m := Next(w, r, cap, c, order);
      && (m.op.Some? ==> !m.op.value.SetCapacity?)
      && (m.cache.Some? ==>
            if c.task.SetTask? then m.cache.value == C.Effective(v, w.cfgs[c.replica].capacity)
            else c.task.JanitorTask? && c.pc.AdoptCapacity?
                 && m.cache.value == C.Effective(c.pc.override, w.cfgs[c.replica].capacity))
      && (c.task.SetTask? ==> m.pc.Finished?)
      && (c.task.JanitorTask? && c.pc.AdoptCapacity? ==> m.cache.Some? && !m.pc.AdoptCapacity? && !m.pc.ReadOverride?)
      && (m.pc.AdoptCapacity? ==> c.pc.ReadOverride? && m.pc.override == r.override)
      && !m.pc.ReadOverride?
      && (c.pc.ReadOverride? ==> m.pc.AdoptCapacity?)
  {
    hide Report, Snap, Enqueued, Admits;
  }

  lemma OverrideKept(r: Room, op: Op, slides: bool)
    requires Legal(r, op) && !op.SetCapacity?
    ensures Apply(r, op, slides).override == r.override
  {
  }

  lemma StepSpreads(w: World, s: Sys, step: Step, since: nat, v: Option<int>)
    requires WellFormed(w, s) && Enabled(w, s, step) && QuietStep(step) && Spreading(w, s, since, v)
    ensures WellFormed(w, Do(w, s, step)) && Spreading(w, Do(w, s, step), since, v)
  {
    StepWellFormed(w, s, step);
    if step.Start? {
      StartSpreads(w, s, step, since, v);
    } else {
      AdvanceSpreads(w, s, step, since, v);
    }
  }

  lemma StartSpreads(w: World, s: Sys, step: Step, since: nat, v: Option<int>)
    requires WellFormed(w, s) && Enabled(w, s, step) && QuietStep(step) && Spreading(w, s, since, v) && step.Start?
    requires WellFormed(w, Do(w, s, step))
    ensures Spreading(w, Do(w, s, step), since, v)
  {
    hide Next, Apply, Promotes, Count, Legal, Perform;
    var s' := Do(w, s, step);
    forall r | 0 <= r < |w.cfgs| && Refreshed(s', since, r) ensures Refreshed(s, since, r) {
      var i :| since <= i < |s'.calls| && Janitor(s'.calls[i], r) && Adopted(s'.calls[i]);
      assert i < |s.calls| && s.calls[i] == s'.calls[i];
    }
  }

  lemma AdvanceSpreads(w: World, s: Sys, step: Step, since: nat, v: Option<int>)
    requires WellFormed(w, s) && Enabled(w, s, step) && Spreading(w, s, since, v) && step.Advance?
    requires WellFormed(w, Do(w, s, step))
    ensures Spreading(w, Do(w, s, step), since, v)
  {
    hide Next, Apply, Promotes, Count, Legal;
    var s', i := Do(w, s, step), step.call;
    var m, c := MoveOf(w, s, i, step.order), s.calls[i];
    CapacityMoves(w, s.room, s.cached[c.replica], c, step.order, v);
    if m.op.Some? {
      OverrideKept(s.room, m.op.value, w.slides);
    }
    forall r | 0 <= r < |w.cfgs| && Refreshed(s', since, r)
      ensures s'.cached[r] == C.Effective(v, w.cfgs[r].capacity)
    {
      var k :| since <= k < |s'.calls| && Janitor(s'.calls[k], r) && Adopted(s'.calls[k]);
      CachedAfter(w, s, i, step.order, since, v, r, k);
    }
  }

  /** The replica's cache after an action, given that a recent round has adopted by then. */
  lemma CachedAfter(w: World, s: Sys, i: nat, order: seq<Id>, since: nat, v: Option<int>, r: nat, k: nat)
    requires WellFormed(w, s) && Enabled(w, s, Advance(i, order)) && Spreading(w, s, since, v)
    requires r < |w.cfgs| && since <= k < |s.calls|
    requires var s' := Do(w, s, Advance(i, order));
      Janitor(s'.calls[k], r) && Adopted(s'.calls[k])
    ensures Do(w, s, Advance(i, order)).cached[r] == C.Effective(v, w.cfgs[r].capacity)
  {
    hide Next, Apply, Promotes, Count, Legal, Perform;
    var m, c := MoveOf(w, s, i, order), s.calls[i];
    CapacityMoves(w, s.room, s.cached[c.replica], c, order, v);
    if m.cache.Some? && c.replica == r {
      assert c.task.JanitorTask? ==> i >= since;
    } else {
      assert Janitor(s.calls[k], r) && Adopted(s.calls[k]);
      assert Refreshed(s, since, r);
    }
  }

  ghost predicate QuietSteps(steps: seq<Step>) {
    forall step :: step in steps ==> QuietStep(step)
  }

  lemma {:induction false} AlwaysSpreads(w: World, s: Sys, steps: seq<Step>, since: nat, v: Option<int>)
    requires WellFormed(w, s) && LegalSteps(w, s, steps) && QuietSteps(steps) && Spreading(w, s, since, v)
    ensures Spreading(w, After(w, s, steps), since, v)
    decreases |steps|
  {
    if steps != [] {
      assert steps[0] in steps && forall x :: x in steps[1..] ==> x in steps;
      StepSpreads(w, s, steps[0], since, v);
      AlwaysSpreads(w, Do(w, s, steps[0]), steps[1..], since, v);
    }
  }

  /**
   From a state without pending writes, over any run without new ones: every replica
   refreshed since caches the stored override, or its own configured value if the override
   is missing or unusable; and it still does at the end.
   */
  lemma CapacityAgreement(w: World, s: Sys, steps: seq<Step>, r: nat)
    requires WellFormed(w, s) && LegalSteps(w, s, steps) && QuietSteps(steps)
    requires NoSetters(s) && OneJanitor(s) && r < |w.cfgs|
    requires Refreshed(After(w, s, steps), |s.calls|, r)
    ensures After(w, s, steps).room.override == s.room.override
    ensures After(w, s, steps).cached[r] ==
      if s.room.override.Some? && s.room.override.value >= 1 then s.room.override.value else w.cfgs[r].capacity
  {
    AlwaysSpreads(w, s, steps, |s.calls|, s.room.override);
  }

  /**
   A capacity once written spreads.  From the moment a SetCapacity(n) writes the store, over
   any run in which nobody else writes it (nor was about to), the override stays n and every
   replica whose janitor has since begun and completed a refresh has n cached.
   */
  lemma WrittenCapacitySpreads(w: World, s: Sys, i: nat, steps: seq<Step>, n: int, r: nat)
    requires WellFormed(w, s) && OneJanitor(s) && CapacitiesUsable(s) && r < |w.cfgs|
    requires i < |s.calls| && s.calls[i].task == SetTask(n) && s.calls[i].pc.WriteOverride?
    requires forall k :: 0 <= k < |s.calls| && k != i && s.calls[k].task.SetTask? ==> !Running(s.calls[k])
    requires QuietSteps(steps) && LegalSteps(w, s, [Advance(i, [])] + steps)
    ensures var s' := After(w, s, [Advance(i, [])] + steps);
      && s'.room.override == Some(n)
      && (Refreshed(s', |s.calls|, r) ==> s'.cached[r] == n)
  {
    hide Do, Enabled, WellFormed, Echo, Janitor, SameLoop, CapacitiesUsable, Configured;
    var step := Advance(i, []);
    FirstThen(w, s, step, steps);
    WriteStores(w, s, i, n);
    AlwaysSpreads(w, Do(w, s, step), steps, |s.calls|, Some(n));
  }

  lemma FirstThen(w: World, s: Sys, step: Step, steps: seq<Step>)
    requires WellFormed(w, s) && LegalSteps(w, s, [step] + steps)
    ensures Enabled(w, s, step) && WellFormed(w, Do(w, s, step)) && LegalSteps(w, Do(w, s, step), steps)
    ensures After(w, s, [step] + steps) == After(w, Do(w, s, step), steps)
  {
    hide Do, Enabled, WellFormed;
    StepWellFormed(w, s, step);
    assert ([step] + steps)[0] == step && ([step] + steps)[1..] == steps;
  }

  lemma WriteStores(w: World, s: Sys, i: nat, n: int)
    requires WellFormed(w, s) && OneJanitor(s) && CapacitiesUsable(s)
    requires i < |s.calls| && s.calls[i].task == SetTask(n) && s.calls[i].pc.WriteOverride?
    requires forall k :: 0 <= k < |s.calls| && k != i && s.calls[k].task.SetTask? ==> !Running(s.calls[k])
    requires Enabled(w, s, Advance(i, []))
    requires WellFormed(w, Do(w, s, Advance(i, [])))
    ensures var s1 := Do(w, s, Advance(i, []));
      n >= 1 && |s1.calls| == |s.calls| && Spreading(w, s1, |s1.calls|, Some(n))
  {
    hide Promotes, Count;
    assert UsableAt(s.calls[i]);
  }

  // ---------- a finished write has happened ----------

  ghost predicate StoredDuring(h: seq<Room>, c: Call, n: int) {
    exists j :: c.start <= j <= c.end && j < |h| && h[j].override == Some(n)
  }

  /** A SetCapacity past its write stored its value at some instant inside the call. */
  ghost predicate Wrote(h: seq<Room>, c: Call) {
    c.task.SetTask? && c.task.n >= 1 && !c.pc.WriteOverride? ==> StoredDuring(h, c, c.task.n)
  }

  ghost predicate AllWrote(s: Sys) {
    forall i :: 0 <= i < |s.calls| ==> Wrote(s.history, s.calls[i])
  }

  lemma StillStored(h: seq<Room>, r: Room, c: Call, c': Call, n: int)
    requires StoredDuring(h, c, n) && c'.start == c.start && c.end <= c'.end
    ensures StoredDuring(h + [r], c', n)
  {
    var j :| c.start <= j <= c.end && j < |h| && h[j].override == Some(n);
    assert (h + [r])[j] == h[j];
  }

  lemma StepWrote(w: World, s: Sys, step: Step)
    requires WellFormed(w, s) && Enabled(w, s, step) && AllWrote(s)
    ensures AllWrote(Do(w, s, step))
  {
    hide Next, Apply, Promotes, Count, Legal, Perform;
    var s' := Do(w, s, step);
    forall k | 0 <= k < |s'.calls| && !step.Start? ensures Wrote(s'.history, s'.calls[k]) {
      var c := s.calls[k];
      assert Wrote(s.history, c);
      if c.task.SetTask? && StoredDuring(s.history, c, c.task.n) {
        StillStored(s.history, s'.room, c, s'.calls[k], c.task.n);
      } else if step.Advance? && step.call == k && c.task.SetTask? && c.pc.WriteOverride? {
        WriteIsStored(w, s, k, step.order);
        assert s'.history[s'.calls[k].end].override == Some(c.task.n);
      }
    }
  }

  lemma WriteIsStored(w: World, s: Sys, i: nat, order: seq<Id>)
    requires WellFormed(w, s) && i < |s.calls| && s.calls[i].task.SetTask? && s.calls[i].pc.WriteOverride?
    requires Enabled(w, s, Advance(i, order))
    ensures Do(w, s, Advance(i, order)).room.override == Some(s.calls[i].task.n)
  {
    hide Promotes, Count;
  }

  /** Over every interleaving, a SetCapacity that has finished stored its value while it ran. */
  lemma {:induction false} AlwaysWrote(w: World, s: Sys, steps: seq<Step>)
    requires WellFormed(w, s) && LegalSteps(w, s, steps) && AllWrote(s)
    ensures AllWrote(After(w, s, steps))
    decreases |steps|
  {
    if steps != [] {
      StepWellFormed(w, s, steps[0]);
      StepWrote(w, s, steps[0]);
      AlwaysWrote(w, Do(w, s, steps[0]), steps[1..]);
    }
  }

  lemma FinishedWritesStored(w: World, steps: seq<Step>, i: nat, n: int)
    requires LegalSteps(w, Init(w), steps) && n >= 1
    requires var s := After(w, Init(w), steps);
      i < |s.calls| && s.calls[i].task == SetTask(n) && !Running(s.calls[i])
    ensures var s := After(w, Init(w), steps);
      exists j :: s.calls[i].start <= j <= s.calls[i].end && j < |s.history| && s.history[j].override == Some(n)
  {
    AlwaysWrote(w, Init(w), steps);
    assert Wrote(After(w, Init(w), steps).history, After(w, Init(w), steps).calls[i]);
  }

  // ---------- where a capacity comes from ----------

  ghost predicate Stored(h: seq<Room>, n: int) {
    exists j :: 0 <= j < |h| && h[j].override == Some(n)
  }

  /** The replica's configured capacity, or one that has been in the store. */
  ghost predicate Genuine(h: seq<Room>, cfg: Config, n: int) {
    n == cfg.capacity || Stored(h, n)
  }

  ghost predicate GenuineAt(h: seq<Room>, cfg: Config, c: Call) {
    match c.pc
    case AdoptCapacity(v) => v.Some? ==> Stored(h, v.value)
    case Pass(n) => Genuine(h, cfg, n)
    case Try(_, n) => Genuine(h, cfg, n)
    case WriteCapacity => c.task.SetTask? ==> Stored(h, c.task.n)
    case _ => true
  }

  ghost predicate AllGenuine(w: World, s: Sys)
    requires WellFormed(w, s)
  {
    && (forall k :: 0 <= k < |s.cached| ==> Genuine(s.history, w.cfgs[k], s.cached[k]))
    && (forall i :: 0 <= i < |s.calls| ==> GenuineAt(s.history, w.cfgs[s.calls[i].replica], s.calls[i]))
  }

  lemma StoredStays(h: seq<Room>, r: Room, cfg: Config)
    ensures forall n :: Stored(h, n) ==> Stored(h + [r], n)
    ensures forall n :: Genuine(h, cfg, n) ==> Genuine(h + [r], cfg, n)
  {
    forall n | Stored(h, n) ensures Stored(h + [r], n) {
      var j :| 0 <= j < |h| && h[j].override == Some(n);
      assert (h + [r])[j] == h[j];
    }
  }

  lemma StaysGenuine(h: seq<Room>, r: Room, cfg: Config, c: Call)
    requires GenuineAt(h, cfg, c)
    ensures GenuineAt(h + [r], cfg, c)
  {
    hide Stored, Genuine;
    StoredStays(h, r, cfg);
  }

  /** The action of a call, ending in room `r'`, uses and hands on nothing but genuine capacities. */
  lemma MoveGenuine(w: World, h: seq<Room>, r: Room, cap: int, c: Call, order: seq<Id>, r': Room, end: nat)
    requires c.replica < |w.cfgs| && h != [] && h[|h| - 1] == r
    requires Genuine(h, w.cfgs[c.replica], cap) && GenuineAt(h, w.cfgs[c.replica], c)
    requires var m := Next(w, r, cap, c, order);
      if m.op.Some? then Legal(r, m.op.value) && r' == Apply(r, m.op.value, w.slides) else r' == r
    ensures var m := Next(w, r, cap, c, order);
      && GenuineAt(h + [r'], w.cfgs[c.replica], c.(pc := m.pc, end := end))
      && (m.cache.Some? ==> Genuine(h + [r'], w.cfgs[c.replica], m.cache.value))
  {
    hide Report, Snap, Enqueued, Admits, Seen, Tried, Reconciled, Touched, IsScan;
    StoredStays(h, r', w.cfgs[c.replica]);
    assert (h + [r'])[|h| - 1] == r && (h + [r'])[|h|] == r';
  }

  lemma StepGenuine(w: World, s: Sys, step: Step)
    requires WellFormed(w, s) && Enabled(w, s, step) && AllGenuine(w, s) && WellFormed(w, Do(w, s, step))
    ensures AllGenuine(w, Do(w, s, step))
  {
    hide Next, Apply, Promotes, Count, Legal, GenuineAt, Genuine;
    var s' := Do(w, s, step);
    if step.Advance? {
      var c := s.calls[step.call];
      MoveGenuine(w, s.history, s.room, s.cached[c.replica], c, step.order, s'.room, |s.history|);
    }
    forall k | 0 <= k < |s'.cached| ensures Genuine(s'.history, w.cfgs[k], s'.cached[k]) {
      StoredStays(s.history, s'.room, w.cfgs[k]);
    }
    forall i | 0 <= i < |s'.calls| ensures GenuineAt(s'.history, w.cfgs[s'.calls[i].replica], s'.calls[i]) {
      if i < |s.calls| {
        StaysGenuine(s.history, s'.room, w.cfgs[s.calls[i].replica], s.calls[i]);
      } else {
        StartGenuine(s'.history, w.cfgs[s'.calls[i].replica], s'.calls[i], step.skip);
      }
    }
  }

  lemma StartGenuine(h: seq<Room>, cfg: Config, c: Call, skip: bool)
    requires c.pc == FirstPc(c.task, skip)
    ensures GenuineAt(h, cfg, c)
  {
  }

  /**
   Over every interleaving from the start, no replica ever caches or uses a capacity other
   than its configured one or one that has been in the store.
   */
  lemma AlwaysGenuine(w: World, steps: seq<Step>)
    requires LegalSteps(w, Init(w), steps)
    ensures AllGenuine(w, After(w, Init(w), steps))
  {
    StaysAllGenuine(w, Init(w), steps);
  }

  lemma {:induction false} StaysAllGenuine(w: World, s: Sys, steps: seq<Step>)
    requires WellFormed(w, s) && LegalSteps(w, s, steps) && AllGenuine(w, s)
    ensures AllGenuine(w, After(w, s, steps))
    decreases |steps|
  {
    if steps != [] {
      hide Enabled, Do, AllGenuine;
      StepWellFormed(w, s, steps[0]);
      StepGenuine(w, s, steps[0]);
      StaysAllGenuine(w, Do(w, s, steps[0]), steps[1..]);
    }
  }

  /** The janitor loops keep to one round at a time, from the start and forever. */
  lemma {:induction false} AlwaysOneJanitor(w: World, s: Sys, steps: seq<Step>)
    requires WellFormed(w, s) && LegalSteps(w, s, steps) && OneJanitor(s)
    ensures OneJanitor(After(w, s, steps))
    decreases |steps|
  {
    if steps != [] {
      hide Next, Apply, Promotes, Count, Legal, Perform;
      StepWellFormed(w, s, steps[0]);
      AlwaysOneJanitor(w, Do(w, s, steps[0]), steps[1..]);
    }
  }
}
