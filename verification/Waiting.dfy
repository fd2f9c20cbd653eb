/**
 What a waiter can count on: a ticket that keeps polling keeps its place, and the wait is
 bounded by its place, the capacity, the inactivity window and the janitor's period.
 */
module Waiting {
  import opened WaitingRoom
  import opened ReconcileLaws
  import opened Runs

  // ---------- keeping one's place ----------

  /**
   Until the ticket is active nobody flushes the queue, and at every Reconcile its last
   heartbeat (a Lookup or Enqueue; the latest was at `beat`) is at most the queue TTL old.
   */
  ghost predicate Polls(r: Room, ops: seq<Op>, slides: bool, id: Id, beat: int)
    requires LegalRun(r, ops, slides)
    decreases |ops|
  {
    id in r.active || ops == [] ||
    (&& !ops[0].Flush?
     && (ops[0].Reconcile? ==> ops[0].now - beat <= ops[0].queueTTL)
     && Polls(Apply(r, ops[0], slides), ops[1..], slides, id, Beat(ops[0], id, beat)))
  }

  predicate Heartbeat(op: Op, id: Id) {
    (op.Lookup? || op.Enqueue?) && op.id == id
  }

  function Beat(op: Op, id: Id, beat: int): int {
    if Heartbeat(op, id) then op.now else beat
  }

  /** At every moment of the run up to its admission the ticket is queued, and its place never grows. */
  ghost predicate KeepsPlace(r: Room, ops: seq<Op>, slides: bool, id: Id)
    requires LegalRun(r, ops, slides)
    decreases |ops|
  {
    id in r.active ||
    (&& IsQueued(r.queue, id)
     && (ops == [] ||
         var r' := Apply(r, ops[0], slides);
         && (IsQueued(r'.queue, id) ==> Find(r'.queue, id) <= Find(r.queue, id))
         && KeepsPlace(r', ops[1..], slides, id)))
  }

  ghost predicate WaitsSince(r: Room, id: Id, beat: int) {
    IsQueued(r.queue, id) && r.queue[Find(r.queue, id)].lastSeen == beat
  }

  /** A step that is no Flush keeps a fresh waiter in line (or lets it in) and nobody gets in front of it. */
  lemma StepKeepsPlace(r: Room, op: Op, slides: bool, id: Id, beat: int)
    requires r.Valid() && Legal(r, op) && WaitsSince(r, id, beat)
    requires !op.Flush?
    ensures var r' := Apply(r, op, slides);
      if op.Reconcile? && op.now - beat > op.queueTTL then id !in r'.active && !IsQueued(r'.queue, id)
      else id in r'.active
           || (WaitsSince(r', id, Beat(op, id, beat)) && Find(r'.queue, id) <= Find(r.queue, id))
  {
    hide Ordered;
    var r' := Apply(r, op, slides);
    if op.Reconcile? {
      ExactEffect(r, op.cap, op.activeTTL, op.queueTTL, op.now, op.order, id);
      if IsQueued(r'.queue, id) {
        SurvivorKept(r, op, slides, id);
      }
    } else if Timed(op) {
      BeatKeepsPlace(r, op, slides, id, beat);
    }
  }

  lemma BeatKeepsPlace(r: Room, op: Op, slides: bool, id: Id, beat: int)
    requires r.Valid() && WaitsSince(r, id, beat) && Timed(op) && !op.Reconcile?
    ensures var r' := Apply(r, op, slides);
      id in r'.active || (WaitsSince(r', id, Beat(op, id, beat)) && Find(r'.queue, id) == Find(r.queue, id))
  {
    hide Ordered, Room.Valid;
    NotBoth(r, id);
    SeenValid(r, op.id, op.now);
    if op.Enqueue? && !IsQueued(r.queue, op.id) && op.id !in r.active {
      PushFind(r.queue, Waiter(op.id, r.nextSeq + 1, op.now, op.now), id);
    }
  }

  lemma PushFind(q: seq<Waiter>, w: Waiter, id: Id)
    requires IsQueued(q, id)
    ensures Find(q + [w], id) == Find(q, id)
  {
    if q[0].id != id {
      assert (q + [w])[1..] == q[1..] + [w];
      PushFind(q[1..], w, id);
    }
  }

  /** Reconcile does not touch the waiters it leaves in the queue. */
  lemma SurvivorKept(r: Room, op: Op, slides: bool, id: Id)
    requires r.Valid() && Legal(r, op) && op.Reconcile?
    requires IsQueued(r.queue, id) && IsQueued(Apply(r, op, slides).queue, id)
    ensures var r' := Apply(r, op, slides);
      r'.queue[Find(r'.queue, id)] == r.queue[Find(r.queue, id)]
  {
    hide Ordered, Survivors, Ids, Room.Valid;
    ValidOrdered(r);
    var r' := Apply(r, op, slides);
    var w := r'.queue[Find(r'.queue, id)];
    SurvivorsAre(r.queue, op.queueTTL, op.now);
    assert w in Line(r, op);
    assert w in r.queue;
    var k :| 0 <= k < |r.queue| && r.queue[k] == w;
    FindAt(r.queue, k);
  }

  /** A ticket keeps its place over a run exactly if it keeps polling. */
  lemma {:induction false} PollingKeepsPlace(r: Room, ops: seq<Op>, slides: bool, id: Id, beat: int)
    requires r.Valid() && LegalRun(r, ops, slides) && WaitsSince(r, id, beat)
    ensures Polls(r, ops, slides, id, beat) <==> KeepsPlace(r, ops, slides, id)
    decreases |ops|
  {
    if ops != [] {
      var op, r' := ops[0], Apply(r, ops[0], slides);
      StepValid(r, op, slides);
      assert id !in r.active by {
        assert r.queue[Find(r.queue, id)].id == id;
      }
      if op.Flush? {
        assert !KeepsPlace(r', ops[1..], slides, id);
      } else {
        StepKeepsPlace(r, op, slides, id, beat);
        if IsQueued(r'.queue, id) {
          PollingKeepsPlace(r', ops[1..], slides, id, Beat(op, id, beat));
        }
      }
    }
  }

  // ---------- the reported wait is the time in line ----------

  ghost predicate QueuedThroughout(r: Room, ops: seq<Op>, slides: bool, id: Id)
    requires LegalRun(r, ops, slides)
    decreases |ops|
  {
    IsQueued(r.queue, id) && (ops == [] || QueuedThroughout(Apply(r, ops[0], slides), ops[1..], slides, id))
  }

  /** No operation changes the number or the enqueue time of a ticket it leaves in line. */
  lemma StepKeepsEnqueueTime(r: Room, op: Op, slides: bool, id: Id)
    requires r.Valid() && Legal(r, op) && IsQueued(r.queue, id) && IsQueued(Apply(r, op, slides).queue, id)
    ensures var w, w' := r.queue[Find(r.queue, id)], Apply(r, op, slides).queue[Find(Apply(r, op, slides).queue, id)];
      w'.seqNo == w.seqNo && w'.enqueuedAt == w.enqueuedAt
  {
    if op.Reconcile? {
      SurvivorKept(r, op, slides, id);
    } else if Timed(op) {
      hide Ordered, Room.Valid, Find;
      StepValid(r, op, slides);
      NotBoth(Apply(r, op, slides), id);
      BeatKeepsPlace(r, op, slides, id, r.queue[Find(r.queue, id)].lastSeen);
    }
  }

  lemma {:induction false} RunKeepsEnqueueTime(r: Room, ops: seq<Op>, slides: bool, id: Id)
    requires r.Valid() && LegalRun(r, ops, slides) && QueuedThroughout(r, ops, slides, id)
    ensures var w, r' := r.queue[Find(r.queue, id)], Run(r, ops, slides);
      && r'.Valid() && IsQueued(r'.queue, id)
      && var w' := r'.queue[Find(r'.queue, id)]; w'.seqNo == w.seqNo && w'.enqueuedAt == w.enqueuedAt
    decreases |ops|
  {
    if ops != [] {
      StepValid(r, ops[0], slides);
      StepKeepsEnqueueTime(r, ops[0], slides, id);
      RunKeepsEnqueueTime(Apply(r, ops[0], slides), ops[1..], slides, id);
    }
  }

  /**
   A ticket that joined at `t`, stayed in line and was let in by `pass` is reported once,
   at its own promotion, with a wait from `t` to the pass, however often it polled.
   */
  lemma WaitIsTimeInLine(r: Room, id: Id, t: int, ops: seq<Op>, slides: bool, pass: Op) returns (k: nat)
    requires r.Valid() && id !in r.active && !IsQueued(r.queue, id) && pass.Reconcile?
    requires var joined := Enqueued(r, id, t, slides);
      && LegalRun(joined, ops, slides) && QueuedThroughout(joined, ops, slides, id)
      && Legal(Run(joined, ops, slides), pass)
      && id in Apply(Run(joined, ops, slides), pass, slides).active
    ensures var r' := Run(Enqueued(r, id, t, slides), ops, slides);
      var waits := Report(r', pass.cap, pass.activeTTL, pass.queueTTL, pass.now).waitedSecs;
      && k < |waits| == |Promotes(r', pass)| && Promotes(r', pass)[k] == r.nextSeq + 1
      && waits[k] * 1000.0 == (pass.now - t) as real
  {
    var joined := Enqueued(r, id, t, slides);
    JoinsTail(r, id, t, slides);
    RunKeepsEnqueueTime(joined, ops, slides, id);
    var r' := Run(joined, ops, slides);
    k := PromotionPlace(r', pass, slides, id);
  }

  lemma JoinsTail(r: Room, id: Id, t: int, slides: bool)
    requires r.Valid() && id !in r.active && !IsQueued(r.queue, id)
    ensures var joined := Enqueued(r, id, t, slides);
      && joined.Valid() && IsQueued(joined.queue, id)
      && joined.queue[Find(joined.queue, id)] == Waiter(id, r.nextSeq + 1, t, t)
  {
    EnqueuedValid(r, id, t, slides);
    FindAt(Enqueued(r, id, t, slides).queue, |r.queue|);
  }

  /** Where a promotion stands in the pass's report. */
  lemma PromotionPlace(r: Room, pass: Op, slides: bool, id: Id) returns (k: nat)
    requires r.Valid() && Legal(r, pass) && pass.Reconcile?
    requires IsQueued(r.queue, id) && id in Apply(r, pass, slides).active
    ensures var waits := Report(r, pass.cap, pass.activeTTL, pass.queueTTL, pass.now).waitedSecs;
      var w := r.queue[Find(r.queue, id)];
      && k < |waits| == |Promotes(r, pass)| && Promotes(r, pass)[k] == w.seqNo
      && waits[k] * 1000.0 == (pass.now - w.enqueuedAt) as real
  {
    hide Ordered, Survivors, Ids, Find, Ghosts, Kept, Admitted, Room.Valid;
    NotBoth(r, id);
    var i := Find(r.queue, id);
    ExactEffect(r, pass.cap, pass.activeTTL, pass.queueTTL, pass.now, pass.order, id);
    WaitsAreTrue(r, pass.cap, pass.activeTTL, pass.queueTTL, pass.now, id);
    SurvivorIndex(r.queue, i, pass.queueTTL, pass.now);
    k := i - Ghosts(r.queue[..i], pass.queueTTL, pass.now);
  }

  // ---------- a client that polls on time ----------

  /** From the heartbeat at `beat` to the end of the run, `id` is never silent for longer than `gap`. */
  predicate Punctual(ops: seq<Op>, id: Id, beat: int, gap: int, end: int) {
    if ops == [] then end - beat <= gap
    else if Heartbeat(ops[0], id) then
      ops[0].now - beat <= gap && Punctual(ops[1..], id, ops[0].now, gap, end)
    else Punctual(ops[1..], id, beat, gap, end)
  }

  /** From `clock` to `end`, the time the operations carry does not run backwards. */
  predicate Clocked(ops: seq<Op>, clock: int, end: int) {
    if ops == [] then clock <= end
    else if Timed(ops[0]) then clock <= ops[0].now && Clocked(ops[1..], ops[0].now, end)
    else Clocked(ops[1..], clock, end)
  }

  /** Whoever will be heard of in time has not been silent for too long now. */
  lemma {:induction false} HeardInTime(ops: seq<Op>, id: Id, beat: int, gap: int, clock: int, end: int)
    requires Punctual(ops, id, beat, gap, end) && Clocked(ops, clock, end)
    ensures clock - beat <= gap
  {
    if ops != [] && !Heartbeat(ops[0], id) {
      HeardInTime(ops[1..], id, beat, gap, if Timed(ops[0]) then ops[0].now else clock, end);
    }
  }

  lemma {:induction false} PunctualPolls(
      r: Room, ops: seq<Op>, slides: bool, id: Id, beat: int, gap: int, clock: int, end: int)
    requires LegalRun(r, ops, slides) && NoFlush(ops)
    requires Clocked(ops, clock, end) && Punctual(ops, id, beat, gap, end)
    requires forall op :: op in ops && op.Reconcile? ==> op.queueTTL >= gap
    ensures Polls(r, ops, slides, id, beat)
    decreases |ops|
  {
    if ops != [] {
      var op, rest := ops[0], ops[1..];
      var clock' := if Timed(op) then op.now else clock;
      HeardInTime(rest, id, Beat(op, id, beat), gap, clock', end);
      PunctualPolls(Apply(r, op, slides), rest, slides, id, Beat(op, id, beat), gap, clock', end);
    }
  }

  /**
   A client that polls every `interval` and misses at most one poll in a row is heard of
   every 2 * interval at the latest.  With a queue TTL of at least that, as the
   configuration demands, it is never evicted and its place never grows until it is let in.
   */
  lemma OneMissedPollKeepsPlace(
      r: Room, ops: seq<Op>, slides: bool, id: Id, beat: int, interval: int, clock: int, end: int)
    requires r.Valid() && LegalRun(r, ops, slides) && NoFlush(ops) && WaitsSince(r, id, beat)
    requires Clocked(ops, clock, end) && Punctual(ops, id, beat, 2 * interval, end)
    requires forall op :: op in ops && op.Reconcile? ==> op.queueTTL >= 2 * interval
    ensures KeepsPlace(r, ops, slides, id)
  {
    PunctualPolls(r, ops, slides, id, beat, 2 * interval, clock, end);
    PollingKeepsPlace(r, ops, slides, id, beat);
  }

  // ---------- the wait is bounded ----------

  /** A fixed policy: the capacity and TTLs every Reconcile passes, and the longest time between two. */
  datatype Policy = Policy(cap: int, activeTTL: int, queueTTL: int, period: int)

  ghost predicate Steady(p: Policy) {
    p.cap >= 1 && p.activeTTL >= 0 && p.period >= 1
  }

  predicate Timed(op: Op) {
    op.TryAdmit? || op.Enqueue? || op.Lookup? || op.Touch? || op.Reconcile?
  }

  /**
   While `id` waits, the clock (last read: `clock`) does not run backwards, every Reconcile
   follows the policy within one period of the previous one (at `last`), and active tickets
   send no requests.
   */
  ghost predicate Calm(r: Room, ops: seq<Op>, slides: bool, p: Policy, id: Id, clock: int, last: int)
    requires LegalRun(r, ops, slides)
    decreases |ops|
  {
    id in r.active || ops == [] ||
    var op, r' := ops[0], Apply(r, ops[0], slides);
    && (Timed(op) ==> clock <= op.now)
    && (op.Reconcile? ==> op.cap == p.cap && op.activeTTL == p.activeTTL && op.queueTTL == p.queueTTL
                          && op.now <= last + p.period)
    && (Timed(op) && !op.Reconcile? ==> op.id !in r.active)
    && Calm(r', ops[1..], slides, p, id, if Timed(op) then op.now else clock, if op.Reconcile? then op.now else last)
  }

  /** The ticket becomes active before any operation later than `deadline` has run. */
  ghost predicate ActiveBy(r: Room, ops: seq<Op>, slides: bool, id: Id, deadline: int)
    requires LegalRun(r, ops, slides)
    decreases |ops|
  {
    id in r.active ||
    (&& ops != [] && (Timed(ops[0]) ==> ops[0].now <= deadline)
     && ActiveBy(Apply(r, ops[0], slides), ops[1..], slides, id, deadline))
  }

  /** The run goes on until some Reconcile at or after `t`. */
  ghost predicate RunsUntil(ops: seq<Op>, t: int) {
    exists k :: 0 <= k < |ops| && ops[k].Reconcile? && ops[k].now >= t
  }

  ghost predicate SeenBy(r: Room, clock: int) {
    forall x :: x in r.active ==> r.active[x].lastSeen <= clock
  }

  /** The sessions seen after `t`; in a calm run, those promoted after `t`. */
  function Young(active: map<Id, Session>, t: int): set<Id> {
    set x | x in active && active[x].lastSeen > t
  }

  /** Between two passes nothing happens to the active set, nor to the waiter's place. */
  lemma CalmStep(r: Room, op: Op, slides: bool, id: Id)
    requires r.Valid() && IsQueued(r.queue, id) && !op.Reconcile? && !op.Flush?
    requires Timed(op) ==> op.id !in r.active
    ensures var r' := Apply(r, op, slides);
      r'.active == r.active && IsQueued(r'.queue, id) && Find(r'.queue, id) == Find(r.queue, id)
  {
    hide Ordered;
    if Timed(op) {
      SeenValid(r, op.id, op.now);
      if op.Enqueue? && !IsQueued(r.queue, op.id) {
        PushFind(r.queue, Waiter(op.id, r.nextSeq + 1, op.now, op.now), id);
      }
    }
  }

  /** One pass: the waiter moves up by at least the number promoted, and the slots are full. */
  lemma PassMovesUp(r: Room, op: Op, slides: bool, id: Id, clock: int, t: int)
    requires r.Valid() && Legal(r, op) && op.Reconcile? && IsQueued(r.queue, id)
    requires !Ghost(r.queue[Find(r.queue, id)], op.queueTTL, op.now)
    requires SeenBy(r, clock) && clock <= op.now
    ensures var r' := Apply(r, op, slides);
      && SeenBy(r', op.now)
      && (id in r'.active ||
          (&& IsQueued(r'.queue, id) && |r'.active| >= op.cap
           && Find(r'.queue, id) + |Young(r'.active, t)| <= Find(r.queue, id) + |Young(r.active, t)|
           && (op.activeTTL >= 0 && op.now > t + op.activeTTL ==> Young(r'.active, t) == r'.active.Keys)))
  {
    hide Ordered, Survivors, Admitted, Ids, Find, Kept, Ghosts, Report, Young, Room.Valid;
    NotBoth(r, id);
    ExactEffect(r, op.cap, op.activeTTL, op.queueTTL, op.now, op.order, id);
    WorkConserving(r, op.cap, op.activeTTL, op.queueTTL, op.now, op.order);
    YoungGrows(r, op, slides, t);
    if op.activeTTL >= 0 && op.now > t + op.activeTTL {
      OldOnesGone(r, op, slides, t);
    }
  }

  lemma OldOnesGone(r: Room, op: Op, slides: bool, t: int)
    requires r.Valid() && Legal(r, op) && op.Reconcile?
    requires op.activeTTL >= 0 && op.now > t + op.activeTTL
    ensures Young(Apply(r, op, slides).active, t) == Apply(r, op, slides).active.Keys
  {
    hide Apply, Room.Valid;
    YoungGrows(r, op, slides, t);
  }

  lemma YoungGrows(r: Room, op: Op, slides: bool, t: int)
    requires r.Valid() && Legal(r, op) && op.Reconcile?
    ensures var r' := Apply(r, op, slides);
      && |Young(r'.active, t)| <= |Young(r.active, t)| + Report(r, op.cap, op.activeTTL, op.queueTTL, op.now).promoted
      && (forall x :: x in r'.active ==>
            r'.active[x] == Session(op.now, op.now)
            || (x in r.active && r'.active[x] == r.active[x] && !Idle(r.active[x], op.activeTTL, op.now)))
  {
    hide Ordered, Survivors, Ids, Find, IsQueued, Young, Idle, Kept, Room.Valid;
    var line, n := Line(r, op), Taken(r, op);
    ValidOrdered(r);
    SurvivorsAre(r.queue, op.queueTTL, op.now);
    HeadsCount(line, n);
    AdmittedYoung(r.active, op.activeTTL, line[..n], op.now, t);
  }

  lemma AdmittedYoung(active: map<Id, Session>, ttl: int, heads: seq<Waiter>, now: int, t: int)
    ensures var a := Admitted(Kept(active, ttl, now), heads, now);
      && |Young(a, t)| <= |Young(active, t)| + |Ids(heads)|
      && (forall x :: x in a ==>
            a[x] == Session(now, now) || (x in active && a[x] == active[x] && !Idle(active[x], ttl, now)))
  {
    hide Admitted, Ids;
    var kept := Kept(active, ttl, now);
    AdmittedAre(kept, heads, now);
    var a := Admitted(kept, heads, now);
    assert Young(a, t) <= Young(active, t) + Ids(heads);
    SubsetSize(Young(a, t), Young(active, t) + Ids(heads));
    assert |Young(active, t) + Ids(heads)| <= |Young(active, t)| + |Ids(heads)|;
  }

  lemma HeadsCount(q: seq<Waiter>, n: nat)
    requires Ordered(q) && n <= |q|
    ensures |Ids(q[..n])| == n
  {
    IdsCount(q[..n]);
  }

  /** Until the next pass the clock stays within a period of the last one. */
  lemma {:induction false} ClockBeforePass(
      r: Room, ops: seq<Op>, slides: bool, p: Policy, id: Id, clock: int, last: int, t: int)
    requires r.Valid() && LegalRun(r, ops, slides) && IsQueued(r.queue, id) && NoFlush(ops)
    requires Calm(r, ops, slides, p, id, clock, last) && RunsUntil(ops, t)
    ensures clock <= last + p.period
    decreases |ops|
  {
    NotBoth(r, id);
    if !ops[0].Reconcile? {
      var op := ops[0];
      StepValid(r, op, slides);
      CalmStep(r, op, slides, id);
      LaterUntil(ops, t);
      ClockBeforePass(Apply(r, op, slides), ops[1..], slides, p, id, if Timed(op) then op.now else clock, last, t);
    }
  }

  ghost predicate NoFlush(ops: seq<Op>) {
    forall op :: op in ops ==> !op.Flush?
  }

  lemma NotBoth(r: Room, id: Id)
    requires r.Valid() && IsQueued(r.queue, id)
    ensures id !in r.active
  {
    assert r.queue[Find(r.queue, id)].id == id;
  }

  lemma LaterUntil(ops: seq<Op>, t: int)
    requires RunsUntil(ops, t)
    ensures ops != []
    ensures !ops[0].Reconcile? || ops[0].now < t ==> RunsUntil(ops[1..], t)
  {
    var k :| 0 <= k < |ops| && ops[k].Reconcile? && ops[k].now >= t;
    if k > 0 {
      assert ops[1..][k - 1] == ops[k];
    }
  }

  lemma {:induction false} ActiveByLater(r: Room, ops: seq<Op>, slides: bool, id: Id, t: int, later: int)
    requires LegalRun(r, ops, slides) && t <= later && ActiveBy(r, ops, slides, id, t)
    ensures ActiveBy(r, ops, slides, id, later)
    decreases |ops|
  {
    if id !in r.active {
      ActiveByLater(Apply(r, ops[0], slides), ops[1..], slides, id, t, later);
    }
  }

  /** Window arithmetic: `windows` spans are one span and the remaining ones. */
  lemma OneWindow(windows: int, size: int)
    ensures windows * size == size + (windows - 1) * size
    ensures windows >= 1 && size >= 0 ==> windows * size >= size
    ensures windows >= 2 && size >= 1 ==> windows * size > size
    ensures size >= 1 && windows * size > size ==> windows >= 2
  {
    if windows <= 1 && size >= 1 {
      assert windows * size <= 1 * size;
    }
  }

  /**
   A window began at `t`; since then the waiter's place and the number of sessions begun
   have summed to at most `place`, which `windows` windows suffice to serve.
   */
  ghost predicate InWindow(
      r: Room, ops: seq<Op>, slides: bool, p: Policy, id: Id, beat: int, clock: int, last: int,
      t: int, place: int, windows: int)
    requires LegalRun(r, ops, slides)
  {
    && Steady(p) && r.Valid() && NoFlush(ops)
    && WaitsSince(r, id, beat) && Polls(r, ops, slides, id, beat)
    && Calm(r, ops, slides, p, id, clock, last)
    && SeenBy(r, clock) && last <= clock && last <= t + p.activeTTL
    && Find(r.queue, id) + 1 + |Young(r.active, t)| <= place <= windows * p.cap
    && windows >= 1 && RunsUntil(ops, Deadline(p, t, windows))
  }

  function Deadline(p: Policy, t: int, windows: int): int {
    t + windows * (p.activeTTL + p.period)
  }

  /**
   The heart of the bound.  Every session of before `t` is gone one pass after
   t + activeTTL; by then `cap` later ones have taken the slots, all from in front of the
   waiter, so one window less is left to serve it.
   */
  lemma {:induction false} Windows(
      r: Room, ops: seq<Op>, slides: bool, p: Policy, id: Id, beat: int, clock: int, last: int,
      t: int, place: int, windows: int)
    requires LegalRun(r, ops, slides)
    requires InWindow(r, ops, slides, p, id, beat, clock, last, t, place, windows)
    ensures ActiveBy(r, ops, slides, id, Deadline(p, t, windows))
    decreases |ops|, 1
  {
    hide Steady, Calm, Polls, ActiveBy, WaitsSince, SeenBy, Young, NoFlush, Room.Valid;
    LaterUntil(ops, Deadline(p, t, windows));
    if ops[0].Reconcile? {
      WindowsAtPass(r, ops, slides, p, id, beat, clock, last, t, place, windows);
    } else {
      WindowsBetween(r, ops, slides, p, id, beat, clock, last, t, place, windows);
    }
  }

  lemma {:induction false} WindowsBetween(
      r: Room, ops: seq<Op>, slides: bool, p: Policy, id: Id, beat: int, clock: int, last: int,
      t: int, place: int, windows: int)
    requires LegalRun(r, ops, slides)
    requires InWindow(r, ops, slides, p, id, beat, clock, last, t, place, windows)
    requires ops != [] && !ops[0].Reconcile?
    ensures ActiveBy(r, ops, slides, id, Deadline(p, t, windows))
    decreases |ops|, 0
  {
    hide Ordered, Young, Apply, Legal, Find, IsQueued, Room.Valid;
    var op, r', rest := ops[0], Apply(r, ops[0], slides), ops[1..];
    var clock' := if Timed(op) then op.now else clock;
    var deadline := Deadline(p, t, windows);
    NotBoth(r, id);
    StepValid(r, op, slides);
    OneWindow(windows, p.activeTTL + p.period);
    CalmStep(r, op, slides, id);
    StepKeepsPlace(r, op, slides, id, beat);
    NotBoth(r', id);
    LaterUntil(ops, deadline);
    ClockBeforePass(r', rest, slides, p, id, clock', last, deadline);
    Windows(r', rest, slides, p, id, Beat(op, id, beat), clock', last, t, place, windows);
  }

  lemma {:induction false} WindowsAtPass(
      r: Room, ops: seq<Op>, slides: bool, p: Policy, id: Id, beat: int, clock: int, last: int,
      t: int, place: int, windows: int)
    requires LegalRun(r, ops, slides)
    requires InWindow(r, ops, slides, p, id, beat, clock, last, t, place, windows)
    requires ops != [] && ops[0].Reconcile?
    ensures ActiveBy(r, ops, slides, id, Deadline(p, t, windows))
    decreases |ops|, 0
  {
    hide Ordered, Young, Apply, Legal, Find, IsQueued, Room.Valid;
    var op, r', rest, span := ops[0], Apply(r, ops[0], slides), ops[1..], p.activeTTL + p.period;
    var deadline := Deadline(p, t, windows);
    NotBoth(r, id);
    StepValid(r, op, slides);
    StepKeepsPlace(r, op, slides, id, beat);
    PassMovesUp(r, op, slides, id, clock, t);
    OneWindow(windows, span);
    OneWindow(windows, p.cap);
    if id !in r'.active {
      LaterUntil(ops, deadline);
      if op.now <= t + p.activeTTL {
        Windows(r', rest, slides, p, id, beat, op.now, op.now, t, place, windows);
      } else {
        AllYoung(r', t, op.now);
        UntilSooner(rest, deadline, Deadline(p, op.now, windows - 1));
        Windows(r', rest, slides, p, id, beat, op.now, op.now, op.now, Find(r'.queue, id) + 1, windows - 1);
        ActiveByLater(r', rest, slides, id, Deadline(p, op.now, windows - 1), deadline);
      }
    }
  }

  lemma AllYoung(r: Room, t: int, now: int)
    requires SeenBy(r, now)
    ensures Young(r.active, now) == {}
    ensures Young(r.active, t) == r.active.Keys ==> |Young(r.active, t)| == |r.active|
  {
    assert |r.active.Keys| == |r.active|;
  }

  lemma UntilSooner(ops: seq<Op>, t: int, sooner: int)
    requires RunsUntil(ops, t) && sooner <= t
    ensures RunsUntil(ops, sooner)
  {
    var k :| 0 <= k < |ops| && ops[k].Reconcile? && ops[k].now >= t;
    assert ops[k].now >= sooner;
  }

  /** The number of windows of `cap` places that reach `place`. */
  function Rounds(place: int, cap: int): int
    requires cap >= 1
  {
    (place + cap - 1) / cap
  }

  lemma RoundsReach(place: int, cap: int)
    requires cap >= 1 && place >= 1
    ensures Rounds(place, cap) >= 1 && place <= Rounds(place, cap) * cap < place + cap
  {
  }

  /**
   Bounded wait.  At time `t`, with every session last seen by then and the next pass due
   within a period, a polling waiter at `position` is active by
   t + ceil(position / cap) * (activeTTL + period).
   */
  lemma BoundedWait(r: Room, ops: seq<Op>, slides: bool, p: Policy, id: Id, t: int)
    requires Steady(p) && r.Valid() && LegalRun(r, ops, slides) && NoFlush(ops)
    requires IsQueued(r.queue, id) && SeenBy(r, t)
    requires Polls(r, ops, slides, id, r.queue[Find(r.queue, id)].lastSeen)
    requires Calm(r, ops, slides, p, id, t, t)
    requires RunsUntil(ops, Deadline(p, t, Rounds(Snap(r, id).position, p.cap)))
    ensures ActiveBy(r, ops, slides, id, Deadline(p, t, Rounds(Snap(r, id).position, p.cap)))
  {
    hide Ordered, Polls, Calm, LegalRun, ActiveBy, Young, NoFlush, RunsUntil, Deadline, Room.Valid;
    NotBoth(r, id);
    var position := Find(r.queue, id) + 1;
    RoundsReach(position, p.cap);
    AllYoung(r, t, t);
    Windows(r, ops, slides, p, id, r.queue[Find(r.queue, id)].lastSeen, t, t, t, position, Rounds(position, p.cap));
  }
}
