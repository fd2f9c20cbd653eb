/**
 What an admitted ticket can count on: every request slides its inactivity window, it keeps
 its slot exactly as long as no pass finds its last request too old, and the duration its
 session contributes to the average runs from its admission to that request.
 */
module Sessions {
  import opened WaitingRoom
  import opened ReconcileLaws
  import opened Runs

  /** The operations that count as a request of an active ticket; Enqueue does in one of the stores. */
  predicate Slides(op: Op, slides: bool) {
    op.Touch? || op.Lookup? || op.TryAdmit? || (op.Enqueue? && slides)
  }

  /** The time of the last request of `id`, after `op`. */
  function Later(op: Op, id: Id, seen: int, slides: bool): int {
    if Slides(op, slides) && op.id == id then op.now else seen
  }

  /** A request of an active ticket moves its lastSeen, and nothing else in the room. */
  lemma RequestSlides(r: Room, op: Op, slides: bool)
    requires Slides(op, slides) && op.id in r.active
    ensures var r', s := Apply(r, op, slides), r.active[op.id];
      && r'.active == r.active[op.id := Session(s.admittedAt, op.now)]
      && r' == r.(active := r'.active)
  {
  }

  /** A heartbeat of a queued ticket moves its lastSeen; its place, number and enqueue time stay. */
  lemma HeartbeatSlides(r: Room, op: Op, slides: bool)
    requires r.Valid() && (op.Lookup? || op.Enqueue?) && IsQueued(r.queue, op.id)
    ensures var r', i := Apply(r, op, slides), Find(r.queue, op.id);
      && r'.queue == r.queue[i := Waiter(op.id, r.queue[i].seqNo, r.queue[i].enqueuedAt, op.now)]
      && r' == r.(queue := r'.queue)
  {
    assert r.queue[Find(r.queue, op.id)].id == op.id;
  }

  /** One operation, as an active ticket sees it. */
  lemma StepOfSession(r: Room, op: Op, slides: bool, id: Id)
    requires r.Valid() && Legal(r, op) && id in r.active
    ensures var r', s := Apply(r, op, slides), r.active[id];
      if op.Reconcile? && op.now - s.lastSeen > op.activeTTL then id !in r'.active && !IsQueued(r'.queue, id)
      else id in r'.active && r'.active[id] == Session(s.admittedAt, Later(op, id, s.lastSeen, slides))
  {
    if op.Reconcile? {
      ExactEffect(r, op.cap, op.activeTTL, op.queueTTL, op.now, op.order, id);
    }
  }

  /** No pass of the run finds the last request of `id` (the latest was at `seen`) older than its window. */
  predicate InTime(ops: seq<Op>, slides: bool, id: Id, seen: int) {
    ops == [] ||
    (&& (ops[0].Reconcile? ==> ops[0].now - seen <= ops[0].activeTTL)
     && InTime(ops[1..], slides, id, Later(ops[0], id, seen, slides)))
  }

  function LastRequest(ops: seq<Op>, slides: bool, id: Id, seen: int): int {
    if ops == [] then seen else LastRequest(ops[1..], slides, id, Later(ops[0], id, seen, slides))
  }

  ghost predicate ActiveThroughout(r: Room, ops: seq<Op>, slides: bool, id: Id)
    requires LegalRun(r, ops, slides)
    decreases |ops|
  {
    id in r.active && (ops == [] || ActiveThroughout(Apply(r, ops[0], slides), ops[1..], slides, id))
  }

  /**
   Over any run an active ticket keeps its slot if and only if it is heard of in time,
   whatever happens to the capacity; and its session then spans from its admission to its
   last request.
   */
  lemma {:induction false} RequestsKeepTheSlot(r: Room, ops: seq<Op>, slides: bool, id: Id)
    requires r.Valid() && LegalRun(r, ops, slides) && id in r.active
    ensures var s, r' := r.active[id], Run(r, ops, slides);
      && (ActiveThroughout(r, ops, slides, id) <==> InTime(ops, slides, id, s.lastSeen))
      && (ActiveThroughout(r, ops, slides, id) ==>
            id in r'.active
            && r'.active[id] == Session(s.admittedAt, LastRequest(ops, slides, id, s.lastSeen)))
    decreases |ops|
  {
    if ops != [] {
      var r' := Apply(r, ops[0], slides);
      StepValid(r, ops[0], slides);
      StepOfSession(r, ops[0], slides, id);
      if id in r'.active {
        RequestsKeepTheSlot(r', ops[1..], slides, id);
      }
    }
  }

  /**
   What a session adds to the average: admitted at `t`, active until `pass` ends it, it is
   met once by the pass, with the time from `t` to its last request.
   */
  lemma SessionLasts(r: Room, ops: seq<Op>, slides: bool, id: Id, t: int, pass: Op) returns (k: nat)
    requires r.Valid() && LegalRun(r, ops, slides) && id in r.active && r.active[id] == Session(t, t)
    requires InTime(ops, slides, id, t) && pass.Reconcile? && Legal(Run(r, ops, slides), pass)
    requires pass.now - LastRequest(ops, slides, id, t) > pass.activeTTL
    ensures id !in Apply(Run(r, ops, slides), pass, slides).active
    ensures var ended := Ended(Run(r, ops, slides), pass);
      && |ended| == |pass.order| && k < |ended| && pass.order[k] == id
      && ended[k] * 1000.0 == (LastRequest(ops, slides, id, t) - t) as real
  {
    var r' := Run(r, ops, slides);
    RequestsKeepTheSlot(r, ops, slides, id);
    RunNumbers(r, ops, slides);
    StepOfSession(r', pass, slides, id);
    assert id in pass.order;
    k :| 0 <= k < |pass.order| && pass.order[k] == id;
    DurationsAreTrue(r'.active, pass.order, k);
  }

  /** Where an admission begins a session: with both its times at the moment of admission. */
  lemma SessionBegins(r: Room, op: Op, slides: bool, id: Id)
    requires r.Valid() && Legal(r, op) && id !in r.active && id in Apply(r, op, slides).active
    ensures (op.TryAdmit? && op.id == id) || op.Reconcile?
    ensures Apply(r, op, slides).active[id] == Session(op.now, op.now)
  {
    if op.Reconcile? {
      ExactEffect(r, op.cap, op.activeTTL, op.queueTTL, op.now, op.order, id);
    }
  }
}
