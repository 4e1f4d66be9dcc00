/** What dispatch leaves behind, over every run: no bytes that should have been written, and no task that could
    have been started. */
module Dispatching {
  import opened Bytes
  import opened Scheduler
  import opened CancelProtocol
  import Pipeline

  /** Between two events the batch is empty, or waits for its microtask and is small. */
  ghost predicate Flushed(cfg: Config, c: Client)
  {
    c.phase.Ready? ==> if cfg.depth <= 1 || !cfg.microtask then c.outbuf == [] else |c.outbuf| < FLUSH_THRESHOLD
  }

  /** What may keep the first task of the queue from being started: a full pipeline, a full socket, a pending
      cancel, a retirement, or a stream that is alone in flight or has to be. */
  predicate Blocked(cfg: Config, c: Client)
    requires c.queue != []
  {
    || |c.inflight| >= cfg.depth || c.backedUp || c.pending.Some? || c.isRetiring
    || (c.inflight != [] && (c.inflight[0].stream || c.queue[0].stream))
  }

  /** A task waits for nothing. */
  predicate Undone(cfg: Config, c: Client)
  {
    c.phase.Ready? && c.queue != [] && !Blocked(cfg, c)
  }

  // ---- one round of dispatch ----

  lemma {:induction false} DispatchEnds(cfg: Config, c: Client)
    ensures var r := DispatchAll(cfg, c); !MayDispatch(cfg, r) && r.phase == c.phase && r.isRetiring == c.isRetiring
    decreases |c.queue|
  {
    if MayDispatch(cfg, c) {
      hide MayDispatch;
      DispatchEnds(cfg, DispatchOne(c));
    }
  }

  lemma ProcessLeavesNothing(cfg: Config, c: Client)
    requires c.isRetiring ==> Flushed(cfg, c)
    ensures Flushed(cfg, ProcessQueue(cfg, c)) && !Undone(cfg, ProcessQueue(cfg, c))
  {
    DispatchEnds(cfg, c);
    hide DispatchAll;
  }

  // ---- the other operations ----

  lemma ResolveFlushes(cfg: Config, c: Client)
    requires Flushed(cfg, c) && c.pending.Some?
    ensures Flushed(cfg, ResolveCanceledHead(cfg, c)) && (Undone(cfg, ResolveCanceledHead(cfg, c)) ==> Undone(cfg, c))
  {
    ProcessLeavesNothing(cfg, c.(isRetiring := true));
    ProcessLeavesNothing(cfg, ClearPendingCancel(c));
    hide ProcessQueue;
  }

  lemma LeaveFlushes(cfg: Config, c: Client, t: Task, o: Outcome)
    requires Flushed(cfg, c)
    ensures Flushed(cfg, LeaveHead(cfg, c, t, o))
  {
    var c1 := if c.late.Some? && t.id in c.late.value.suspects then CheckLateCancel(c, t, o) else c;
    assert Flushed(cfg, c1);
    if c1.pending.Some? && c1.pending.value.head == Some(t.id) {
      assert Flushed(cfg, HeadGone(c1, o)) && Flushed(cfg, ClearPendingCancel(HeadGone(c1, o)));
      hide CheckLateCancel, ResolveCanceledHead, HeadGone, ClearPendingCancel, Flushed;
      HeadStillPending(c1, o);
      ResolveFlushes(cfg, HeadGone(c1, o));
    }
  }

  lemma HeadStillPending(c: Client, o: Outcome)
    requires c.pending.Some?
    ensures HeadGone(c, o).pending.Some?
  {
  }

  lemma FinishFlushes(cfg: Config, c: Client, o: Outcome, tx: bool)
    requires Flushed(cfg, c)
    ensures Flushed(cfg, FinishTask(cfg, c, o, tx)) && !Undone(cfg, FinishTask(cfg, c, o, tx))
  {
    if c.inflight == [] {
      ProcessLeavesNothing(cfg, c.(inTransaction := tx));
    } else {
      var t := c.inflight[0];
      LeaveFlushes(cfg, WithoutHead(c, tx), t, o);
      var c1 := LeaveHead(cfg, WithoutHead(c, tx), t, o);
      hide LeaveHead;
      assert Flushed(cfg, GoesOn(c1, t, o));
      hide ProcessQueue, Flushed, GoesOn, Undone;
      ProcessLeavesNothing(cfg, GoesOn(c1, t, o));
    }
  }

  lemma SettledFlushes(cfg: Config, c: Client, id: nat, ok: bool)
    requires Flushed(cfg, c)
    ensures Flushed(cfg, CancelSettled(cfg, c, id, ok)) && (Undone(cfg, CancelSettled(cfg, c, id, ok)) ==> Undone(cfg, c))
    ensures Flushed(cfg, PendingTimer(cfg, c, id)) && (Undone(cfg, PendingTimer(cfg, c, id)) ==> Undone(cfg, c))
  {
    if c.pending.Some? {
      var p := c.pending.value;
      ResolveFlushes(cfg, c.(pending := Some(if ok then p.(isConfirmed := true) else p.(hasFailed := true))));
      ProcessLeavesNothing(cfg, c.(isRetiring := true));
    }
    hide ResolveCanceledHead, ProcessQueue;
  }

  lemma InputFlushes(cfg: Config, c: Client, t: Task, room: nat)
    requires Flushed(cfg, c)
    ensures Flushed(cfg, Submit(cfg, c, t)) && !Undone(cfg, Submit(cfg, c, t))
    ensures Flushed(cfg, Drain(cfg, c, room)) && (Undone(cfg, Drain(cfg, c, room)) ==> Undone(cfg, c))
    ensures Flushed(cfg, Flush(c)) && Flush(c).outbuf == [] && (Undone(cfg, Flush(c)) ==> Undone(cfg, c))
  {
    ProcessLeavesNothing(cfg, c.(accepted := c.accepted + {t.id}, queue := c.queue + [t]));
    ProcessLeavesNothing(cfg, c.(room := room, backedUp := false));
    hide ProcessQueue;
  }

  lemma DrainLeavesNothing(cfg: Config, c: Client, room: nat)
    requires Flushed(cfg, c)
    ensures c.backedUp ==> !Undone(cfg, Drain(cfg, c, room))
  {
    ProcessLeavesNothing(cfg, c.(room := room, backedUp := false));
    hide ProcessQueue;
  }

  lemma SocketFlushes(cfg: Config, c: Client, room: nat)
    requires Flushed(cfg, c) && (!c.phase.Ready? ==> c.outbuf == [])
    ensures Flushed(cfg, SocketDown(cfg, c)) && Flushed(cfg, End(c)) && Flushed(cfg, GiveUp(c)) && Flushed(cfg, Reestablished(cfg, c, room))
    ensures Undone(cfg, SocketDown(cfg, c)) || Undone(cfg, End(c)) || Undone(cfg, GiveUp(c)) || Undone(cfg, Reestablished(cfg, c, room)) ==> Undone(cfg, c)
  {
    ProcessLeavesNothing(cfg, c.(phase := Ready, backedUp := false, inTransaction := false, room := room));
    hide ProcessQueue;
  }

  // ---- a barrier is withdrawn ----

  /** The one way to leave a task undone: the caller aborts a stream that waits at the front of the queue for
      the pipeline to drain. What stands behind it could start, and starts with the next answer or query. */
  predicate LiftsBarrier(cfg: Config, c: Client, e: Event)
  {
    && e.Abort? && c.phase.Ready? && !c.isRetiring && c.pending.None? && !c.backedUp
    && 0 < |c.inflight| < cfg.depth && !c.inflight[0].stream
    && |c.queue| > 1 && c.queue[0].id == e.id && c.queue[0].stream && !c.queue[1].stream
  }

  lemma {:induction false} NotThere(ts: seq<Task>, id: nat)
    requires forall t :: t in ts ==> t.id != id
    ensures Without(ts, id) == ts
    decreases |ts|
  {
    if ts != [] {
      NotThere(ts[1..], id);
      assert ts == [ts[0]] + ts[1..];
    }
  }

  /** What an abort makes of the front of the queue. */
  lemma FrontAfterAbort(cfg: Config, c: Client, id: nat)
    requires Pipeline.Inv(cfg, c) && c.queue != []
    ensures c.queue[0].id == id ==> Without(c.queue, id) == c.queue[1..] && id !in Ids(c.inflight) && id !in c.cancelled
    ensures c.queue[0].id != id ==> Without(c.queue, id) != [] && Without(c.queue, id)[0] == c.queue[0]
  {
    if c.queue[0].id == id {
      forall i | 0 < i < |c.queue| ensures c.queue[i].id != id {
        assert (c.inflight + c.queue)[|c.inflight|] == c.queue[0] && (c.inflight + c.queue)[|c.inflight| + i] == c.queue[i];
      }
      forall i | 0 <= i < |c.inflight| ensures c.inflight[i].id != id {
        assert (c.inflight + c.queue)[|c.inflight|] == c.queue[0] && (c.inflight + c.queue)[i] == c.inflight[i];
      }
      assert c.queue[0].id in Ids(c.queue);
      NotThere(c.queue[1..], id);
    }
  }

  lemma AbortLeavesUndoneIff(cfg: Config, c: Client, id: nat)
    requires Pipeline.Inv(cfg, c) && !Undone(cfg, c)
    ensures Undone(cfg, CancelTask(cfg, c, id)) <==> LiftsBarrier(cfg, c, Abort(id))
  {
    if c.queue != [] { FrontAfterAbort(cfg, c, id); }
    hide Pipeline.Inv, Ids;
  }

  lemma AbortFlushes(cfg: Config, c: Client, id: nat)
    requires Flushed(cfg, c)
    ensures Flushed(cfg, CancelTask(cfg, c, id))
  {
  }

  // ---- over every run ----

  lemma NotReadyIsEmpty(cfg: Config, c: Client)
    requires Pipeline.Inv(cfg, c)
    ensures !c.phase.Ready? ==> c.outbuf == []
    ensures c.sent + c.outbuf == LogBytes(c.log)
  {
  }

  lemma StepFlushes(cfg: Config, w: World, e: Event)
    requires Flushed(cfg, w.c) && Pipeline.Inv(cfg, w.c)
    ensures Flushed(cfg, Step(cfg, w, e).c)
    ensures (e.Query? || e.Answer?) && Enabled(cfg, w, e) ==> !Undone(cfg, Step(cfg, w, e).c)
    ensures !e.Abort? && Undone(cfg, Step(cfg, w, e).c) ==> Undone(cfg, w.c)
  {
    StepClient(cfg, w, e);
    NotReadyIsEmpty(cfg, w.c);
    hide Step, Flushed, Undone, Submit, CancelTask, FinishTask, Flush, Drain, CancelSettled, PendingTimer, SocketDown, Reestablished, GiveUp, End, Pipeline.Inv;
    match e {
      case Query(t) => InputFlushes(cfg, w.c, t, 0);
      case Abort(id) => AbortFlushes(cfg, w.c, id);
      case Answer(tx) => if w.c.ended < |w.results| { FinishFlushes(cfg, w.c, w.results[w.c.ended], tx); }
      case Microtask => InputFlushes(cfg, w.c, Plain(0), 0);
      case Writable(room) => InputFlushes(cfg, w.c, Plain(0), room);
      case CancelClosed(id) => SettledFlushes(cfg, w.c, id, true);
      case CancelFailed(id) => SettledFlushes(cfg, w.c, id, false);
      case CancelTimer(id) => SettledFlushes(cfg, w.c, id, false);
      case Connected(room) => SocketFlushes(cfg, w.c, room);
      case _ => SocketFlushes(cfg, w.c, 0);
    }
  }

  lemma {:induction false} FlushedAlways(cfg: Config, events: seq<Event>)
    requires Possible(cfg, events)
    ensures Flushed(cfg, Run(cfg, events).c)
  {
    if events != [] {
      var before := events[..|events| - 1];
      assert forall n :: 0 <= n < |before| ==> before[..n] == events[..n];
      hide Flushed, Step, Enabled;
      FlushedAlways(cfg, before);
      AnyRunKeepsPipeline(cfg, before);
      StepFlushes(cfg, Run(cfg, before), events[|events| - 1]);
    } else {
      assert Flushed(cfg, Initial());
    }
  }

  /** No bytes stay behind: without a microtask to wait for, everything that was dispatched is written when
      the event is over; else what is left is small, and the microtask writes it. */
  lemma NothingUnwritten(cfg: Config, events: seq<Event>)
    requires Possible(cfg, events) && Run(cfg, events).c.phase.Ready?
    ensures var c := Run(cfg, events).c;
            && (cfg.depth <= 1 || !cfg.microtask ==> c.outbuf == [] && c.sent == LogBytes(c.log))
            && |c.outbuf| < FLUSH_THRESHOLD
    ensures var c := Run(cfg, events + [Microtask]).c; c.outbuf == [] && c.sent == LogBytes(c.log)
  {
    FlushedAlways(cfg, events);
    AnyRunKeepsPipeline(cfg, events);
    RunExtends(cfg, events, Microtask);
    AnyRunKeepsPipeline(cfg, events + [Microtask]);
    var w := Run(cfg, events);
    NotReadyIsEmpty(cfg, w.c);
    NotReadyIsEmpty(cfg, Run(cfg, events + [Microtask]).c);
    hide Run, Possible, Pipeline.Inv, HeadKnown;
    assert Run(cfg, events + [Microtask]).c == Flush(w.c);
  }

  /** A step leaves a task undone if and only if it withdraws a barrier. */
  lemma LeavesUndoneIff(cfg: Config, w: World, e: Event)
    requires Pipeline.Inv(cfg, w.c) && Flushed(cfg, w.c) && !Undone(cfg, w.c)
    ensures Undone(cfg, Step(cfg, w, e).c) <==> LiftsBarrier(cfg, w.c, e)
  {
    StepFlushes(cfg, w, e);
    StepClient(cfg, w, e);
    hide Step, Undone, Flushed, Pipeline.Inv, CancelTask;
    if e.Abort? { AbortLeavesUndoneIff(cfg, w.c, e.id); }
  }

  ghost predicate LiftsNone(cfg: Config, events: seq<Event>)
  {
    forall n :: 0 <= n < |events| ==> !LiftsBarrier(cfg, Run(cfg, events[..n]).c, events[n])
  }

  lemma NonePrefix(cfg: Config, events: seq<Event>, m: nat)
    requires m <= |events| && LiftsNone(cfg, events)
    ensures LiftsNone(cfg, events[..m])
  {
    hide LiftsBarrier, Run;
    forall n | 0 <= n < m ensures !LiftsBarrier(cfg, Run(cfg, events[..m][..n]).c, events[..m][n]) {
      assert events[..m][..n] == events[..n];
    }
  }

  lemma LastEvent(cfg: Config, events: seq<Event>)
    requires events != [] && Possible(cfg, events) && LiftsNone(cfg, events)
    ensures var n := |events| - 1; var w := Run(cfg, events[..n]);
            && Possible(cfg, events[..n]) && LiftsNone(cfg, events[..n])
            && Run(cfg, events) == Step(cfg, w, events[n]) && !LiftsBarrier(cfg, w.c, events[n])
  {
    hide *;
    var n := |events| - 1;
    NonePrefix(cfg, events, n);
    PossiblePrefix(cfg, events, n);
    NoneLast(cfg, events, n);
    RunLast(cfg, events);
  }

  lemma PossiblePrefix(cfg: Config, events: seq<Event>, m: nat)
    requires m <= |events| && Possible(cfg, events)
    ensures Possible(cfg, events[..m])
  {
    hide Enabled, Run;
    forall n | 0 <= n < m ensures Enabled(cfg, Run(cfg, events[..m][..n]), events[..m][n]) {
      assert events[..m][..n] == events[..n];
    }
  }

  lemma NoneLast(cfg: Config, events: seq<Event>, n: nat)
    requires n < |events| && LiftsNone(cfg, events)
    ensures !LiftsBarrier(cfg, Run(cfg, events[..n]).c, events[n])
  {
    hide LiftsBarrier, Run;
  }

  lemma RunLast(cfg: Config, events: seq<Event>)
    requires events != []
    ensures Run(cfg, events) == Step(cfg, Run(cfg, events[..|events| - 1]), events[|events| - 1])
  {
    hide Step;
  }

  lemma {:induction false} NoneUndone(cfg: Config, events: seq<Event>)
    requires Possible(cfg, events) && LiftsNone(cfg, events)
    ensures !Undone(cfg, Run(cfg, events).c)
  {
    if events != [] {
      hide *;
      var before := events[..|events| - 1];
      LastEvent(cfg, events);
      NoneUndone(cfg, before);
      AnyRunKeepsPipeline(cfg, before);
      FlushedAlways(cfg, before);
      LeavesUndoneIff(cfg, Run(cfg, before), events[|events| - 1]);
    }
  }

  /** No task stays behind: over every run in which no barrier is withdrawn, the first task of the queue waits
      for a full pipeline, a full socket, a pending cancel, a retirement or a stream. */
  lemma NothingUnstarted(cfg: Config, events: seq<Event>)
    requires Possible(cfg, events) && LiftsNone(cfg, events)
    requires Run(cfg, events).c.phase.Ready? && Run(cfg, events).c.queue != []
    ensures var c := Run(cfg, events).c;
            || |c.inflight| >= cfg.depth || c.backedUp || c.pending.Some? || c.isRetiring
            || (c.inflight != [] && (c.inflight[0].stream || c.queue[0].stream))
  {
    NoneUndone(cfg, events);
  }

  /** Query 1 runs, a stream waits for it, query 3 waits behind the stream; the caller aborts the stream. Query 3
      could start and does not, until the answer of query 1 is read. */
  lemma BarrierStalls()
    ensures var events := [Query(P1), Query(STREAM), Query(P3), Abort(2)];
            && Possible(THREE_DEEP, events) && Undone(THREE_DEEP, Run(THREE_DEEP, events).c)
            && !Undone(THREE_DEEP, Run(THREE_DEEP, events[..3]).c)
  {
    BarrierStands();
    var c := ReachBarrier(STREAM, ONE, STREAM_WAITS, THIRD_WAITS);
    assert LiftsBarrier(THREE_DEEP, THIRD_WAITS, Abort(2)) && !Undone(THREE_DEEP, THIRD_WAITS) && 2 in THIRD_WAITS.accepted;
    var all := c + [Abort(2)];
    assert all == [Query(P1), Query(STREAM), Query(P3), Abort(2)] && all[..3] == c;
    hide Run, Possible, Undone, LiftsBarrier, Flushed, Pipeline.Inv, Submit, Step;
    RunExtends(THREE_DEEP, c, Abort(2));
    AnyRunKeepsPipeline(THREE_DEEP, c);
    FlushedAlways(THREE_DEEP, c);
    LeavesUndoneIff(THREE_DEEP, Run(THREE_DEEP, c), Abort(2));
  }

  const STREAM := Task(2, true, false, Serialized([]))
  const ONE := Sketch([P1], None, None, {1}, {}, {}, 0, [P1], 0)
  const STREAM_WAITS := ONE.(accepted := {1, 2}, queue := [STREAM])
  const THIRD_WAITS := STREAM_WAITS.(accepted := {1, 2, 3}, queue := [STREAM, P3])

  lemma BarrierStands()
    ensures Submit(THREE_DEEP, Initial(), P1) == ONE
    ensures Submit(THREE_DEEP, ONE, STREAM) == STREAM_WAITS && Submit(THREE_DEEP, STREAM_WAITS, P3) == THIRD_WAITS
  {
    SketchDispatches(Initial(), P1);
    assert Submit(THREE_DEEP, Initial(), P1) == ONE;
    hide Submit;
    Waits(ONE, STREAM, STREAM_WAITS);
    Waits(STREAM_WAITS, P3, THIRD_WAITS);
  }

  lemma ReachBarrier(s: Task, one: Client, two: Client, three: Client) returns (events: seq<Event>)
    requires s.id == 2 && Submit(THREE_DEEP, Initial(), P1) == one && Submit(THREE_DEEP, one, s) == two && Submit(THREE_DEEP, two, P3) == three
    requires one.phase.Ready? && two.phase.Ready? && three.phase.Ready? && one.cancels == two.cancels == three.cancels == 0
    requires 2 !in one.accepted && 3 !in two.accepted
    ensures events == [Query(P1), Query(s), Query(P3)] && Possible(THREE_DEEP, events) && Run(THREE_DEEP, events).c == three
  {
    var a, b := [Query(P1)], [Query(P1), Query(s)];
    events := [Query(P1), Query(s), Query(P3)];
    hide Submit;
    RunExtends(THREE_DEEP, [], Query(P1));
    assert [] + [Query(P1)] == a;
    assert Run(THREE_DEEP, a).c == one by { StepClient(THREE_DEEP, Start(), Query(P1)); }
    hide Possible;
    StepClient(THREE_DEEP, Run(THREE_DEEP, a), Query(s));
    RunExtends(THREE_DEEP, a, Query(s));
    assert a + [Query(s)] == b;
    assert Run(THREE_DEEP, b).c == two;
    StepClient(THREE_DEEP, Run(THREE_DEEP, b), Query(P3));
    RunExtends(THREE_DEEP, b, Query(P3));
    assert b + [Query(P3)] == events;
  }

  /** Behind a stream, or being one, a query waits. */
  lemma Waits(c: Client, t: Task, r: Client)
    requires c.phase.Ready? && !c.isRetiring && c.outbuf == [] && c.inflight != [] && (t.stream || (c.queue != [] && c.queue[0].stream))
    requires c.queue != [] ==> c.queue[0].stream
    requires r == c.(accepted := c.accepted + {t.id}, queue := c.queue + [t])
    ensures Submit(THREE_DEEP, c, t) == r
  {
    assert r.queue[0] == if c.queue == [] then t else c.queue[0];
    assert !MayDispatch(THREE_DEEP, r);
    assert DispatchAll(THREE_DEEP, r) == r;
  }

  // ---- one connection ----

  /** What holds between two events. */
  ghost predicate Between(cfg: Config, c: Client)
  {
    Pipeline.Inv(cfg, c) && HeadKnown(c) && Flushed(cfg, c)
  }

  lemma SubmitBetween(cfg: Config, c: Client, t: Task)
    requires Between(cfg, c) && t.id !in c.accepted
    ensures Between(cfg, Submit(cfg, c, t)) && !Undone(cfg, Submit(cfg, c, t))
  {
    hide Pipeline.Inv, HeadKnown, Flushed, Undone, Submit;
    Pipeline.SubmitInv(cfg, c, t);
    InputKeepsHead(cfg, c, t, 0);
    InputFlushes(cfg, c, t, 0);
  }

  lemma CancelBetween(cfg: Config, c: Client, id: nat)
    requires Between(cfg, c) && id in c.accepted
    ensures Between(cfg, CancelTask(cfg, c, id))
  {
    hide Pipeline.Inv, HeadKnown, Flushed, CancelTask;
    Pipeline.CancelTaskInv(cfg, c, id);
    InputKeepsHead(cfg, c, Plain(0), id);
    AbortFlushes(cfg, c, id);
  }

  lemma SettledBetween(cfg: Config, c: Client, id: nat, ok: bool)
    requires Between(cfg, c)
    ensures Between(cfg, CancelSettled(cfg, c, id, ok)) && Between(cfg, PendingTimer(cfg, c, id))
  {
    hide Pipeline.Inv, HeadKnown, Flushed, Undone, CancelSettled, PendingTimer;
    Pipeline.CancelSettledInv(cfg, c, id, ok);
    CancelKeepsHead(cfg, c, id, ok);
    SettledFlushes(cfg, c, id, ok);
  }

  lemma FinishBetween(cfg: Config, c: Client, o: Outcome, tx: bool)
    requires Between(cfg, c) && c.phase.Ready?
    ensures Between(cfg, FinishTask(cfg, c, o, tx)) && !Undone(cfg, FinishTask(cfg, c, o, tx))
  {
    hide Pipeline.Inv, HeadKnown, Flushed, Undone, FinishTask;
    Pipeline.FinishTaskInv(cfg, c, o, tx);
    FinishKeepsHead(cfg, c, o, tx);
    FinishFlushes(cfg, c, o, tx);
  }

  lemma SocketBetween(cfg: Config, c: Client, room: nat)
    requires Between(cfg, c)
    ensures Between(cfg, Drain(cfg, c, room)) && (c.backedUp ==> !Undone(cfg, Drain(cfg, c, room)))
    ensures Between(cfg, Reestablished(cfg, c, room)) && (c.phase.Reconnecting? ==> !Undone(cfg, Reestablished(cfg, c, room)))
    ensures Between(cfg, End(c))
  {
    NotReadyIsEmpty(cfg, c);
    Pipeline.DrainInv(cfg, c, room);
    SocketKeepsHead(cfg, c, room);
    Pipeline.EndInv(cfg, c);
    EndKeepsHead(cfg, c);
    InputFlushes(cfg, c, Plain(0), room);
    DrainLeavesNothing(cfg, c, room);
    SocketFlushes(cfg, c, room);
    UpLeavesNothing(cfg, c, room);
    hide Pipeline.Inv, HeadKnown, Flushed, Undone, Drain, Reestablished, End;
  }

  lemma UpLeavesNothing(cfg: Config, c: Client, room: nat)
    ensures c.phase.Reconnecting? ==> c.isRetiring || !Undone(cfg, Reestablished(cfg, c, room))
    ensures Undone(cfg, Reestablished(cfg, c, room)) ==> !c.isRetiring
  {
    if !c.isRetiring { ProcessLeavesNothing(cfg, c.(phase := Ready, backedUp := false, inTransaction := false, room := room)); }
    hide ProcessQueue;
  }

  // ---- nothing is settled without a reason ----

  /** Task `id` was waiting, or came with this event, and cannot be serialized. */
  ghost predicate Unserializable(c: Client, e: Event, id: nat)
  {
    exists u: Task :: u.id == id && u.payload.Throws? && (u in c.queue || e == Query(u))
  }

  /** What a settlement is for while the session goes on: the caller aborted the task, it is the one that was
      answered, or it throws while it serializes. */
  ghost predicate HasReason(c: Client, e: Event, id: nat)
  {
    || e == Abort(id)
    || (e.Answer? && c.inflight != [] && c.inflight[0].id == id)
    || Unserializable(c, e, id)
  }

  lemma ThrowersAmong(c: Client, r: Client, e: Event, id: nat)
    requires Pipeline.SettlesOnlyThrowers(c, r) && id in r.settled && id !in c.settled
    ensures Unserializable(c, e, id)
  {
  }

  lemma QueryReason(cfg: Config, c: Client, t: Task, id: nat)
    requires var r := Submit(cfg, c, t); r.phase.Ready? && id in r.settled && id !in c.settled
    ensures Unserializable(c, Query(t), id)
  {
    var c1 := c.(accepted := c.accepted + {t.id}, queue := c.queue + [t]);
    Pipeline.ProcessSettles(cfg, c1);
    hide ProcessQueue;
    var u :| u in c1.queue && u.id == id && u.payload.Throws?;
    assert u in c.queue || u == t;
  }

  lemma AnswerReason(cfg: Config, c: Client, outcome: Outcome, tx: bool, id: nat)
    requires var r := FinishTask(cfg, c, outcome, tx); r.phase.Ready? && id in r.settled && id !in c.settled
    ensures HasReason(c, Answer(tx), id)
  {
    if c.inflight == [] {
      Pipeline.ProcessSettles(cfg, c.(inTransaction := tx));
    } else {
      var t := c.inflight[0];
      var rest := WithoutHead(c, tx);
      var c2 := LeaveHead(cfg, rest, t, outcome);
      var c3 := GoesOn(c2, t, outcome);
      Pipeline.LeaveSettles(cfg, rest, t, outcome);
      Pipeline.ProcessSettles(cfg, c3);
      hide ProcessQueue, LeaveHead;
      if id != t.id && id !in c3.settled {
        var u :| u in c3.queue && u.id == id && u.payload.Throws?;
        assert u in c2.queue;
        QueueAfterLeaving(cfg, rest, t, outcome, u);
      }
    }
  }

  /** Cancel bookkeeping puts nothing into the queue. */
  lemma QueueAfterLeaving(cfg: Config, c: Client, t: Task, outcome: Outcome, u: Task)
    requires u in LeaveHead(cfg, c, t, outcome).queue
    ensures u in c.queue
  {
    var c1 := if c.late.Some? && t.id in c.late.value.suspects then CheckLateCancel(c, t, outcome) else c;
    assert c1.queue == c.queue;
    if c1.pending.Some? && c1.pending.value.head == Some(t.id) { QueueAfterCanceled(cfg, c1, outcome, u); }
    hide EndCanceledHead, CheckLateCancel;
  }

  lemma QueueAfterCanceled(cfg: Config, c: Client, outcome: Outcome, u: Task)
    requires c.pending.Some? && u in EndCanceledHead(cfg, c, outcome).queue
    ensures u in c.queue
  {
    var c2 := HeadGone(c, outcome);
    QueueShrinks(cfg, c2.(isRetiring := true), u);
    QueueShrinks(cfg, ClearPendingCancel(c2), u);
    hide ProcessQueue;
  }

  lemma QueueShrinks(cfg: Config, c: Client, u: Task)
    ensures u in ProcessQueue(cfg, c).queue ==> u in c.queue
  {
    DispatchShrinks(cfg, c, u);
    hide DispatchAll;
  }

  lemma {:induction false} DispatchShrinks(cfg: Config, c: Client, u: Task)
    ensures u in DispatchAll(cfg, c).queue ==> u in c.queue
    decreases |c.queue|
  {
    if MayDispatch(cfg, c) { DispatchShrinks(cfg, DispatchOne(c), u); }
  }

  /** As long as the session goes on, whoever is settled was aborted, was answered, or cannot be serialized; and
      while it reconnects, only who is aborted. */
  lemma SettledForAReason(cfg: Config, w: World, e: Event, id: nat)
    requires Enabled(cfg, w, e) && id in Step(cfg, w, e).c.settled && id !in w.c.settled
    ensures Step(cfg, w, e).c.phase.Ready? ==> HasReason(w.c, e, id)
    ensures w.c.phase.Reconnecting? && Step(cfg, w, e).c.phase.Reconnecting? ==> e == Abort(id)
  {
    StepClient(cfg, w, e);
    hide Step;
    var c := w.c;
    var r := ClientStep(cfg, w, e);
    hide ProcessQueue, FinishTask, ResolveCanceledHead, Unserializable;
    if r.phase.Ready? {
      match e
      case Query(t) => QueryReason(cfg, c, t, id);
      case Answer(tx) => AnswerReason(cfg, c, w.results[c.ended], tx, id);
      case Writable(room) => DrainReason(cfg, c, room, e, id);
      case CancelClosed(p) => SettledReason(cfg, c, p, true, e, id);
      case CancelFailed(p) => SettledReason(cfg, c, p, false, e, id);
      case CancelTimer(p) => TimerReason(cfg, c, p, e, id);
      case Connected(room) => ConnectedReason(cfg, c, room, e, id);
      case _ =>
    } else if c.phase.Reconnecting? && r.phase.Reconnecting? {
      WhileReconnecting(cfg, w, e, id);
    }
  }

  lemma DrainReason(cfg: Config, c: Client, room: nat, e: Event, id: nat)
    requires var r := Drain(cfg, c, room); r.phase.Ready? && id in r.settled && id !in c.settled
    ensures Unserializable(c, e, id)
  {
    Pipeline.ProcessSettles(cfg, c.(room := room, backedUp := false));
    hide ProcessQueue;
  }

  lemma ConnectedReason(cfg: Config, c: Client, room: nat, e: Event, id: nat)
    requires var r := Reestablished(cfg, c, room); r.phase.Ready? && id in r.settled && id !in c.settled
    ensures Unserializable(c, e, id)
  {
    Pipeline.ProcessSettles(cfg, c.(phase := Ready, backedUp := false, inTransaction := false, room := room));
    hide ProcessQueue;
  }

  lemma SettledReason(cfg: Config, c: Client, p: nat, ok: bool, e: Event, id: nat)
    requires var r := CancelSettled(cfg, c, p, ok); r.phase.Ready? && id in r.settled && id !in c.settled
    ensures Unserializable(c, e, id)
  {
    var q := c.pending.value;
    var c1 := c.(pending := Some(if ok then q.(isConfirmed := true) else q.(hasFailed := true)));
    Pipeline.ResolveSettles(cfg, c1);
    hide ResolveCanceledHead;
  }

  lemma TimerReason(cfg: Config, c: Client, p: nat, e: Event, id: nat)
    requires var r := PendingTimer(cfg, c, p); r.phase.Ready? && id in r.settled && id !in c.settled
    ensures Unserializable(c, e, id)
  {
    Pipeline.ProcessSettles(cfg, c.(isRetiring := true));
    hide ProcessQueue;
  }

  lemma WhileReconnecting(cfg: Config, w: World, e: Event, id: nat)
    requires Enabled(cfg, w, e) && w.c.phase.Reconnecting? && ClientStep(cfg, w, e).phase.Reconnecting?
    requires id in ClientStep(cfg, w, e).settled && id !in w.c.settled
    ensures e == Abort(id)
  {
    assert Ids([]) == {};
    hide DispatchAll;
    if e.Connected? { Pipeline.DispatchSettles(cfg, w.c.(phase := Ready, backedUp := false, inTransaction := false, room := e.room)); }
  }
}
