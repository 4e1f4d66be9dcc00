/** Client, backend and cancel connection together. A cancel request travels on its own connection
    and stops whatever the backend runs when it arrives, so it must never meet a task that was
    dispatched after the request was issued. */
module CancelProtocol {
  import opened Bytes
  import opened Scheduler
  import Pipeline

  /** `results`: how the backend ended each dispatched task, in order; `running`: it executes the next
      one; `hit`: a cancel signal stopped that one. `signals`: the requests still on their way, each with
      the number of tasks dispatched when it was issued. `stops`: for each stopped task (by dispatch
      number) the same number of the request that stopped it. `overlapped`: a second cancel was issued
      while one was pending. */
  datatype World = World(c: Client, results: seq<Outcome>, running: bool, hit: bool,
                         signals: map<nat, nat>, stops: map<nat, nat>, overlapped: bool)

  /** Client inputs, then backend steps, then arrivals of a cancel request. */
  datatype Event =
    | Query(t: Task) | Abort(id: nat) | Answer(inTransaction: bool) | Microtask | Writable(room: nat)
    | CancelClosed(id: nat) | CancelFailed(id: nat) | CancelTimer(id: nat)
    | Lost | Connected(room: nat) | Abandon | Close
    | BackendStarts | BackendEnds(outcome: Outcome)
    | Arrives(id: nat, lands: bool)

  function Start(): World
  {
    World(Initial(), [], false, false, map[], map[], false)
  }

  /** The bytes of the `k`-th task dispatched have left the batch. */
  ghost predicate Sent(c: Client, k: nat)
    requires k < |c.log|
  {
    |LogBytes(c.log[..k + 1])| <= |c.sent|
  }

  /** What the environment may do. The backend starts a task only when it has its bytes. The transport confirms a cancel only after the backend has the
      signal, except behind a pooler; 57014 comes only from this connection's cancels; the backend
      answers in order; ids of new tasks are new. */
  ghost predicate Enabled(cfg: Config, w: World, e: Event)
  {
    match e
    case Query(t) => t.id !in w.c.accepted
    case Abort(id) => id in w.c.accepted
    case Answer(_) => w.c.phase.Ready? && w.c.ended < |w.results|
    case CancelClosed(id) => id < w.c.cancels && (cfg.isBehindPooler || id !in w.signals)
    case CancelFailed(id) => id < w.c.cancels
    case BackendStarts => !w.running && |w.results| < |w.c.log| && Sent(w.c, |w.results|)
    case BackendEnds(o) => w.running && (o.Stopped? <==> w.hit)
    case Arrives(id, _) => id in w.signals
    case _ => true
  }

  function ClientStep(cfg: Config, w: World, e: Event): Client
  {
    match e
    case Query(t) => Submit(cfg, w.c, t)
    case Abort(id) => CancelTask(cfg, w.c, id)
    case Answer(tx) => if w.c.ended < |w.results| then FinishTask(cfg, w.c, w.results[w.c.ended], tx) else w.c
    case Microtask => Flush(w.c)
    case Writable(room) => Drain(cfg, w.c, room)
    case CancelClosed(id) => CancelSettled(cfg, w.c, id, true)
    case CancelFailed(id) => CancelSettled(cfg, w.c, id, false)
    case CancelTimer(id) => PendingTimer(cfg, w.c, id)
    case Lost => SocketDown(cfg, w.c)
    case Connected(room) => Reestablished(cfg, w.c, room)
    case Abandon => GiveUp(w.c)
    case Close => End(w.c)
    case _ => w.c
  }

  function BackendStep(w: World, e: Event): World
  {
    match e
    case BackendStarts => w.(running := true, hit := false)
    case BackendEnds(o) => w.(results := w.results + [o], running := false, hit := false)
    case Arrives(id, lands) =>
      if id !in w.signals then w
      else if w.running && !w.hit && lands then
        w.(signals := w.signals - {id}, hit := true, stops := w.stops[|w.results| := w.signals[id]])
      else w.(signals := w.signals - {id})
    case _ => w
  }

  /** A dead socket takes its backend with it; a cancel request names the old backend and reaches no other. */
  function Adopt(w: World, c: Client): World
  {
    if c.phase.Ready? then w.(c := c) else World(c, [], false, false, map[], map[], false)
  }

  function Step(cfg: Config, w: World, e: Event): World
  {
    var c := ClientStep(cfg, w, e);
    if c.cancels > w.c.cancels then
      Adopt(w.(signals := w.signals[w.c.cancels := |c.log|], overlapped := w.overlapped || w.c.pending.Some?), c)
    else Adopt(BackendStep(w, e), c)
  }

  /** The safety the protocol is for. */
  ghost predicate Safe(w: World)
  {
    && (forall k :: k in w.stops ==> k < w.stops[k])
    && (forall id :: id in w.signals ==> w.signals[id] == |w.c.log|)
  }

  /** An abort that issues a cancel request while no other is pending. */
  predicate Issues(cfg: Config, c: Client, e: Event)
  {
    && e.Abort? && cfg.canCancel && c.pending.None?
    && c.inflight != [] && c.inflight[0].id == e.id && e.id !in c.cancelled
  }

  /** What the client can see coming: it issues a request for a head that an earlier cancel may already have
      stopped, after that cancel was taken for settled. */
  predicate Doubtful(cfg: Config, c: Client, e: Event)
  {
    Issues(cfg, c, e) && c.late.Some? && e.id in c.late.value.suspects
  }

  /** Tasks whose stop is still to be read, counted from the oldest in flight. */
  ghost predicate Unread(w: World, i: nat)
  {
    var k := w.c.ended + i;
    (k < |w.results| && w.results[k].Stopped?) || (k == |w.results| && w.hit)
  }

  /** What defeats the protocol: the request is issued while the stop of a task that nobody cancelled is
      still to be read. The client will take that stop for the new request's. */
  ghost predicate Harmful(cfg: Config, w: World, e: Event)
  {
    Issues(cfg, w.c, e) && exists i: nat :: i < |w.c.inflight| && Unread(w, i) && w.c.inflight[i].id !in w.c.cancelled
  }

  function Run(cfg: Config, events: seq<Event>): World
  {
    if events == [] then Start() else Step(cfg, Run(cfg, events[..|events| - 1]), events[|events| - 1])
  }

  /** A run of the system: every event is possible when it happens. */
  ghost predicate Possible(cfg: Config, events: seq<Event>)
  {
    forall n :: 0 <= n < |events| ==> Enabled(cfg, Run(cfg, events[..n]), events[n])
  }

  ghost predicate Harmless(cfg: Config, events: seq<Event>)
  {
    forall n :: 0 <= n < |events| ==> !Harmful(cfg, Run(cfg, events[..n]), events[n])
  }

  /** The caller makes no doubtful abort. */
  ghost predicate Careful(cfg: Config, events: seq<Event>)
  {
    forall n :: 0 <= n < |events| ==> !Doubtful(cfg, Run(cfg, events[..n]).c, events[n])
  }

  // ---- the invariant ----

  ghost predicate Linked(cfg: Config, w: World)
  {
    && w.c.ended <= |w.results| <= |w.c.log| == w.c.ended + |w.c.inflight|
    && (w.running ==> |w.results| < |w.c.log|)
    && (w.hit ==> w.running)
    && (w.c.isRetiring ==> w.c.pending.Some?)
    && (w.overlapped ==> w.c.isRetiring)
  }

  /** What the client's cancel bookkeeping says about the requests on their way. */
  ghost predicate Tracked(cfg: Config, w: World)
  {
    && (w.c.pending.None? ==> w.signals == map[])
    && (forall id :: id in w.signals ==> id < w.c.cancels)
    && (w.c.pending.Some? ==>
          var p := w.c.pending.value;
          && p.id < w.c.cancels
          && (p.isConfirmed && !cfg.isBehindPooler ==> p.id !in w.signals)
          && (p.head.Some? ==> w.c.inflight != [] && w.c.inflight[0].id == p.head.value && p.head.value in w.c.cancelled))
    && (w.c.late.Some? ==> w.c.late.value.suspects <= w.c.accepted && w.c.late.value.suspects !! Ids(w.c.queue))
    && (!w.c.phase.Ready? ==> w.c.pending.None? && w.c.log == [] && w == World(w.c, [], false, false, map[], map[], false))
  }

  ghost predicate Suspected(c: Client, id: nat)
  {
    c.late.Some? && id in c.late.value.suspects
  }

  /** The suspects still in flight are the oldest tasks in flight. */
  ghost predicate SuspectsFirst(c: Client)
  {
    forall i, j :: 0 <= i < j < |c.inflight| && Suspected(c, c.inflight[j].id) ==> Suspected(c, c.inflight[i].id)
  }

  /** The stops that the client will make something of: those of tasks that nobody cancelled, and that of the
      head whose cancel is pending. */
  ghost predicate Telling(w: World, i: nat)
  {
    && Unread(w, i) && i < |w.c.inflight|
    && (w.c.inflight[i].id !in w.c.cancelled || (i == 0 && w.c.pending.Some? && w.c.pending.value.head.Some?))
  }

  /** At most one such stop or signal is outstanding, and every stop of another task is under suspicion. */
  ghost predicate Single(w: World)
  {
    && (forall i: nat, j: nat :: Telling(w, i) && Telling(w, j) ==> i == j)
    && (forall i: nat :: Telling(w, i) ==> w.signals == map[])
    && (w.c.pending.Some? ==> forall id :: id in w.signals ==> id == w.c.pending.value.id)
  }

  ghost predicate Covered(w: World)
  {
    && (w.c.pending.None? ==> forall i: nat :: Telling(w, i) ==> Suspected(w.c, w.c.inflight[i].id))
    && (w.c.pending.Some? && w.c.pending.value.head.None? ==>
          && (forall i: nat :: Telling(w, i) ==> Suspected(w.c, w.c.inflight[i].id) && w.c.late.value.id == w.c.pending.value.id)
          && (w.signals != map[] ==>
                forall i: nat :: i < |w.c.inflight| ==> Suspected(w.c, w.c.inflight[i].id) && w.c.late.value.id == w.c.pending.value.id))
  }

  /** The part of the invariant that concerns cancels. */
  ghost predicate Core(cfg: Config, w: World)
  {
    && Linked(cfg, w) && Tracked(cfg, w) && Safe(w)
    && (!w.overlapped ==> SuspectsFirst(w.c) && Single(w) && Covered(w))
  }

  ghost predicate Inv(cfg: Config, w: World)
  {
    && Pipeline.Inv(cfg, w.c)
    && Core(cfg, w)
  }

  // ---- dispatch ----

  /** `r` is `c` after it dispatched some tasks, none of them while a cancel is pending. */
  ghost predicate Grows(c: Client, r: Client)
  {
    && r.phase.Ready? && r.pending == c.pending && r.isRetiring == c.isRetiring && r.late == c.late
    && r.cancelled == c.cancelled && r.cancels == c.cancels && r.ended == c.ended && r.accepted == c.accepted
    && r.marked == c.marked
    && Ids(r.queue) <= Ids(c.queue)
    && c.log <= r.log && c.inflight <= r.inflight && |r.log| - |c.log| == |r.inflight| - |c.inflight|
    && (forall t :: t in r.inflight[|c.inflight|..] ==> t.id in Ids(c.queue))
    && (c.pending.Some? ==> r.log == c.log && r.inflight == c.inflight)
  }

  lemma GrowsTransitive(c: Client, d: Client, r: Client)
    requires Grows(c, d) && Grows(d, r)
    ensures Grows(c, r)
  {
    assert r.inflight[|c.inflight|..] == d.inflight[|c.inflight|..] + r.inflight[|d.inflight|..];
  }

  lemma DispatchOneGrows(cfg: Config, c: Client)
    requires c.phase.Ready? && MayDispatch(cfg, c)
    ensures Grows(c, DispatchOne(c))
  {
    StartGrows(c);
    hide Grows, StartTask, MayDispatch, Ids;
    FlushGrows(c, StartTask(c.(queue := c.queue[1..]), c.queue[0]));
  }

  lemma StartGrows(c: Client)
    requires c.phase.Ready? && c.queue != [] && c.pending.None?
    ensures Grows(c, StartTask(c.(queue := c.queue[1..]), c.queue[0]))
  {
    Pipeline.IdsCons(c.queue);
    assert c.queue[0].id in Ids(c.queue);
  }

  lemma FlushGrows(c: Client, r: Client)
    requires Grows(c, r)
    ensures Grows(c, Flush(r))
  {
    hide Ids;
  }

  lemma {:induction false} DispatchGrows(cfg: Config, c: Client)
    requires c.phase.Ready?
    ensures Grows(c, DispatchAll(cfg, c))
    decreases |c.queue|
  {
    if MayDispatch(cfg, c) {
      hide DispatchOne;
      DispatchOneGrows(cfg, c);
      DispatchGrows(cfg, DispatchOne(c));
      GrowsTransitive(c, DispatchOne(c), DispatchAll(cfg, c));
    }
  }

  lemma ProcessGrows(cfg: Config, c: Client)
    requires c.phase.Ready?
    ensures ProcessQueue(cfg, c).phase.Ready? ==> Grows(c, ProcessQueue(cfg, c))
    ensures c.isRetiring && c.inflight == [] <==> !ProcessQueue(cfg, c).phase.Ready?
  {
    DispatchGrows(cfg, c);
  }

  lemma CoreGrows(cfg: Config, w: World, r: Client)
    requires Core(cfg, w) && Grows(w.c, r)
    ensures Core(cfg, w.(c := r))
  {
    var w' := w.(c := r);
    assert forall i: nat :: Telling(w', i) ==> Telling(w, i);
    if !w.overlapped {
      if w.c.pending.None? {
        assert forall i | |w.c.inflight| <= i < |r.inflight| :: r.inflight[i] in r.inflight[|w.c.inflight|..];
      }
    }
  }

  /** Every way of going on after the bookkeeping: dispatch, or the end of the socket. */
  lemma CoreProcess(cfg: Config, w: World)
    requires Core(cfg, w) && w.c.phase.Ready?
    ensures Core(cfg, Adopt(w, ProcessQueue(cfg, w.c)))
  {
    ProcessGrows(cfg, w.c);
    if ProcessQueue(cfg, w.c).phase.Ready? {
      CoreGrows(cfg, w, ProcessQueue(cfg, w.c));
    }
  }

  lemma CoreRetire(cfg: Config, w: World)
    requires Core(cfg, w) && w.c.pending.Some? && w.c.phase.Ready?
    ensures Core(cfg, Adopt(w, ProcessQueue(cfg, w.c.(isRetiring := true))))
  {
    var w' := w.(c := w.c.(isRetiring := true));
    assert forall i: nat :: Telling(w', i) ==> Telling(w, i);
    CoreProcess(cfg, w');
  }

  lemma CoreClear(cfg: Config, w: World)
    requires Core(cfg, w) && w.signals == map[] && !w.c.isRetiring
    requires forall i: nat :: Telling(w, i) ==> Suspected(w.c, w.c.inflight[i].id)
    ensures Core(cfg, w.(c := ClearPendingCancel(w.c)))
  {
    var w' := w.(c := ClearPendingCancel(w.c));
    assert forall i: nat :: Telling(w', i) ==> Telling(w, i);
  }

  /** The head is gone and the cancel, if any, settles: retire, resume or wait. */
  lemma CoreResolve(cfg: Config, w: World)
    requires Core(cfg, w) && w.c.phase.Ready? && w.c.pending.Some? && w.c.pending.value.head.None?
    ensures Core(cfg, Adopt(w, ResolveCanceledHead(cfg, w.c)))
  {
    var p := w.c.pending.value;
    if !w.c.isRetiring {
      if p.hasFailed || (p.isConfirmed && cfg.isBehindPooler) {
        CoreRetire(cfg, w);
      } else if p.isConfirmed {
        assert w.signals == map[] by { assert forall id :: id in w.signals ==> id == p.id; }
        CoreClear(cfg, w);
        CoreProcess(cfg, w.(c := ClearPendingCancel(w.c)));
      }
    }
  }

  /** `c` is `w.c` without the oldest task in flight, its bookkeeping aside. */
  ghost predicate Left(w: World, c: Client)
  {
    && w.c.phase.Ready? && w.c.ended < |w.results| && w.c.inflight != []
    && Pipeline.Distinct(w.c.inflight) && Ids(w.c.inflight) !! Ids(w.c.queue) && Ids(w.c.inflight) <= w.c.accepted
    && c.phase.Ready? && c.inflight == w.c.inflight[1..] && c.ended == w.c.ended + 1
    && c.queue == w.c.queue && c.accepted == w.c.accepted && c.cancelled == w.c.cancelled
    && c.cancels == w.c.cancels && c.log == w.c.log && c.isRetiring == w.c.isRetiring
  }

  lemma LeftFacts(w: World, c: Client)
    requires Left(w, c)
    ensures forall i: nat :: Unread(w.(c := c), i) <==> Unread(w, i + 1)
    ensures Unread(w, 0) <==> w.results[w.c.ended].Stopped?
    ensures w.results[w.c.ended].Stopped? && (w.c.inflight[0].id !in w.c.cancelled || (w.c.pending.Some? && w.c.pending.value.head.Some?)) ==> Telling(w, 0)
    ensures (c.pending.Some? ==> c.pending.value.head.None?) ==> forall i: nat :: Telling(w.(c := c), i) ==> Telling(w, i + 1)
    ensures forall i :: 0 <= i < |c.inflight| ==> c.inflight[i].id == w.c.inflight[i + 1].id != w.c.inflight[0].id
    ensures Ids(c.inflight) <= Ids(w.c.inflight)
  {
  }

  /** The canceled head ends: its cancel is used up, or whoever follows comes under suspicion. */
  lemma CoreCanceledHead(cfg: Config, w: World, c: Client)
    requires Core(cfg, w) && Left(w, c)
    requires w.c.pending.Some? && w.c.pending.value.head == Some(w.c.inflight[0].id)
    requires c.pending == Some(w.c.pending.value.(head := None))
    requires if !w.results[w.c.ended].Stopped? && c.inflight != []
             then c.late == Some(Late(c.pending.value.id, Ids(c.inflight)))
             else c.late == w.c.late || (w.c.late.Some? && c.late == None)
                  || (w.c.late.Some? && c.late == Some(w.c.late.value.(suspects := w.c.late.value.suspects - {w.c.inflight[0].id})))
    ensures Core(cfg, w.(c := c))
  {
    LeftFacts(w, c);
    var w' := w.(c := c);
    if !w.overlapped {
      assert SuspectsFirst(c);
      assert Single(w');
      assert Covered(w');
    }
  }

  /** An ordinary head ends; if it was under suspicion, it no longer is. */
  lemma CoreOrdinaryHead(cfg: Config, w: World, c: Client)
    requires Core(cfg, w) && Left(w, c)
    requires c.pending == w.c.pending && (c.pending.Some? ==> c.pending.value.head.None?)
    requires || (c.late == w.c.late && !Suspected(w.c, w.c.inflight[0].id))
             || (w.c.late.Some? && c.late == Some(w.c.late.value.(suspects := w.c.late.value.suspects - {w.c.inflight[0].id})))
             || (w.c.late.Some? && c.late == None && w.c.late.value.suspects == {w.c.inflight[0].id})
             || (w.c.late.Some? && c.late == None && w.results[w.c.ended].Stopped? && w.c.inflight[0].id !in w.c.cancelled)
    ensures Core(cfg, w.(c := c))
  {
    LeftFacts(w, c);
    var w' := w.(c := c);
    if !w.overlapped {
      assert SuspectsFirst(c);
      assert Single(w');
      assert Covered(w');
    }
  }

  lemma CanceledLeaves(cfg: Config, w: World, rest: Client, c1: Client)
    requires Core(cfg, w) && Left(w, rest)
    requires rest.pending == w.c.pending && rest.late == w.c.late
    requires rest.pending.Some? && rest.pending.value.head == Some(w.c.inflight[0].id)
    requires c1 == if rest.late.Some? && w.c.inflight[0].id in rest.late.value.suspects
                   then CheckLateCancel(rest, w.c.inflight[0], w.results[w.c.ended]) else rest
    ensures Core(cfg, Adopt(w, EndCanceledHead(cfg, c1, w.results[w.c.ended])))
    ensures c1.pending == rest.pending
  {
    hide ProcessQueue, Pipeline.Distinct;
    var o := w.results[w.c.ended];
    LeftFacts(w, rest);
    var c2 := HeadGone(c1, o);
    CoreCanceledHead(cfg, w, c2);
    LeftFacts(w, c2);
    if !c2.isRetiring {
      if o.Stopped? { CoreClear(cfg, w.(c := c2)); } else { CoreResolve(cfg, w.(c := c2)); }
    }
  }

  lemma SuspectLeaves(cfg: Config, w: World, rest: Client)
    requires Core(cfg, w) && Left(w, rest)
    requires rest.pending == w.c.pending && rest.late == w.c.late
    requires rest.pending.Some? ==> rest.pending.value.head.None?
    requires Suspected(w.c, w.c.inflight[0].id)
    ensures Core(cfg, w.(c := CheckLateCancel(rest, w.c.inflight[0], w.results[w.c.ended])))
  {
    hide Pipeline.Distinct;
    LeftFacts(w, rest);
    var c1 := CheckLateCancel(rest, w.c.inflight[0], w.results[w.c.ended]);
    var c2 := c1.(pending := rest.pending, isRetiring := rest.isRetiring);
    CoreOrdinaryHead(cfg, w, c2);
    LeftFacts(w, c2);
    if c1.pending != rest.pending { CoreClear(cfg, w.(c := c2)); }
  }

  /** The head leaves: reading its outcome settles what the stop, if it was one, means. */
  lemma CoreLeaves(cfg: Config, w: World, rest: Client)
    requires Core(cfg, w) && Left(w, rest)
    requires rest.pending == w.c.pending && rest.late == w.c.late
    ensures Core(cfg, Adopt(w, LeaveHead(cfg, rest, w.c.inflight[0], w.results[w.c.ended])))
  {
    var t, o := w.c.inflight[0], w.results[w.c.ended];
    if rest.pending.Some? && rest.pending.value.head == Some(t.id) {
      var c1 := if rest.late.Some? && t.id in rest.late.value.suspects then CheckLateCancel(rest, t, o) else rest;
      hide EndCanceledHead, Core, Left;
      CanceledLeaves(cfg, w, rest, c1);
    } else if Suspected(w.c, t.id) {
      SuspectLeaves(cfg, w, rest);
    } else {
      CoreOrdinaryHead(cfg, w, rest);
    }
  }

  lemma ProcessKeepsLate(cfg: Config, c: Client)
    ensures ProcessQueue(cfg, c).late == c.late && ProcessQueue(cfg, c).accepted == c.accepted
  {
    if c.phase.Ready? { DispatchGrows(cfg, c); }
  }

  lemma ResolveKeepsLate(cfg: Config, c: Client)
    requires c.pending.Some?
    ensures ResolveCanceledHead(cfg, c).late == c.late && ResolveCanceledHead(cfg, c).accepted == c.accepted
  {
    ProcessKeepsLate(cfg, c.(isRetiring := true));
    ProcessKeepsLate(cfg, ClearPendingCancel(c));
  }

  lemma LeaverIsCleared(cfg: Config, c: Client, t: Task, o: Outcome)
    requires t.id !in Ids(c.inflight)
    ensures !Suspected(LeaveHead(cfg, c, t, o), t.id)
    ensures LeaveHead(cfg, c, t, o).accepted == c.accepted
  {
    hide ResolveCanceledHead, ClearPendingCancel;
    var c1 := if Suspected(c, t.id) then CheckLateCancel(c, t, o) else c;
    if c.late.Some? { CheckClears(c, t, o); }
    hide CheckLateCancel;
    if c1.pending.Some? && c1.pending.value.head == Some(t.id) { ResolveKeepsLate(cfg, HeadGone(c1, o)); ClearKeeps(HeadGone(c1, o)); }
  }

  lemma ClearKeeps(c: Client)
    ensures ClearPendingCancel(c).late == c.late && ClearPendingCancel(c).accepted == c.accepted
  {
  }

  lemma CheckClears(c: Client, t: Task, o: Outcome)
    requires c.late.Some?
    ensures !Suspected(CheckLateCancel(c, t, o), t.id)
    ensures CheckLateCancel(c, t, o).accepted == c.accepted && CheckLateCancel(c, t, o).inflight == c.inflight
  {
  }

  /** Fields that Core does not read. */
  lemma CoreFrame(cfg: Config, w: World, c: Client)
    requires Core(cfg, w)
    requires c == w.c.(queue := c.queue, settled := c.settled, retried := c.retried, accepted := c.accepted,
                       cancelled := c.cancelled, outbuf := c.outbuf, sent := c.sent, room := c.room, backedUp := c.backedUp,
                       inTransaction := c.inTransaction)
    requires w.c.accepted <= c.accepted && w.c.cancelled <= c.cancelled
    requires forall t :: t in c.queue ==> t in w.c.queue || !Suspected(w.c, t.id)
    ensures Core(cfg, w.(c := c))
  {
    var w' := w.(c := c);
    assert forall i: nat :: Telling(w', i) ==> Telling(w, i);
  }

  lemma SomethingInFlight(cfg: Config, w: World)
    requires Core(cfg, w) && w.c.ended < |w.results|
    ensures w.c.inflight != []
  {
  }

  /** After the head left, dispatch goes on. */
  lemma CoreGoesOn(cfg: Config, w: World, c: Client, t: Task, o: Outcome)
    requires Core(cfg, Adopt(w, c)) && !Suspected(c, t.id)
    ensures Core(cfg, Adopt(w, ProcessQueue(cfg, GoesOn(c, t, o))))
  {
    hide Core, ProcessQueue, GoesOn, Suspected;
    GoesOnFrame(cfg, Adopt(w, c), t, o);
    CoreProcessAny(cfg, w, c, GoesOn(c, t, o)) by { assert GoesOn(c, t, o).phase == c.phase by { GoesOnPhase(c, t, o); } }
  }

  lemma GoesOnFrame(cfg: Config, w: World, t: Task, o: Outcome)
    requires Core(cfg, w) && !Suspected(w.c, t.id)
    ensures Core(cfg, w.(c := GoesOn(w.c, t, o)))
  {
    hide Core, Retries;
    CoreFrame(cfg, w, GoesOn(w.c, t, o));
  }

  lemma GoesOnPhase(c: Client, t: Task, o: Outcome)
    ensures GoesOn(c, t, o).phase == c.phase
  {
  }

  lemma CoreProcessAny(cfg: Config, w: World, c: Client, again: Client)
    requires Core(cfg, Adopt(w, c).(c := again)) && again.phase == c.phase
    ensures Core(cfg, Adopt(w, ProcessQueue(cfg, again)))
  {
    hide Core, ProcessQueue;
    if c.phase.Ready? { CoreProcess(cfg, w.(c := again)); } else { NotReady(cfg, again); }
  }

  lemma HeadIsLeft(cfg: Config, w: World, tx: bool)
    requires Inv(cfg, w) && w.c.phase.Ready? && w.c.ended < |w.results|
    ensures w.c.inflight != []
    ensures Left(w, WithoutHead(w.c, tx))
    ensures w.c.inflight[0].id !in Ids(w.c.inflight[1..])
  {
    SomethingInFlight(cfg, w);
    Pipeline.Subdistinct(w.c.inflight, w.c.queue);
    Pipeline.InflightNotQueued(w.c);
    Pipeline.IdsCons(w.c.inflight);
  }

  /** ReadyForQuery keeps the invariant. */
  lemma CoreFinish(cfg: Config, w: World, tx: bool)
    requires Inv(cfg, w) && w.c.phase.Ready? && w.c.ended < |w.results|
    ensures Core(cfg, Adopt(w, FinishTask(cfg, w.c, w.results[w.c.ended], tx)))
  {
    HeadIsLeft(cfg, w, tx);
    var t, o := w.c.inflight[0], w.results[w.c.ended];
    var rest := WithoutHead(w.c, tx);
    CoreLeaves(cfg, w, rest);
    LeaverIsCleared(cfg, rest, t, o);
    hide Core, ProcessQueue, LeaveHead, Pipeline.Inv, Left, Ids;
    CoreGoesOn(cfg, w, LeaveHead(cfg, rest, t, o), t, o);
  }

  lemma NotReady(cfg: Config, c: Client)
    requires !c.phase.Ready?
    ensures ProcessQueue(cfg, c) == c
  {
  }

  lemma CoreIssue(cfg: Config, w: World, c: Client, id: nat)
    requires Core(cfg, w) && w.c.phase.Ready? && !Harmful(cfg, w, Abort(id)) && cfg.canCancel
    requires w.c.inflight != [] && w.c.inflight[0].id == id && id !in w.c.cancelled
    requires c == w.c.(cancelled := w.c.cancelled + {id}, settled := w.c.settled + {id},
                       isRetiring := w.c.isRetiring || w.c.pending.Some?,
                       pending := Some(Pending(w.c.cancels, Some(id), false, false)), cancels := w.c.cancels + 1)
    ensures Core(cfg, w.(signals := w.signals[w.c.cancels := |w.c.log|],
                         overlapped := w.overlapped || w.c.pending.Some?, c := c))
  {
    var w' := w.(signals := w.signals[w.c.cancels := |w.c.log|], overlapped := w.overlapped || w.c.pending.Some?, c := c);
    assert forall i: nat :: Telling(w', i) ==> Telling(w, i);
    if w.c.pending.None? {
      assert !w.overlapped;
      assert forall i: nat :: !Telling(w, i);
      assert forall i: nat :: Telling(w', i) ==> Telling(w, i);
    }
  }

  lemma CoreUnsent(cfg: Config, w: World, id: nat)
    requires Core(cfg, w) && CancelTask(cfg, w.c, id).cancels == w.c.cancels
    ensures Core(cfg, Step(cfg, w, Abort(id)))
  {
    hide Core, Ids, Suspected;
    CoreFrame(cfg, w, CancelTask(cfg, w.c, id));
    AdoptFrame(cfg, w, CancelTask(cfg, w.c, id));
    hide CancelTask, Adopt;
    assert Step(cfg, w, Abort(id)) == Adopt(w, CancelTask(cfg, w.c, id));
  }

  lemma SentFromHead(cfg: Config, c: Client, id: nat)
    requires CancelTask(cfg, c, id).cancels != c.cancels
    ensures c.inflight != [] && c.inflight[0].id == id && id !in c.cancelled && cfg.canCancel
  {
  }

  lemma CoreSent(cfg: Config, w: World, id: nat)
    requires Core(cfg, w) && CancelTask(cfg, w.c, id).cancels != w.c.cancels && w.c.phase.Ready? && !Harmful(cfg, w, Abort(id))
    ensures Core(cfg, Step(cfg, w, Abort(id)))
  {
    hide Core, Harmful;
    CoreIssue(cfg, w, CancelTask(cfg, w.c, id), id);
  }

  /** An abort. The only one that the invariant does not survive is the doubtful one. */
  lemma CoreAbort(cfg: Config, w: World, id: nat)
    requires Inv(cfg, w) && !Harmful(cfg, w, Abort(id))
    ensures Core(cfg, Step(cfg, w, Abort(id)))
  {
    NothingInFlight(cfg, w);
    hide Pipeline.Inv, Core, Harmful, Step, CancelTask;
    if CancelTask(cfg, w.c, id).cancels == w.c.cancels {
      CoreUnsent(cfg, w, id);
    } else {
      SentFromHead(cfg, w.c, id);
      CoreSent(cfg, w, id);
    }
  }

  lemma NothingInFlight(cfg: Config, w: World)
    requires Inv(cfg, w)
    ensures w.c.inflight != [] ==> w.c.phase.Ready?
  {
  }

  lemma AdoptFrame(cfg: Config, w: World, c: Client)
    requires Core(cfg, w) && Core(cfg, w.(c := c)) && c.phase == w.c.phase
    ensures Core(cfg, Adopt(w, c))
  {
  }

  lemma CoreBackend(cfg: Config, w: World, e: Event)
    requires Core(cfg, w) && Enabled(cfg, w, e)
    requires e.BackendStarts? || e.BackendEnds?
    ensures Core(cfg, BackendStep(w, e))
  {
    var w' := BackendStep(w, e);
    assert forall i: nat :: Telling(w', i) ==> Telling(w, i);
    if !w.overlapped { SameBookkeeping(w, w'); }
    hide Single, Covered, SuspectsFirst;
  }

  lemma SameBookkeeping(w: World, w': World)
    requires w'.c == w.c && w'.signals == w.signals && forall i: nat :: Telling(w', i) ==> Telling(w, i)
    requires Single(w) && Covered(w)
    ensures Single(w') && Covered(w')
  {
  }

  lemma CoreArrival(cfg: Config, w: World, id: nat, lands: bool)
    requires Core(cfg, w) && id in w.signals
    ensures Core(cfg, BackendStep(w, Arrives(id, lands)))
  {
    var w' := BackendStep(w, Arrives(id, lands));
    if !w.overlapped {
      assert forall i: nat :: !Telling(w, i);
      assert forall x :: x in w.signals ==> x == id;
      assert w'.signals.Keys == {};
      forall i: nat | Telling(w', i) ensures w.c.ended + i == |w.results| { assert !Telling(w, i); }
    }
  }

  lemma CoreFlag(cfg: Config, w: World, p: Pending)
    requires Core(cfg, w) && w.c.pending.Some?
    requires p == w.c.pending.value.(isConfirmed := p.isConfirmed, hasFailed := p.hasFailed)
    requires p.isConfirmed ==> w.c.pending.value.isConfirmed || cfg.isBehindPooler || p.id !in w.signals
    ensures Core(cfg, w.(c := w.c.(pending := Some(p))))
  {
    var w' := w.(c := w.c.(pending := Some(p)));
    assert forall i: nat :: Telling(w', i) ==> Telling(w, i);
  }

  lemma CoreSettled(cfg: Config, w: World, e: Event)
    requires Core(cfg, w) && Enabled(cfg, w, e)
    requires e.CancelClosed? || e.CancelFailed? || e.CancelTimer?
    ensures Core(cfg, Adopt(w, ClientStep(cfg, w, e)))
  {
    hide Core, ResolveCanceledHead, ProcessQueue;
    AdoptFrame(cfg, w, w.c);
    if w.c.pending.Some? && w.c.pending.value.id == e.id {
      ReadyIfPending(cfg, w);
      var p := w.c.pending.value;
      var p' := if e.CancelClosed? then p.(isConfirmed := true) else p.(hasFailed := true);
      CoreFlag(cfg, w, p');
      if e.CancelTimer? {
        if p.head.None? { CoreRetire(cfg, w); }
      } else if p.head.None? {
        CoreResolve(cfg, w.(c := w.c.(pending := Some(p'))));
      }
    }
  }

  /** The promise settled after the canceled head ended: dispatch goes on exactly if the server closed the cancel
      connection itself; else the connection retires. */
  lemma SettledMeans(cfg: Config, c: Client, id: nat, ok: bool)
    ensures var r := CancelSettled(cfg, c, id, ok);
            HeadlessPending(c, id) && !c.isRetiring && r.phase.Ready? ==>
              if ok && !cfg.isBehindPooler && !c.pending.value.hasFailed then r.pending.None? && !r.isRetiring
              else r.isRetiring && r.inflight == c.inflight
  {
    if HeadlessPending(c, id) && c.phase.Ready? {
      var p := c.pending.value;
      var c1 := c.(pending := Some(if ok then p.(isConfirmed := true) else p.(hasFailed := true)));
      ProcessGrows(cfg, c1.(isRetiring := true));
      ProcessGrows(cfg, ClearPendingCancel(c1));
      hide ProcessQueue;
    }
  }

  /** The head that request `id` was for has ended; the request is waited for. */
  predicate HeadlessPending(c: Client, id: nat)
  {
    c.pending.Some? && c.pending.value.id == id && c.pending.value.head.None?
  }

  /** And no confirmation in time retires it. */
  lemma TimerMeans(cfg: Config, c: Client, id: nat)
    ensures var r := PendingTimer(cfg, c, id); HeadlessPending(c, id) && r.phase.Ready? ==> r.isRetiring && r.inflight == c.inflight != []
  {
  }

  lemma ReadyIfPending(cfg: Config, w: World)
    requires Core(cfg, w) && w.c.pending.Some?
    ensures w.c.phase.Ready?
  {
  }

  lemma CoreAccept(cfg: Config, w: World, t: Task)
    requires Core(cfg, w) && t.id !in w.c.accepted
    ensures Core(cfg, w.(c := w.c.(accepted := w.c.accepted + {t.id}, queue := w.c.queue + [t])))
    ensures Core(cfg, w.(c := w.c.(accepted := w.c.accepted + {t.id}, settled := w.c.settled + {t.id})))
  {
    assert !Suspected(w.c, t.id);
    CoreFrame(cfg, w, w.c.(accepted := w.c.accepted + {t.id}, queue := w.c.queue + [t]));
    CoreFrame(cfg, w, w.c.(accepted := w.c.accepted + {t.id}, settled := w.c.settled + {t.id}));
  }

  lemma CoreQuery(cfg: Config, w: World, t: Task)
    requires Core(cfg, w) && t.id !in w.c.accepted
    ensures Core(cfg, Adopt(w, Submit(cfg, w.c, t)))
  {
    hide Core, ProcessQueue, MayDispatch;
    var c1 := w.c.(accepted := w.c.accepted + {t.id}, queue := w.c.queue + [t]);
    CoreAccept(cfg, w, t);
    AdoptFrame(cfg, w, c1);
    AdoptFrame(cfg, w, w.c.(accepted := w.c.accepted + {t.id}, settled := w.c.settled + {t.id}));
    if w.c.phase.Ready? { CoreProcess(cfg, w.(c := c1)); } else { NotReady(cfg, c1); }
  }

  lemma CoreBatch(cfg: Config, w: World, c: Client)
    requires Core(cfg, w)
    requires c == w.c.(outbuf := c.outbuf, sent := c.sent, room := c.room, backedUp := c.backedUp)
    ensures Core(cfg, Adopt(w, c)) && Core(cfg, Adopt(w, ProcessQueue(cfg, c)))
  {
    CoreFrame(cfg, w, c);
    AdoptFrame(cfg, w, c);
    hide Core, ProcessQueue;
    if c.phase.Ready? { CoreProcess(cfg, w.(c := c)); } else { NotReady(cfg, c); }
  }

  lemma CoreSocket(cfg: Config, w: World, room: nat)
    requires Core(cfg, w)
    ensures Core(cfg, Adopt(w, Flush(w.c))) && Core(cfg, Adopt(w, Drain(cfg, w.c, room)))
  {
    hide Core, ProcessQueue;
    CoreBatch(cfg, w, Flush(w.c));
    CoreBatch(cfg, w, w.c.(room := room, backedUp := false));
    CoreBatch(cfg, w, w.c.(room := room));
  }

  /** A session ends: nothing of it is left but the list of suspects, none of whom comes back. */
  lemma CoreReset(cfg: Config, w: World, c: Client)
    requires Core(cfg, w) && !c.phase.Ready?
    requires c.ended == 0 && c.log == [] && c.inflight == [] && c.pending.None? && !c.isRetiring
    requires c.late == w.c.late || c.late.None?
    requires c.accepted == w.c.accepted && Ids(c.queue) <= Ids(w.c.queue)
    ensures Core(cfg, Adopt(w, c))
  {
    assert forall i: nat :: !Telling(Adopt(w, c), i);
  }

  lemma CoreDown(cfg: Config, w: World)
    requires Inv(cfg, w)
    ensures Core(cfg, Adopt(w, SocketDown(cfg, w.c)))
    ensures Core(cfg, Adopt(w, GiveUp(w.c)))
    ensures Core(cfg, Adopt(w, End(w.c)))
  {
    AdoptFrame(cfg, w, w.c);
    if !w.c.phase.Ready? { NotReadyIsQuiet(cfg, w); }
    hide Core, Pipeline.Inv;
    if w.c.phase.Ready? { CoreReset(cfg, w, SocketDown(cfg, w.c)); }
    if w.c.phase.Reconnecting? { CoreReset(cfg, w, GiveUp(w.c)); }
    if !w.c.phase.Closed? { CoreReset(cfg, w, End(w.c)); }
  }

  lemma NotReadyIsQuiet(cfg: Config, w: World)
    requires Inv(cfg, w) && !w.c.phase.Ready?
    ensures w.c.ended == 0 && w.c.log == [] && w.c.inflight == [] && w.c.pending.None? && !w.c.isRetiring
  {
  }

  lemma CoreUp(cfg: Config, w: World, room: nat)
    requires Inv(cfg, w)
    ensures Core(cfg, Adopt(w, Reestablished(cfg, w.c, room)))
  {
    AdoptFrame(cfg, w, w.c);
    if w.c.phase.Reconnecting? {
      var w1 := w.(c := w.c.(phase := Phase.Ready, backedUp := false, inTransaction := false, room := room));
      assert Core(cfg, w1) by { assert forall i: nat :: Telling(w1, i) ==> Telling(w, i); }
      hide Core, Pipeline.Inv, ProcessQueue;
      CoreProcess(cfg, w1);
      assert Adopt(w, ProcessQueue(cfg, w1.c)) == Adopt(w1, ProcessQueue(cfg, w1.c));
    }
  }

  // ---- runs ----

  lemma StepKeepsCore(cfg: Config, w: World, e: Event)
    requires Inv(cfg, w) && Enabled(cfg, w, e) && !Harmful(cfg, w, e)
    ensures Core(cfg, Step(cfg, w, e))
  {
    hide Core, Pipeline.Inv, Submit, CancelTask, FinishTask, Flush, Drain, CancelSettled, PendingTimer, SocketDown, Reestablished, GiveUp, End;
    CoreKnowsHead(cfg, w);
    StepKeepsHead(cfg, w, e);
    match e {
      case Abort(id) => CoreAbort(cfg, w, id);
      case Query(t) => CoreQuery(cfg, w, t);
      case Answer(tx) => CoreFinish(cfg, w, tx);
      case Microtask => CoreSocket(cfg, w, 0);
      case Writable(room) => CoreSocket(cfg, w, room);
      case CancelClosed(_) => CoreSettled(cfg, w, e);
      case CancelFailed(_) => CoreSettled(cfg, w, e);
      case CancelTimer(_) => CoreSettled(cfg, w, e);
      case Lost => CoreDown(cfg, w);
      case Abandon => CoreDown(cfg, w);
      case Close => CoreDown(cfg, w);
      case Connected(room) => CoreUp(cfg, w, room);
      case BackendStarts => CoreBackend(cfg, w, e); AdoptFrame(cfg, BackendStep(w, e), w.c);
      case BackendEnds(_) => CoreBackend(cfg, w, e); AdoptFrame(cfg, BackendStep(w, e), w.c);
      case Arrives(id, lands) => CoreArrival(cfg, w, id, lands); AdoptFrame(cfg, BackendStep(w, e), w.c);
    }
  }

  lemma CoreKnowsHead(cfg: Config, w: World)
    requires Core(cfg, w)
    ensures HeadKnown(w.c)
  {
  }

  lemma ProcessKeepsHead(cfg: Config, c: Client)
    requires HeadKnown(c)
    ensures HeadKnown(ProcessQueue(cfg, c)) && ProcessQueue(cfg, c).cancels == c.cancels
  {
    if c.phase.Ready? { DispatchGrows(cfg, c); }
  }

  lemma ResolveKeepsHead(cfg: Config, c: Client)
    requires c.pending.Some? && HeadKnown(c)
    ensures HeadKnown(ResolveCanceledHead(cfg, c)) && ResolveCanceledHead(cfg, c).cancels == c.cancels
  {
    hide ProcessQueue;
    ProcessKeepsHead(cfg, c.(isRetiring := true));
    ProcessKeepsHead(cfg, ClearPendingCancel(c));
  }

  lemma LeaveKeepsHead(cfg: Config, c: Client, t: Task, o: Outcome)
    requires HeadKnown(c)
    ensures HeadKnown(LeaveHead(cfg, c, t, o)) && LeaveHead(cfg, c, t, o).cancels == c.cancels
  {
    hide ResolveCanceledHead;
    var c1 := if c.late.Some? && t.id in c.late.value.suspects then CheckLateCancel(c, t, o) else c;
    if c1.pending.Some? && c1.pending.value.head == Some(t.id) { ResolveKeepsHead(cfg, HeadGone(c1, o)); }
  }

  lemma CancelKeepsHead(cfg: Config, c: Client, id: nat, ok: bool)
    requires HeadKnown(c)
    ensures HeadKnown(CancelSettled(cfg, c, id, ok)) && HeadKnown(PendingTimer(cfg, c, id))
    ensures CancelSettled(cfg, c, id, ok).cancels == PendingTimer(cfg, c, id).cancels == c.cancels
  {
    hide ProcessQueue;
    ProcessKeepsHead(cfg, c.(isRetiring := true));
    if c.pending.Some? {
      var p := c.pending.value;
      var c1 := c.(pending := Some(if ok then p.(isConfirmed := true) else p.(hasFailed := true)));
      ProcessKeepsHead(cfg, c1.(isRetiring := true));
      ProcessKeepsHead(cfg, ClearPendingCancel(c1));
    }
  }

  lemma InputKeepsHead(cfg: Config, c: Client, t: Task, id: nat)
    requires HeadKnown(c)
    ensures HeadKnown(Submit(cfg, c, t)) && Submit(cfg, c, t).cancels == c.cancels
    ensures HeadKnown(CancelTask(cfg, c, id))
  {
    hide ProcessQueue;
    ProcessKeepsHead(cfg, c.(accepted := c.accepted + {t.id}, queue := c.queue + [t]));
  }

  lemma SocketKeepsHead(cfg: Config, c: Client, room: nat)
    requires HeadKnown(c)
    ensures HeadKnown(Drain(cfg, c, room)) && Drain(cfg, c, room).cancels == c.cancels
    ensures HeadKnown(Reestablished(cfg, c, room)) && Reestablished(cfg, c, room).cancels == c.cancels
  {
    hide ProcessQueue;
    ProcessKeepsHead(cfg, c.(room := room, backedUp := false));
    ProcessKeepsHead(cfg, c.(phase := Phase.Ready, backedUp := false, inTransaction := false, room := room));
  }

  lemma EndKeepsHead(cfg: Config, c: Client)
    requires HeadKnown(c)
    ensures HeadKnown(Flush(c)) && HeadKnown(SocketDown(cfg, c)) && HeadKnown(GiveUp(c)) && HeadKnown(End(c))
    ensures Flush(c).cancels == SocketDown(cfg, c).cancels == GiveUp(c).cancels == End(c).cancels == c.cancels
  {
  }

  lemma FinishKeepsHead(cfg: Config, c: Client, o: Outcome, tx: bool)
    requires HeadKnown(c)
    ensures HeadKnown(FinishTask(cfg, c, o, tx)) && FinishTask(cfg, c, o, tx).cancels == c.cancels
  {
    hide ProcessQueue, LeaveHead;
    ProcessKeepsHead(cfg, c.(inTransaction := tx));
    if c.inflight != [] {
      LeaveKeepsHead(cfg, WithoutHead(c, tx), c.inflight[0], o);
      ProcessKeepsHead(cfg, GoesOn(LeaveHead(cfg, WithoutHead(c, tx), c.inflight[0], o), c.inflight[0], o));
    }
  }

  lemma StepKeepsHead(cfg: Config, w: World, e: Event)
    requires HeadKnown(w.c)
    ensures HeadKnown(Step(cfg, w, e).c)
    ensures !e.Abort? ==> ClientStep(cfg, w, e).cancels == w.c.cancels
  {
    StepClient(cfg, w, e);
    hide Step, HeadKnown, Submit, CancelTask, FinishTask, Flush, Drain, CancelSettled, PendingTimer, SocketDown, Reestablished, GiveUp, End;
    match e {
      case Abort(id) => InputKeepsHead(cfg, w.c, Plain(0), id);
      case Query(t) => InputKeepsHead(cfg, w.c, t, 0);
      case Answer(tx) => if w.c.ended < |w.results| { FinishKeepsHead(cfg, w.c, w.results[w.c.ended], tx); }
      case Writable(room) => SocketKeepsHead(cfg, w.c, room);
      case Connected(room) => SocketKeepsHead(cfg, w.c, room);
      case CancelClosed(id) => CancelKeepsHead(cfg, w.c, id, true);
      case CancelFailed(id) => CancelKeepsHead(cfg, w.c, id, false);
      case CancelTimer(id) => CancelKeepsHead(cfg, w.c, id, false);
      case _ => EndKeepsHead(cfg, w.c);
    }
  }

  lemma StepClient(cfg: Config, w: World, e: Event)
    ensures Step(cfg, w, e).c == ClientStep(cfg, w, e)
  {
  }

  lemma StepKeepsPipeline(cfg: Config, w: World, e: Event)
    requires Pipeline.Inv(cfg, w.c) && HeadKnown(w.c) && Enabled(cfg, w, e)
    ensures Pipeline.Inv(cfg, Step(cfg, w, e).c)
  {
    StepClient(cfg, w, e);
    hide Pipeline.Inv, Step, Adopt, Submit, CancelTask, FinishTask, Flush, Drain, CancelSettled, PendingTimer,
      SocketDown, Reestablished, GiveUp, End;
    match e {
      case Abort(id) => Pipeline.CancelTaskInv(cfg, w.c, id);
      case Query(t) => Pipeline.SubmitInv(cfg, w.c, t);
      case Answer(tx) => Pipeline.FinishTaskInv(cfg, w.c, w.results[w.c.ended], tx);
      case Microtask => Pipeline.FlushInv(cfg, w.c);
      case Writable(room) => Pipeline.DrainInv(cfg, w.c, room);
      case CancelClosed(id) => Pipeline.CancelSettledInv(cfg, w.c, id, true);
      case CancelFailed(id) => Pipeline.CancelSettledInv(cfg, w.c, id, false);
      case CancelTimer(id) => Pipeline.CancelSettledInv(cfg, w.c, id, true);
      case Lost => Pipeline.SocketDownInv(cfg, w.c);
      case Abandon => Pipeline.GiveUpInv(cfg, w.c);
      case Close => Pipeline.EndInv(cfg, w.c);
      case Connected(room) => Pipeline.DrainInv(cfg, w.c, room);
      case _ =>
    }
  }

  /** Over every possible run, doubtful aborts included: the in-flight list is the dispatch order minus
      the cycles that ended, the bytes are those of the dispatched tasks in that order, the depth holds,
      a stream is alone, and every accepted task is queued, in flight or settled. */
  lemma {:induction false} AnyRunKeepsPipeline(cfg: Config, events: seq<Event>)
    requires Possible(cfg, events)
    ensures Pipeline.Inv(cfg, Run(cfg, events).c) && HeadKnown(Run(cfg, events).c)
  {
    if events == [] {
    } else {
      var before := events[..|events| - 1];
      assert forall n :: 0 <= n < |before| ==> before[..n] == events[..n];
      AnyRunKeepsPipeline(cfg, before);
      StepKeepsPipeline(cfg, Run(cfg, before), events[|events| - 1]);
      StepKeepsHead(cfg, Run(cfg, before), events[|events| - 1]);
    }
  }

  /** Every possible run of client, backend and cancel connection in which no doubtful abort happens
      keeps the invariant. */
  lemma {:induction false} RunKeepsInv(cfg: Config, events: seq<Event>)
    requires Possible(cfg, events) && Harmless(cfg, events)
    ensures Inv(cfg, Run(cfg, events))
  {
    if events == [] {
    } else {
      var before := events[..|events| - 1];
      assert forall n :: 0 <= n < |before| ==> before[..n] == events[..n];
      RunKeepsInv(cfg, before);
      StepKeepsCore(cfg, Run(cfg, before), events[|events| - 1]);
      AnyRunKeepsPipeline(cfg, events);
    }
  }

  /** The protocol's promise, over every possible run: a cancel request stops no task that was
      dispatched after the request was issued, and while a request is on its way nothing is dispatched. */
  lemma RunIsSafe(cfg: Config, events: seq<Event>)
    requires Possible(cfg, events) && Harmless(cfg, events)
    ensures Safe(Run(cfg, events))
    ensures Run(cfg, events).c.pending.None? ==> Run(cfg, events).signals == map[]
  {
    RunKeepsInv(cfg, events);
  }

  /** The client can see every harmful abort coming. */
  lemma HarmfulIsDoubtful(cfg: Config, w: World, e: Event)
    requires Inv(cfg, w) && Harmful(cfg, w, e)
    ensures Doubtful(cfg, w.c, e)
  {
    var i: nat :| i < |w.c.inflight| && Unread(w, i) && w.c.inflight[i].id !in w.c.cancelled;
    assert Telling(w, i);
  }

  /** So a caller that makes no doubtful abort is safe. */
  lemma {:induction false} CarefulIsHarmless(cfg: Config, events: seq<Event>)
    requires Possible(cfg, events) && Careful(cfg, events)
    ensures Harmless(cfg, events)
  {
    hide Inv, Harmful, Doubtful, Enabled, Run;
    if events != [] {
      var before := events[..|events| - 1];
      assert forall n :: 0 <= n < |before| ==> before[..n] == events[..n] && before[n] == events[n];
      CarefulIsHarmless(cfg, before);
      RunKeepsInv(cfg, before);
      LastIsHarmless(cfg, Run(cfg, before), events[|events| - 1]);
      hide Careful, Possible;
      forall n | 0 <= n < |events| ensures !Harmful(cfg, Run(cfg, events[..n]), events[n]) {
        if n < |before| { assert !Harmful(cfg, Run(cfg, before[..n]), before[n]); }
      }
    }
  }

  lemma LastIsHarmless(cfg: Config, w: World, e: Event)
    requires Inv(cfg, w) && !Doubtful(cfg, w.c, e)
    ensures !Harmful(cfg, w, e)
  {
    hide Inv, Harmful, Doubtful;
    if Harmful(cfg, w, e) { HarmfulIsDoubtful(cfg, w, e); }
  }

  /** A request that is issued while none is pending keeps the bookkeeping right exactly if it is harmless. */
  lemma IssueKeepsCoreIff(cfg: Config, w: World, e: Event)
    requires Inv(cfg, w) && Issues(cfg, w.c, e)
    ensures Core(cfg, Step(cfg, w, e)) <==> !Harmful(cfg, w, e)
  {
    if Harmful(cfg, w, e) {
      HarmBreaksCore(cfg, w, e);
    } else {
      HeadAccepted(cfg, w);
      hide Core, Pipeline.Inv, Harmful, Step;
      CoreAbort(cfg, w, e.id);
    }
  }

  lemma HarmBreaksCore(cfg: Config, w: World, e: Event)
    requires Inv(cfg, w) && Harmful(cfg, w, e)
    ensures !Core(cfg, Step(cfg, w, e))
  {
    var i: nat :| i < |w.c.inflight| && Unread(w, i) && w.c.inflight[i].id !in w.c.cancelled;
    if i > 0 { OthersKeepIds(cfg, w.c, i); }
    IssuedWorld(cfg, w, e);
    var w' := w.(signals := w.signals[w.c.cancels := |w.c.log|],
                 c := w.c.(cancelled := w.c.cancelled + {e.id}, settled := w.c.settled + {e.id}, cancels := w.c.cancels + 1,
                           pending := Some(Pending(w.c.cancels, Some(e.id), false, false))));
    assert !w.overlapped;
    hide Step, Pipeline.Inv, Inv, Harmful, Linked, Tracked, SuspectsFirst, Covered, Single, Safe, Ids;
    assert w.c.cancels in w'.signals;
    StillTelling(w, w', e.id, i);
  }

  lemma StillTelling(w: World, w': World, id: nat, i: nat)
    requires i < |w.c.inflight| && Unread(w, i) && w.c.inflight[i].id !in w.c.cancelled && (i > 0 ==> w.c.inflight[i].id != id)
    requires w'.c.cancelled == w.c.cancelled + {id} && w'.c.inflight == w.c.inflight && w'.c.ended == w.c.ended
    requires w'.results == w.results && w'.hit == w.hit && w'.signals != map[]
    requires w'.c.pending.Some? && w'.c.pending.value.head.Some?
    ensures !Single(w')
  {
    assert Unread(w', i);
    assert Telling(w', i);
  }

  lemma HeadAccepted(cfg: Config, w: World)
    requires Inv(cfg, w) && w.c.inflight != []
    ensures w.c.inflight[0].id in w.c.accepted && w.c.phase.Ready?
  {
    assert w.c.inflight[0].id in Ids(w.c.inflight);
  }

  lemma OthersKeepIds(cfg: Config, c: Client, i: nat)
    requires Pipeline.Inv(cfg, c) && 0 < i < |c.inflight|
    ensures c.inflight[i].id != c.inflight[0].id
  {
    assert (c.inflight + c.queue)[i] == c.inflight[i] && (c.inflight + c.queue)[0] == c.inflight[0];
  }

  lemma IssuedWorld(cfg: Config, w: World, e: Event)
    requires Inv(cfg, w) && Issues(cfg, w.c, e)
    ensures Step(cfg, w, e) == w.(signals := w.signals[w.c.cancels := |w.c.log|],
                                  c := w.c.(cancelled := w.c.cancelled + {e.id}, settled := w.c.settled + {e.id}, cancels := w.c.cancels + 1,
                                            pending := Some(Pending(w.c.cancels, Some(e.id), false, false))))
  {
    HeadAccepted(cfg, w);
    assert w.c.inflight[0] in w.c.inflight;
  }

  ghost predicate OverOrRetiring(c: Client, r: Client)
  {
    !r.phase.Ready? || (r.isRetiring && r.log == c.log)
  }

  lemma ProcessRetiring(cfg: Config, c: Client)
    requires c.isRetiring
    ensures OverOrRetiring(c, ProcessQueue(cfg, c))
  {
  }

  lemma LeaveRetiring(cfg: Config, c: Client, t: Task, o: Outcome)
    requires c.isRetiring
    ensures LeaveHead(cfg, c, t, o).isRetiring && LeaveHead(cfg, c, t, o).log == c.log
  {
    hide ProcessQueue;
  }

  lemma FinishRetiring(cfg: Config, c: Client, o: Outcome, tx: bool)
    requires c.isRetiring && c.phase.Ready? && c.inflight != []
    ensures OverOrRetiring(c, FinishTask(cfg, c, o, tx))
  {
    var t := c.inflight[0];
    LeaveRetiring(cfg, WithoutHead(c, tx), t, o);
    var c1 := LeaveHead(cfg, WithoutHead(c, tx), t, o);
    hide LeaveHead, FinishTask, ProcessQueue;
    ProcessRetiring(cfg, GoesOn(c1, t, o));
  }

  lemma InputRetiring(cfg: Config, c: Client, t: Task, id: nat, room: nat)
    requires c.isRetiring && c.phase.Ready?
    ensures OverOrRetiring(c, Submit(cfg, c, t)) && OverOrRetiring(c, CancelTask(cfg, c, id))
    ensures OverOrRetiring(c, Flush(c)) && OverOrRetiring(c, Drain(cfg, c, room))
    ensures OverOrRetiring(c, SocketDown(cfg, c)) && OverOrRetiring(c, End(c))
    ensures OverOrRetiring(c, GiveUp(c)) && OverOrRetiring(c, Reestablished(cfg, c, room))
  {
    hide ProcessQueue;
    ProcessRetiring(cfg, c.(accepted := c.accepted + {t.id}, queue := c.queue + [t]));
    ProcessRetiring(cfg, c.(room := room, backedUp := false));
  }

  lemma CancelRetiring(cfg: Config, c: Client, id: nat, ok: bool)
    requires c.isRetiring && c.phase.Ready?
    ensures OverOrRetiring(c, CancelSettled(cfg, c, id, ok)) && OverOrRetiring(c, PendingTimer(cfg, c, id))
  {
    ProcessRetiring(cfg, c);
    assert c.(isRetiring := true) == c;
    hide ProcessQueue;
  }

  /** A retiring connection dispatches nothing more: every step leaves its log alone or ends the session. */
  lemma RetiringIsFinal(cfg: Config, w: World, e: Event)
    requires Inv(cfg, w) && Enabled(cfg, w, e) && w.c.phase.Ready? && w.c.isRetiring
    ensures OverOrRetiring(w.c, Step(cfg, w, e).c)
  {
    if e.Answer? { SomethingInFlight(cfg, w); }
    StepClient(cfg, w, e);
    hide Core, Pipeline.Inv, Step, FinishTask, ProcessQueue, Submit, CancelTask, Flush, Drain, SocketDown, End, GiveUp,
      Reestablished, CancelSettled, PendingTimer, OverOrRetiring;
    Unchanged(w.c);
    match e {
      case Answer(tx) => FinishRetiring(cfg, w.c, w.results[w.c.ended], tx);
      case Query(t) => InputRetiring(cfg, w.c, t, 0, 0);
      case Abort(id) => InputRetiring(cfg, w.c, Plain(0), id, 0);
      case Writable(room) => InputRetiring(cfg, w.c, Plain(0), 0, room);
      case Connected(room) => InputRetiring(cfg, w.c, Plain(0), 0, room);
      case CancelClosed(id) => CancelRetiring(cfg, w.c, id, true);
      case CancelFailed(id) => CancelRetiring(cfg, w.c, id, false);
      case CancelTimer(id) => CancelRetiring(cfg, w.c, id, false);
      case _ => InputRetiring(cfg, w.c, Plain(0), 0, 0);
    }
  }

  lemma Unchanged(c: Client)
    requires c.isRetiring
    ensures OverOrRetiring(c, c)
  {
  }

  /** Without overlapping cancels, a query that another query's cancel stopped is always reported as
      such, and nothing else is: the answer marks the head exactly when it was stopped unasked. */
  lemma LateCancelIsMarked(cfg: Config, w: World, tx: bool)
    requires Inv(cfg, w) && w.c.phase.Ready? && w.c.ended < |w.results| && !w.overlapped
    ensures w.c.inflight != []
    ensures var head := w.c.inflight[0].id;
            Step(cfg, w, Answer(tx)).c.marked
            == w.c.marked + if w.results[w.c.ended].Stopped? && head !in w.c.cancelled then {head} else {}
  {
    HeadIsLeft(cfg, w, tx);
    var t, o := w.c.inflight[0], w.results[w.c.ended];
    var rest := WithoutHead(w.c, tx);
    LeftFacts(w, rest);
    assert o.Stopped? && t.id !in w.c.cancelled ==> Suspected(w.c, t.id) by { assert Unread(w, 0) <==> o.Stopped?; assert o.Stopped? && t.id !in w.c.cancelled ==> Telling(w, 0); }
    StepClient(cfg, w, Answer(tx));
    MarkedByLeave(cfg, rest, t, o);
    hide Core, Pipeline.Inv, LeaveHead, ProcessQueue;
    ProcessKeepsMarked(cfg, GoesOn(LeaveHead(cfg, rest, t, o), t, o));
  }

  lemma ResolveKeepsMarked(cfg: Config, c: Client)
    requires c.pending.Some?
    ensures ResolveCanceledHead(cfg, c).marked == c.marked
  {
    hide ProcessQueue;
    ProcessKeepsMarked(cfg, c.(isRetiring := true));
    ProcessKeepsMarked(cfg, ClearPendingCancel(c));
  }

  lemma MarkedByLeave(cfg: Config, c: Client, t: Task, o: Outcome)
    ensures LeaveHead(cfg, c, t, o).marked
            == c.marked + if Suspected(c, t.id) && o.Stopped? && t.id !in c.cancelled then {t.id} else {}
  {
    hide ResolveCanceledHead;
    var c1 := if c.late.Some? && t.id in c.late.value.suspects then CheckLateCancel(c, t, o) else c;
    if c1.pending.Some? && c1.pending.value.head == Some(t.id) {
      ResolveKeepsMarked(cfg, HeadGone(c1, o));
    }
  }

  lemma ProcessKeepsMarked(cfg: Config, c: Client)
    ensures ProcessQueue(cfg, c).marked == c.marked
  {
    if c.phase.Ready? { DispatchGrows(cfg, c); }
  }

  // ---- the doubtful abort ----

  lemma RunExtends(cfg: Config, events: seq<Event>, e: Event)
    requires Possible(cfg, events) && Enabled(cfg, Run(cfg, events), e)
    ensures Possible(cfg, events + [e]) && Run(cfg, events + [e]) == Step(cfg, Run(cfg, events), e)
  {
    assert (events + [e])[..|events|] == events;
    forall n | 0 <= n < |events + [e]| ensures Enabled(cfg, Run(cfg, (events + [e])[..n]), (events + [e])[n]) {
      if n < |events| { assert (events + [e])[..n] == events[..n]; }
    }
  }

  const THREE_DEEP := Config(3, false, false, false, true)

  /** A task whose bytes do not matter. */
  function Plain(id: nat): Task
  {
    Task(id, false, false, Serialized([]))
  }

  function Sketch(inflight: seq<Task>, pending: Option<Pending>, late: Option<Late>, accepted: set<nat>, cancelled: set<nat>,
                  settled: set<nat>, cancels: nat, log: seq<Task>, ended: nat): Client
  {
    Client(Ready, [], inflight, [], false, 0, pending, false, late, false, accepted, cancelled, {}, settled, {}, cancels, log, ended, [])
  }

  lemma SketchDispatches(c: Client, t: Task)
    requires c.phase.Ready? && !c.isRetiring && c.pending.None? && c.queue == [] && c.outbuf == [] && !c.backedUp
    requires t == Plain(t.id) && |c.inflight| < 3 && (c.inflight != [] ==> !c.inflight[0].stream)
    ensures Submit(THREE_DEEP, c, t)
            == c.(accepted := c.accepted + {t.id}, inflight := c.inflight + [t], log := c.log + [t])
  {
    var c1 := c.(accepted := c.accepted + {t.id}, queue := [t]);
    assert c.queue + [t] == [t];
    assert [t][1..] == [];
    var c2 := c1.(queue := [], inflight := c.inflight + [t], log := c.log + [t]);
    assert c1.outbuf + t.payload.bytes == [];
    assert DispatchOne(c1) == c2;
    assert MayDispatch(THREE_DEEP, c1);
    assert DispatchAll(THREE_DEEP, c2) == c2;
    assert ProcessQueue(THREE_DEEP, c1) == c2;
  }

  lemma SketchIdles(c: Client)
    requires c.phase.Ready? && c.queue == [] && c.outbuf == [] && !c.isRetiring
    ensures ProcessQueue(THREE_DEEP, c) == c
  {
  }

  lemma RunExtendsTwice(cfg: Config, events: seq<Event>, e: Event, f: Event)
    requires Possible(cfg, events) && Enabled(cfg, Run(cfg, events), e)
    requires Enabled(cfg, Step(cfg, Run(cfg, events), e), f)
    ensures Possible(cfg, events + [e, f])
    ensures Run(cfg, events + [e, f]) == Step(cfg, Step(cfg, Run(cfg, events), e), f)
  {
    hide Step, Enabled, Possible;
    RunExtends(cfg, events, e);
    RunExtends(cfg, events + [e], f);
    assert events + [e, f] == events + [e] + [f];
  }

  lemma {:induction false} PlainBytes(log: seq<Task>)
    requires forall t :: t in log ==> t == Plain(t.id)
    ensures LogBytes(log) == []
  {
    if log != [] {
      assert log[|log| - 1] in log;
      PlainBytes(log[..|log| - 1]);
    }
  }

  lemma PlainIsSent(c: Client, k: nat)
    requires k < |c.log| && forall t :: t in c.log ==> t == Plain(t.id)
    ensures Sent(c, k)
  {
    PlainBytes(c.log[..k + 1]);
  }

  const P1 := Plain(1)
  const P2 := Plain(2)
  const P3 := Plain(3)

  function Quiet(c: Client, results: seq<Outcome>, running: bool, signals: map<nat, nat>, stops: map<nat, nat>): World
  {
    World(c, results, running, false, signals, stops, false)
  }

  const TWO := Sketch([P1, P2], None, None, {1, 2}, {}, {}, 0, [P1, P2], 0)
  const ASKED := Sketch([P1, P2], Some(Pending(0, Some(1), false, false)), None, {1, 2}, {1}, {1}, 1, [P1, P2], 0)
  const CLEAR := Sketch([P2], None, Some(Late(0, {2})), {1, 2}, {1}, {1}, 1, [P1, P2], 1)
  const EMPTY := Sketch([], None, None, {1, 2}, {1, 2}, {1, 2}, 2, [P1, P2], 2)
  const THREE := Sketch([P3], None, None, {1, 2, 3}, {1, 2}, {1, 2}, 2, [P1, P2, P3], 2)

  /** Two steps, both possible, lead from `w` to `w'`. */
  ghost predicate Leads(w: World, e: Event, f: Event, w': World)
  {
    && Enabled(THREE_DEEP, w, e) && Enabled(THREE_DEEP, Step(THREE_DEEP, w, e), f)
    && Step(THREE_DEEP, Step(THREE_DEEP, w, e), f) == w'
  }

  lemma TwoQueries()
    ensures Leads(Start(), Query(P1), Query(P2), Quiet(TWO, [], false, map[], map[]))
  {
    var one := Sketch([P1], None, None, {1}, {}, {}, 0, [P1], 0);
    SketchDispatches(Initial(), P1);
    SketchDispatches(one, P2);
    assert Submit(THREE_DEEP, Initial(), P1) == one;
    assert [P1] + [P2] == [P1, P2] && {1} + {2} == {1, 2};
    assert Submit(THREE_DEEP, one, P2) == TWO;
  }

  lemma FirstCancel()
    ensures Leads(Quiet(TWO, [], false, map[], map[]), BackendStarts, Abort(1), Quiet(ASKED, [], true, map[0 := 2], map[]))
  {
    PlainIsSent(TWO, 0);
    assert P1 in TWO.inflight;
    assert CancelTask(THREE_DEEP, TWO, 1) == ASKED;
    assert map[][0 := 2] == map[0 := 2];
  }

  lemma FirstEndsAlone()
    ensures Leads(Quiet(ASKED, [], true, map[0 := 2], map[]), BackendEnds(Done), BackendStarts,
                  Quiet(ASKED, [Done], true, map[0 := 2], map[]))
  {
    PlainIsSent(ASKED, 1);
  }

  lemma SecondIsStopped()
    ensures Leads(Quiet(ASKED, [Done], true, map[0 := 2], map[]), Arrives(0, true), BackendEnds(Stopped),
                  Quiet(ASKED, [Done, Stopped], false, map[], map[1 := 2]))
  {
    assert map[0 := 2] - {0} == map[] && map[][1 := 2] == map[1 := 2];
  }

  lemma Settles()
    ensures Leads(Quiet(ASKED, [Done, Stopped], false, map[], map[1 := 2]), Answer(false), CancelClosed(0),
                  Quiet(CLEAR, [Done, Stopped], false, map[], map[1 := 2]))
  {
    var late := CLEAR.(pending := Some(Pending(0, None, false, false)));
    var rest := WithoutHead(ASKED, false);
    assert rest.inflight == [P2];
    assert Ids([P2]) == {2} by { assert P2 in [P2]; }
    assert LeaveHead(THREE_DEEP, rest, P1, Done) == late;
    assert GoesOn(late, P1, Done) == late;
    SketchIdles(late);
    SketchIdles(CLEAR);
  }

  lemma SecondCancel()
    ensures Leads(Quiet(CLEAR, [Done, Stopped], false, map[], map[1 := 2]), Abort(2), Answer(false),
                  Quiet(EMPTY, [Done, Stopped], false, map[1 := 2], map[1 := 2]))
    ensures Doubtful(THREE_DEEP, CLEAR, Abort(2)) && Harmful(THREE_DEEP, Quiet(CLEAR, [Done, Stopped], false, map[], map[1 := 2]), Abort(2))
  {
    assert Unread(Quiet(CLEAR, [Done, Stopped], false, map[], map[1 := 2]), 0);
    var asked := Sketch([P2], Some(Pending(1, Some(2), false, false)), Some(Late(0, {2})), {1, 2}, {1, 2}, {1, 2}, 2, [P1, P2], 1);
    assert P2 in CLEAR.inflight;
    assert {1} + {2} == {1, 2};
    assert CancelTask(THREE_DEEP, CLEAR, 2) == asked;
    assert map[][1 := 2] == map[1 := 2];
    var rest := WithoutHead(asked, false);
    assert rest.inflight == [];
    assert CheckLateCancel(rest, P2, Stopped) == rest.(late := None);
    assert LeaveHead(THREE_DEEP, rest, P2, Stopped) == EMPTY;
    assert GoesOn(EMPTY, P2, Stopped) == EMPTY;
    SketchIdles(EMPTY);
  }

  lemma ThirdQuery()
    ensures Leads(Quiet(EMPTY, [Done, Stopped], false, map[1 := 2], map[1 := 2]), Query(P3), BackendStarts,
                  Quiet(THREE, [Done, Stopped], true, map[1 := 2], map[1 := 2]))
  {
    SketchDispatches(EMPTY, P3);
    assert [] + [P3] == [P3] && [P1, P2] + [P3] == [P1, P2, P3] && {1, 2} + {3} == {1, 2, 3};
    assert Submit(THREE_DEEP, EMPTY, P3) == THREE;
    PlainIsSent(THREE, 2);
  }

  lemma Follow(events: seq<Event>, e: Event, f: Event, w: World)
    requires Possible(THREE_DEEP, events) && Leads(Run(THREE_DEEP, events), e, f, w)
    ensures Possible(THREE_DEEP, events + [e, f]) && Run(THREE_DEEP, events + [e, f]) == w
  {
    RunExtendsTwice(THREE_DEEP, events, e, f);
  }

  lemma ReachClear() returns (events: seq<Event>)
    ensures Possible(THREE_DEEP, events)
    ensures Run(THREE_DEEP, events) == Quiet(CLEAR, [Done, Stopped], false, map[], map[1 := 2])
  {
    TwoQueries();
    FirstCancel();
    FirstEndsAlone();
    SecondIsStopped();
    Settles();
    hide Leads, Step, Enabled, Quiet;
    events := [];
    Follow(events, Query(P1), Query(P2), Quiet(TWO, [], false, map[], map[]));
    events := events + [Query(P1), Query(P2)];
    Follow(events, BackendStarts, Abort(1), Quiet(ASKED, [], true, map[0 := 2], map[]));
    events := events + [BackendStarts, Abort(1)];
    Follow(events, BackendEnds(Done), BackendStarts, Quiet(ASKED, [Done], true, map[0 := 2], map[]));
    events := events + [BackendEnds(Done), BackendStarts];
    Follow(events, Arrives(0, true), BackendEnds(Stopped), Quiet(ASKED, [Done, Stopped], false, map[], map[1 := 2]));
    events := events + [Arrives(0, true), BackendEnds(Stopped)];
    Follow(events, Answer(false), CancelClosed(0), Quiet(CLEAR, [Done, Stopped], false, map[], map[1 := 2]));
    events := events + [Answer(false), CancelClosed(0)];
  }

  /** How the caller's abort of query 2 goes on. */
  function Trouble(before: seq<Event>): seq<Event>
  {
    before + [Abort(2), Answer(false)] + [Query(P3), BackendStarts] + [Arrives(1, true)]
  }

  lemma ThirdIsStopped(events: seq<Event>)
    requires Possible(THREE_DEEP, events)
    requires Run(THREE_DEEP, events) == Quiet(CLEAR, [Done, Stopped], false, map[], map[1 := 2])
    ensures Possible(THREE_DEEP, Trouble(events))
    ensures Run(THREE_DEEP, Trouble(events)) == Quiet(THREE, [Done, Stopped], true, map[], map[1 := 2, 2 := 2]).(hit := true)
  {
    SecondCancel();
    ThirdQuery();
    Follow(events, Abort(2), Answer(false), Quiet(EMPTY, [Done, Stopped], false, map[1 := 2], map[1 := 2]));
    var a := events + [Abort(2), Answer(false)];
    Follow(a, Query(P3), BackendStarts, Quiet(THREE, [Done, Stopped], true, map[1 := 2], map[1 := 2]));
    var b := a + [Query(P3), BackendStarts];
    RunExtends(THREE_DEEP, b, Arrives(1, true));
    assert map[1 := 2][2 := 2] == map[1 := 2, 2 := 2] && map[1 := 2] - {1} == map[];
  }

  /** Without the exception the promise is false. Query 1 is canceled but ends on its own, and its
      request stops query 2; the cancel connection closes, and before that stop is read the caller
      aborts query 2. The answer 57014 is taken for the second request's, dispatch resumes, and the
      second request stops query 3, which was dispatched after it. */
  lemma DoubtfulAbortIsUnsafe() returns (before: seq<Event>)
    ensures Doubtful(THREE_DEEP, Run(THREE_DEEP, before).c, Abort(2)) && Harmful(THREE_DEEP, Run(THREE_DEEP, before), Abort(2)) && Trouble(before)[|before|] == Abort(2)
    ensures Possible(THREE_DEEP, Trouble(before))
    ensures !Safe(Run(THREE_DEEP, Trouble(before)))
  {
    before := ReachClear();
    SecondCancel();
    hide Run, Possible, Leads;
    ThirdIsStopped(before);
    assert Run(THREE_DEEP, Trouble(before)).stops[2] == 2;
  }
}
