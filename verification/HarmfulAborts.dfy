/** From every harmful abort the backend and the network can go on so that the new request stops a task that
    was dispatched after it was issued. */
module HarmfulAborts {
  import opened Bytes
  import opened Scheduler
  import opened CancelProtocol
  import Pipeline

  // ---- going on from a world ----

  function Steps(cfg: Config, w: World, events: seq<Event>): World
    decreases |events|
  {
    if events == [] then w else Steps(cfg, Step(cfg, w, events[0]), events[1..])
  }

  ghost predicate PossibleFrom(cfg: Config, w: World, events: seq<Event>)
    decreases |events|
  {
    events != [] ==> Enabled(cfg, w, events[0]) && PossibleFrom(cfg, Step(cfg, w, events[0]), events[1..])
  }

  predicate NoAborts(events: seq<Event>)
  {
    forall e :: e in events ==> !e.Abort?
  }

  /** A request has stopped a task that was dispatched after it was issued. */
  ghost predicate Hurt(w: World)
  {
    exists k :: k in w.stops && w.stops[k] <= k
  }

  /** `events` lead from `w` to harm, without a further abort. */
  ghost predicate LeadsToHarm(cfg: Config, w: World, events: seq<Event>)
  {
    PossibleFrom(cfg, w, events) && NoAborts(events) && Hurt(Steps(cfg, w, events))
  }

  lemma First(cfg: Config, w: World, e: Event, more: seq<Event>)
    requires Enabled(cfg, w, e) && !e.Abort? && LeadsToHarm(cfg, Step(cfg, w, e), more)
    ensures LeadsToHarm(cfg, w, [e] + more)
  {
    assert ([e] + more)[1..] == more;
  }

  lemma {:induction false} RunGoesOn(cfg: Config, events: seq<Event>, more: seq<Event>)
    requires Possible(cfg, events) && PossibleFrom(cfg, Run(cfg, events), more)
    ensures Possible(cfg, events + more) && Run(cfg, events + more) == Steps(cfg, Run(cfg, events), more)
    decreases |more|
  {
    hide Possible, Enabled, Step, Run;
    if more == [] {
      assert events + more == events;
    } else {
      RunExtends(cfg, events, more[0]);
      assert events + [more[0]] + more[1..] == events + more;
      RunGoesOn(cfg, events + [more[0]], more[1..]);
    }
  }

  // ---- request `n` is on its way ----

  /** Request `n` was issued with `l` tasks dispatched and is on its way; the backend has not come past them. */
  ghost predicate Alive(cfg: Config, w: World, n: nat, l: nat)
  {
    && Pipeline.Inv(cfg, w.c) && HeadKnown(w.c) && w.c.phase.Ready? && !w.c.isRetiring && 0 < cfg.depth
    && n in w.signals && w.signals[n] == l
    && w.c.ended <= |w.results| <= l <= |w.c.log| == w.c.ended + |w.c.inflight|
    && (w.running ==> |w.results| < l) && (w.hit ==> w.running)
  }

  function Outcome(w: World): Scheduler.Outcome
  {
    if w.hit then Stopped else Done
  }

  function Finished(w: World): World
  {
    w.(results := w.results + [Outcome(w)], running := false, hit := false)
  }

  lemma BackendGoesOn(cfg: Config, w: World, n: nat, l: nat)
    requires Alive(cfg, w, n, l) && (|w.results| < l || w.running) && (w.running || w.c.outbuf == [])
    ensures w.running ==> Enabled(cfg, w, BackendEnds(Outcome(w))) && Step(cfg, w, BackendEnds(Outcome(w))) == Finished(w) && Alive(cfg, Finished(w), n, l)
    ensures !w.running ==> Enabled(cfg, w, BackendStarts) && Step(cfg, w, BackendStarts) == w.(running := true, hit := false)
                           && Alive(cfg, w.(running := true, hit := false), n, l)
  {
    assert w.c.sent + w.c.outbuf == LogBytes(w.c.log);
    hide Pipeline.Inv;
    if !w.running { PrefixBytes(w.c.log, |w.results| + 1); }
  }

  lemma {:induction false} PrefixBytes(log: seq<Task>, k: nat)
    requires k <= |log|
    ensures |LogBytes(log[..k])| <= |LogBytes(log)|
    decreases |log|
  {
    if k < |log| {
      PrefixBytes(log[..|log| - 1], k);
      assert log[..|log| - 1][..k] == log[..k];
    } else {
      assert log[..k] == log;
    }
  }

  /** Whatever the batch still holds is written. */
  lemma FlushFirst(cfg: Config, w: World, n: nat, l: nat)
    requires Alive(cfg, w, n, l)
    ensures Enabled(cfg, w, Microtask) && Step(cfg, w, Microtask) == w.(c := Flush(w.c)) && Alive(cfg, w.(c := Flush(w.c)), n, l)
    ensures Flush(w.c).outbuf == [] && Flush(w.c).inflight == w.c.inflight && Flush(w.c).log == w.c.log && Flush(w.c).pending == w.c.pending
  {
    AliveKept(cfg, w, Microtask);
    hide Pipeline.Inv;
  }

  lemma StartsNext(cfg: Config, w: World, n: nat, l: nat)
    requires Alive(cfg, w, n, l) && |w.results| < |w.c.log| && !w.running && w.c.outbuf == []
    ensures Enabled(cfg, w, BackendStarts) && Step(cfg, w, BackendStarts) == w.(running := true, hit := false)
  {
    assert w.c.sent + w.c.outbuf == LogBytes(w.c.log);
    hide Pipeline.Inv;
    PrefixBytes(w.c.log, |w.results| + 1);
  }

  lemma Arrival(cfg: Config, w: World, n: nat, l: nat)
    requires Alive(cfg, w, n, l) && |w.results| == l < |w.c.log| && !w.running && w.c.outbuf == []
    ensures LeadsToHarm(cfg, w, [BackendStarts, Arrives(n, true)])
  {
    StartsNext(cfg, w, n, l);
    var w1 := w.(running := true, hit := false);
    Lands(cfg, w1, n, l);
    hide Alive, Step, Enabled, LeadsToHarm;
    First(cfg, w, BackendStarts, [Arrives(n, true)]);
    assert [BackendStarts] + [Arrives(n, true)] == [BackendStarts, Arrives(n, true)];
  }

  /** The request finds the backend at a task that was dispatched after it was issued. */
  lemma Lands(cfg: Config, w: World, n: nat, l: nat)
    requires w.running && !w.hit && n in w.signals && w.signals[n] == l == |w.results| && w.c.phase.Ready?
    ensures LeadsToHarm(cfg, w, [Arrives(n, true)])
  {
    var w2 := Step(cfg, w, Arrives(n, true));
    assert l in w2.stops && w2.stops[l] == l;
    assert LeadsToHarm(cfg, w2, []);
    First(cfg, w, Arrives(n, true), []);
    assert [Arrives(n, true)] + [] == [Arrives(n, true)];
  }

  /** Something was dispatched after the request was issued: the backend comes to it and the request arrives. */
  lemma {:induction false} Strike(cfg: Config, w: World, n: nat, l: nat) returns (more: seq<Event>)
    requires Alive(cfg, w, n, l) && l < |w.c.log|
    ensures LeadsToHarm(cfg, w, more)
    decreases l - |w.results|, if w.running then 0 else 1, |w.c.outbuf|
  {
    if !w.running && w.c.outbuf != [] {
      FlushFirst(cfg, w, n, l);
      hide Alive, Step, Enabled, LeadsToHarm;
      more := Strike(cfg, w.(c := Flush(w.c)), n, l);
      First(cfg, w, Microtask, more);
      more := [Microtask] + more;
    } else if |w.results| == l {
      Arrival(cfg, w, n, l);
      more := [BackendStarts, Arrives(n, true)];
    } else {
      BackendGoesOn(cfg, w, n, l);
      hide Alive, Step, Enabled, LeadsToHarm;
      var e := if w.running then BackendEnds(Outcome(w)) else BackendStarts;
      more := Strike(cfg, Step(cfg, w, e), n, l);
      First(cfg, w, e, more);
      more := [e] + more;
    }
  }

  // ---- an answer is read ----

  /** The oldest cycle ends with neither retirement nor, beyond `p`, a change of what is pending. */
  ghost predicate Leaves(cfg: Config, w: World, p: Option<Pending>)
  {
    && w.c.inflight != [] && w.c.ended < |w.results|
    && var rest := WithoutHead(w.c, false);
       var c1 := LeaveHead(cfg, rest, w.c.inflight[0], w.results[w.c.ended]);
       c1 == rest.(pending := p, late := c1.late, marked := c1.marked)
  }

  lemma Answered(cfg: Config, w: World, n: nat, l: nat, p: Option<Pending>)
    requires Alive(cfg, w, n, l) && Leaves(cfg, w, p)
    ensures var w' := Step(cfg, w, Answer(false));
            && Enabled(cfg, w, Answer(false)) && Alive(cfg, w', n, l)
            && w' == w.(c := w'.c) && w'.c.pending == p && w'.c.ended == w.c.ended + 1 && w'.c.cancelled == w.c.cancelled
            && w'.c.late == LeaveHead(cfg, WithoutHead(w.c, false), w.c.inflight[0], w.results[w.c.ended]).late
            && w.c.inflight[1..] <= w'.c.inflight
            && (|w'.c.log| == |w.c.log| ==> |w'.c.inflight| == |w.c.inflight| - 1)
            && (p.Some? ==> |w'.c.log| == |w.c.log|)
  {
    AliveKept(cfg, w, Answer(false));
    var t, o := w.c.inflight[0], w.results[w.c.ended];
    var c2 := GoesOn(LeaveHead(cfg, WithoutHead(w.c, false), t, o), t, o);
    hide LeaveHead, ProcessQueue, Pipeline.Inv, HeadKnown, Ids, Step;
    assert w.c.phase.Ready? && !w.c.isRetiring && Enabled(cfg, w, Answer(false));
    hide Alive;
    AfterLeaving(cfg, w, p);
    hide Leaves, GoesOn, WithoutHead;
    ProcessGrows(cfg, c2);
    GrowsFacts(c2, ProcessQueue(cfg, c2));
    hide Grows, Enabled;
    AnswerStep(cfg, w, c2);
    hide ProcessQueue;
    StillAlive(cfg, w, Step(cfg, w, Answer(false)), n, l);
  }

  lemma StillAlive(cfg: Config, w: World, w': World, n: nat, l: nat)
    requires Alive(cfg, w, n, l) && Pipeline.Inv(cfg, w'.c) && HeadKnown(w'.c)
    requires w' == w.(c := w'.c) && w'.c.phase.Ready? && !w'.c.isRetiring && w'.c.ended == w.c.ended + 1 && w.c.ended < |w.results|
    requires |w'.c.log| - |w.c.log| == |w'.c.inflight| - (|w.c.inflight| - 1) >= 0
    ensures Alive(cfg, w', n, l)
  {
    hide Pipeline.Inv, HeadKnown;
  }

  lemma AfterLeaving(cfg: Config, w: World, p: Option<Pending>)
    requires Leaves(cfg, w, p)
    ensures var t, o := w.c.inflight[0], w.results[w.c.ended];
            var c1 := LeaveHead(cfg, WithoutHead(w.c, false), t, o);
            var c2 := GoesOn(c1, t, o);
            && c2.phase == w.c.phase && c2.isRetiring == w.c.isRetiring && c2.cancels == w.c.cancels && c2.pending == p && c2.inflight == w.c.inflight[1..]
            && c2.log == w.c.log && c2.ended == w.c.ended + 1 && c2.cancelled == w.c.cancelled && c2.late == c1.late
  {
    hide LeaveHead, Retries;
  }

  lemma AnswerStep(cfg: Config, w: World, c2: Client)
    requires w.c.inflight != [] && w.c.ended < |w.results| && w.c.phase.Ready?
    requires c2 == GoesOn(LeaveHead(cfg, WithoutHead(w.c, false), w.c.inflight[0], w.results[w.c.ended]), w.c.inflight[0], w.results[w.c.ended])
    requires ProcessQueue(cfg, c2).phase.Ready? && ProcessQueue(cfg, c2).cancels == w.c.cancels
    ensures Step(cfg, w, Answer(false)) == w.(c := ProcessQueue(cfg, c2))
  {
    hide LeaveHead, ProcessQueue, GoesOn;
  }

  lemma AliveKept(cfg: Config, w: World, e: Event)
    requires Pipeline.Inv(cfg, w.c) && HeadKnown(w.c) && Enabled(cfg, w, e)
    ensures Pipeline.Inv(cfg, Step(cfg, w, e).c) && HeadKnown(Step(cfg, w, e).c)
  {
    StepKeepsPipeline(cfg, w, e);
    StepKeepsHead(cfg, w, e);
  }

  // ---- dispatch resumed ----

  lemma {:induction false} Bound(s: set<nat>) returns (x: nat)
    ensures forall y :: y in s ==> y < x
    decreases |s|
  {
    if s == {} {
      x := 0;
    } else {
      var y :| y in s;
      x := Bound(s - {y});
      assert forall z :: z in s ==> z == y || z in s - {y};
      x := if y < x then x else y + 1;
    }
  }

  ghost predicate Waiting(c: Client)
  {
    exists t :: t in c.queue && t.payload.Serialized?
  }

  /** With nothing in flight, a task that serializes is dispatched unless the socket is full. */
  lemma {:induction false} DispatchReaches(cfg: Config, c: Client)
    requires c.phase.Ready? && c.pending.None? && c.inflight == [] && 0 < cfg.depth && Waiting(c)
    ensures var r := DispatchAll(cfg, c);
            && (|r.log| == |c.log| ==> r.backedUp && Waiting(r))
            && (!c.backedUp && |c.queue| <= c.room ==> |r.log| > |c.log|)
    decreases |c.queue|
  {
    if MayDispatch(cfg, c) {
      var t := c.queue[0];
      var c1 := DispatchOne(c);
      assert c.queue == [t] + c.queue[1..];
      if t.payload.Serialized? {
        DispatchGrows(cfg, c1);
      } else {
        assert c1.queue == c.queue[1..] && c1.log == c.log && c1.inflight == [];
        assert Waiting(c1);
        DispatchReaches(cfg, c1);
      }
    }
  }

  lemma Refill(cfg: Config, c: Client)
    requires c.phase.Ready? && c.pending.None? && c.inflight == [] && 0 < cfg.depth && Waiting(c) && !c.isRetiring
    ensures var r := ProcessQueue(cfg, c);
            && Grows(c, r) && (|r.log| == |c.log| ==> r.backedUp && Waiting(r) && r.inflight == [])
            && (!c.backedUp && |c.queue| <= c.room ==> |r.log| > |c.log|)
  {
    ProcessGrows(cfg, c);
    DispatchReaches(cfg, c);
  }

  /** Nothing is in flight: the caller queries, and the socket drains. */
  lemma Refills(cfg: Config, w: World, n: nat, l: nat) returns (more: seq<Event>)
    requires Alive(cfg, w, n, l) && w.c.pending.None? && w.c.inflight == [] && |w.c.log| == l
    ensures LeadsToHarm(cfg, w, more)
  {
    var x := Bound(w.c.accepted);
    var w1 := Queried(cfg, w, n, l, x);
    if |w1.c.log| > l {
      more := Strike(cfg, w1, n, l);
    } else {
      var e := Writable(|w1.c.queue|);
      var w2 := Drained(cfg, w1, n, l);
      more := Strike(cfg, w2, n, l);
      First(cfg, w1, e, more);
      more := [e] + more;
    }
    First(cfg, w, Query(Plain(x)), more);
    more := [Query(Plain(x))] + more;
  }

  lemma Queried(cfg: Config, w: World, n: nat, l: nat, x: nat) returns (w1: World)
    requires Alive(cfg, w, n, l) && w.c.pending.None? && w.c.inflight == [] && |w.c.log| == l && x !in w.c.accepted
    ensures Enabled(cfg, w, Query(Plain(x))) && w1 == Step(cfg, w, Query(Plain(x))) && Alive(cfg, w1, n, l) && w1.c.pending.None?
    ensures |w1.c.log| == l ==> w1.c.inflight == [] && w1.c.backedUp && Waiting(w1.c)
  {
    var e := Query(Plain(x));
    w1 := Step(cfg, w, e);
    AliveKept(cfg, w, e);
    hide Pipeline.Inv, HeadKnown, ProcessQueue, Ids, Grows;
    var c1 := w.c.(accepted := w.c.accepted + {x}, queue := w.c.queue + [Plain(x)]);
    assert c1.queue[|w.c.queue|] == Plain(x);
    assert Waiting(c1);
    Refill(cfg, c1);
    GrowsFacts(c1, ProcessQueue(cfg, c1));
  }

  lemma Drained(cfg: Config, w: World, n: nat, l: nat) returns (w1: World)
    requires Alive(cfg, w, n, l) && w.c.pending.None? && w.c.inflight == [] && |w.c.log| == l && w.c.backedUp && Waiting(w.c)
    ensures var e := Writable(|w.c.queue|); Enabled(cfg, w, e) && w1 == Step(cfg, w, e) && Alive(cfg, w1, n, l) && |w1.c.log| > l
  {
    var e := Writable(|w.c.queue|);
    w1 := Step(cfg, w, e);
    AliveKept(cfg, w, e);
    hide Pipeline.Inv, HeadKnown, ProcessQueue, Ids, Grows;
    var c1 := w.c.(room := |w.c.queue|, backedUp := false);
    assert Waiting(c1);
    Refill(cfg, c1);
    GrowsFacts(c1, ProcessQueue(cfg, c1));
  }

  lemma GrowsFacts(c: Client, r: Client)
    requires Grows(c, r)
    ensures r.phase.Ready? && r.pending == c.pending && r.isRetiring == c.isRetiring && r.cancels == c.cancels && r.ended == c.ended
    ensures r.late == c.late && r.cancelled == c.cancelled && c.inflight <= r.inflight && (c.pending.Some? ==> r.log == c.log)
    ensures |c.log| <= |r.log| && |r.log| - |c.log| == |r.inflight| - |c.inflight|
  {
  }

  /** The request is on its way and the client does not know: it reads on, and dispatches. */
  lemma {:induction false} Resume(cfg: Config, w: World, n: nat, l: nat) returns (more: seq<Event>)
    requires Alive(cfg, w, n, l) && w.c.pending.None?
    ensures LeadsToHarm(cfg, w, more)
    decreases |w.c.inflight|, l - |w.results|, if w.running then 0 else 1, |w.c.outbuf|
  {
    if !w.running && w.c.outbuf != [] {
      FlushFirst(cfg, w, n, l);
      hide Alive, Step, Enabled, LeadsToHarm;
      more := Resume(cfg, w.(c := Flush(w.c)), n, l);
      First(cfg, w, Microtask, more);
      more := [Microtask] + more;
    } else if |w.c.log| > l {
      more := Strike(cfg, w, n, l);
    } else if w.c.inflight == [] {
      more := Refills(cfg, w, n, l);
    } else {
      var e: Event;
      if w.c.ended == |w.results| {
        BackendGoesOn(cfg, w, n, l);
        e := if w.running then BackendEnds(Outcome(w)) else BackendStarts;
      } else {
        PlainLeaves(cfg, w);
        Answered(cfg, w, n, l, None);
        e := Answer(false);
      }
      var w1 := Step(cfg, w, e);
      hide Alive, Step, Enabled, LeadsToHarm, Leaves;
      if |w1.c.log| > l { more := Strike(cfg, w1, n, l); } else { more := Resume(cfg, w1, n, l); }
      First(cfg, w, e, more);
      more := [e] + more;
    }
  }

  lemma PlainLeaves(cfg: Config, w: World)
    requires w.c.pending.None? && w.c.inflight != [] && w.c.ended < |w.results|
    ensures Leaves(cfg, w, None)
  {
  }

  // ---- the stop is still to be read ----

  /** The stop of task `i` in flight is unread, request `n` is pending, and reading the stop clears it: as that
      of the canceled head, or as one that came late. */
  ghost predicate Misled(cfg: Config, w: World, n: nat, l: nat, i: nat)
  {
    && Alive(cfg, w, n, l) && i < |w.c.inflight| && Unread(w, i) && |w.c.log| == l
    && (forall j: nat :: j < i && Unread(w, j) ==> w.c.inflight[j].id in w.c.cancelled)
    && w.c.pending.Some?
    && var p := w.c.pending.value;
       && p.id == n && !p.isConfirmed && !p.hasFailed
       && (if p.head.Some? then p.head == Some(w.c.inflight[0].id) && (i > 0 ==> !Unread(w, 0))
           else w.c.late.Some? && w.c.late.value.id == n && w.c.inflight[i].id in w.c.late.value.suspects)
       && (i > 0 || p.head.None? ==> w.c.inflight[i].id !in w.c.cancelled)
  }

  /** The stop is read: the client takes its request for used up. */
  lemma StopMisleads(cfg: Config, w: World, n: nat, l: nat)
    requires Misled(cfg, w, n, l, 0) && w.c.ended < |w.results|
    ensures Leaves(cfg, w, None)
  {
    assert w.results[w.c.ended].Stopped?;
    hide ProcessQueue, Pipeline.Inv;
  }

  /** One in front of it ends on its own. */
  lemma OtherLeaves(cfg: Config, w: World, n: nat, l: nat, i: nat)
    requires Misled(cfg, w, n, l, i) && i > 0
    ensures w.c.ended < |w.results| && Leaves(cfg, w, Some(w.c.pending.value.(head := None)))
    ensures var c1 := LeaveHead(cfg, WithoutHead(w.c, false), w.c.inflight[0], w.results[w.c.ended]);
            c1.late.Some? && c1.late.value.id == n && w.c.inflight[i].id in c1.late.value.suspects
  {
    assert Unread(w, 0) ==> w.c.inflight[0].id in w.c.cancelled;
    OthersKeepIds(cfg, w.c, i);
    assert w.c.inflight[1..][i - 1] == w.c.inflight[i];
    assert w.c.inflight[i].id in Ids(w.c.inflight[1..]);
    assert w.c.ended < |w.results|;
    hide Alive, Ids, Unread, Misled;
    var t, o := w.c.inflight[0], w.results[w.c.ended];
    if w.c.pending.value.head.Some? { HeadMoves(cfg, WithoutHead(w.c, false), t, o); } else { BehindMoves(cfg, WithoutHead(w.c, false), t, o, w.c.inflight[i].id); }
  }

  /** The canceled head ends on its own: whoever follows comes under suspicion. */
  lemma HeadMoves(cfg: Config, rest: Client, t: Task, o: Scheduler.Outcome)
    requires !rest.isRetiring && rest.inflight != [] && !o.Stopped?
    requires rest.pending.Some? && rest.pending.value.head == Some(t.id) && !rest.pending.value.isConfirmed && !rest.pending.value.hasFailed
    ensures var c1 := LeaveHead(cfg, rest, t, o);
            c1 == rest.(pending := Some(rest.pending.value.(head := None)), late := Some(Late(rest.pending.value.id, Ids(rest.inflight))), marked := c1.marked)
  {
    hide ProcessQueue, Ids;
  }

  /** One behind it ends, on its own or by its caller's will: the others stay under suspicion. */
  lemma BehindMoves(cfg: Config, rest: Client, t: Task, o: Scheduler.Outcome, id: nat)
    requires rest.pending.Some? && rest.pending.value.head.None? && (o.Stopped? ==> t.id in rest.cancelled)
    requires rest.late.Some? && id in rest.late.value.suspects && id != t.id
    ensures var c1 := LeaveHead(cfg, rest, t, o);
            && c1 == rest.(late := c1.late, marked := c1.marked)
            && c1.late.Some? && c1.late.value.id == rest.late.value.id && id in c1.late.value.suspects
  {
    assert id in rest.late.value.suspects - {t.id};
  }

  lemma StillMisled(cfg: Config, w: World, n: nat, l: nat, i: nat)
    requires Misled(cfg, w, n, l, i) && i > 0
    ensures Enabled(cfg, w, Answer(false)) && Misled(cfg, Step(cfg, w, Answer(false)), n, l, i - 1)
  {
    OtherLeaves(cfg, w, n, l, i);
    hide LeaveHead, Leaves, Step, Enabled, Alive, Unread;
    var p := Some(w.c.pending.value.(head := None));
    Answered(cfg, w, n, l, p);
    Shifted(cfg, w, Step(cfg, w, Answer(false)), n, l, i);
  }

  lemma Shifted(cfg: Config, w: World, w': World, n: nat, l: nat, i: nat)
    requires Misled(cfg, w, n, l, i) && i > 0 && Alive(cfg, w', n, l)
    requires w' == w.(c := w'.c) && w'.c.ended == w.c.ended + 1 && w'.c.cancelled == w.c.cancelled && |w'.c.log| == l
    requires w'.c.pending == Some(w.c.pending.value.(head := None)) && w.c.inflight[1..] <= w'.c.inflight
    requires w'.c.late.Some? && w'.c.late.value.id == n && w.c.inflight[i].id in w'.c.late.value.suspects
    ensures Misled(cfg, w', n, l, i - 1)
  {
    hide Alive;
    assert w'.c.inflight[i - 1] == w.c.inflight[1..][i - 1] == w.c.inflight[i];
    assert forall j: nat :: Unread(w', j) <==> Unread(w, j + 1);
    hide Unread;
    forall j: nat | j < i - 1 && Unread(w', j) ensures w'.c.inflight[j].id in w'.c.cancelled {
      assert Unread(w, j + 1) && w'.c.inflight[j] == w.c.inflight[1..][j] == w.c.inflight[j + 1];
    }
  }

  /** The client reads up to the stop and resumes. */
  lemma {:induction false} Await(cfg: Config, w: World, n: nat, l: nat, i: nat) returns (more: seq<Event>)
    requires Misled(cfg, w, n, l, i)
    ensures LeadsToHarm(cfg, w, more)
    decreases i, l - |w.results|
  {
    if i > 0 {
      StillMisled(cfg, w, n, l, i);
      more := Await(cfg, Step(cfg, w, Answer(false)), n, l, i - 1);
      First(cfg, w, Answer(false), more);
      more := [Answer(false)] + more;
    } else if w.c.ended < |w.results| {
      StopMisleads(cfg, w, n, l);
      Answered(cfg, w, n, l, None);
      more := Resume(cfg, Step(cfg, w, Answer(false)), n, l);
      First(cfg, w, Answer(false), more);
      more := [Answer(false)] + more;
    } else {
      BackendGoesOn(cfg, w, n, l);
      var w1 := Finished(w);
      assert Misled(cfg, w1, n, l, 0) by { assert Unread(w1, 0); }
      more := Await(cfg, w1, n, l, 0);
      First(cfg, w, BackendEnds(Stopped), more);
      more := [BackendEnds(Stopped)] + more;
    }
  }

  // ---- exactly the harmful aborts ----

  lemma HarmMisleads(cfg: Config, w: World, e: Event) returns (i: nat)
    requires Inv(cfg, w) && HeadKnown(w.c) && Enabled(cfg, w, e) && Harmful(cfg, w, e)
    ensures Misled(cfg, Step(cfg, w, e), w.c.cancels, |w.c.log|, i)
  {
    i :| i < |w.c.inflight| && Unread(w, i) && w.c.inflight[i].id !in w.c.cancelled;
    assert Telling(w, i);
    HeadAccepted(cfg, w);
    if i > 0 { OthersKeepIds(cfg, w.c, i); }
    IssuedWorld(cfg, w, e);
    AliveKept(cfg, w, e);
    OnlyTelling(cfg, w, i);
    assert 0 < cfg.depth;
    hide Inv, Harmful, Enabled, Pipeline.Inv, HeadKnown;
    Issued(cfg, w, Step(cfg, w, e), e.id, i);
  }

  lemma OnlyTelling(cfg: Config, w: World, i: nat)
    requires Core(cfg, w) && w.c.pending.None? && Telling(w, i) && w.c.phase.Ready?
    ensures w.signals == map[] && !w.c.isRetiring && |w.results| <= |w.c.log| == w.c.ended + |w.c.inflight| && w.c.ended <= |w.results|
    ensures (w.running ==> |w.results| < |w.c.log|) && (w.hit ==> w.running)
    ensures forall j: nat :: j < i && Unread(w, j) ==> w.c.inflight[j].id in w.c.cancelled
  {
    assert forall j: nat :: Telling(w, j) ==> j == i;
    forall j: nat | j < i && Unread(w, j) ensures w.c.inflight[j].id in w.c.cancelled { assert !Telling(w, j); }
  }

  lemma Issued(cfg: Config, w: World, w': World, id: nat, i: nat)
    requires w.signals == map[] && !w.c.isRetiring && |w.results| <= |w.c.log| == w.c.ended + |w.c.inflight| && w.c.ended <= |w.results|
    requires (w.running ==> |w.results| < |w.c.log|) && (w.hit ==> w.running) && 0 < cfg.depth && w.c.phase.Ready?
    requires forall j: nat :: j < i && Unread(w, j) ==> w.c.inflight[j].id in w.c.cancelled
    requires i < |w.c.inflight| && Unread(w, i) && w.c.inflight[i].id !in w.c.cancelled && (i > 0 ==> w.c.inflight[i].id != id)
    requires w.c.inflight[0].id == id && id !in w.c.cancelled
    requires Pipeline.Inv(cfg, w'.c) && HeadKnown(w'.c)
    requires w' == w.(signals := w.signals[w.c.cancels := |w.c.log|],
                      c := w.c.(cancelled := w.c.cancelled + {id}, settled := w.c.settled + {id}, cancels := w.c.cancels + 1,
                                pending := Some(Pending(w.c.cancels, Some(id), false, false))))
    ensures Misled(cfg, w', w.c.cancels, |w.c.log|, i)
  {
    hide Pipeline.Inv, HeadKnown;
    assert forall j: nat :: Unread(w', j) <==> Unread(w, j);
  }

  /** After `events` the run can go on by `more`, without a further abort, to harm. */
  ghost predicate GoesWrong(cfg: Config, events: seq<Event>, more: seq<Event>)
  {
    Possible(cfg, events + more) && NoAborts(more) && Hurt(Run(cfg, events + more))
  }

  lemma HarmGoesWrong(cfg: Config, events: seq<Event>, e: Event) returns (more: seq<Event>)
    requires Possible(cfg, events) && Harmless(cfg, events) && Enabled(cfg, Run(cfg, events), e) && Harmful(cfg, Run(cfg, events), e)
    ensures GoesWrong(cfg, events + [e], more)
  {
    RunKeepsInv(cfg, events);
    AnyRunKeepsPipeline(cfg, events);
    RunExtends(cfg, events, e);
    var w := Run(cfg, events);
    hide Possible, Harmless, Harmful, Enabled, Inv, HeadKnown, Run, Step, Misled;
    var i := HarmMisleads(cfg, w, e);
    more := Await(cfg, Step(cfg, w, e), w.c.cancels, |w.c.log|, i);
    RunGoesOn(cfg, events + [e], more);
  }

  lemma StaysHarmless(cfg: Config, events: seq<Event>, e: Event, more: seq<Event>)
    requires Harmless(cfg, events) && !Harmful(cfg, Run(cfg, events), e) && NoAborts(more)
    ensures Harmless(cfg, events + [e] + more)
  {
    var all := events + [e] + more;
    hide Run;
    forall n | 0 <= n < |all| ensures !Harmful(cfg, Run(cfg, all[..n]), all[n]) {
      if n < |events| {
        assert all[..n] == events[..n] && all[n] == events[n];
      } else if n == |events| {
        assert all[..n] == events;
      } else {
        assert all[n] == more[n - |events| - 1];
      }
    }
  }

  /** Exactly the harmful aborts defeat the protocol: after a run without one, an event opens the way to a
      request that stops a task dispatched after it was issued if and only if it is one. */
  lemma HarmfulIff(cfg: Config, events: seq<Event>, e: Event)
    requires Possible(cfg, events) && Harmless(cfg, events) && Enabled(cfg, Run(cfg, events), e)
    ensures Harmful(cfg, Run(cfg, events), e) <==> exists more :: GoesWrong(cfg, events + [e], more)
  {
    if Harmful(cfg, Run(cfg, events), e) {
      var more := HarmGoesWrong(cfg, events, e);
    } else {
      hide Harmful, Enabled;
      forall more | GoesWrong(cfg, events + [e], more) ensures false {
        StaysHarmless(cfg, events, e, more);
        RunIsSafe(cfg, events + [e] + more);
      }
    }
  }
}
