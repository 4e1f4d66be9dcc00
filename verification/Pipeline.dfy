/** What every scheduler operation keeps: order, depth, lone streams, bytes and the accounting of tasks. */
module Pipeline {
  import opened Bytes
  import opened Scheduler

  ghost predicate Distinct(ts: seq<Task>)
  {
    forall i, j :: 0 <= i < j < |ts| ==> ts[i].id != ts[j].id
  }

  /** No more than `depth` in flight, and a stream is alone. */
  ghost predicate Bounded(cfg: Config, c: Client)
  {
    && |c.inflight| <= cfg.depth
    && (forall t :: t in c.inflight && t.stream ==> |c.inflight| == 1)
  }

  /** The in-flight list is what was dispatched on this socket minus the cycles that ended, oldest
      first, and the bytes written or batched are those of the dispatched tasks in that order. */
  ghost predicate Ordered(c: Client)
  {
    && (!c.phase.Ready? ==> c.inflight == [] && c.log == [] && c.outbuf == [] && c.sent == [] && c.ended == 0)
    && (c.phase.Closed? ==> c.queue == [])
    && c.ended <= |c.log| && c.inflight == c.log[c.ended..]
    && c.sent + c.outbuf == LogBytes(c.log)
  }

  /** Every accepted task is queued, in flight or settled; a settled task is never queued, and one in
      flight is settled only if it was cancelled. */
  ghost predicate Accounted(c: Client)
  {
    && Distinct(c.inflight + c.queue)
    && c.accepted == Ids(c.queue) + Ids(c.inflight) + c.settled
    && Ids(c.queue) !! c.settled
    && Ids(c.inflight) * c.settled <= c.cancelled <= c.settled
  }

  ghost predicate Inv(cfg: Config, c: Client)
  {
    Bounded(cfg, c) && Ordered(c) && Accounted(c)
  }

  lemma IdsAppend(a: seq<Task>, b: seq<Task>)
    ensures Ids(a + b) == Ids(a) + Ids(b)
  {
    forall x | x in Ids(a) + Ids(b) ensures x in Ids(a + b) {
      if x in Ids(a) {
        var t :| t in a && t.id == x;
        assert t in a + b;
      } else {
        var t :| t in b && t.id == x;
        assert t in a + b;
      }
    }
  }

  lemma IdsCons(a: seq<Task>)
    requires a != []
    ensures Ids(a) == {a[0].id} + Ids(a[1..])
    ensures Distinct(a) ==> a[0].id !in Ids(a[1..])
  {
    assert a == [a[0]] + a[1..];
    IdsAppend([a[0]], a[1..]);
    assert Ids([a[0]]) == {a[0].id} by { assert a[0] in [a[0]]; }
  }

  lemma FlushInv(cfg: Config, c: Client)
    requires Inv(cfg, c)
    ensures Inv(cfg, Flush(c))
  {
  }

  lemma Subdistinct(a: seq<Task>, b: seq<Task>)
    requires Distinct(a + b)
    ensures Distinct(a) && Distinct(b)
    ensures forall i, j :: 0 <= i < |a| && 0 <= j < |b| ==> a[i].id != b[j].id
  {
    forall i, j | 0 <= i < j < |a| ensures a[i].id != a[j].id {
      assert (a + b)[i] == a[i] && (a + b)[j] == a[j];
    }
    forall i, j | 0 <= i < j < |b| ensures b[i].id != b[j].id {
      assert (a + b)[|a| + i] == b[i] && (a + b)[|a| + j] == b[j];
    }
    forall i, j | 0 <= i < |a| && 0 <= j < |b| ensures a[i].id != b[j].id {
      assert (a + b)[i] == a[i] && (a + b)[|a| + j] == b[j];
    }
  }

  lemma DropOne(a: seq<Task>, t: Task, b: seq<Task>)
    requires Distinct(a + [t] + b)
    ensures Distinct(a + b) && t.id !in Ids(a) + Ids(b)
  {
    Subdistinct(a + [t], b);
    Subdistinct(a, [t]);
    assert forall i :: 0 <= i < |a| ==> a[i].id != [t][0].id;
    assert forall j :: 0 <= j < |b| ==> (a + [t])[|a|].id != b[j].id;
    forall i, j | 0 <= i < j < |a + b| ensures (a + b)[i].id != (a + b)[j].id {
      if i < |a| <= j {
        assert (a + [t])[i].id != b[j - |a|].id;
      }
    }
  }

  lemma StartThrows(c: Client)
    requires Accounted(c) && c.queue != [] && c.queue[0].payload.Throws?
    ensures Accounted(StartTask(c.(queue := c.queue[1..]), c.queue[0]))
  {
    var t, rest := c.queue[0], c.queue[1..];
    IdsCons(c.queue) by { Subdistinct(c.inflight, c.queue); }
    assert c.inflight + c.queue == c.inflight + [t] + rest;
    DropOne(c.inflight, t, rest);
  }

  lemma StartSerialized(c: Client)
    requires Accounted(c) && c.queue != [] && c.queue[0].payload.Serialized?
    ensures Accounted(StartTask(c.(queue := c.queue[1..]), c.queue[0]))
  {
    var t, rest := c.queue[0], c.queue[1..];
    IdsCons(c.queue);
    IdsAppend(c.inflight, [t]);
    assert Ids([t]) == {t.id} by { assert t in [t]; }
    assert c.inflight + c.queue == (c.inflight + [t]) + rest;
  }

  lemma StartOrdered(cfg: Config, c: Client)
    requires Bounded(cfg, c) && Ordered(c) && c.phase.Ready? && MayDispatch(cfg, c)
    ensures Bounded(cfg, StartTask(c.(queue := c.queue[1..]), c.queue[0]))
    ensures Ordered(StartTask(c.(queue := c.queue[1..]), c.queue[0]))
  {
    hide Distinct;
    var t := c.queue[0];
    var c1 := StartTask(c.(queue := c.queue[1..]), t);
    if t.payload.Serialized? {
      assert c1.log[..|c1.log| - 1] == c.log;
      assert c1.sent + c1.outbuf == (c.sent + c.outbuf) + t.payload.bytes;
      if c.inflight != [] {
        forall u | u in c1.inflight ensures !u.stream {
          assert u in c.inflight || u == t;
        }
      }
    }
  }

  lemma DispatchOneInv(cfg: Config, c: Client)
    requires Inv(cfg, c) && c.phase.Ready? && MayDispatch(cfg, c)
    ensures Inv(cfg, DispatchOne(c))
    ensures DispatchOne(c).phase.Ready?
  {
    hide Distinct, LogBytes, Ids;
    var c1 := StartTask(c.(queue := c.queue[1..]), c.queue[0]);
    assert Accounted(c1) by {
      if c.queue[0].payload.Throws? { StartThrows(c); } else { StartSerialized(c); }
    }
    StartOrdered(cfg, c);
    FlushInv(cfg, c1);
  }

  lemma {:induction false} DispatchAllInv(cfg: Config, c: Client)
    requires Inv(cfg, c) && c.phase.Ready?
    ensures Inv(cfg, DispatchAll(cfg, c))
    decreases |c.queue|
  {
    if MayDispatch(cfg, c) {
      DispatchOneInv(cfg, c);
      DispatchAllInv(cfg, DispatchOne(c));
    }
  }

  lemma InflightNotQueued(c: Client)
    requires Distinct(c.inflight + c.queue)
    ensures Ids(c.inflight) !! Ids(c.queue)
  {
    Subdistinct(c.inflight, c.queue);
  }

  lemma SocketDownInv(cfg: Config, c: Client)
    requires Inv(cfg, c)
    ensures Inv(cfg, SocketDown(cfg, c))
  {
    Subdistinct(c.inflight, c.queue);
    InflightNotQueued(c);
    assert [] + c.queue == c.queue;
  }

  lemma ProcessQueueInv(cfg: Config, c: Client)
    requires Inv(cfg, c)
    ensures Inv(cfg, ProcessQueue(cfg, c))
  {
    SocketDownInv(cfg, c);
    if c.phase.Ready? { DispatchAllInv(cfg, c); FlushInv(cfg, DispatchAll(cfg, c)); }
  }

  lemma EndInv(cfg: Config, c: Client)
    requires Inv(cfg, c)
    ensures Inv(cfg, End(c))
  {
    assert Accounted(End(c)) by { assert Ids([]) == {}; }
  }

  lemma GiveUpInv(cfg: Config, c: Client)
    requires Inv(cfg, c)
    ensures Inv(cfg, GiveUp(c))
  {
    assert Accounted(GiveUp(c)) by { assert Ids([]) == {}; }
  }

  lemma SubmitInv(cfg: Config, c: Client, t: Task)
    requires Inv(cfg, c) && t.id !in c.accepted
    ensures Inv(cfg, Submit(cfg, c, t))
  {
    if !c.phase.Closed? {
      EnqueueInv(cfg, c.(accepted := c.accepted + {t.id}), t);
      ProcessQueueInv(cfg, c.(accepted := c.accepted + {t.id}, queue := c.queue + [t]));
    }
  }

  /** Appending a task that is nowhere yet, but is accepted, completes the accounting. */
  lemma EnqueueInv(cfg: Config, c: Client, t: Task)
    requires Bounded(cfg, c) && Ordered(c) && Distinct(c.inflight + c.queue)
    requires c.accepted == Ids(c.queue) + Ids(c.inflight) + c.settled + {t.id}
    requires Ids(c.queue) !! c.settled
    requires Ids(c.inflight) * c.settled <= c.cancelled <= c.settled
    requires t.id !in Ids(c.queue) + Ids(c.inflight) + c.settled
    requires !c.phase.Closed?
    ensures Inv(cfg, c.(queue := c.queue + [t]))
  {
    var r := c.(queue := c.queue + [t]);
    IdsAppend(c.queue, [t]);
    assert Ids([t]) == {t.id} by { assert t in [t]; }
    assert r.inflight + r.queue == (c.inflight + c.queue) + [t];
    IdsAppend(c.inflight, c.queue);
    forall i, j | 0 <= i < j < |r.inflight + r.queue|
      ensures (r.inflight + r.queue)[i].id != (r.inflight + r.queue)[j].id
    {
      assert (c.inflight + c.queue)[i] in c.inflight + c.queue;
      assert (c.inflight + c.queue)[i].id in Ids(c.inflight + c.queue);
    }
  }

  lemma {:induction false} WithoutDistinct(ts: seq<Task>, id: nat, prefix: seq<Task>)
    requires Distinct(prefix + ts)
    ensures Distinct(prefix + Without(ts, id))
    decreases |ts|
  {
    if ts != [] {
      assert prefix + ts == (prefix + [ts[0]]) + ts[1..];
      if ts[0].id == id {
        forall i, j | 0 <= i < j < |prefix + ts[1..]|
          ensures (prefix + ts[1..])[i].id != (prefix + ts[1..])[j].id
        {
          var i' := if i < |prefix| then i else i + 1;
          var j' := if j < |prefix| then j else j + 1;
          assert (prefix + ts)[i'].id != (prefix + ts)[j'].id;
        }
        WithoutDistinct(ts[1..], id, prefix);
      } else {
        hide Distinct;
        WithoutDistinct(ts[1..], id, prefix + [ts[0]]);
        assert prefix + Without(ts, id) == (prefix + [ts[0]]) + Without(ts[1..], id);
      }
    }
  }

  lemma WithoutIds(ts: seq<Task>, id: nat)
    ensures Ids(Without(ts, id)) == Ids(ts) - {id}
  {
    forall x | x in Ids(ts) - {id} ensures x in Ids(Without(ts, id)) {
      var t :| t in ts && t.id == x;
      assert t in Without(ts, id);
    }
  }

  lemma CancelQueuedInv(c: Client, id: nat)
    requires Accounted(c) && id in c.accepted && id !in Ids(c.inflight)
    ensures Accounted(c.(cancelled := c.cancelled + {id}, settled := c.settled + {id}, queue := Without(c.queue, id)))
  {
    WithoutDistinct(c.queue, id, c.inflight);
    WithoutIds(c.queue, id);
    hide Distinct, Ids, Without;
  }

  lemma CancelTaskInv(cfg: Config, c: Client, id: nat)
    requires Inv(cfg, c) && id in c.accepted
    ensures Inv(cfg, CancelTask(cfg, c, id))
  {
    InflightNotQueued(c);
    hide Distinct, LogBytes, Without;
    if id !in c.cancelled {
      if id in Ids(c.inflight) {
        assert Accounted(c.(cancelled := c.cancelled + {id}, settled := c.settled + {id}));
      } else {
        CancelQueuedInv(c, id);
      }
    }
  }

  lemma ResolveInv(cfg: Config, c: Client)
    requires Inv(cfg, c) && c.pending.Some?
    ensures Inv(cfg, ResolveCanceledHead(cfg, c))
  {
    ProcessQueueInv(cfg, c.(isRetiring := true));
    ProcessQueueInv(cfg, ClearPendingCancel(c));
  }

  lemma CancelSettledInv(cfg: Config, c: Client, id: nat, ok: bool)
    requires Inv(cfg, c)
    ensures Inv(cfg, CancelSettled(cfg, c, id, ok))
    ensures Inv(cfg, PendingTimer(cfg, c, id))
  {
    hide Distinct, LogBytes, Ids, ProcessQueue, ResolveCanceledHead;
    ProcessQueueInv(cfg, c.(isRetiring := true));
    if c.pending.Some? {
      var p := c.pending.value;
      ResolveInv(cfg, c.(pending := Some(if ok then p.(isConfirmed := true) else p.(hasFailed := true))));
    }
  }

  /** While the head is between lists, the accounting holds with its id set aside. */
  ghost predicate InvLeaving(cfg: Config, c: Client, t: Task)
  {
    && Bounded(cfg, c) && Ordered(c) && Distinct(c.inflight + c.queue)
    && c.accepted == Ids(c.queue) + Ids(c.inflight) + c.settled + {t.id}
    && Ids(c.queue) !! c.settled
    && Ids(c.inflight) * c.settled <= c.cancelled <= c.settled
    && t.id !in Ids(c.queue) + Ids(c.inflight)
    && (t.id in c.settled ==> t.id in c.cancelled)
  }

  lemma HeadLeaves(cfg: Config, c: Client)
    requires Inv(cfg, c) && c.inflight != []
    ensures InvLeaving(cfg, c.(inflight := c.inflight[1..], ended := c.ended + 1), c.inflight[0])
  {
    hide LogBytes;
    var r := c.(inflight := c.inflight[1..], ended := c.ended + 1);
    var t := c.inflight[0];
    IdsCons(c.inflight);
    assert [] + [t] + (r.inflight + r.queue) == c.inflight + c.queue;
    DropOne([], t, r.inflight + r.queue);
    assert [] + (r.inflight + r.queue) == r.inflight + r.queue;
    IdsAppend(r.inflight, r.queue);
    InflightNotQueued(c);
    assert Bounded(cfg, r) by {
      if |r.inflight| > 0 { assert forall u :: u in r.inflight ==> u in c.inflight; }
    }
  }

  lemma LeaveHeadInv(cfg: Config, c: Client, t: Task, outcome: Outcome)
    requires InvLeaving(cfg, c, t) && c.phase.Ready?
    requires c.pending.Some? && c.pending.value.head == Some(t.id) ==> t.id in c.cancelled
    ensures InvLeaving(cfg, LeaveHead(cfg, c, t, outcome), t)
    ensures !LeaveHead(cfg, c, t, outcome).phase.Ready? ==> t.id in c.cancelled
    ensures LeaveHead(cfg, c, t, outcome).cancelled == c.cancelled
  {
    var c1 := if c.late.Some? && t.id in c.late.value.suspects then CheckLateCancel(c, t, outcome) else c;
    assert InvLeaving(cfg, c1, t);
    if c1.pending.Some? && c1.pending.value.head == Some(t.id) {
      EndHeadInv(cfg, c1, t, outcome);
    }
  }

  /** The caller of a canceled head was settled by the cancel, so the accounting is complete already. */
  lemma EndHeadInv(cfg: Config, c: Client, t: Task, outcome: Outcome)
    requires InvLeaving(cfg, c, t) && t.id in c.cancelled && c.pending.Some?
    ensures InvLeaving(cfg, EndCanceledHead(cfg, c, outcome), t)
    ensures EndCanceledHead(cfg, c, outcome).cancelled == c.cancelled
  {
    var c2 := HeadGone(c, outcome);
    assert t.id in c.settled;
    assert Inv(cfg, c2);
    ResolveInv(cfg, c2);
    ResolveKeepsCancelled(cfg, c2);
    ResolveAbsent(cfg, c2, t.id);
    ResolveKeepsSettled(cfg, c2);
  }

  lemma ResolveKeepsSettled(cfg: Config, c: Client)
    requires c.pending.Some?
    ensures c.settled <= ResolveCanceledHead(cfg, c).settled
  {
    DispatchKeepsCancelled(cfg, ClearPendingCancel(c));
    DispatchKeepsCancelled(cfg, c.(isRetiring := true));
  }

  /** An id that is in neither list stays in neither list. */
  lemma ResolveAbsent(cfg: Config, c: Client, id: nat)
    requires c.pending.Some? && id !in Ids(c.inflight) + Ids(c.queue)
    ensures id !in Ids(ResolveCanceledHead(cfg, c).inflight) + Ids(ResolveCanceledHead(cfg, c).queue)
  {
    ProcessAbsent(cfg, c.(isRetiring := true), id);
    ProcessAbsent(cfg, ClearPendingCancel(c), id);
  }

  lemma ProcessAbsent(cfg: Config, c: Client, id: nat)
    requires id !in Ids(c.inflight) + Ids(c.queue)
    ensures id !in Ids(ProcessQueue(cfg, c).inflight) + Ids(ProcessQueue(cfg, c).queue)
  {
    DispatchAbsent(cfg, c, id);
  }

  lemma {:induction false} DispatchAbsent(cfg: Config, c: Client, id: nat)
    requires id !in Ids(c.inflight) + Ids(c.queue)
    ensures id !in Ids(DispatchAll(cfg, c).inflight) + Ids(DispatchAll(cfg, c).queue)
    decreases |c.queue|
  {
    if MayDispatch(cfg, c) {
      IdsCons(c.queue);
      IdsAppend(c.inflight, [c.queue[0]]);
      assert Ids([c.queue[0]]) == {c.queue[0].id} by { assert c.queue[0] in [c.queue[0]]; }
      DispatchAbsent(cfg, DispatchOne(c), id);
    }
  }

  lemma ResolveKeepsCancelled(cfg: Config, c: Client)
    requires c.pending.Some?
    ensures ResolveCanceledHead(cfg, c).cancelled == c.cancelled
  {
    DispatchKeepsCancelled(cfg, ClearPendingCancel(c));
    DispatchKeepsCancelled(cfg, c.(isRetiring := true));
  }

  lemma {:induction false} DispatchKeepsCancelled(cfg: Config, c: Client)
    ensures DispatchAll(cfg, c).cancelled == c.cancelled
    ensures c.settled <= DispatchAll(cfg, c).settled && DispatchAll(cfg, c).retried == c.retried
    decreases |c.queue|
  {
    if MayDispatch(cfg, c) { DispatchKeepsCancelled(cfg, DispatchOne(c)); }
  }

  lemma GoesOnInv(cfg: Config, c: Client, t: Task, outcome: Outcome)
    requires InvLeaving(cfg, c, t)
    requires !c.phase.Ready? ==> t.id in c.cancelled
    ensures Inv(cfg, GoesOn(c, t, outcome))
  {
    hide Distinct, LogBytes, Ids;
    if Retries(c, t, outcome) {
      EnqueueInv(cfg, c.(retried := c.retried + {t.id}), t);
    }
  }

  lemma FinishTaskInv(cfg: Config, c: Client, outcome: Outcome, inTransaction: bool)
    requires Inv(cfg, c) && c.phase.Ready?
    requires HeadKnown(c)
    ensures Inv(cfg, FinishTask(cfg, c, outcome, inTransaction))
  {
    hide Distinct, LogBytes, Ids, LeaveHead, ProcessQueue, GoesOn;
    if c.inflight == [] {
      ProcessQueueInv(cfg, c.(inTransaction := inTransaction));
    } else {
      var t := c.inflight[0];
      HeadLeaves(cfg, c.(inTransaction := inTransaction));
      LeaveHeadInv(cfg, WithoutHead(c, inTransaction), t, outcome);
      var c2 := LeaveHead(cfg, WithoutHead(c, inTransaction), t, outcome);
      GoesOnInv(cfg, c2, t, outcome);
      ProcessQueueInv(cfg, GoesOn(c2, t, outcome));
    }
  }

  lemma DrainInv(cfg: Config, c: Client, room: nat)
    requires Inv(cfg, c)
    ensures Inv(cfg, Drain(cfg, c, room)) && Inv(cfg, Reestablished(cfg, c, room))
  {
    hide Distinct, LogBytes, Ids;
    ProcessQueueInv(cfg, c.(room := room, backedUp := false));
    ProcessQueueInv(cfg, c.(phase := Ready, backedUp := false, inTransaction := false, room := room));
  }

  /** The k-th ReadyForQuery on a socket ends the k-th task dispatched on it, which is then settled or,
      once and only for an invalidated statement, queued again at the back. */
  lemma AnswerEndsOldest(cfg: Config, c: Client, outcome: Outcome, inTransaction: bool)
    requires Inv(cfg, c) && c.phase.Ready? && c.inflight != []
    requires HeadKnown(c)
    ensures var t := c.log[c.ended]; var r := FinishTask(cfg, c, outcome, inTransaction);
            t == c.inflight[0] && (t.id in r.settled || (t.id in r.retried && t.id !in c.retried && outcome.Invalidated?))
  {
    hide Distinct, LogBytes, Ids, LeaveHead, ProcessQueue;
    var t := c.inflight[0];
    var c2 := LeaveHead(cfg, WithoutHead(c, inTransaction), t, outcome);
    LeaveKeepsRetried(cfg, WithoutHead(c, inTransaction), t, outcome);
    ProcessKeepsSettled(cfg, GoesOn(c2, t, outcome));
  }

  lemma ProcessKeepsSettled(cfg: Config, c: Client)
    ensures c.settled <= ProcessQueue(cfg, c).settled && ProcessQueue(cfg, c).retried == c.retried
  {
    DispatchKeepsCancelled(cfg, c);
  }

  lemma LeaveKeepsRetried(cfg: Config, c: Client, t: Task, outcome: Outcome)
    ensures LeaveHead(cfg, c, t, outcome).retried == c.retried
  {
    var c1 := if c.late.Some? && t.id in c.late.value.suspects then CheckLateCancel(c, t, outcome) else c;
    if c1.pending.Some? && c1.pending.value.head == Some(t.id) {
      hide ProcessQueue;
      var c2 := HeadGone(c1, outcome);
      ProcessKeepsSettled(cfg, c2.(isRetiring := true));
      ProcessKeepsSettled(cfg, ClearPendingCancel(c2));
    }
  }

  // ---- who is run again ----

  /** Whoever was settled meanwhile was queued and could not be serialized. */
  ghost predicate SettlesOnlyThrowers(c: Client, r: Client)
  {
    forall id :: id in r.settled ==> id in c.settled || exists u :: u in c.queue && u.id == id && u.payload.Throws?
  }

  lemma {:induction false} DispatchSettles(cfg: Config, c: Client)
    ensures SettlesOnlyThrowers(c, DispatchAll(cfg, c)) && DispatchAll(cfg, c).inTransaction == c.inTransaction
    ensures DispatchAll(cfg, c).phase == c.phase && DispatchAll(cfg, c).accepted == c.accepted
    decreases |c.queue|
  {
    if MayDispatch(cfg, c) {
      var c1 := DispatchOne(c);
      DispatchSettles(cfg, c1);
      var r := DispatchAll(cfg, c1);
      assert forall u :: u in c1.queue ==> u in c.queue;
      assert forall id :: id in c1.settled ==> id in c.settled || (id == c.queue[0].id && c.queue[0].payload.Throws?);
      hide DispatchAll, DispatchOne, MayDispatch;
      forall id | id in r.settled && id !in c.settled ensures exists u :: u in c.queue && u.id == id && u.payload.Throws? {
        if id in c1.settled { assert c.queue[0] in c.queue; }
      }
    }
  }

  lemma ProcessSettles(cfg: Config, c: Client)
    ensures ProcessQueue(cfg, c).inTransaction == c.inTransaction && ProcessQueue(cfg, c).cancelled == c.cancelled
    ensures ProcessQueue(cfg, c).accepted == c.accepted
    ensures ProcessQueue(cfg, c).phase.Ready? ==> c.phase.Ready? && SettlesOnlyThrowers(c, ProcessQueue(cfg, c))
  {
    DispatchSettles(cfg, c);
    DispatchKeepsCancelled(cfg, c);
    hide DispatchAll;
  }

  lemma ResolveSettles(cfg: Config, c: Client)
    requires c.pending.Some?
    ensures ResolveCanceledHead(cfg, c).inTransaction == c.inTransaction && ResolveCanceledHead(cfg, c).cancelled == c.cancelled
    ensures ResolveCanceledHead(cfg, c).accepted == c.accepted
    ensures ResolveCanceledHead(cfg, c).phase.Ready? ==> SettlesOnlyThrowers(c, ResolveCanceledHead(cfg, c))
  {
    ProcessSettles(cfg, c.(isRetiring := true));
    ProcessSettles(cfg, ClearPendingCancel(c));
    hide ProcessQueue;
  }

  lemma EndHeadSettles(cfg: Config, c: Client, o: Outcome)
    requires c.pending.Some?
    ensures var r := EndCanceledHead(cfg, c, o);
            && r.inTransaction == c.inTransaction && r.cancelled == c.cancelled && r.accepted == c.accepted
            && (r.phase.Ready? ==> SettlesOnlyThrowers(c, r))
  {
    var c1 := HeadGone(c, o);
    ResolveSettles(cfg, c1);
    hide ResolveCanceledHead;
  }

  lemma LeaveSettles(cfg: Config, c: Client, t: Task, o: Outcome)
    ensures var r := LeaveHead(cfg, c, t, o);
            && r.inTransaction == c.inTransaction && r.cancelled == c.cancelled && r.accepted == c.accepted
            && (r.phase.Ready? ==> SettlesOnlyThrowers(c, r))
  {
    var c1 := if c.late.Some? && t.id in c.late.value.suspects then CheckLateCancel(c, t, o) else c;
    assert c1.inTransaction == c.inTransaction && c1.cancelled == c.cancelled && c1.accepted == c.accepted && c1.queue == c.queue && c1.settled == c.settled;
    if c1.pending.Some? && c1.pending.value.head == Some(t.id) { EndHeadSettles(cfg, c1, o); }
    hide EndCanceledHead, CheckLateCancel;
  }

  /** An answer with 0A000 or 26000 runs a task again exactly if it is named and without a mapper of the caller's,
      no stream and not in wire mode, was not cancelled, the server is in no transaction, and it is the first time.
      Every other answer settles the task. */
  lemma AnswerRetriesIff(cfg: Config, c: Client, outcome: Outcome, inTransaction: bool)
    requires Inv(cfg, c) && c.phase.Ready? && c.inflight != []
    requires HeadKnown(c)
    ensures var t := c.inflight[0]; var r := FinishTask(cfg, c, outcome, inTransaction);
            var again := outcome.Invalidated? && t.retryable && t.id !in c.cancelled && !inTransaction && t.id !in c.retried;
            && r.retried == c.retried + (if again then {t.id} else {})
            && (!again ==> t.id in r.settled)
            && (again && r.phase.Ready? && t.payload.Serialized? ==> t.id !in r.settled && t.id in Ids(r.queue) + Ids(r.inflight))
  {
    var t := c.inflight[0];
    var rest := WithoutHead(c, inTransaction);
    var c2 := LeaveHead(cfg, rest, t, outcome);
    var c3 := GoesOn(c2, t, outcome);
    var r := ProcessQueue(cfg, c3);
    LeaveKeepsRetried(cfg, rest, t, outcome);
    LeaveSettles(cfg, rest, t, outcome);
    hide LeaveHead, ProcessQueue, Inv, SettlesOnlyThrowers, HeadKnown;
    assert FinishTask(cfg, c, outcome, inTransaction) == r;
    assert Retries(c2, t, outcome) == (outcome.Invalidated? && t.retryable && t.id !in c.cancelled && !inTransaction && t.id !in c.retried);
    ProcessKeepsSettled(cfg, c3);
    ProcessSettles(cfg, c3);
    FinishTaskInv(cfg, c, outcome, inTransaction);
    if Retries(c2, t, outcome) && r.phase.Ready? && t.payload.Serialized? {
      HeadWasAccepted(cfg, c);
      HeadLeavesIn(cfg, c, inTransaction);
      LeaveHeadInv(cfg, rest, t, outcome);
      hide InvLeaving;
      ReadyToGoOn(cfg, c2, t, outcome);
      AgainIsQueued(cfg, c, inTransaction, c2, c3, r, t);
    }
  }

  lemma HeadWasAccepted(cfg: Config, c: Client)
    requires Inv(cfg, c) && c.inflight != []
    ensures c.inflight[0].id in c.accepted
  {
    assert c.inflight[0].id in Ids(c.inflight);
  }

  lemma HeadLeavesIn(cfg: Config, c: Client, inTransaction: bool)
    requires Inv(cfg, c) && c.phase.Ready? && c.inflight != []
    ensures InvLeaving(cfg, WithoutHead(c, inTransaction), c.inflight[0])
  {
    HeadLeaves(cfg, c.(inTransaction := inTransaction));
  }

  lemma ReadyToGoOn(cfg: Config, c: Client, t: Task, outcome: Outcome)
    requires InvLeaving(cfg, c, t) && c.phase.Ready?
    ensures Inv(cfg, GoesOn(c, t, outcome))
  {
    GoesOnInv(cfg, c, t, outcome);
  }

  lemma AgainIsQueued(cfg: Config, c: Client, inTransaction: bool, c2: Client, c3: Client, r: Client, t: Task)
    requires Inv(cfg, c) && c.inflight != [] && t == c.inflight[0] && t.id !in c.cancelled && t.payload.Serialized?
    requires SettlesOnlyThrowers(WithoutHead(c, inTransaction), c2) && c3 == c2.(retried := c3.retried, queue := c2.queue + [t])
    requires Inv(cfg, c3) && SettlesOnlyThrowers(c3, r) && Inv(cfg, r) && t.id in r.accepted
    ensures t.id !in r.settled && t.id in Ids(r.queue) + Ids(r.inflight)
  {
    hide Ordered, Bounded, LogBytes;
    assert t.id in Ids(c.inflight) && t.id !in c.settled;
    forall u | u in c.queue ensures u.id != t.id {
      var i :| 0 <= i < |c.queue| && c.queue[i] == u;
      assert (c.inflight + c.queue)[0] == t && (c.inflight + c.queue)[|c.inflight| + i] == u;
    }
    assert t.id !in c2.settled;
    forall u | u in c3.queue && u.id == t.id ensures u == t {
      var i :| 0 <= i < |c3.queue| && c3.queue[i] == u;
      var n := |c3.inflight|;
      assert c3.queue[|c3.queue| - 1] == t;
      assert (c3.inflight + c3.queue)[n + i] == u && (c3.inflight + c3.queue)[n + |c3.queue| - 1] == t;
    }
    assert t.id !in r.settled;
  }

  /** The session is over: every accepted task is settled. */
  lemma NothingLeft(cfg: Config, c: Client)
    requires Inv(cfg, c)
    ensures c.settled + Ids(c.inflight) + Ids(c.queue) == c.accepted
    ensures c.phase.Closed? ==> c.settled == c.accepted && c.queue == [] && c.inflight == []
  {
  }

  lemma CancelledIsOut(cfg: Config, c: Client, id: nat)
    requires Inv(cfg, c)
    ensures var r := CancelTask(cfg, c, id);
            && id in r.cancelled && id in r.settled && r.inflight == c.inflight
            && (forall t :: t in r.queue <==> t in c.queue && t.id != id)
            && r.cancels == c.cancels + if cfg.canCancel && id !in c.cancelled && c.inflight != [] && c.inflight[0].id == id then 1 else 0
  {
    if id in c.cancelled || id in Ids(c.inflight) {
      forall t | t in c.queue ensures t.id != id {
        assert t.id in Ids(c.queue);
        if id in Ids(c.inflight) { NotBoth(cfg, c, id, t); }
      }
    }
  }

  lemma NotBoth(cfg: Config, c: Client, id: nat, t: Task)
    requires Inv(cfg, c) && id in Ids(c.inflight) && t in c.queue
    ensures t.id != id
  {
    var i, j :| 0 <= i < |c.inflight| && c.inflight[i].id == id && 0 <= j < |c.queue| && c.queue[j] == t;
    assert (c.inflight + c.queue)[i] == c.inflight[i] && (c.inflight + c.queue)[|c.inflight| + j] == t;
  }
}
