/** The connection object: the fields of src/connection.ts and its methods, each of which does in place
    what the function of the same name in Scheduler says. */
module ConnectionClass {
  import opened Bytes
  import opened Scheduler
  import Pipeline
  import CancelProtocol
  import opened Dispatching

  class Connection {
    const cfg: Config
    var phase: Phase
    var queue: seq<Task>
    var inflight: seq<Task>
    var outbuf: seq<byte>
    var backedUp: bool
    var room: nat
    var pendingCancel: Option<Pending>
    var isRetiring: bool
    var lateCancel: Option<Late>
    var inTransaction: bool
    var cancelled: set<nat>
    var retried: set<nat>
    var marked: set<nat>
    var cancels: nat
    ghost var accepted: set<nat>
    ghost var settled: set<nat>
    ghost var log: seq<Task>
    ghost var ended: nat
    ghost var sent: seq<byte>

    ghost function Abs(): Client
      reads this
    {
      Client(phase, queue, inflight, outbuf, backedUp, room, pendingCancel, isRetiring, lateCancel, inTransaction,
             accepted, cancelled, retried, settled, marked, cancels, log, ended, sent)
    }

    /** What holds between two events: the scheduler's invariant, and no bytes are left unwritten. */
    ghost predicate Valid()
      reads this
    {
      Between(cfg, Abs())
    }

    constructor (cfg: Config)
      ensures this.cfg == cfg && Abs() == Initial() && Valid()
    {
      this.cfg := cfg;
      phase, queue, inflight, outbuf, backedUp, room := Phase.Ready, [], [], [], false, 0;
      pendingCancel, isRetiring, lateCancel, inTransaction := None, false, None, false;
      accepted, cancelled, retried, settled, marked := {}, {}, {}, {}, {};
      cancels, log, ended, sent := 0, [], 0, [];
    }

    /** The batch leaves in one socket write, which reports whether the socket is full. */
    method FlushWrites()
      modifies this
      ensures Abs() == Flush(old(Abs()))
    {
      if |outbuf| == 0 { return; }
      sent, outbuf := sent + outbuf, [];
      if room == 0 { backedUp := true; } else { room := room - 1; }
    }

    method StartTask(t: Task)
      modifies this
      ensures Abs() == Scheduler.StartTask(old(Abs()), t)
    {
      var mark := |outbuf|;
      match t.payload {
        case Throws(partial) =>
          outbuf := outbuf + partial;
          outbuf := outbuf[..mark];
          settled := settled + {t.id};
        case Serialized(bytes) =>
          outbuf := outbuf + bytes;
          inflight := inflight + [t];
          log := log + [t];
      }
    }

    /** Starts what may start, and writes. Afterwards the batch is empty, or small and left to its microtask, and
        the first task still in the queue has something in its way. */
    method ProcessQueue()
      modifies this
      ensures Abs() == Scheduler.ProcessQueue(cfg, old(Abs()))
      ensures phase == Phase.Ready && !isRetiring ==> if cfg.depth <= 1 || !cfg.microtask then outbuf == [] else |outbuf| < FLUSH_THRESHOLD
      ensures phase == Phase.Ready && !isRetiring && queue != [] ==>
                || |inflight| >= cfg.depth || backedUp || pendingCancel.Some?
                || (inflight != [] && (inflight[0].stream || queue[0].stream))
    {
      if !isRetiring { ProcessLeavesNothing(cfg, Abs()); }
      RunQueue();
    }

    method RunQueue()
      modifies this
      ensures Abs() == Scheduler.ProcessQueue(cfg, old(Abs()))
    {
      if phase != Phase.Ready { return; }
      if isRetiring {
        if |inflight| == 0 { OnSocketDown(); }
        return;
      }
      while |queue| > 0 && |inflight| < cfg.depth && !backedUp && pendingCancel.None?
            && (|inflight| == 0 || (!inflight[0].stream && !queue[0].stream))
        invariant DispatchAll(cfg, Abs()) == DispatchAll(cfg, old(Abs()))
        decreases |queue|
      {
        var t := queue[0];
        queue := queue[1..];
        StartTask(t);
        if |outbuf| >= FLUSH_THRESHOLD { FlushWrites(); }
      }
      if !(cfg.microtask && cfg.depth > 1 && |outbuf| < FLUSH_THRESHOLD) { FlushWrites(); }
    }

    method ClearPendingCancel()
      modifies this
      ensures Abs() == Scheduler.ClearPendingCancel(old(Abs()))
    {
      pendingCancel := None;
      isRetiring := false;
    }

    method RejectInflight()
      modifies this`inflight, this`settled
      ensures inflight == [] && settled == old(settled) + Ids(old(inflight))
    {
      while |inflight| > 0
        invariant settled + Ids(inflight) == old(settled) + Ids(old(inflight))
      {
        Pipeline.IdsCons(inflight);
        settled := settled + {inflight[0].id};
        inflight := inflight[1..];
      }
    }

    method RejectQueue()
      modifies this`queue, this`settled
      ensures queue == [] && settled == old(settled) + Ids(old(queue))
    {
      while |queue| > 0
        invariant settled + Ids(queue) == old(settled) + Ids(old(queue))
      {
        Pipeline.IdsCons(queue);
        settled := settled + {queue[0].id};
        queue := queue[1..];
      }
    }

    /** The session on this socket is over: its batch is dropped and its in-flight tasks are rejected. */
    method DropSession()
      modifies this
      ensures Abs() == Scheduler.ClearPendingCancel(old(Abs())).(outbuf := [], inflight := [], log := [], ended := 0, sent := [],
                                                                  settled := old(settled) + Ids(old(inflight)))
    {
      hide Ids;
      RejectInflight();
      ClearPendingCancel();
      outbuf := [];
      log, ended, sent := [], 0, [];
    }

    /** The socket died: what was in flight is settled, and a queue that can wait for a new socket stays. */
    method OnSocketDown()
      modifies this
      ensures Abs() == SocketDown(cfg, old(Abs()))
      ensures old(phase) == Phase.Ready ==>
                && inflight == [] && outbuf == [] && pendingCancel.None? && !isRetiring
                && phase == (if cfg.reconnect then Reconnecting else Closed)
                && queue == (if cfg.reconnect then old(queue) else [])
                && settled == old(settled) + Ids(old(inflight)) + (if cfg.reconnect then {} else Ids(old(queue)))
    {
      hide Ids;
      if phase != Phase.Ready { return; }
      DropSession();
      if cfg.reconnect {
        phase := Reconnecting;
      } else {
        phase := Closed;
        RejectQueue();
      }
    }

    method End()
      requires Valid()
      modifies this
      ensures Abs() == Scheduler.End(old(Abs())) && Valid()
      ensures phase == Closed && queue == [] && inflight == [] && settled == accepted
    {
      SocketBetween(cfg, Abs(), 0);
      EndsAll(cfg, Abs());
      hide Between, Scheduler.End;
      CloseAll();
    }

    method CloseAll()
      modifies this
      ensures Abs() == Scheduler.End(old(Abs()))
    {
      hide Ids;
      if phase == Closed { return; }
      DropSession();
      RejectQueue();
      phase, lateCancel := Closed, None;
    }

    /** A query enters the queue. */
    method Query(t: Task)
      requires Valid() && t.id !in accepted
      modifies this
      ensures Abs() == Submit(cfg, old(Abs()), t) && Valid() && !Undone(cfg, Abs())
    {
      SubmitBetween(cfg, Abs(), t);
      hide Between, Undone, Submit;
      Enqueue(t);
    }

    method Enqueue(t: Task)
      modifies this
      ensures Abs() == Submit(cfg, old(Abs()), t)
    {
      hide Scheduler.ProcessQueue;
      accepted := accepted + {t.id};
      if phase == Closed { settled := settled + {t.id}; return; }
      queue := queue + [t];
      ProcessQueue();
    }

    /** Takes a task out of the queue if it is there. */
    method Unqueue(id: nat)
      requires Pipeline.Distinct(queue)
      modifies this`queue
      ensures queue == Without(old(queue), id)
    {
      var i := 0;
      while i < |queue| && queue[i].id != id
        invariant 0 <= i <= |queue|
        invariant forall j :: 0 <= j < i ==> queue[j].id != id
      {
        i := i + 1;
      }
      WithoutAt(queue, id, i);
      if i < |queue| { queue := queue[..i] + queue[i + 1..]; }
    }

    /** A timeout or an abort: the caller is settled, a queued task withdrawn, and a request issued for the head. */
    method CancelTask(id: nat)
      requires Valid() && id in accepted
      modifies this
      ensures Abs() == Scheduler.CancelTask(cfg, old(Abs()), id) && Valid()
      ensures id in cancelled && id in settled && inflight == old(inflight) && forall t :: t in queue <==> t in old(queue) && t.id != id
      ensures cancels == old(cancels) + if cfg.canCancel && id !in old(cancelled) && inflight != [] && inflight[0].id == id then 1 else 0
    {
      CancelBetween(cfg, Abs(), id);
      CancelOuts(cfg, Abs(), id);
      hide Between, Scheduler.CancelTask;
      Withdraw(id);
    }

    method Withdraw(id: nat)
      requires Pipeline.Distinct(queue)
      modifies this
      ensures Abs() == Scheduler.CancelTask(cfg, old(Abs()), id)
    {
      hide Pipeline.Distinct, Without, Scheduler.SendCancelRequest;
      if id in cancelled { return; }
      cancelled, settled := cancelled + {id}, settled + {id};
      var isInflight := exists t :: t in inflight && t.id == id;
      if isInflight {
        if inflight[0].id == id { SendCancelRequest(id); }
      } else {
        Unqueue(id);
      }
    }

    method SendCancelRequest(head: nat)
      modifies this`isRetiring, this`pendingCancel, this`cancels
      ensures Abs() == Scheduler.SendCancelRequest(cfg, old(Abs()), head)
    {
      if !cfg.canCancel { return; }
      if pendingCancel.Some? { isRetiring := true; }
      pendingCancel := Some(Pending(cancels, Some(head), false, false));
      cancels := cancels + 1;
    }

    method ResolveCanceledHead()
      requires pendingCancel.Some?
      modifies this
      ensures Abs() == Scheduler.ResolveCanceledHead(cfg, old(Abs()))
    {
      hide Scheduler.ProcessQueue;
      if isRetiring { return; }
      var pending := pendingCancel.value;
      if pending.hasFailed || (pending.isConfirmed && cfg.isBehindPooler) {
        isRetiring := true;
        ProcessQueue();
      } else if pending.isConfirmed {
        ClearPendingCancel();
        ProcessQueue();
      }
    }

    /** The promise of cancel request `id` settled. If the canceled head has ended, dispatch goes on exactly if the
        server itself closed the cancel connection; else the connection retires. */
    method OnCancelSettled(id: nat, ok: bool)
      requires Valid()
      modifies this
      ensures Abs() == CancelSettled(cfg, old(Abs()), id, ok) && Valid()
      ensures CancelProtocol.HeadlessPending(old(Abs()), id) && !old(isRetiring) && phase == Phase.Ready ==>
                if ok && !cfg.isBehindPooler && !old(pendingCancel).value.hasFailed then pendingCancel.None? && !isRetiring
                else isRetiring && inflight == old(inflight)
    {
      SettledBetween(cfg, Abs(), id, ok);
      CancelProtocol.SettledMeans(cfg, Abs(), id, ok);
      hide Between, CancelSettled;
      NoteSettled(id, ok);
    }

    method NoteSettled(id: nat, ok: bool)
      modifies this
      ensures Abs() == CancelSettled(cfg, old(Abs()), id, ok)
    {
      hide Scheduler.ResolveCanceledHead;
      if pendingCancel.None? || pendingCancel.value.id != id { return; }
      var pending := pendingCancel.value;
      pendingCancel := Some(if ok then pending.(isConfirmed := true) else pending.(hasFailed := true));
      if pending.head.None? { ResolveCanceledHead(); }
    }

    /** No confirmation came in time. */
    method OnPendingTimer(id: nat)
      requires Valid()
      modifies this
      ensures Abs() == PendingTimer(cfg, old(Abs()), id) && Valid()
      ensures CancelProtocol.HeadlessPending(old(Abs()), id) && phase == Phase.Ready ==> isRetiring && inflight == old(inflight) != []
    {
      SettledBetween(cfg, Abs(), id, true);
      CancelProtocol.TimerMeans(cfg, Abs(), id);
      hide Between, PendingTimer;
      NoteTimer(id);
    }

    method NoteTimer(id: nat)
      modifies this
      ensures Abs() == PendingTimer(cfg, old(Abs()), id)
    {
      hide Scheduler.ProcessQueue;
      if pendingCancel.Some? && pendingCancel.value.id == id && pendingCancel.value.head.None? {
        isRetiring := true;
        ProcessQueue();
      }
    }

    method EndCanceledHead(outcome: Outcome)
      requires pendingCancel.Some?
      modifies this
      ensures Abs() == Scheduler.EndCanceledHead(cfg, old(Abs()), outcome)
    {
      hide Scheduler.ResolveCanceledHead;
      var pending := pendingCancel.value;
      pendingCancel := Some(pending.(head := None));
      if outcome != Stopped && |inflight| > 0 { lateCancel := Some(Late(pending.id, Ids(inflight))); }
      if isRetiring { return; }
      if outcome == Stopped { ClearPendingCancel(); } else { ResolveCanceledHead(); }
    }

    method CheckLateCancel(t: Task, outcome: Outcome)
      requires lateCancel.Some?
      modifies this
      ensures Abs() == Scheduler.CheckLateCancel(old(Abs()), t, outcome)
    {
      var late := lateCancel.value;
      var suspects := late.suspects - {t.id};
      if outcome == Stopped && t.id !in cancelled {
        marked := marked + {t.id};
        suspects := {};
        if pendingCancel.Some? && pendingCancel.value.id == late.id && !isRetiring { ClearPendingCancel(); }
      }
      lateCancel := if suspects == {} then None else Some(Late(late.id, suspects));
    }

    method LeaveHead(t: Task, outcome: Outcome)
      modifies this
      ensures Abs() == Scheduler.LeaveHead(cfg, old(Abs()), t, outcome)
    {
      hide Scheduler.EndCanceledHead, Scheduler.CheckLateCancel;
      if lateCancel.Some? && t.id in lateCancel.value.suspects { CheckLateCancel(t, outcome); }
      if pendingCancel.Some? && pendingCancel.value.head == Some(t.id) { EndCanceledHead(outcome); }
    }

    /** A statement that DDL invalidated is run again, once; any other task is settled. */
    method RetryOrSettle(t: Task, outcome: Outcome)
      modifies this`retried, this`queue, this`settled
      ensures Abs() == GoesOn(old(Abs()), t, outcome)
    {
      if outcome == Invalidated && t.retryable && t.id !in cancelled && !inTransaction && t.id !in retried {
        retried := retried + {t.id};
        queue := queue + [t];
      } else {
        settled := settled + {t.id};
      }
    }

    method ShiftHead(txStatus: bool) returns (t: Task)
      requires inflight != []
      modifies this`inflight, this`ended, this`inTransaction
      ensures t == old(inflight[0]) && Abs() == WithoutHead(old(Abs()), txStatus)
    {
      t := inflight[0];
      inflight, ended, inTransaction := inflight[1..], ended + 1, txStatus;
    }

    method FinishHead(outcome: Outcome, txStatus: bool)
      modifies this
      ensures Abs() == Scheduler.FinishTask(cfg, old(Abs()), outcome, txStatus)
    {
      hide Scheduler.ProcessQueue, Scheduler.LeaveHead, GoesOn;
      if |inflight| == 0 {
        inTransaction := txStatus;
      } else {
        var t := ShiftHead(txStatus);
        LeaveHead(t, outcome);
        RetryOrSettle(t, outcome);
      }
      ProcessQueue();
    }

    /** ReadyForQuery with the error, if any, of the cycle it ends: the oldest task is settled, or run again
        exactly if DDL invalidated its statement, it can be repeated, and it was not before. */
    method FinishTask(outcome: Outcome, txStatus: bool)
      requires Valid() && phase == Phase.Ready
      modifies this
      ensures Abs() == Scheduler.FinishTask(cfg, old(Abs()), outcome, txStatus) && Valid() && !Undone(cfg, Abs())
      ensures old(inflight) != [] ==>
                var t := old(inflight)[0];
                var again := outcome.Invalidated? && t.retryable && t.id !in old(cancelled) && !txStatus && t.id !in old(retried);
                retried == old(retried) + (if again then {t.id} else {}) && (!again ==> t.id in settled)
    {
      FinishBetween(cfg, Abs(), outcome, txStatus);
      FinishRetries(cfg, Abs(), outcome, txStatus);
      hide Between, Undone, Scheduler.FinishTask;
      FinishHead(outcome, txStatus);
    }

    /** The socket drained, or took some bytes: `n` more writes fit. */
    method OnDrain(n: nat)
      requires Valid()
      modifies this
      ensures Abs() == Drain(cfg, old(Abs()), n) && Valid()
      ensures old(backedUp) ==> !Undone(cfg, Abs())
    {
      SocketBetween(cfg, Abs(), n);
      hide Between, Undone, Drain;
      GoOn(n);
    }

    method GoOn(n: nat)
      modifies this
      ensures Abs() == Drain(cfg, old(Abs()), n)
    {
      hide Scheduler.ProcessQueue;
      room := n;
      if backedUp { backedUp := false; ProcessQueue(); }
    }

    /** A reconnect attempt succeeded on a fresh socket. */
    method OnConnected(n: nat)
      requires Valid() && phase == Reconnecting
      modifies this
      ensures Abs() == Reestablished(cfg, old(Abs()), n) && Valid() && !Undone(cfg, Abs())
    {
      SocketBetween(cfg, Abs(), n);
      hide Between, Undone, Reestablished;
      StartSession(n);
    }

    method StartSession(n: nat)
      requires phase == Reconnecting
      modifies this
      ensures Abs() == Reestablished(cfg, old(Abs()), n)
    {
      hide Scheduler.ProcessQueue;
      phase, backedUp, inTransaction, room := Phase.Ready, false, false, n;
      ProcessQueue();
    }
  }

  lemma EndsAll(cfg: Config, c: Client)
    requires Between(cfg, c)
    ensures var r := Scheduler.End(c); r.phase.Closed? && r.queue == [] && r.inflight == [] && r.settled == r.accepted
  {
    Pipeline.NothingLeft(cfg, c);
    hide Pipeline.Inv, HeadKnown, Flushed;
  }

  lemma CancelOuts(cfg: Config, c: Client, id: nat)
    requires Between(cfg, c)
    ensures Pipeline.Distinct(c.queue)
    ensures var r := Scheduler.CancelTask(cfg, c, id);
            && id in r.cancelled && id in r.settled && r.inflight == c.inflight
            && (forall t :: t in r.queue <==> t in c.queue && t.id != id)
            && r.cancels == c.cancels + if cfg.canCancel && id !in c.cancelled && c.inflight != [] && c.inflight[0].id == id then 1 else 0
  {
    Pipeline.CancelledIsOut(cfg, c, id);
    QueueDistinct(cfg, c);
  }

  lemma FinishRetries(cfg: Config, c: Client, o: Outcome, tx: bool)
    requires Between(cfg, c) && c.phase.Ready?
    ensures var r := Scheduler.FinishTask(cfg, c, o, tx);
            c.inflight != [] ==>
              var t := c.inflight[0];
              var again := o.Invalidated? && t.retryable && t.id !in c.cancelled && !tx && t.id !in c.retried;
              r.retried == c.retried + (if again then {t.id} else {}) && (!again ==> t.id in r.settled)
  {
    if c.inflight != [] { Pipeline.AnswerRetriesIff(cfg, c, o, tx); }
  }

  lemma QueueDistinct(cfg: Config, c: Client)
    requires Pipeline.Inv(cfg, c)
    ensures Pipeline.Distinct(c.queue)
  {
    Pipeline.Subdistinct(c.inflight, c.queue);
  }

  lemma {:induction false} WithoutAt(ts: seq<Task>, id: nat, i: nat)
    requires i <= |ts|
    requires forall j :: 0 <= j < |ts| && j != i ==> ts[j].id != id
    requires i < |ts| ==> ts[i].id == id
    ensures Without(ts, id) == if i < |ts| then ts[..i] + ts[i + 1..] else ts
    decreases |ts|
  {
    if ts == [] {
    } else if i == 0 {
      WithoutAt(ts[1..], id, |ts| - 1);
    } else {
      WithoutAt(ts[1..], id, i - 1);
    }
  }
}
