/** The session's variables and its connection: one method for what runs between two waits. */
module CdcSessions {
  import opened Bytes
  import opened ReplicationAck
  import opened TransactionBatches
  import opened Cdc

  /** The loop's and stop()'s shared variables; one method for what runs between two waits. `net` is the
      server, the log it sends and what is on its way. */
  class CdcSession {
    ghost const log: seq<Txn>
    ghost const start: nat
    const idleAck: bool
    const maxEvents: nat
    var phase: Phase
    var stopping: bool
    var stop: Stop
    var handling: bool
    var pendingAckLsn: Option<nat>
    var attempt: nat
    var batch: Batch
    var repl: ReplicationConnection
    var batcher: Batcher
    ghost var base: nat
    ghost var txn: nat
    ghost var from: nat
    ghost var handled: set<(nat, nat)>
    ghost var net: Link

    ghost function Abs(): Session
      reads this
    {
      Session(phase, stopping, stop, handling, pendingAckLsn, attempt, batcher, batch, base, txn, from, handled)
    }

    ghost function Around(): World
      reads this
    {
      World(net, Abs())
    }

    /** The slot and everything on its way is safe: no position reaches past a transaction that is not handled. */
    ghost predicate Valid()
      reads this, repl
    {
      && WellFormed(log) && repl.idleAck == idleAck
      && (Open(phase) ==> net.conn == repl.Abs())
      && Cdc.Inv(log, start, Around())
    }

    ghost predicate Stepped(before: World, e: Cdc.Event)
      reads this, repl
    {
      Valid() && Around() == Cdc.Step(log, idleAck, maxEvents, before, e)
    }

    constructor (repl: ReplicationConnection, maxEvents: nat, ghost log: seq<Txn>, ghost start: nat)
      requires WellFormed(log)
      ensures Valid() && Around() == Begins(log, start)
      ensures this.repl == repl && this.log == log && this.start == start
    {
      this.log, this.start, this.idleAck, this.maxEvents, this.repl := log, start, repl.idleAck, maxEvents, repl;
      phase, stopping, stop, handling, pendingAckLsn, attempt := Connecting(false), false, NotStopped, false, None, 0;
      batch, batcher, base, txn, from, handled := Batch(0, [], None), Batcher(0, []), 0, 0, 0, {};
      net := Begins(log, start).net;
      new;
      Cdc.RunKeepsInv(log, start, idleAck, maxEvents, []);
    }

    /** The server, the wire and the timers go on. */
    ghost method Meanwhile(n: ReplicationAck.Event)
      requires Valid() && Outside(n) && Cdc.Possible(log, start, Around(), Net(n))
      modifies this`net
      ensures Stepped(old(Around()), Net(n))
    {
      OutsideKeepsInv(log, start, idleAck, Around(), n);
      hide Cdc.Inv;
      net := ReplicationAck.Step(log, idleAck, net, n);
    }

    /** A fresh connection's stream opens, not after the slot's position. */
    method OnStreamOpen(next: ReplicationConnection, ghost at: nat)
      requires Valid() && phase == Connecting(false) && !stopping && start <= at <= net.confirmed
      requires next.Abs() == NewConn() && next.idleAck == idleAck
      modifies this
      ensures Stepped(old(Around()), StreamOpens(at)) && repl == next
    {
      OpenKeepsInv(log, start, Around(), at);
      hide Cdc.Inv;
      repl, phase, batcher, base := next, Streaming, Batcher(0, []), 0;
      net := Resumed(log, net, at);
    }

    /** The loop reads one message; what comes out of the batcher goes to the handler, unless stop() was called. */
    method OnMessage(p: Packet, e: StreamEvent, commit: Option<Txn>)
      requires Valid() && phase == Streaming && net.down != [] && p == net.down[0]
      requires p.Data? ==> net.taken.txn < |log| && e == EventAt(log, net.taken)
      requires p.Data? ==> commit == if net.taken.part + 1 == Parts(log[net.taken.txn]) then Some(log[net.taken.txn]) else None
      modifies this, repl
      ensures Stepped(old(Around()), Message) && repl == old(repl)
      ensures phase.Handling? ==> !stopping && InHand(log, net.taken, Abs()) && HandledUpTo(handled, txn, from)
    {
      ReadKeepsInv(log, start, idleAck, maxEvents, Around());
      assert Within(log, net.taken);
      ghost var after := Read(log, idleAck, maxEvents, Around());
      assert after.s.phase.Handling? ==> !after.s.stopping && InHand(log, after.net.taken, after.s) && HandledUpTo(after.s.handled, after.s.txn, after.s.from);
      hide Cdc.Inv, InHand, HandledUpTo, Read;
      TakeMessage(p, e, commit);
    }

    method TakeMessage(p: Packet, e: StreamEvent, commit: Option<Txn>)
      requires net.conn == repl.Abs() && repl.idleAck == idleAck && Within(log, net.taken) && net.down != [] && p == net.down[0]
      requires p.Data? ==> net.taken.txn < |log| && e == EventAt(log, net.taken)
      requires p.Data? ==> commit == if net.taken.part + 1 == Parts(log[net.taken.txn]) then Some(log[net.taken.txn]) else None
      modifies this, repl
      ensures Around() == Read(log, idleAck, maxEvents, old(Around())) && net.conn == repl.Abs() && repl == old(repl)
    {
      ghost var after := Taken(log, idleAck, net);
      match p {
        case Loose(walStart) => repl.OnData(walStart, None);
        case Keepalive(walEnd, reply) => repl.OnKeepalive(walEnd, reply);
        case Data(walStart, _) => OnData(walStart, e, commit);
      }
      assert after.conn == repl.Abs();
      hide Taken, Kept, Received, Delivered, Feed, BatchArrives, EventAt, Parts;
      net := after;
    }

    method OnData(walStart: nat, e: StreamEvent, commit: Option<Txn>)
      requires Within(log, net.taken) && net.taken.txn < |log| && e == EventAt(log, net.taken)
      modifies repl, this`batcher, this`phase, this`handling, this`pendingAckLsn, this`batch, this`txn, this`from, this`base
      ensures repl.Abs() == (if commit.Some? then Delivered(Received(old(repl.Abs()), walStart), commit.value) else Received(old(repl.Abs()), walStart))
      ensures var (b, out) := Feed(old(batcher), e, maxEvents);
              var s := old(Abs()).(batcher := b, base := if net.taken.part == 0 then 0 else old(base));
              Abs() == if out.Some? then BatchArrives(s, out.value, net.taken.txn) else s
    {
      repl.OnData(walStart, commit);
      var (b, out) := Feed(batcher, e, maxEvents);
      hide Feed, EventAt, Received, Delivered;
      batcher := b;
      if net.taken.part == 0 { base := 0; }
      if out.Some? { OnBatch(out.value, net.taken.txn); }
    }

    method OnBatch(b: Batch, ghost t: nat)
      modifies this`phase, this`handling, this`pendingAckLsn, this`batch, this`txn, this`from, this`base
      ensures Abs() == BatchArrives(old(Abs()), b, t)
    {
      if stopping { phase := Over; return; }
      handling := true;
      pendingAckLsn := if b.commit.Some? then Some(b.commit.value.endLsn) else None;
      phase, batch, txn, from, base := Handling(true), b, t, base, base + |b.changes|;
    }

    /** The handler resolved: its batch is handled, and may be acknowledged if it ends a transaction. */
    method OnHandlerResolved()
      requires Valid() && phase == Handling(true)
      modifies this
      ensures Stepped(old(Around()), HandlerResolves) && repl == old(repl)
      ensures handled == old(handled) + PartsOf(old(Abs()))
      ensures phase == Resolved && stop == (if old(stop) == Awaiting then Settled(true) else old(stop))
      ensures pendingAckLsn.Some? ==> Handled(log, handled, txn) && pendingAckLsn.value == log[txn].endLsn
    {
      CdcStepKeepsInv(log, start, idleAck, maxEvents, Around(), HandlerResolves);
      handled := handled + PartsOf(Abs());
      phase := Resolved;
      if stop == Awaiting { stop := Settled(true); }
    }

    /** The handler rejected: unless stop() ends the loop or the budget is spent, the same batch is handled
        again; nothing of it counts as handled, and no position moves. */
    method OnHandlerRejected(retry: Retry)
      requires Valid() && phase == Handling(true)
      modifies this
      ensures Stepped(old(Around()), HandlerRejects(retry)) && repl == old(repl)
      ensures handled == old(handled) && net == old(net) && batch == old(batch)
      ensures phase.Handling? <==> !stopping && retry == Wait
      ensures phase.Handling? ==> InHand(log, net.taken, Abs()) && pendingAckLsn == CommitEnd(batch) && attempt == old(attempt) + 1
      ensures old(stop) == Awaiting ==> stop == Settled(false)
    {
      CdcStepKeepsInv(log, start, idleAck, maxEvents, Around(), HandlerRejects(retry));
      assert InHand(log, net.taken, Abs()) && pendingAckLsn == CommitEnd(batch);
      ghost var before := Around();
      RejectVars(retry);
      SessionOnlyChanges(log, before, Around());
      hide Cdc.Inv, InHand, CommitEnd;
    }

    method RejectVars(retry: Retry)
      modifies this`stop, this`phase, this`attempt
      ensures Abs() == OnReject(old(Abs()), retry)
    {
      if stop == Awaiting { stop := Settled(false); }
      if stopping { phase := Over; return; }
      attempt := attempt + 1;
      match retry {
        case Wait => phase := Handling(false);
        case GiveUp => phase := Over;
        case Throws => phase, attempt := Connecting(false), attempt + 1;
      }
    }

    /** A retry's wait is over: the same batch goes to the handler again, unless stop() was called. */
    method OnRetryWakes()
      requires Valid() && phase == Handling(false)
      modifies this`phase
      ensures Stepped(old(Around()), RetryWakes)
      ensures phase == (if stopping then Over else Handling(true)) && InHand(log, net.taken, Abs())
    {
      CdcStepKeepsInv(log, start, idleAck, maxEvents, Around(), RetryWakes);
      ghost var before := Around();
      assert InHand(log, net.taken, Abs());
      phase := if stopping then Over else Handling(true);
      SessionOnlyChanges(log, before, Around());
      hide Cdc.Inv, InHand;
    }

    /** A backfill or resume callback is started, or its promise settles; `ok` is its outcome. */
    method OnCallback(ok: bool)
      requires Valid() && (phase == Connecting(true) || (phase == Connecting(false) && !stopping))
      modifies this`phase, this`stop
      ensures Stepped(old(Around()), if old(phase) == Connecting(true) then CallbackSettles(ok) else StartCallback)
      ensures handled == old(handled) && net == old(net)
    {
      CdcStepKeepsInv(log, start, idleAck, maxEvents, Around(), if phase == Connecting(true) then CallbackSettles(ok) else StartCallback);
      hide Cdc.Inv;
      if phase == Connecting(true) {
        phase := Connecting(false);
        if stop == Awaiting { stop := Settled(ok); }
      } else {
        phase := Connecting(true);
      }
    }

    /** The loop goes on after a batch: everything delivered is acknowledged before the next message is read. */
    method LoopRunsOn()
      requires Valid() && phase == Resolved
      modifies this, repl
      ensures Stepped(old(Around()), Cdc.Event.LoopRunsOn) && repl == old(repl)
      ensures repl.lastDeliveredEnd <= repl.flushed && pendingAckLsn == None
      ensures old(pendingAckLsn).Some? ==> repl.flushed >= old(pendingAckLsn).value
      ensures attempt == (if old(pendingAckLsn).Some? then 0 else old(attempt)) && phase == Streaming && !handling
      ensures repl.Abs() == if old(pendingAckLsn).Some? then Acked(old(repl.Abs()), old(pendingAckLsn).value) else old(repl.Abs())
    {
      CdcStepKeepsInv(log, start, idleAck, maxEvents, Around(), Cdc.Event.LoopRunsOn);
      ghost var after := RunOn(Around());
      assert after.net.conn.lastDeliveredEnd <= after.net.conn.flushed;
      hide Cdc.Inv;
      RunOnVars();
    }

    method RunOnVars()
      requires phase == Resolved && net.conn == repl.Abs()
      modifies this, repl
      ensures Around() == RunOn(old(Around())) && net.conn == repl.Abs() && repl == old(repl)
    {
      if pendingAckLsn.Some? {
        net := AckSent(net, pendingAckLsn.value);
        repl.Ack(pendingAckLsn.value);
        pendingAckLsn, attempt := None, 0;
      }
      handling, phase := false, Streaming;
    }

    /** stop(): with a handler's promise pending it waits for that first; a second call changes nothing. */
    method StopCall()
      requires Valid()
      modifies this
      ensures Stepped(old(Around()), StopCalled) && repl == old(repl)
      ensures stopping && stop != NotStopped && (old(stop) != NotStopped ==> Around() == old(Around()))
      ensures old(stop) == NotStopped ==>
                stop == if phase == Handling(true) || (phase == Connecting(true) && handling) then Awaiting else Stopped
    {
      CdcStepKeepsInv(log, start, idleAck, maxEvents, Around(), StopCalled);
      if stop != NotStopped { return; }
      stopping := true;
      var pending := phase == Handling(true) || phase == Connecting(true);
      if handling && pending { stop := Awaiting; } else { stop := Stopped; }
    }

    /** stop() goes on once the promise it awaited settled; it acknowledges only what that handler completed. */
    method StopRunsOn()
      requires Valid() && stop.Settled?
      modifies this, repl
      ensures Stepped(old(Around()), Cdc.Event.StopRunsOn) && repl == old(repl) && stop == Stopped
      ensures !old(stop).ok ==> net == old(net) && repl.Abs() == old(repl.Abs())
      ensures old(stop).ok && old(pendingAckLsn).Some? && Open(phase) ==>
                && repl.flushed >= old(pendingAckLsn).value && pendingAckLsn == None
                && repl.written == old(repl.written) + (if repl.flushed > old(repl.flushed) then [Status(repl.lastReceived, repl.flushed)] else [])
                && net.up == old(net).up + (if repl.flushed > old(repl.flushed) then [Status(repl.lastReceived, repl.flushed)] else [])
      ensures handled == old(handled)
    {
      CdcStepKeepsInv(log, start, idleAck, maxEvents, Around(), Cdc.Event.StopRunsOn);
      hide Cdc.Inv;
      AckHandled();
    }

    method AckHandled()
      requires stop.Settled? && (Open(phase) ==> net.conn == repl.Abs())
      modifies this, repl
      ensures Around() == StopOn(old(Around())) && repl == old(repl) && (Open(phase) ==> net.conn == repl.Abs())
      ensures old(stop).ok && old(pendingAckLsn).Some? ==>
                && repl.Abs() == Acked(old(repl.Abs()), old(pendingAckLsn).value) && repl.flushed >= old(pendingAckLsn).value
                && repl.written == old(repl.written) + (if repl.flushed > old(repl.flushed) then [Status(repl.lastReceived, repl.flushed)] else [])
      ensures !(old(stop).ok && old(pendingAckLsn).Some?) ==> repl.Abs() == old(repl.Abs()) && net == old(net)
    {
      if stop.ok && pendingAckLsn.Some? {
        net := AckOn(Around(), pendingAckLsn.value);
        repl.Ack(pendingAckLsn.value);
        pendingAckLsn := None;
      }
      stop := Stopped;
    }

    /** The stream failed: a new connection is tried unless stop() was called or the budget is spent. What was
        not handled is not counted, and the slot keeps its position, so it is sent again. */
    method OnSessionFailed(retry: Retry)
      requires Valid() && (phase == Streaming || phase == Connecting(false))
      modifies this
      ensures Stepped(old(Around()), SessionFails(retry)) && repl == old(repl)
      ensures phase == (if stopping || retry != Wait then Over else Connecting(false))
      ensures handled == old(handled) && net == old(net) && attempt == old(attempt) + (if phase == Over then 0 else 1)
    {
      CdcStepKeepsInv(log, start, idleAck, maxEvents, Around(), SessionFails(retry));
      if stopping { phase := Over; return; }
      if retry != Wait { phase := Over; return; }
      attempt := attempt + 1;
      phase := Connecting(false);
    }
  }
}
