/** A managed change-data-capture session: handler, in-place retry, acknowledgement, reconnect and stop,
    on top of the replication connection and its server. */
module Cdc {
  import opened Bytes
  import opened ReplicationAck
  import opened TransactionBatches

  /** Where the session loop is. `Connecting`: no stream; `callback` is true while a backfill or resume
      callback is pending. `Handling`: a batch is with the handler, whose promise is pending if `running`,
      else a retry is waited for. `Resolved`: the promise resolved and the loop has not run on. */
  datatype Phase = Connecting(callback: bool) | Streaming | Handling(running: bool) | Resolved | Over

  /** `Awaiting`: stop() waits for the promise it found pending; `Settled`: that promise settled. */
  datatype Stop = NotStopped | Awaiting | Settled(ok: bool) | Stopped

  /** `txn`, `from`: which changes of which transaction the batch in hand is; `base`: how many changes of
      the transaction being read were yielded before; `handled`: changes for which the handler resolved
      (position |changes| stands for the commit fields). */
  datatype Session = Session(phase: Phase, stopping: bool, stop: Stop, handling: bool, pendingAck: Option<nat>, attempt: nat,
                             batcher: Batcher, batch: Batch, base: nat, txn: nat, from: nat, handled: set<(nat, nat)>)

  datatype World = World(net: Link, s: Session)

  /** What the retry delay function says: wait, give up, or it throws. */
  datatype Retry = Wait | GiveUp | Throws

  datatype Event = Net(e: ReplicationAck.Event) | StartCallback | CallbackSettles(ok: bool) | StreamOpens(at: nat)
                 | Message | HandlerResolves | HandlerRejects(retry: Retry) | RetryWakes | LoopRunsOn
                 | SessionFails(retry: Retry) | StopCalled | StopRunsOn

  function Open(p: Phase): bool
  {
    p.Streaming? || p.Handling? || p.Resolved?
  }

  function EventAt(log: seq<Txn>, c: Cursor): StreamEvent
    requires Within(log, c) && c.txn < |log|
  {
    var t := log[c.txn];
    if c.part == 0 then Begin(t.xid)
    else if c.part == Parts(t) - 1 then Commit(t.lsn, t.endLsn)
    else Change(t.changes[c.part - 1])
  }

  // ---- one step of each kind ----

  /** A fresh connection's stream opens at the slot's position. */
  function StreamOpened(log: seq<Txn>, w: World, at: nat): World
  {
    World(Resumed(log, w.net, at), w.s.(phase := Streaming, batcher := Batcher(0, []), base := 0))
  }

  /** A batch came out of the batcher: none reaches the handler once stop() was called. */
  function BatchArrives(s: Session, b: Batch, txn: nat): Session
  {
    if s.stopping then s.(phase := Over)
    else s.(phase := Handling(true), handling := true, batch := b, txn := txn, from := s.base,
            base := s.base + |b.changes|,
            pendingAck := if b.commit.Some? then Some(b.commit.value.endLsn) else None)
  }

  /** The loop reads one message. */
  function Read(log: seq<Txn>, idleAck: bool, max: nat, w: World): World
    requires w.net.down != [] && Within(log, w.net.taken) && (w.net.down[0].Data? ==> w.net.taken.txn < |log|)
  {
    var net := Taken(log, idleAck, w.net);
    if !w.net.down[0].Data? then World(net, w.s)
    else
      var c := w.net.taken;
      var (b, out) := Feed(w.s.batcher, EventAt(log, c), max);
      var s := w.s.(batcher := b, base := if c.part == 0 then 0 else w.s.base);
      World(net, if out.Some? then BatchArrives(s, out.value, c.txn) else s)
  }

  function Settle(s: Session, ok: bool): Stop
  {
    if s.stop == Awaiting then Settled(ok) else s.stop
  }

  /** The parts of the transaction that the batch in hand stands for. */
  function PartsOf(s: Session): set<(nat, nat)>
  {
    set k | s.from <= k < s.from + |s.batch.changes| + (if s.batch.commit.Some? then 1 else 0) :: (s.txn, k)
  }

  function OnResolve(s: Session): Session
  {
    s.(phase := Resolved, stop := Settle(s, true), handled := s.handled + PartsOf(s))
  }

  function OnReject(s: Session, retry: Retry): Session
  {
    var s1 := s.(stop := Settle(s, false));
    if s.stopping then s1.(phase := Over)
    else match retry
      case Wait => s1.(phase := Handling(false), attempt := s.attempt + 1)
      case GiveUp => s1.(phase := Over, attempt := s.attempt + 1)
      case Throws => s1.(phase := Connecting(false), attempt := s.attempt + 2)
  }

  /** An acknowledgement on a connection that is not streaming reaches no slot. */
  function AckOn(w: World, v: nat): Link
  {
    if Open(w.s.phase) then AckSent(w.net, v) else w.net
  }

  /** The loop goes on after the handler resolved: acknowledge, and only then forget the attempts. */
  function RunOn(w: World): World
  {
    var s := w.s.(phase := Streaming, handling := false);
    if w.s.pendingAck.Some? then World(AckOn(w, w.s.pendingAck.value), s.(pendingAck := None, attempt := 0))
    else World(w.net, s)
  }

  function OnStop(s: Session): Session
  {
    if s.stop != NotStopped then s
    else
      var pending := s.phase == Handling(true) || s.phase == Connecting(true);
      s.(stopping := true, stop := if s.handling && pending then Awaiting else Stopped)
  }

  function StopOn(w: World): World
    requires w.s.stop.Settled?
  {
    var s := w.s.(stop := Stopped);
    if w.s.stop.ok && w.s.pendingAck.Some? then World(AckOn(w, w.s.pendingAck.value), s.(pendingAck := None))
    else World(w.net, s)
  }

  function OnFailure(s: Session, retry: Retry): Session
  {
    if s.stopping || retry != Wait then s.(phase := Over) else s.(phase := Connecting(false), attempt := s.attempt + 1)
  }

  /** The server, the wire and the timers; the loop reads and acknowledges by steps of its own. */
  predicate Outside(e: ReplicationAck.Event)
  {
    e.Send? || e.SendLoose? || e.SendKeepalive? || e.Report? || e.ServerReads? || e.Lose?
  }

  function Step(log: seq<Txn>, idleAck: bool, max: nat, w: World, e: Event): World
  {
    match e
    case Net(n) => if Outside(n) then w.(net := ReplicationAck.Step(log, idleAck, w.net, n)) else w
    case StartCallback => if w.s.phase == Connecting(false) && !w.s.stopping then w.(s := w.s.(phase := Connecting(true))) else w
    case CallbackSettles(ok) =>
      if w.s.phase == Connecting(true) then w.(s := w.s.(phase := Connecting(false), stop := Settle(w.s, ok))) else w
    case StreamOpens(at) => if w.s.phase == Connecting(false) && !w.s.stopping then StreamOpened(log, w, at) else w
    case Message =>
      if w.s.phase == Streaming && w.net.down != [] && Within(log, w.net.taken) && (w.net.down[0].Data? ==> w.net.taken.txn < |log|)
      then Read(log, idleAck, max, w) else w
    case HandlerResolves => if w.s.phase == Handling(true) then w.(s := OnResolve(w.s)) else w
    case HandlerRejects(retry) => if w.s.phase == Handling(true) then w.(s := OnReject(w.s, retry)) else w
    case RetryWakes =>
      if w.s.phase == Handling(false) then w.(s := w.s.(phase := if w.s.stopping then Over else Handling(true))) else w
    case LoopRunsOn => if w.s.phase == Resolved then RunOn(w) else w
    case SessionFails(retry) => if w.s.phase == Streaming || w.s.phase == Connecting(false) then w.(s := OnFailure(w.s, retry)) else w
    case StopCalled => w.(s := OnStop(w.s))
    case StopRunsOn => if w.s.stop.Settled? then StopOn(w) else w
  }

  function Begins(log: seq<Txn>, start: nat): World
  {
    World(Resumed(log, Link(start, Cursor(0, 0), Cursor(0, 0), [], [], NewConn()), start),
          Session(Connecting(false), false, NotStopped, false, None, 0, Batcher(0, []), Batch(0, [], None), 0, 0, 0, {}))
  }

  function Run(log: seq<Txn>, start: nat, idleAck: bool, max: nat, events: seq<Event>): World
  {
    if events == [] then Begins(log, start)
    else Step(log, idleAck, max, Run(log, start, idleAck, max, events[..|events| - 1]), events[|events| - 1])
  }

  /** The hypotheses: a new stream starts no later than the slot's position, and a keepalive names a
      position before the end of every commit that the server sends after it. */
  ghost predicate Possible(log: seq<Txn>, start: nat, w: World, e: Event)
  {
    match e
    case StreamOpens(at) => start <= at <= w.net.confirmed
    case Net(SendKeepalive(walEnd, _)) => forall i :: w.net.sent.txn <= i < |log| ==> walEnd < log[i].endLsn
    case _ => true
  }

  ghost predicate PossibleRun(log: seq<Txn>, start: nat, idleAck: bool, max: nat, events: seq<Event>)
  {
    forall k :: 0 <= k < |events| ==> Possible(log, start, Run(log, start, idleAck, max, events[..k]), events[k])
  }

  // ---- the invariant ----

  /** The handler resolved for every change of the transaction and for its commit fields. */
  ghost predicate Handled(log: seq<Txn>, handled: set<(nat, nat)>, i: nat)
    requires i < |log|
  {
    forall k :: 0 <= k <= |log[i].changes| ==> (i, k) in handled
  }

  ghost function Done(log: seq<Txn>, handled: set<(nat, nat)>): set<nat>
  {
    set i | 0 <= i < |log| && Handled(log, handled, i)
  }

  ghost predicate HandledUpTo(handled: set<(nat, nat)>, txn: nat, n: nat)
  {
    forall k :: 0 <= k < n ==> (txn, k) in handled
  }

  /** Every transaction before `n` that the slot did not start with is done. */
  ghost predicate DoneBefore(log: seq<Txn>, start: nat, handled: set<(nat, nat)>, n: nat)
    requires n <= |log|
  {
    forall i :: 0 <= i < n && start < log[i].endLsn ==> Handled(log, handled, i)
  }

  /** The batcher holds the changes read and not yet yielded of the transaction being read. */
  ghost predicate Reading(log: seq<Txn>, c: Cursor, s: Session)
  {
    Within(log, c) &&
    (c.txn < |log| && c.part > 0 ==>
      && s.base <= c.part - 1
      && s.batcher == Batcher(log[c.txn].xid, log[c.txn].changes[s.base..c.part - 1]))
  }

  /** The batch in hand is a stretch of a transaction's changes, with its commit fields if it is the last. */
  ghost predicate InHand(log: seq<Txn>, c: Cursor, s: Session)
  {
    && Within(log, c) && s.txn < |log|
    && s.from + |s.batch.changes| <= |log[s.txn].changes|
    && s.batch.xid == log[s.txn].xid
    && s.batch.changes == log[s.txn].changes[s.from..s.from + |s.batch.changes|]
    && (match s.batch.commit
        case None => c.txn == s.txn && c.part > 0 && s.base == s.from + |s.batch.changes|
        case Some(f) => && f == CommitFields(log[s.txn].lsn, log[s.txn].endLsn)
                        && c == Cursor(s.txn + 1, 0) && s.from + |s.batch.changes| == |log[s.txn].changes|)
  }

  function CommitEnd(b: Batch): Option<nat>
  {
    if b.commit.Some? then Some(b.commit.value.endLsn) else None
  }

  ghost predicate Progress(log: seq<Txn>, start: nat, net: Link, s: Session)
    requires Within(log, net.taken)
  {
    match s.phase
    case Streaming =>
      && Reading(log, net.taken, s)
      && DoneBefore(log, start, s.handled, net.taken.txn)
      && (net.taken.part > 0 ==> HandledUpTo(s.handled, net.taken.txn, s.base))
      && net.conn.lastDeliveredEnd <= net.conn.flushed
    case Handling(_) =>
      && Reading(log, net.taken, s) && InHand(log, net.taken, s)
      && DoneBefore(log, start, s.handled, s.txn)
      && HandledUpTo(s.handled, s.txn, s.from)
      && s.pendingAck == CommitEnd(s.batch) && s.handling
      && CommitReached(net, s)
    case Resolved =>
      && Reading(log, net.taken, s) && InHand(log, net.taken, s)
      && DoneBefore(log, start, s.handled, net.taken.txn)
      && (net.taken.part > 0 ==> HandledUpTo(s.handled, net.taken.txn, s.base))
      && (s.pendingAck == CommitEnd(s.batch) || (s.pendingAck == None && net.conn.lastDeliveredEnd <= net.conn.flushed))
      && CommitReached(net, s)
    case _ => true
  }

  /** The commit that the batch in hand ends with is the last one delivered; else all delivered is acknowledged. */
  ghost predicate CommitReached(net: Link, s: Session)
  {
    if s.batch.commit.Some? then net.conn.lastDeliveredEnd == s.batch.commit.value.endLsn
    else net.conn.lastDeliveredEnd <= net.conn.flushed
  }

  /** stop() acknowledges what is pending only for the batch that resolved: a position left over from a
      batch that was never handled is not acknowledged. */
  ghost predicate StopInv(s: Session)
  {
    && (s.stop != NotStopped ==> s.stopping)
    && (s.stop == Awaiting ==> s.phase == Handling(true) || s.phase == Connecting(true))
    && (s.stop == Settled(true) && s.pendingAck.Some? ==> !s.phase.Streaming? && !s.phase.Handling?)
  }

  ghost predicate Inv(log: seq<Txn>, start: nat, w: World)
  {
    && ReplicationAck.Inv(log, start, w.net, Done(log, w.s.handled))
    && Within(log, w.net.taken)
    && Progress(log, start, w.net, w.s)
    && StopInv(w.s)
  }

  // ---- every step keeps it ----

  lemma MonotoneDone(log: seq<Txn>, start: nat, w: Link, a: set<(nat, nat)>, b: set<(nat, nat)>)
    requires a <= b && ReplicationAck.Inv(log, start, w, Done(log, a))
    ensures ReplicationAck.Inv(log, start, w, Done(log, b))
  {
    assert forall i :: i in Done(log, a) ==> i in Done(log, b);
  }

  lemma OutsideKeepsInv(log: seq<Txn>, start: nat, idleAck: bool, w: World, n: ReplicationAck.Event)
    requires WellFormed(log) && Inv(log, start, w) && Outside(n) && Possible(log, start, w, Net(n))
    ensures Inv(log, start, w.(net := ReplicationAck.Step(log, idleAck, w.net, n)))
  {
    StepKeepsInv(log, start, idleAck, w.net, Done(log, w.s.handled), n);
  }

  lemma OpenKeepsInv(log: seq<Txn>, start: nat, w: World, at: nat)
    requires WellFormed(log) && Inv(log, start, w) && start <= at <= w.net.confirmed
    requires w.s.phase == Connecting(false) && !w.s.stopping
    ensures Inv(log, start, StreamOpened(log, w, at))
  {
    ResumeKeepsInv(log, start, w.net, Done(log, w.s.handled), at);
    forall i | 0 <= i < FirstAfter(log, at, 0) && start < log[i].endLsn ensures Handled(log, w.s.handled, i) {
      assert i in Done(log, w.s.handled);
    }
  }

  /** Reading one message: what comes out of the batcher is the next stretch of the transaction. */
  lemma ReadKeepsInv(log: seq<Txn>, start: nat, idleAck: bool, max: nat, w: World)
    requires WellFormed(log) && Inv(log, start, w) && w.s.phase == Streaming && w.net.down != []
    ensures w.net.down[0].Data? ==> w.net.taken.txn < |log|
    ensures Inv(log, start, Read(log, idleAck, max, w))
  {
    TakeKeepsInv(log, start, idleAck, w.net, Done(log, w.s.handled));
    if w.net.down[0].Data? { ReadDataProgress(log, start, idleAck, max, w); }
  }

  lemma LastDelivered(log: seq<Txn>, start: nat, w: World)
    requires WellFormed(log) && Inv(log, start, w) && w.net.taken.txn < |log|
    ensures w.net.conn.lastDeliveredEnd < log[w.net.taken.txn].endLsn
  {
    hide SafeAt, Stream, Progress, StopInv;
    var i := w.net.taken.txn;
    assert i > 0 ==> log[i - 1].endLsn <= log[i].lsn < log[i].endLsn;
  }

  lemma ReadDataProgress(log: seq<Txn>, start: nat, idleAck: bool, max: nat, w: World)
    requires WellFormed(log) && Inv(log, start, w) && w.s.phase == Streaming && w.net.down != []
    requires w.net.down[0].Data? && w.net.taken.txn < |log|
    ensures Progress(log, start, Read(log, idleAck, max, w).net, Read(log, idleAck, max, w).s)
    ensures Read(log, idleAck, max, w).s.handled == w.s.handled
  {
    LastDelivered(log, start, w);
    hide ReplicationAck.Inv, Handled, StopInv;
    var c := w.net.taken;
    if c.part == 0 { ReadBegin(log, start, idleAck, max, w); }
    else if c.part < Parts(log[c.txn]) - 1 { ReadChange(log, start, idleAck, max, w); }
    else { ReadCommit(log, start, idleAck, max, w); }
  }

  lemma ReadBegin(log: seq<Txn>, start: nat, idleAck: bool, max: nat, w: World)
    requires Within(log, w.net.taken) && Progress(log, start, w.net, w.s) && w.s.phase == Streaming && w.net.down != []
    requires w.net.down[0].Data? && w.net.taken.txn < |log| && w.net.taken.part == 0
    ensures Progress(log, start, Read(log, idleAck, max, w).net, Read(log, idleAck, max, w).s)
    ensures Read(log, idleAck, max, w).s.handled == w.s.handled
  {
    hide Handled;
    assert log[w.net.taken.txn].changes[0..0] == [];
  }

  lemma ReadChange(log: seq<Txn>, start: nat, idleAck: bool, max: nat, w: World)
    requires Within(log, w.net.taken) && Progress(log, start, w.net, w.s) && w.s.phase == Streaming && w.net.down != []
    requires w.net.down[0].Data? && w.net.taken.txn < |log| && 0 < w.net.taken.part < Parts(log[w.net.taken.txn]) - 1
    ensures Progress(log, start, Read(log, idleAck, max, w).net, Read(log, idleAck, max, w).s)
    ensures Read(log, idleAck, max, w).s.handled == w.s.handled
  {
    hide Handled, DoneBefore, HandledUpTo;
    var c := w.net.taken;
    var t := log[c.txn];
    assert t.changes[w.s.base..c.part - 1] + [t.changes[c.part - 1]] == t.changes[w.s.base..c.part];
  }

  lemma ReadCommit(log: seq<Txn>, start: nat, idleAck: bool, max: nat, w: World)
    requires Within(log, w.net.taken) && Progress(log, start, w.net, w.s) && w.s.phase == Streaming && w.net.down != []
    requires w.net.down[0].Data? && w.net.taken.txn < |log| && w.net.taken.part == Parts(log[w.net.taken.txn]) - 1
    requires w.net.conn.lastDeliveredEnd < log[w.net.taken.txn].endLsn
    ensures Progress(log, start, Read(log, idleAck, max, w).net, Read(log, idleAck, max, w).s)
    ensures Read(log, idleAck, max, w).s.handled == w.s.handled
  {
    hide Handled, DoneBefore, HandledUpTo;
  }

  lemma ResolveKeepsInv(log: seq<Txn>, start: nat, w: World)
    requires Inv(log, start, w) && w.s.phase == Handling(true)
    ensures Inv(log, start, w.(s := OnResolve(w.s)))
  {
    var s := OnResolve(w.s);
    MonotoneDone(log, start, w.net, w.s.handled, s.handled);
    assert forall k: nat :: w.s.from <= k < w.s.from + |w.s.batch.changes| ==> (w.s.txn, k) in s.handled;
    if w.s.batch.commit.Some? { assert (w.s.txn, |log[w.s.txn].changes|) in PartsOf(w.s); }
  }

  /** When the handler has resolved for a batch with commit fields, everything delivered is done, so its
      position may be acknowledged, by the loop or by stop(). */
  lemma AckKeepsLink(log: seq<Txn>, start: nat, w: World)
    requires WellFormed(log) && Inv(log, start, w) && w.s.phase == Resolved && w.s.pendingAck.Some?
    ensures ReplicationAck.Inv(log, start, AckSent(w.net, w.s.pendingAck.value), Done(log, w.s.handled))
    ensures AckSent(w.net, w.s.pendingAck.value).conn.flushed >= w.net.conn.lastDeliveredEnd
    ensures AckSent(w.net, w.s.pendingAck.value).conn.lastDeliveredEnd == w.net.conn.lastDeliveredEnd
  {
    AckKeepsInv(log, start, w.net, Done(log, w.s.handled), w.s.pendingAck.value);
  }

  lemma RunOnKeepsInv(log: seq<Txn>, start: nat, w: World)
    requires WellFormed(log) && Inv(log, start, w) && w.s.phase == Resolved
    ensures Inv(log, start, RunOn(w))
  {
    if w.s.pendingAck.Some? { AckKeepsLink(log, start, w); }
  }

  lemma StopOnKeepsInv(log: seq<Txn>, start: nat, w: World)
    requires WellFormed(log) && Inv(log, start, w) && w.s.stop.Settled?
    ensures Inv(log, start, StopOn(w))
  {
    if w.s.phase == Resolved && w.s.pendingAck.Some? { AckKeepsLink(log, start, w); }
  }

  predicate SessionOnly(e: Event)
  {
    e.StartCallback? || e.CallbackSettles? || e.HandlerRejects? || e.RetryWakes? || e.SessionFails? || e.StopCalled?
  }

  lemma SessionStepKeepsInv(log: seq<Txn>, start: nat, idleAck: bool, max: nat, w: World, e: Event)
    requires Inv(log, start, w) && SessionOnly(e)
    ensures Inv(log, start, Step(log, idleAck, max, w, e))
  {
    hide ReplicationAck.Inv, Done, Reading, InHand, DoneBefore, HandledUpTo, CommitReached;
    assert Step(log, idleAck, max, w, e).net == w.net && Step(log, idleAck, max, w, e).s.handled == w.s.handled;
    SessionOnlyChanges(log, w, Step(log, idleAck, max, w, e));
  }

  /** What the invariant says of the log reads none of the fields that these steps change. */
  lemma SessionOnlyChanges(log: seq<Txn>, w: World, w': World)
    ensures w'.s.(phase := w.s.phase, stopping := w.s.stopping, stop := w.s.stop, attempt := w.s.attempt) == w.s && w'.net == w.net ==>
              && (Within(log, w.net.taken) && Reading(log, w.net.taken, w.s) ==> Reading(log, w'.net.taken, w'.s))
              && (InHand(log, w.net.taken, w.s) ==> InHand(log, w'.net.taken, w'.s))
              && (CommitReached(w.net, w.s) ==> CommitReached(w'.net, w'.s))
  {
  }

  lemma InvParts(log: seq<Txn>, start: nat, w: World)
    requires Inv(log, start, w)
    ensures Within(log, w.net.taken) && ReplicationAck.Inv(log, start, w.net, Done(log, w.s.handled))
  {
  }

  lemma CdcStepKeepsInv(log: seq<Txn>, start: nat, idleAck: bool, max: nat, w: World, e: Event)
    requires WellFormed(log) && Inv(log, start, w) && Possible(log, start, w, e)
    ensures Inv(log, start, Step(log, idleAck, max, w, e))
  {
    hide Inv, Within, ReplicationAck.Inv, Done, Taken, AckSent, ReplicationAck.Step, BatchArrives, Feed;
    if SessionOnly(e) { SessionStepKeepsInv(log, start, idleAck, max, w, e); return; }
    assert Within(log, w.net.taken) && ReplicationAck.Inv(log, start, w.net, Done(log, w.s.handled)) by { InvParts(log, start, w); }
    match e
    case Net(n) => if Outside(n) { OutsideKeepsInv(log, start, idleAck, w, n); }
    case StreamOpens(at) => if w.s.phase == Connecting(false) && !w.s.stopping { OpenKeepsInv(log, start, w, at); }
    case Message => if w.s.phase == Streaming && w.net.down != [] { ReadKeepsInv(log, start, idleAck, max, w); }
    case HandlerResolves => if w.s.phase == Handling(true) { ResolveKeepsInv(log, start, w); }
    case LoopRunsOn => if w.s.phase == Resolved { RunOnKeepsInv(log, start, w); }
    case StopRunsOn => if w.s.stop.Settled? { StopOnKeepsInv(log, start, w); }
    case _ =>
  }

  // ---- over whole runs ----

  lemma {:induction false} RunKeepsInv(log: seq<Txn>, start: nat, idleAck: bool, max: nat, events: seq<Event>)
    requires WellFormed(log) && PossibleRun(log, start, idleAck, max, events)
    ensures Inv(log, start, Run(log, start, idleAck, max, events))
  {
    if events == [] {
      ResumeKeepsInv(log, start, Link(start, Cursor(0, 0), Cursor(0, 0), [], [], NewConn()), Done(log, {}), start);
    } else {
      var before := events[..|events| - 1];
      assert forall k :: 0 <= k < |before| ==> before[..k] == events[..k];
      RunKeepsInv(log, start, idleAck, max, before);
      CdcStepKeepsInv(log, start, idleAck, max, Run(log, start, idleAck, max, before), events[|events| - 1]);
    }
  }

  /** At least once: over every run, with failing handlers, retries, stop() at any moment and reconnects,
      whenever the slot's position has reached the end of a transaction, the handler has resolved for every
      change of it and for its commit. */
  lemma AtLeastOnce(log: seq<Txn>, start: nat, idleAck: bool, max: nat, events: seq<Event>, i: nat)
    requires WellFormed(log) && PossibleRun(log, start, idleAck, max, events)
    requires i < |log| && start < log[i].endLsn <= Run(log, start, idleAck, max, events).net.confirmed
    ensures Handled(log, Run(log, start, idleAck, max, events).s.handled, i)
  {
    RunKeepsInv(log, start, idleAck, max, events);
    assert i in Done(log, Run(log, start, idleAck, max, events).s.handled);
  }

  /** The handler is given nothing but stretches of committed transactions, under the right xid and commit
      fields, and all that came before in the transaction was handled. */
  lemma HandlerSeesTheLog(log: seq<Txn>, start: nat, idleAck: bool, max: nat, events: seq<Event>)
    requires WellFormed(log) && PossibleRun(log, start, idleAck, max, events)
    requires Run(log, start, idleAck, max, events).s.phase.Handling?
    ensures var w := Run(log, start, idleAck, max, events);
            InHand(log, w.net.taken, w.s) && HandledUpTo(w.s.handled, w.s.txn, w.s.from)
  {
    RunKeepsInv(log, start, idleAck, max, events);
  }

  /** Between batches everything delivered is acknowledged, so idle keepalives always move the slot. */
  lemma IdleMeansAcknowledged(log: seq<Txn>, start: nat, idleAck: bool, max: nat, events: seq<Event>)
    requires WellFormed(log) && PossibleRun(log, start, idleAck, max, events)
    requires Run(log, start, idleAck, max, events).s.phase == Streaming
    ensures var c := Run(log, start, idleAck, max, events).net.conn; c.lastDeliveredEnd <= c.flushed
    ensures var c := Run(log, start, idleAck, max, events).net.conn; forall walEnd :: Kept(c, true, walEnd).flushed >= walEnd
  {
    RunKeepsInv(log, start, idleAck, max, events);
  }

  // ---- stop() ----

  /** stop() waits exactly when it finds a promise of the handler pending, or one of a callback that came after a
      handler was left by a throw of the retry delay; else it ends the session at once. Nothing else moves. */
  lemma StopWaitsIff(log: seq<Txn>, start: nat, idleAck: bool, max: nat, events: seq<Event>)
    requires WellFormed(log) && PossibleRun(log, start, idleAck, max, events)
    requires Run(log, start, idleAck, max, events).s.stop == NotStopped
    ensures var w := Run(log, start, idleAck, max, events);
            var r := Step(log, idleAck, max, w, StopCalled);
            && r.net == w.net && r.s.phase == w.s.phase && r.s.stopping
            && r.s.stop == (if w.s.phase == Handling(true) || (w.s.phase == Connecting(true) && w.s.handling) then Awaiting else Stopped)
  {
    RunKeepsInv(log, start, idleAck, max, events);
    var w := Run(log, start, idleAck, max, events);
    hide Run, PossibleRun, Step, WellFormed, Inv;
    MarkedWhileHandling(log, start, w);
    StopStep(log, idleAck, max, w);
  }

  lemma StopStep(log: seq<Txn>, idleAck: bool, max: nat, w: World)
    requires w.s.stop == NotStopped && (w.s.phase.Handling? ==> w.s.handling)
    ensures var r := Step(log, idleAck, max, w, StopCalled);
            && r.net == w.net && r.s.phase == w.s.phase && r.s.stopping
            && r.s.stop == (if w.s.phase == Handling(true) || (w.s.phase == Connecting(true) && w.s.handling) then Awaiting else Stopped)
  {
  }

  lemma MarkedWhileHandling(log: seq<Txn>, start: nat, w: World)
    requires Inv(log, start, w)
    ensures w.s.phase.Handling? ==> w.s.handling
  {
    hide ReplicationAck.Inv, Reading, InHand, DoneBefore, HandledUpTo, CommitReached;
  }

  /** The batch that stop() waited for has resolved: its position is acknowledged, or still is to be. */
  ghost predicate Owes(w: World, l: nat)
  {
    && w.s.stopping && (w.s.phase == Resolved || w.s.phase == Streaming || w.s.phase == Over)
    && (w.s.stop == Settled(true) || w.s.stop == Stopped)
    && (w.net.conn.flushed >= l || (w.s.stop == Settled(true) && w.s.phase == Resolved && w.s.pendingAck == Some(l)))
  }

  lemma AckReaches(w: Link, v: nat)
    ensures AckSent(w, v).conn.flushed >= v && AckSent(w, v).conn.flushed >= w.conn.flushed
  {
  }

  lemma ReadKeepsFlushed(log: seq<Txn>, idleAck: bool, max: nat, w: World)
    requires w.net.down != [] && Within(log, w.net.taken) && (w.net.down[0].Data? ==> w.net.taken.txn < |log|)
    ensures Read(log, idleAck, max, w).net.conn.flushed >= w.net.conn.flushed
  {
    hide Feed;
  }

  lemma OwesKept(log: seq<Txn>, idleAck: bool, max: nat, w: World, l: nat, e: Event)
    requires Owes(w, l)
    ensures Owes(Step(log, idleAck, max, w, e), l)
  {
    match e
    case Message =>
      if w.s.phase == Streaming && w.net.down != [] && Within(log, w.net.taken) && (w.net.down[0].Data? ==> w.net.taken.txn < |log|) {
        ReadKeepsFlushed(log, idleAck, max, w);
      }
    case LoopRunsOn => if w.s.pendingAck.Some? { AckReaches(w.net, w.s.pendingAck.value); }
    case StopRunsOn => if w.s.pendingAck.Some? { AckReaches(w.net, w.s.pendingAck.value); }
    case _ =>
  }

  lemma {:induction false} OwesAlways(log: seq<Txn>, start: nat, idleAck: bool, max: nat, before: seq<Event>, after: seq<Event>, l: nat)
    requires Owes(Run(log, start, idleAck, max, before), l)
    ensures Owes(Run(log, start, idleAck, max, before + after), l)
    decreases |after|
  {
    if after == [] {
      assert before + after == before;
    } else {
      var n := |after| - 1;
      assert (before + after)[..|before + after| - 1] == before + after[..n];
      hide Owes, Step;
      OwesAlways(log, start, idleAck, max, before, after[..n], l);
      OwesKept(log, idleAck, max, Run(log, start, idleAck, max, before + after[..n]), l, after[n]);
    }
  }

  /** What stop() waited for is acknowledged: the handler held the last batch of a transaction when stop() was
      called and then resolved; whatever comes after, once stop() has ended the flushed position covers the
      transaction, whether the loop or stop() acknowledged it. */
  lemma StopAcknowledges(log: seq<Txn>, start: nat, idleAck: bool, max: nat, before: seq<Event>, after: seq<Event>)
    requires WellFormed(log) && PossibleRun(log, start, idleAck, max, before)
    requires var s := Run(log, start, idleAck, max, before).s; s.phase == Handling(true) && s.stop == Awaiting && s.batch.commit.Some?
    requires Run(log, start, idleAck, max, before + [HandlerResolves] + after).s.stop == Stopped
    ensures Run(log, start, idleAck, max, before + [HandlerResolves] + after).net.conn.flushed
            >= Run(log, start, idleAck, max, before).s.batch.commit.value.endLsn
  {
    RunKeepsInv(log, start, idleAck, max, before);
    var w := Run(log, start, idleAck, max, before);
    var l := w.s.batch.commit.value.endLsn;
    assert (before + [HandlerResolves])[..|before|] == before;
    assert w.s.pendingAck == Some(l) && w.s.stopping;
    assert Owes(Run(log, start, idleAck, max, before + [HandlerResolves]), l);
    OwesAlways(log, start, idleAck, max, before + [HandlerResolves], after, l);
  }
}
