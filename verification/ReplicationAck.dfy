/** The acknowledgement side of a replication connection: what it reports as flushed, against a server
    that streams a log of transactions from a durable slot. */
module ReplicationAck {
  import opened Bytes

  /** `lsn`: position of the commit record; `endLsn`: the first position after it. */
  datatype Txn = Txn(xid: nat, lsn: nat, endLsn: nat, changes: seq<nat>)

  /** Transactions in commit order, in disjoint stretches of the log. */
  ghost predicate WellFormed(log: seq<Txn>)
  {
    && (forall i :: 0 <= i < |log| ==> log[i].lsn < log[i].endLsn)
    && (forall i, j :: 0 <= i < j < |log| ==> log[i].endLsn <= log[j].lsn)
  }

  /** A transaction is streamed in parts: its begin, its changes, its commit. */
  function Parts(t: Txn): nat
  {
    |t.changes| + 2
  }

  datatype Cursor = Cursor(txn: nat, part: nat)

  predicate Within(log: seq<Txn>, c: Cursor)
  {
    if c.txn < |log| then c.part < Parts(log[c.txn]) else c == Cursor(|log|, 0)
  }

  function Next(log: seq<Txn>, c: Cursor): (r: Cursor)
    requires Within(log, c) && c.txn < |log|
    ensures Within(log, r)
  {
    if c.part + 1 == Parts(log[c.txn]) then Cursor(c.txn + 1, 0) else Cursor(c.txn, c.part + 1)
  }

  datatype Conn = Conn(lastReceived: nat, flushed: nat, lastDeliveredStart: nat, lastDeliveredEnd: nat)

  datatype Status = Status(written: nat, flushed: nat)

  /** `Loose` is a message outside any transaction. */
  datatype Packet = Data(walStart: nat, at: Cursor) | Loose(walStart: nat) | Keepalive(walEnd: nat, reply: bool)

  function Max(a: nat, b: nat): nat
  {
    if a < b then b else a
  }

  function NewConn(): Conn
  {
    Conn(0, 0, 0, 0)
  }

  /** A position inside the last delivered commit's record stands for the end of that record. */
  function Normalized(c: Conn, v: nat): nat
  {
    if c.lastDeliveredStart <= v < c.lastDeliveredEnd then c.lastDeliveredEnd else v
  }

  function Acked(c: Conn, v: nat): Conn
  {
    c.(flushed := Max(c.flushed, Normalized(c, v)))
  }

  function Delivered(c: Conn, t: Txn): Conn
  {
    if t.endLsn > c.lastDeliveredEnd then c.(lastDeliveredStart := t.lsn, lastDeliveredEnd := t.endLsn) else c
  }

  function Received(c: Conn, position: nat): Conn
  {
    c.(lastReceived := Max(c.lastReceived, position))
  }

  /** With nothing unacknowledged, an idle slot's position follows the server. */
  function Kept(c: Conn, idleAck: bool, walEnd: nat): Conn
  {
    var c1 := Received(c, walEnd);
    if idleAck && c.flushed >= c.lastDeliveredEnd then c1.(flushed := Max(c.flushed, walEnd)) else c1
  }

  function StatusOf(c: Conn): Status
  {
    Status(c.lastReceived, c.flushed)
  }

  // ---- connection and server ----

  /** `confirmed`: the slot's position. `sent`, `taken`: how far the server has sent the log and the
      client has read it; `down`, `up`: what is on its way. */
  datatype Link = Link(confirmed: nat, sent: Cursor, taken: Cursor, down: seq<Packet>, up: seq<Status>, conn: Conn)

  /** `Resume`: a new connection, whose stream starts after the slot's position; a server that lost some
      of what was confirmed starts from an earlier one. `Process`: the consumer is done with a transaction. */
  datatype Event = Resume(from: nat) | Send(walStart: nat) | SendLoose(walStart: nat) | SendKeepalive(walEnd: nat, reply: bool)
                 | Take | Ack(v: nat) | Report | ServerReads | Lose | Process(txn: nat)

  /** The first transaction that ends after `position`. */
  function FirstAfter(log: seq<Txn>, position: nat, i: nat): (r: nat)
    requires i <= |log|
    ensures i <= r <= |log|
    ensures forall k :: i <= k < r ==> log[k].endLsn <= position
    ensures r < |log| ==> position < log[r].endLsn
    decreases |log| - i
  {
    if i < |log| && log[i].endLsn <= position then FirstAfter(log, position, i + 1) else i
  }

  function Resumed(log: seq<Txn>, w: Link, from: nat): Link
  {
    var first := Cursor(FirstAfter(log, from, 0), 0);
    Link(from, first, first, [], [], NewConn())
  }

  function Sent(log: seq<Txn>, w: Link, walStart: nat): Link
    requires Within(log, w.sent) && w.sent.txn < |log|
  {
    w.(sent := Next(log, w.sent), down := w.down + [Data(walStart, w.sent)])
  }

  /** The client reads one packet. */
  function Taken(log: seq<Txn>, idleAck: bool, w: Link): Link
    requires w.down != [] && Within(log, w.taken) && (w.down[0].Data? ==> w.taken.txn < |log|)
  {
    var w1 := w.(down := w.down[1..]);
    match w.down[0]
    case Loose(walStart) => w1.(conn := Received(w.conn, walStart))
    case Keepalive(walEnd, reply) =>
      var c := Kept(w.conn, idleAck, walEnd);
      w1.(conn := c, up := if reply then w.up + [StatusOf(c)] else w.up)
    case Data(walStart, at) =>
      var c := Received(w.conn, walStart);
      w1.(taken := Next(log, w.taken),
          conn := if w.taken.part + 1 == Parts(log[w.taken.txn]) then Delivered(c, log[w.taken.txn]) else c)
  }

  function AckSent(w: Link, v: nat): Link
  {
    var c := Acked(w.conn, v);
    w.(conn := c, up := if c.flushed > w.conn.flushed then w.up + [StatusOf(c)] else w.up)
  }

  /** The slot's position moves forward only. */
  function ServerRead(w: Link): Link
    requires w.up != []
  {
    w.(confirmed := Max(w.confirmed, w.up[0].flushed), up := w.up[1..])
  }

  // ---- safety ----

  /** Every transaction that ends within (`start`, `position`] is done. */
  ghost predicate SafeAt(log: seq<Txn>, start: nat, position: nat, done: set<nat>)
  {
    forall i :: 0 <= i < |log| && start < log[i].endLsn <= position ==> i in done
  }

  /** The packets under way are the log from `c` on, up to `sent`; a keepalive among them names a
      position before the end of every commit after it. */
  ghost predicate Stream(log: seq<Txn>, down: seq<Packet>, c: Cursor, sent: Cursor)
    decreases |down|
  {
    Within(log, c) &&
    if down == [] then c == sent
    else match down[0]
      case Data(_, at) => c.txn < |log| && at == c && Stream(log, down[1..], Next(log, c), sent)
      case Loose(_) => Stream(log, down[1..], c, sent)
      case Keepalive(walEnd, _) => (c.txn < |log| ==> walEnd < log[c.txn].endLsn) && Stream(log, down[1..], c, sent)
  }

  ghost predicate Inv(log: seq<Txn>, start: nat, w: Link, done: set<nat>)
  {
    && start <= w.confirmed
    && Stream(log, w.down, w.taken, w.sent)
    && SafeAt(log, start, w.confirmed, done)
    && SafeAt(log, start, w.conn.flushed, done)
    && (forall s :: s in w.up ==> SafeAt(log, start, s.flushed, done))
    && DeliveredInv(log, start, w, done)
  }

  /** What was read on this connection ends at the last delivered commit; what was read before is done. */
  ghost predicate DeliveredInv(log: seq<Txn>, start: nat, w: Link, done: set<nat>)
  {
    && w.taken.txn <= |log|
    && (w.conn.lastDeliveredEnd == 0 ||
        (w.taken.txn > 0 && w.conn.lastDeliveredStart == log[w.taken.txn - 1].lsn
         && w.conn.lastDeliveredEnd == log[w.taken.txn - 1].endLsn))
    && (forall i :: 0 <= i < w.taken.txn && start < log[i].endLsn ==> i in done || log[i].endLsn <= w.conn.lastDeliveredEnd)
  }

  /** The two hypotheses. A keepalive's position lies before the end of every commit that the server sends
      later. The consumer acknowledges nothing beyond what was delivered, and a position only when it is
      done with every delivered transaction whose commit record starts at or before that position. */
  ghost predicate Possible(log: seq<Txn>, start: nat, w: Link, done: set<nat>, e: Event)
  {
    match e
    case Resume(from) => start <= from <= w.confirmed
    case SendKeepalive(walEnd, _) => forall i :: w.sent.txn <= i < |log| ==> walEnd < log[i].endLsn
    case Ack(v) => AckAllowed(log, start, w, done, v)
    case _ => true
  }

  ghost predicate AckAllowed(log: seq<Txn>, start: nat, w: Link, done: set<nat>, v: nat)
  {
    && v <= w.conn.lastDeliveredEnd
    && forall i :: 0 <= i < w.taken.txn && i < |log| && start < log[i].endLsn && log[i].lsn <= v ==> i in done
  }

  function Step(log: seq<Txn>, idleAck: bool, w: Link, e: Event): Link
  {
    match e
    case Resume(from) => Resumed(log, w, from)
    case Send(walStart) => if Within(log, w.sent) && w.sent.txn < |log| then Sent(log, w, walStart) else w
    case SendLoose(walStart) => w.(down := w.down + [Loose(walStart)])
    case SendKeepalive(walEnd, reply) => w.(down := w.down + [Keepalive(walEnd, reply)])
    case Take => if w.down != [] && Within(log, w.taken) && (w.down[0].Data? ==> w.taken.txn < |log|) then Taken(log, idleAck, w) else w
    case Ack(v) => AckSent(w, v)
    case Report => w.(up := w.up + [StatusOf(w.conn)])
    case ServerReads => if w.up == [] then w else ServerRead(w)
    case Lose => if w.up == [] then w else w.(up := w.up[1..])
    case Process(_) => w
  }

  function DoneAfter(done: set<nat>, e: Event): set<nat>
  {
    if e.Process? then done + {e.txn} else done
  }

  lemma {:induction false} StreamWithin(log: seq<Txn>, down: seq<Packet>, c: Cursor, sent: Cursor)
    requires Stream(log, down, c, sent)
    ensures Within(log, c) && Within(log, sent) && c.txn <= sent.txn
    decreases |down|
  {
    if down != [] {
      match down[0]
      case Data(_, _) => StreamWithin(log, down[1..], Next(log, c), sent);
      case _ => StreamWithin(log, down[1..], c, sent);
    }
  }

  lemma {:induction false} StreamAppend(log: seq<Txn>, down: seq<Packet>, c: Cursor, sent: Cursor, p: Packet)
    requires Stream(log, down, c, sent)
    requires p.Data? ==> sent.txn < |log| && p.at == sent
    requires p.Keepalive? && sent.txn < |log| ==> p.walEnd < log[sent.txn].endLsn
    ensures Within(log, sent)
    ensures Stream(log, down + [p], c, if p.Data? then Next(log, sent) else sent)
    decreases |down|
  {
    StreamWithin(log, down, c, sent);
    if down == [] {
      assert (down + [p])[1..] == [];
    } else {
      assert (down + [p])[1..] == down[1..] + [p];
      match down[0]
      case Data(_, _) => StreamAppend(log, down[1..], Next(log, c), sent, p);
      case _ => StreamAppend(log, down[1..], c, sent, p);
    }
  }

  /** An acknowledgement of what is done moves the slot only over what is done. */
  lemma AckKeepsInv(log: seq<Txn>, start: nat, w: Link, done: set<nat>, v: nat)
    requires WellFormed(log) && Inv(log, start, w, done) && AckAllowed(log, start, w, done, v)
    ensures Inv(log, start, AckSent(w, v), done)
  {
    var n := Normalized(w.conn, v);
    var last := w.taken.txn - 1;
    assert forall i :: 0 <= last < i < |log| ==> log[last].endLsn <= log[i].lsn < log[i].endLsn;
    assert forall i :: 0 <= i < last ==> log[i].lsn < log[i].endLsn <= log[last].lsn;
    assert SafeAt(log, start, n, done);
  }

  /** Reading a packet keeps the invariant: in particular, an idle keepalive passes no transaction that
      is not done, because it stands in the stream before the commits it does not cover. */
  lemma TakeKeepsInv(log: seq<Txn>, start: nat, idleAck: bool, w: Link, done: set<nat>)
    requires WellFormed(log) && Inv(log, start, w, done) && w.down != []
    ensures Within(log, w.taken) && (w.down[0].Data? ==> w.taken.txn < |log|)
    ensures Inv(log, start, Taken(log, idleAck, w), done)
  {
    match w.down[0]
    case Loose(_) =>
    case Keepalive(walEnd, _) => KeepaliveIsSafe(log, start, w, done, walEnd);
    case Data(_, _) =>
      var i := w.taken.txn;
      forall j | 0 <= j < i ensures log[j].endLsn < log[i].endLsn {}
  }

  lemma KeepaliveIsSafe(log: seq<Txn>, start: nat, w: Link, done: set<nat>, walEnd: nat)
    requires WellFormed(log) && SafeAt(log, start, w.conn.flushed, done) && DeliveredInv(log, start, w, done)
    requires w.taken.txn < |log| ==> walEnd < log[w.taken.txn].endLsn
    ensures w.conn.flushed >= w.conn.lastDeliveredEnd ==> SafeAt(log, start, walEnd, done)
  {
    assert forall i :: w.taken.txn < i < |log| ==> log[w.taken.txn].endLsn <= log[i].lsn < log[i].endLsn;
  }

  lemma ResumeKeepsInv(log: seq<Txn>, start: nat, w: Link, done: set<nat>, from: nat)
    requires WellFormed(log) && SafeAt(log, start, w.confirmed, done) && start <= from <= w.confirmed
    ensures Inv(log, start, Resumed(log, w, from), done)
  {
  }

  lemma SendKeepsInv(log: seq<Txn>, start: nat, idleAck: bool, w: Link, done: set<nat>, e: Event)
    requires Inv(log, start, w, done) && Possible(log, start, w, done, e) && (e.Send? || e.SendLoose? || e.SendKeepalive?)
    ensures Inv(log, start, Step(log, idleAck, w, e), done)
  {
    StreamWithin(log, w.down, w.taken, w.sent);
    hide SafeAt;
    match e
    case Send(walStart) => if w.sent.txn < |log| { StreamAppend(log, w.down, w.taken, w.sent, Data(walStart, w.sent)); }
    case SendLoose(walStart) => StreamAppend(log, w.down, w.taken, w.sent, Loose(walStart));
    case SendKeepalive(walEnd, reply) => StreamAppend(log, w.down, w.taken, w.sent, Keepalive(walEnd, reply));
  }

  /** Status messages are sent, read and lost. */
  lemma StatusKeepsInv(log: seq<Txn>, start: nat, idleAck: bool, w: Link, done: set<nat>, e: Event)
    requires Inv(log, start, w, done) && (e.Report? || e.ServerReads? || e.Lose?)
    ensures Inv(log, start, Step(log, idleAck, w, e), done)
  {
    hide SafeAt, Stream;
    if w.up != [] { assert w.up[0] in w.up && forall s :: s in w.up[1..] ==> s in w.up; }
  }

  lemma StepKeepsInv(log: seq<Txn>, start: nat, idleAck: bool, w: Link, done: set<nat>, e: Event)
    requires WellFormed(log) && Inv(log, start, w, done) && Possible(log, start, w, done, e)
    ensures Inv(log, start, Step(log, idleAck, w, e), DoneAfter(done, e))
  {
    if e.Process? {
    } else if e.Resume? {
      ResumeKeepsInv(log, start, w, done, e.from);
    } else if e.Take? {
      if w.down != [] { TakeKeepsInv(log, start, idleAck, w, done); }
    } else {
      hide Inv, Possible, AckSent;
      if e.Ack? { AckAllowedIs(log, start, w, done, e); AckKeepsInv(log, start, w, done, e.v); }
      else if e.Send? || e.SendLoose? || e.SendKeepalive? { SendKeepsInv(log, start, idleAck, w, done, e); }
      else { StatusKeepsInv(log, start, idleAck, w, done, e); }
    }
  }

  lemma AckAllowedIs(log: seq<Txn>, start: nat, w: Link, done: set<nat>, e: Event)
    requires e.Ack? && Possible(log, start, w, done, e)
    ensures AckAllowed(log, start, w, done, e.v)
  {
  }

  // ---- runs ----

  datatype State = State(w: Link, done: set<nat>)

  /** The stream starts at the slot's position `start`; nothing after it is done. */
  function Run(log: seq<Txn>, start: nat, idleAck: bool, events: seq<Event>): State
  {
    if events == [] then State(Resumed(log, Link(start, Cursor(0, 0), Cursor(0, 0), [], [], NewConn()), start), {})
    else
      var s := Run(log, start, idleAck, events[..|events| - 1]);
      var e := events[|events| - 1];
      State(Step(log, idleAck, s.w, e), DoneAfter(s.done, e))
  }

  ghost predicate PossibleRun(log: seq<Txn>, start: nat, idleAck: bool, events: seq<Event>)
  {
    forall k :: 0 <= k < |events| ==>
      var s := Run(log, start, idleAck, events[..k]);
      Possible(log, start, s.w, s.done, events[k])
  }

  /** Whatever consumer sits on the connection: over every run, whenever the slot's position has reached
      the end of a transaction, the consumer was done with that transaction. */
  lemma {:induction false} NeverPastUnprocessed(log: seq<Txn>, start: nat, idleAck: bool, events: seq<Event>)
    requires WellFormed(log) && PossibleRun(log, start, idleAck, events)
    ensures var s := Run(log, start, idleAck, events);
            Inv(log, start, s.w, s.done) && SafeAt(log, start, s.w.confirmed, s.done)
  {
    if events == [] {
      ResumeKeepsInv(log, start, Link(start, Cursor(0, 0), Cursor(0, 0), [], [], NewConn()), {}, start);
    } else {
      var before := events[..|events| - 1];
      assert forall k :: 0 <= k < |before| ==> before[..k] == events[..k];
      NeverPastUnprocessed(log, start, idleAck, before);
      var s := Run(log, start, idleAck, before);
      StepKeepsInv(log, start, idleAck, s.w, s.done, events[|events| - 1]);
    }
  }

  // ---- the connection's fields ----

  class ReplicationConnection {
    const idleAck: bool
    var lastReceived: nat
    var flushed: nat
    var lastDeliveredStart: nat
    var lastDeliveredEnd: nat
    /** The status messages written to the socket. */
    ghost var written: seq<Status>

    ghost function Abs(): Conn
      reads this
    {
      Conn(lastReceived, flushed, lastDeliveredStart, lastDeliveredEnd)
    }

    constructor (idleAck: bool)
      ensures Abs() == NewConn() && written == [] && this.idleAck == idleAck
    {
      this.idleAck := idleAck;
      lastReceived, flushed, lastDeliveredStart, lastDeliveredEnd := 0, 0, 0, 0;
      written := [];
    }

    method SendStatus()
      modifies this`written
      ensures written == old(written) + [Status(lastReceived, flushed)]
    {
      written := written + [Status(lastReceived, flushed)];
    }

    /** A status goes out only if the position moved. */
    method Ack(lsn: nat)
      modifies this`flushed, this`written
      ensures Abs() == Acked(old(Abs()), lsn)
      ensures flushed >= old(flushed) && flushed >= lsn && flushed in {old(flushed), lsn, lastDeliveredEnd}
      ensures lastDeliveredStart <= lsn < lastDeliveredEnd ==> flushed >= lastDeliveredEnd
      ensures written == if flushed > old(flushed) then old(written) + [StatusOf(Abs())] else old(written)
    {
      var v := lsn;
      if v >= lastDeliveredStart && v < lastDeliveredEnd { v := lastDeliveredEnd; }
      if v > flushed {
        flushed := v;
        SendStatus();
      }
    }

    method OnKeepalive(walEnd: nat, replyRequested: bool)
      modifies this`lastReceived, this`flushed, this`written
      ensures Abs() == Kept(old(Abs()), idleAck, walEnd)
      ensures lastReceived >= walEnd && lastReceived in {old(lastReceived), walEnd} && lastReceived >= old(lastReceived)
      ensures flushed in {old(flushed), walEnd} && flushed >= old(flushed) && (flushed >= walEnd <==> old(flushed) >= walEnd || (idleAck && old(flushed) >= lastDeliveredEnd))
      ensures written == if replyRequested then old(written) + [StatusOf(Abs())] else old(written)
    {
      if walEnd > lastReceived { lastReceived := walEnd; }
      if idleAck && flushed >= lastDeliveredEnd && walEnd > flushed { flushed := walEnd; }
      if replyRequested { SendStatus(); }
    }

    /** XLogData. `commit`: the transaction, if the message is its commit. */
    method OnData(walStart: nat, commit: Option<Txn>)
      modifies this`lastReceived, this`lastDeliveredStart, this`lastDeliveredEnd
      ensures Abs() == if commit.Some? then Delivered(Received(old(Abs()), walStart), commit.value) else Received(old(Abs()), walStart)
      ensures lastReceived >= walStart && lastReceived in {old(lastReceived), walStart} && lastReceived >= old(lastReceived)
      ensures commit.Some? ==> lastDeliveredEnd >= commit.value.endLsn
    {
      if walStart > lastReceived { lastReceived := walStart; }
      if commit.Some? && commit.value.endLsn > lastDeliveredEnd {
        lastDeliveredStart := commit.value.lsn;
        lastDeliveredEnd := commit.value.endLsn;
      }
    }
  }
}
