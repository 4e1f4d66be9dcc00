/** The client side of one connection as a value: the task lists, the outbound batch and the
    cancel bookkeeping of src/connection.ts, with one function per operation. The class in
    ConnectionClass.dfy does the same in place; the lemmas about runs are stated here and in
    CancelProtocol.dfy. */
module Scheduler {
  import opened Bytes

  /** How a task's serialization ends: with its bytes, or with an exception after some partial output. */
  datatype Payload = Serialized(bytes: seq<byte>) | Throws(partial: seq<byte>)

  /** `retryable`: named, not a stream, no caller-declared mapper, not in wire mode. */
  datatype Task = Task(id: nat, stream: bool, retryable: bool, payload: Payload)

  /** The error a command cycle ended with: none, SQLSTATE 57014, SQLSTATE 0A000 or 26000, any other. */
  datatype Outcome = Done | Stopped | Invalidated | Failed

  datatype Phase = Ready | Reconnecting | Closed

  datatype Pending = Pending(id: nat, head: Option<nat>, isConfirmed: bool, hasFailed: bool)
  datatype Late = Late(id: nat, suspects: set<nat>)

  datatype Config = Config(depth: nat, microtask: bool, isBehindPooler: bool, reconnect: bool, canCancel: bool)

  /** `room` is the socket's: the writes it accepts before it reports that it is full.
      `log`, `ended` and `sent` record the current socket: tasks dispatched, cycles ended, bytes written. */
  datatype Client = Client(
    phase: Phase, queue: seq<Task>, inflight: seq<Task>, outbuf: seq<byte>, backedUp: bool, room: nat,
    pending: Option<Pending>, isRetiring: bool, late: Option<Late>, inTransaction: bool,
    accepted: set<nat>, cancelled: set<nat>, retried: set<nat>, settled: set<nat>, marked: set<nat>,
    cancels: nat, log: seq<Task>, ended: nat, sent: seq<byte>)

  const FLUSH_THRESHOLD := 65536

  function Ids(ts: seq<Task>): (r: set<nat>)
  {
    set t <- ts :: t.id
  }

  function PayloadBytes(t: Task): seq<byte>
  {
    match t.payload
    case Serialized(b) => b
    case Throws(_) => []
  }

  /** The wire image of a dispatch log. */
  function LogBytes(log: seq<Task>): (r: seq<byte>)
  {
    if log == [] then [] else LogBytes(log[..|log| - 1]) + PayloadBytes(log[|log| - 1])
  }

  function Initial(): Client
  {
    Client(Ready, [], [], [], false, 0, None, false, None, false, {}, {}, {}, {}, {}, 0, [], 0, [])
  }

  function Flush(c: Client): Client
  {
    if c.outbuf == [] then c
    else c.(sent := c.sent + c.outbuf, outbuf := [], backedUp := c.backedUp || c.room == 0,
            room := if c.room == 0 then 0 else c.room - 1)
  }

  predicate CanStartNext(c: Client)
    requires c.queue != []
  {
    && c.pending.None?
    && (c.inflight == [] || (!c.inflight[0].stream && !c.queue[0].stream))
  }

  /** A task that throws while it serializes is rejected and leaves the batch as it was. */
  function StartTask(c: Client, t: Task): Client
  {
    match t.payload
    case Throws(_) => c.(settled := c.settled + {t.id})
    case Serialized(b) => c.(outbuf := c.outbuf + b, inflight := c.inflight + [t], log := c.log + [t])
  }

  predicate MayDispatch(cfg: Config, c: Client)
  {
    c.queue != [] && |c.inflight| < cfg.depth && !c.backedUp && CanStartNext(c)
  }

  function DispatchOne(c: Client): Client
    requires c.queue != []
  {
    var c1 := StartTask(c.(queue := c.queue[1..]), c.queue[0]);
    if |c1.outbuf| >= FLUSH_THRESHOLD then Flush(c1) else c1
  }

  function DispatchAll(cfg: Config, c: Client): (r: Client)
    decreases |c.queue|
  {
    if MayDispatch(cfg, c) then DispatchAll(cfg, DispatchOne(c)) else c
  }

  function FinalFlush(cfg: Config, c: Client): Client
  {
    if cfg.microtask && cfg.depth > 1 && |c.outbuf| < FLUSH_THRESHOLD then c else Flush(c)
  }

  function ProcessQueue(cfg: Config, c: Client): Client
  {
    if !c.phase.Ready? then c
    else if c.isRetiring then (if c.inflight == [] then SocketDown(cfg, c) else c)
    else FinalFlush(cfg, DispatchAll(cfg, c))
  }

  function ClearPendingCancel(c: Client): Client
  {
    c.(pending := None, isRetiring := false)
  }

  /** The socket died. In-flight tasks are rejected, never replayed. */
  function SocketDown(cfg: Config, c: Client): Client
  {
    if !c.phase.Ready? then c
    else
      var c1 := ClearPendingCancel(c).(outbuf := [], inflight := [], settled := c.settled + Ids(c.inflight),
                                       log := [], ended := 0, sent := []);
      if cfg.reconnect then c1.(phase := Reconnecting)
      else c1.(phase := Closed, queue := [], settled := c1.settled + Ids(c.queue))
  }

  function End(c: Client): Client
  {
    if c.phase.Closed? then c
    else ClearPendingCancel(c).(phase := Closed, outbuf := [], late := None, queue := [], inflight := [],
                                settled := c.settled + Ids(c.inflight) + Ids(c.queue),
                                log := [], ended := 0, sent := [])
  }

  function Reestablished(cfg: Config, c: Client, room: nat): Client
  {
    if c.phase.Reconnecting? then ProcessQueue(cfg, c.(phase := Ready, backedUp := false, inTransaction := false, room := room)) else c
  }

  /** The reconnect loop ran out of retries or met a fatal error. */
  function GiveUp(c: Client): Client
  {
    if c.phase.Reconnecting? then c.(phase := Closed, queue := [], settled := c.settled + Ids(c.queue)) else c
  }

  function Submit(cfg: Config, c: Client, t: Task): Client
  {
    if c.phase.Closed? then c.(accepted := c.accepted + {t.id}, settled := c.settled + {t.id})
    else ProcessQueue(cfg, c.(accepted := c.accepted + {t.id}, queue := c.queue + [t]))
  }

  function Drain(cfg: Config, c: Client, room: nat): Client
  {
    var c1 := c.(room := room);
    if c.backedUp then ProcessQueue(cfg, c1.(backedUp := false)) else c1
  }

  function Without(ts: seq<Task>, id: nat): (r: seq<Task>)
    ensures forall t :: t in r <==> t in ts && t.id != id
    ensures |r| <= |ts|
  {
    if ts == [] then []
    else if ts[0].id == id then Without(ts[1..], id)
    else
      var rest := Without(ts[1..], id);
      assert ts == [ts[0]] + ts[1..];
      [ts[0]] + rest
  }

  function SendCancelRequest(cfg: Config, c: Client, head: nat): Client
  {
    if !cfg.canCancel then c
    else c.(isRetiring := c.isRetiring || c.pending.Some?,
            pending := Some(Pending(c.cancels, Some(head), false, false)), cancels := c.cancels + 1)
  }

  /** A timeout or an abort of task `id`. Only the head of the in-flight list is worth a cancel request. */
  function CancelTask(cfg: Config, c: Client, id: nat): Client
  {
    if id in c.cancelled then c
    else
      var c1 := c.(cancelled := c.cancelled + {id}, settled := c.settled + {id});
      if id in Ids(c.inflight) then
        if c.inflight[0].id == id then SendCancelRequest(cfg, c1, id) else c1
      else c1.(queue := Without(c.queue, id))
  }

  function ResolveCanceledHead(cfg: Config, c: Client): Client
    requires c.pending.Some?
  {
    if c.isRetiring then c
    else if c.pending.value.hasFailed || (c.pending.value.isConfirmed && cfg.isBehindPooler) then
      ProcessQueue(cfg, c.(isRetiring := true))
    else if c.pending.value.isConfirmed then ProcessQueue(cfg, ClearPendingCancel(c))
    else c
  }

  /** The transport's cancel promise settled: `ok` when the server closed the cancel connection. */
  function CancelSettled(cfg: Config, c: Client, id: nat, ok: bool): Client
  {
    if c.pending.Some? && c.pending.value.id == id then
      var p := c.pending.value;
      var c1 := c.(pending := Some(if ok then p.(isConfirmed := true) else p.(hasFailed := true)));
      if p.head.None? then ResolveCanceledHead(cfg, c1) else c1
    else c
  }

  /** The timer that endCanceledHead arms while it waits for the confirmation. */
  function PendingTimer(cfg: Config, c: Client, id: nat): Client
  {
    if c.pending.Some? && c.pending.value.id == id && c.pending.value.head.None?
    then ProcessQueue(cfg, c.(isRetiring := true)) else c
  }

  /** The canceled head ended; unless its cancel stopped it, everyone behind it comes under suspicion. */
  function HeadGone(c: Client, outcome: Outcome): Client
    requires c.pending.Some?
  {
    c.(pending := Some(c.pending.value.(head := None)),
       late := if !outcome.Stopped? && c.inflight != [] then Some(Late(c.pending.value.id, Ids(c.inflight))) else c.late)
  }

  function EndCanceledHead(cfg: Config, c: Client, outcome: Outcome): Client
    requires c.pending.Some?
  {
    var c1 := HeadGone(c, outcome);
    if c.isRetiring then c1
    else if outcome.Stopped? then ClearPendingCancel(c1)
    else ResolveCanceledHead(cfg, c1)
  }

  function CheckLateCancel(c: Client, t: Task, outcome: Outcome): Client
    requires c.late.Some?
  {
    var hit := outcome.Stopped? && t.id !in c.cancelled;
    var suspects := if hit then {} else c.late.value.suspects - {t.id};
    var c1 := c.(marked := if hit then c.marked + {t.id} else c.marked,
                 late := if suspects == {} then None else Some(Late(c.late.value.id, suspects)));
    if hit && c.pending.Some? && c.pending.value.id == c.late.value.id && !c.isRetiring then ClearPendingCancel(c1) else c1
  }

  predicate Retries(c: Client, t: Task, outcome: Outcome)
  {
    outcome.Invalidated? && t.retryable && t.id !in c.cancelled && !c.inTransaction && t.id !in c.retried
  }

  /** What happens to the cancel bookkeeping when the head `t` leaves the in-flight list. */
  function LeaveHead(cfg: Config, c: Client, t: Task, outcome: Outcome): Client
  {
    var c1 := if c.late.Some? && t.id in c.late.value.suspects then CheckLateCancel(c, t, outcome) else c;
    if c1.pending.Some? && c1.pending.value.head == Some(t.id) then EndCanceledHead(cfg, c1, outcome) else c1
  }

  function WithoutHead(c: Client, inTransaction: bool): Client
    requires c.inflight != []
  {
    c.(inTransaction := inTransaction, inflight := c.inflight[1..], ended := c.ended + 1)
  }

  /** A head that left is queued again or settled. */
  function GoesOn(c: Client, t: Task, outcome: Outcome): Client
  {
    if Retries(c, t, outcome) then c.(retried := c.retried + {t.id}, queue := c.queue + [t])
    else c.(settled := c.settled + {t.id})
  }

  /** ReadyForQuery: the head of the in-flight list ended with `outcome`. */
  function FinishTask(cfg: Config, c: Client, outcome: Outcome, inTransaction: bool): Client
  {
    if c.inflight == [] then ProcessQueue(cfg, c.(inTransaction := inTransaction))
    else
      var t := c.inflight[0];
      ProcessQueue(cfg, GoesOn(LeaveHead(cfg, WithoutHead(c, inTransaction), t, outcome), t, outcome))
  }

  /** The caller of a canceled head was settled by its cancel. */
  ghost predicate HeadKnown(c: Client)
  {
    c.pending.Some? && c.pending.value.head.Some? ==> c.pending.value.head.value in c.cancelled
  }
}
