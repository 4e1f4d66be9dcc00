/** The replication connection's message queue and its backpressure on the socket. */
module ReplicationQueue {
  import opened Bytes

  /** A backend message: its type byte and the size of its body. */
  datatype Frame = Frame(kind: char, size: nat)

  /** `ceiling`: the bytes above which the socket is paused; none outside a stream. `failed`, `ended`: the
      socket is lost, end() was called. */
  datatype Queue = Queue(q: seq<Frame>, qBytes: int, paused: bool, ceiling: Option<real>, failed: bool, ended: bool)

  const DEFAULT_CEILING := 67108864.0

  function Fresh(): Queue
  {
    Queue([], 0, false, None, false, false)
  }

  /** The type byte and the length word are counted with the body. */
  function Size(f: Frame): nat
  {
    f.size + 5
  }

  function Total(q: seq<Frame>): nat
  {
    if q == [] then 0 else Size(q[0]) + Total(q[1..])
  }

  lemma {:induction false} TotalAppend(a: seq<Frame>, b: seq<Frame>)
    ensures Total(a + b) == Total(a) + Total(b)
  {
    if a == [] {
      assert a + b == b;
    } else {
      assert (a + b)[1..] == a[1..] + b;
      TotalAppend(a[1..], b);
    }
  }

  /** ParameterStatus, BackendKeyData, NoticeResponse, NotificationResponse never reach the caller. */
  predicate Skipped(f: Frame)
  {
    f.kind == 'S' || f.kind == 'K' || f.kind == 'N' || f.kind == 'A'
  }

  function Above(bytes: int, ceiling: Option<real>): bool
  {
    ceiling.Some? && bytes as real > ceiling.value
  }

  function BelowHalf(bytes: int, ceiling: Option<real>): bool
  {
    ceiling.None? || bytes as real < ceiling.value / 2.0
  }

  function Received(x: Queue, frames: seq<Frame>): Queue
  {
    var bytes := x.qBytes + Total(frames);
    x.(q := x.q + frames, qBytes := bytes, paused := x.paused || (frames != [] && Above(bytes, x.ceiling)))
  }

  function Shifted(x: Queue): Queue
    requires x.q != []
  {
    var bytes := x.qBytes - Size(x.q[0]);
    x.(q := x.q[1..], qBytes := bytes, paused := x.paused && !BelowHalf(bytes, x.ceiling))
  }

  /** What next() finds: a message, the stream's end, the socket's error, or nothing yet. */
  datatype Outcome = Got(f: Frame) | AtEnd | Error | Parked

  function NextOf(x: Queue): (Queue, Outcome)
    decreases |x.q|
  {
    if x.q == [] then (x, if x.failed then Error else if x.ended then AtEnd else Parked)
    else if Skipped(x.q[0]) then NextOf(Shifted(x))
    else (Shifted(x), Got(x.q[0]))
  }

  function PushedBack(x: Queue, f: Frame): Queue
  {
    x.(q := [f] + x.q, qBytes := x.qBytes + Size(f))
  }

  /** The stream's ceiling, unless it is not a positive number; `wanted` None is Infinity. */
  function Started(x: Queue, wanted: Option<real>): Queue
  {
    x.(ceiling := if wanted.Some? && wanted.value <= 0.0 then Some(DEFAULT_CEILING) else wanted)
  }

  /** The stream is over: the count is taken again from what is still queued. */
  function Finished(x: Queue): Queue
  {
    x.(paused := false, ceiling := None, qBytes := Total(x.q))
  }

  datatype Event = Data(frames: seq<Frame>) | Next | PushBack(f: Frame) | Start(wanted: Option<real>) | Finish | End | Fail

  /** `Start` takes the reservation first, so it never meets an open stream. */
  function Step(x: Queue, e: Event): Queue
  {
    match e
    case Data(frames) => Received(x, frames)
    case Next => NextOf(x).0
    case PushBack(f) => PushedBack(x, f)
    case Start(wanted) => if x.ceiling.Some? then x else Started(x, wanted)
    case Finish => Finished(x)
    case End => x.(ended := true, paused := false)
    case Fail => x.(failed := true)
  }

  function Run(events: seq<Event>): Queue
  {
    if events == [] then Fresh() else Step(Run(events[..|events| - 1]), events[|events| - 1])
  }

  /** The count is the size of what is queued; a paused socket has at least half the ceiling queued. */
  ghost predicate Inv(x: Queue)
  {
    && x.qBytes == Total(x.q)
    && (x.ceiling.Some? ==> x.ceiling.value > 0.0)
    && (x.paused ==> x.ceiling.Some? && x.qBytes as real >= x.ceiling.value / 2.0)
  }

  lemma {:induction false} NextKeepsInv(x: Queue)
    requires Inv(x)
    ensures Inv(NextOf(x).0) && (!NextOf(x).1.Got? ==> NextOf(x).0.q == [] && !NextOf(x).0.paused)
    decreases |x.q|
  {
    if x.q != [] && Skipped(x.q[0]) { NextKeepsInv(Shifted(x)); }
  }

  /** Through data, push-back, the end of a stream and another start the count stays exact and a pause is
      held only while half the ceiling is queued. */
  lemma {:induction false} RunKeepsInv(events: seq<Event>)
    ensures Inv(Run(events))
  {
    if events != [] {
      var x, e := Run(events[..|events| - 1]), events[|events| - 1];
      RunKeepsInv(events[..|events| - 1]);
      match e
      case Data(frames) => TotalAppend(x.q, frames);
      case Next => NextKeepsInv(x);
      case PushBack(f) => assert ([f] + x.q)[1..] == x.q;
      case _ =>
    }
  }

  /** Backpressure cannot deadlock: a consumer that finds nothing to read has not left the socket paused. */
  lemma ParkedMeansFlowing(events: seq<Event>)
    ensures !NextOf(Run(events)).1.Got? ==> !NextOf(Run(events)).0.paused
    ensures Run(events).paused ==> Run(events).q != []
  {
    RunKeepsInv(events);
    NextKeepsInv(Run(events));
  }

  /** The recount at the end of a stream is no correction: it finds the count that was kept. */
  lemma RecountAgrees(events: seq<Event>)
    ensures Finished(Run(events)).qBytes == Run(events).qBytes
  {
    RunKeepsInv(events);
  }

  /** The number of messages at the front that never reach the caller. */
  function Lead(q: seq<Frame>): (n: nat)
    ensures n <= |q| && (forall i :: 0 <= i < n ==> Skipped(q[i])) && (n < |q| ==> !Skipped(q[n]))
  {
    if q == [] || !Skipped(q[0]) then 0 else 1 + Lead(q[1..])
  }

  /** A message is delivered, or skipped for its kind, in the order of arrival; none is lost. */
  lemma {:induction false} NextInOrder(x: Queue)
    ensures var n := Lead(x.q);
            if n < |x.q| then NextOf(x).1 == Got(x.q[n]) && NextOf(x).0.q == x.q[n + 1..]
            else !NextOf(x).1.Got? && NextOf(x).0.q == []
    decreases |x.q|
  {
    if x.q != [] && Skipped(x.q[0]) {
      NextInOrder(Shifted(x));
      var n := Lead(x.q);
      if n < |x.q| { assert x.q[1..][n..] == x.q[n + 1..]; }
    }
  }

  // ---- the fields ----

  /** Where the first message stands that the caller is to see: no ParameterStatus, key data, notice or notification. */
  function FirstWanted(q: seq<Frame>): (n: nat)
    ensures n <= |q| && (forall i :: 0 <= i < n ==> q[i].kind in "SKNA") && (n < |q| ==> q[n].kind !in "SKNA")
  {
    if q == [] || q[0].kind !in "SKNA" then 0 else 1 + FirstWanted(q[1..])
  }

  lemma {:induction false} NextFinds(x: Queue)
    ensures var n := FirstWanted(x.q);
            if n < |x.q| then NextOf(x).1 == Got(x.q[n]) && NextOf(x).0.q == x.q[n + 1..]
            else NextOf(x).0.q == [] && NextOf(x).1 == if x.failed then Error else if x.ended then AtEnd else Parked
    decreases |x.q|
  {
    if x.q != [] && Skipped(x.q[0]) {
      NextFinds(Shifted(x));
      assert x.q[0].kind in "SKNA" by { assert "SKNA"[0] == 'S' && "SKNA"[1] == 'K' && "SKNA"[2] == 'N' && "SKNA"[3] == 'A'; }
    } else if x.q != [] {
      assert x.q[0].kind !in "SKNA";
    }
  }

  class MessageQueue {
    var q: seq<Frame>
    var qBytes: int
    var qPaused: bool
    var maxQueue: Option<real>
    var failed: bool
    var ended: bool

    ghost function Abs(): Queue
      reads this
    {
      Queue(q, qBytes, qPaused, maxQueue, failed, ended)
    }

    constructor ()
      ensures Abs() == Fresh() && Inv(Abs())
    {
      q, qBytes, qPaused, maxQueue, failed, ended := [], 0, false, None, false, false;
    }

    /** Everything is queued in order of arrival; above the ceiling the socket is paused. */
    method OnData(msgs: seq<Frame>)
      requires Inv(Abs())
      modifies this
      ensures Abs() == Received(old(Abs()), msgs) && Inv(Abs())
      ensures q == old(q) + msgs && (qPaused <==> old(qPaused) || (msgs != [] && maxQueue.Some? && qBytes as real > maxQueue.value))
    {
      TotalAppend(q, msgs);
      if |msgs| > 0 {
        ghost var before := qBytes;
        q := q + msgs;
        for i := 0 to |msgs|
          invariant qBytes + Total(msgs[i..]) == before + Total(msgs)
          invariant q == old(q) + msgs && qPaused == old(qPaused) && maxQueue == old(maxQueue)
          invariant failed == old(failed) && ended == old(ended)
        {
          assert msgs[i..][1..] == msgs[i + 1..];
          qBytes := qBytes + msgs[i].size + 5;
        }
        if Above(qBytes, maxQueue) && !qPaused { qPaused := true; }
      } else {
        assert old(q) + msgs == old(q);
      }
    }

    method ForceResume()
      modifies this`qPaused
      ensures !qPaused
    {
      if !qPaused { return; }
      qPaused := false;
    }

    /** One pass of next(): it stops at a message or when the queue is empty. */
    method Next() returns (r: Outcome)
      requires Inv(Abs())
      modifies this
      ensures Abs() == NextOf(old(Abs())).0 && r == NextOf(old(Abs())).1 && Inv(Abs())
      ensures var n := FirstWanted(old(q)); if n < |old(q)| then r == Got(old(q)[n]) && q == old(q)[n + 1..] else q == [] && !qPaused
      ensures FirstWanted(old(q)) == |old(q)| ==> r == if failed then Error else if ended then AtEnd else Parked
    {
      NextKeepsInv(Abs());
      NextFinds(Abs());
      while |q| > 0
        invariant NextOf(Abs()) == NextOf(old(Abs()))
        decreases |q|
      {
        var m := q[0];
        q := q[1..];
        qBytes := qBytes - (m.size + 5);
        if qPaused && BelowHalf(qBytes, maxQueue) { ForceResume(); }
        if !Skipped(m) { return Got(m); }
      }
      r := if failed then Error else if ended then AtEnd else Parked;
    }

    /** CopyBothResponse is put back for the stream to read. */
    method PushBack(m: Frame)
      requires Inv(Abs())
      modifies this
      ensures Abs() == PushedBack(old(Abs()), m) && Inv(Abs()) && q == [m] + old(q)
    {
      assert ([m] + q)[1..] == q;
      q := [m] + q;
      qBytes := qBytes + m.size + 5;
    }

    method StartStream(wanted: Option<real>)
      requires Inv(Abs()) && maxQueue.None?
      modifies this
      ensures Abs() == Started(old(Abs()), wanted) && Inv(Abs())
      ensures maxQueue == (if wanted.Some? && wanted.value <= 0.0 then Some(67108864.0) else wanted) && q == old(q)
    {
      maxQueue := if wanted.Some? && wanted.value <= 0.0 then Some(DEFAULT_CEILING) else wanted;
    }

    method FinishStream()
      requires Inv(Abs())
      modifies this
      ensures Abs() == Finished(old(Abs())) && Inv(Abs()) && qBytes == old(qBytes) && q == old(q) && !qPaused && maxQueue.None?
    {
      ForceResume();
      maxQueue := None;
      var n := 0;
      for i := 0 to |q|
        invariant n + Total(q[i..]) == Total(q)
      {
        assert q[i..][1..] == q[i + 1..];
        n := n + q[i].size + 5;
      }
      qBytes := n;
    }

    method End()
      requires Inv(Abs())
      modifies this
      ensures Abs() == old(Abs()).(ended := true, paused := false) && Inv(Abs())
    {
      ended := true;
      ForceResume();
    }
  }
}
