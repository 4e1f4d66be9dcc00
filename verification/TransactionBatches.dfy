/** The flat event stream of a replication slot cut into per-transaction batches. */
module TransactionBatches {
  import opened Bytes
  import opened ReplicationAck

  /** A row change or a transactional message is a `Change`; `Aside` is a message outside any transaction. */
  datatype StreamEvent = Begin(xid: nat) | Change(id: nat) | Commit(lsn: nat, endLsn: nat) | Aside

  /** `commit` holds the commit fields of a `done` batch. */
  datatype Batch = Batch(xid: nat, changes: seq<nat>, commit: Option<CommitFields>)
  datatype CommitFields = CommitFields(lsn: nat, endLsn: nat)

  datatype Batcher = Batcher(xid: nat, changes: seq<nat>)

  /** What the generator keeps and what it yields after one more event; `max` 0 is unbounded. */
  function Feed(b: Batcher, e: StreamEvent, max: nat): (Batcher, Option<Batch>)
  {
    match e
    case Begin(xid) => (Batcher(xid, []), None)
    case Commit(lsn, endLsn) => (b.(changes := []), Some(Batch(b.xid, b.changes, Some(CommitFields(lsn, endLsn)))))
    case Aside => (b, None)
    case Change(id) =>
      var changes := b.changes + [id];
      if max > 0 && |changes| >= max then (b.(changes := []), Some(Batch(b.xid, changes, None)))
      else (b.(changes := changes), None)
  }

  /** All that is yielded for `events`, starting from `b`. */
  function Yielded(b: Batcher, events: seq<StreamEvent>, max: nat): seq<Batch>
    decreases |events|
  {
    if events == [] then []
    else
      var (b', out) := Feed(b, events[0], max);
      (if out.Some? then [out.value] else []) + Yielded(b', events[1..], max)
  }

  function Left(b: Batcher, events: seq<StreamEvent>, max: nat): Batcher
    decreases |events|
  {
    if events == [] then b else Left(Feed(b, events[0], max).0, events[1..], max)
  }

  lemma {:induction false} YieldedAppend(b: Batcher, x: seq<StreamEvent>, y: seq<StreamEvent>, max: nat)
    ensures Yielded(b, x + y, max) == Yielded(b, x, max) + Yielded(Left(b, x, max), y, max)
    ensures Left(b, x + y, max) == Left(Left(b, x, max), y, max)
    decreases |x|
  {
    if x == [] {
      assert x + y == y;
    } else {
      assert (x + y)[1..] == x[1..] + y;
      YieldedAppend(Feed(b, x[0], max).0, x[1..], y, max);
    }
  }

  method BatchTransactions(stream: seq<StreamEvent>, maxEvents: nat) returns (batches: seq<Batch>)
    ensures batches == Yielded(Batcher(0, []), stream, maxEvents)
  {
    batches := [];
    var xid, changes := 0, [];
    for i := 0 to |stream|
      invariant Yielded(Batcher(0, []), stream, maxEvents) == batches + Yielded(Batcher(xid, changes), stream[i..], maxEvents)
    {
      var e := stream[i];
      assert stream[i..][0] == e && stream[i..][1..] == stream[i + 1..];
      match e {
        case Begin(x) =>
          xid, changes := x, [];
        case Commit(lsn, endLsn) =>
          batches := batches + [Batch(xid, changes, Some(CommitFields(lsn, endLsn)))];
          changes := [];
        case Aside =>
        case Change(id) =>
          changes := changes + [id];
          if maxEvents > 0 && |changes| >= maxEvents {
            batches := batches + [Batch(xid, changes, None)];
            changes := [];
          }
      }
    }
  }

  // ---- what the batches of a transaction are ----

  function Changes(ids: seq<nat>): (r: seq<StreamEvent>)
    ensures |r| == |ids| && forall i :: 0 <= i < |ids| ==> r[i] == Change(ids[i])
  {
    seq(|ids|, i requires 0 <= i < |ids| => Change(ids[i]))
  }

  function EventsOf(t: Txn): seq<StreamEvent>
  {
    [Begin(t.xid)] + Changes(t.changes) + [Commit(t.lsn, t.endLsn)]
  }

  /** A whole transaction: pieces of exactly `max` changes without commit fields, then the one batch that
      carries them, with the rest; an exact multiple of `max` ends in an empty one. */
  function Chunks(xid: nat, changes: seq<nat>, commit: CommitFields, max: nat): (r: seq<Batch>)
    ensures r != []
    decreases |changes|
  {
    if max > 0 && |changes| >= max then [Batch(xid, changes[..max], None)] + Chunks(xid, changes[max..], commit, max)
    else [Batch(xid, changes, Some(commit))]
  }

  function Contents(batches: seq<Batch>): seq<nat>
    decreases |batches|
  {
    if batches == [] then [] else batches[0].changes + Contents(batches[1..])
  }

  /** The chunks of a transaction carry all of its changes once and in order, and only the last one can be
      acknowledged. */
  lemma {:induction false} ChunksCarryAll(xid: nat, changes: seq<nat>, commit: CommitFields, max: nat)
    ensures var bs := Chunks(xid, changes, commit, max);
            && Contents(bs) == changes
            && bs[|bs| - 1].commit == Some(commit) && (max > 0 ==> |bs[|bs| - 1].changes| < max)
            && forall i :: 0 <= i < |bs| - 1 ==> bs[i].commit == None && |bs[i].changes| == max
    decreases |changes|
  {
    var bs := Chunks(xid, changes, commit, max);
    if max > 0 && |changes| >= max {
      var rest := Chunks(xid, changes[max..], commit, max);
      ChunksCarryAll(xid, changes[max..], commit, max);
      assert bs[1..] == rest;
      assert changes == changes[..max] + changes[max..];
      assert forall i :: 0 < i < |bs| ==> bs[i] == rest[i - 1];
    } else {
      assert bs[1..] == [];
    }
  }

  /** The generator, fed the changes `ids` with `kept` in hand and then the commit. */
  lemma {:induction false} BodyYields(xid: nat, kept: seq<nat>, ids: seq<nat>, commit: CommitFields, max: nat)
    requires max > 0 ==> |kept| < max
    ensures Yielded(Batcher(xid, kept), Changes(ids) + [Commit(commit.lsn, commit.endLsn)], max) == Chunks(xid, kept + ids, commit, max)
    ensures Left(Batcher(xid, kept), Changes(ids) + [Commit(commit.lsn, commit.endLsn)], max) == Batcher(xid, [])
    decreases |ids|
  {
    var events := Changes(ids) + [Commit(commit.lsn, commit.endLsn)];
    if ids == [] {
      assert events[1..] == [] && kept + ids == kept;
    } else {
      assert events[1..] == Changes(ids[1..]) + [Commit(commit.lsn, commit.endLsn)];
      var more := kept + [ids[0]];
      assert kept + ids == more + ids[1..];
      if max > 0 && |more| >= max {
        BodyYields(xid, [], ids[1..], commit, max);
        assert (kept + ids)[..max] == more && (kept + ids)[max..] == ids[1..] == [] + ids[1..];
      } else {
        BodyYields(xid, more, ids[1..], commit, max);
      }
    }
  }

  lemma TransactionYields(b: Batcher, t: Txn, max: nat)
    ensures Yielded(b, EventsOf(t), max) == Chunks(t.xid, t.changes, CommitFields(t.lsn, t.endLsn), max)
    ensures Left(b, EventsOf(t), max) == Batcher(t.xid, [])
  {
    var commit := CommitFields(t.lsn, t.endLsn);
    BodyYields(t.xid, [], t.changes, commit, max);
    assert EventsOf(t)[1..] == Changes(t.changes) + [Commit(t.lsn, t.endLsn)];
    assert [] + t.changes == t.changes;
  }

  function StreamOf(txns: seq<Txn>): seq<StreamEvent>
  {
    if txns == [] then [] else EventsOf(txns[0]) + StreamOf(txns[1..])
  }

  function AllChunks(txns: seq<Txn>, max: nat): seq<Batch>
  {
    if txns == [] then []
    else Chunks(txns[0].xid, txns[0].changes, CommitFields(txns[0].lsn, txns[0].endLsn), max) + AllChunks(txns[1..], max)
  }

  /** A stream that breaks off inside a transaction has yielded all of the transactions before and no
      commit fields of the one it broke off in, whatever the bound. */
  lemma {:induction false} StreamYields(b: Batcher, txns: seq<Txn>, last: Txn, n: nat, max: nat)
    requires n < |EventsOf(last)|
    ensures var ys := Yielded(b, StreamOf(txns) + EventsOf(last)[..n], max);
            && AllChunks(txns, max) <= ys
            && forall i :: |AllChunks(txns, max)| <= i < |ys| ==> ys[i].commit == None
    decreases |txns|
  {
    var tail := EventsOf(last)[..n];
    if txns == [] {
      assert StreamOf(txns) + tail == tail;
      NoCommitYields(b, tail, max);
    } else {
      var rest := StreamOf(txns[1..]) + tail;
      assert StreamOf(txns) + tail == EventsOf(txns[0]) + rest;
      YieldedAppend(b, EventsOf(txns[0]), rest, max);
      TransactionYields(b, txns[0], max);
      StreamYields(Batcher(txns[0].xid, []), txns[1..], last, n, max);
    }
  }

  lemma {:induction false} NoCommitYields(b: Batcher, events: seq<StreamEvent>, max: nat)
    requires forall e :: e in events ==> !e.Commit?
    ensures forall y :: y in Yielded(b, events, max) ==> y.commit == None
    decreases |events|
  {
    if events != [] {
      assert events[0] in events;
      NoCommitYields(Feed(b, events[0], max).0, events[1..], max);
    }
  }

  function WithoutAsides(events: seq<StreamEvent>): seq<StreamEvent>
  {
    if events == [] then [] else (if events[0] == Aside then [] else [events[0]]) + WithoutAsides(events[1..])
  }

  /** Messages outside a transaction leave no trace in the batches. */
  lemma {:induction false} AsidesAreDropped(b: Batcher, events: seq<StreamEvent>, max: nat)
    ensures Yielded(b, events, max) == Yielded(b, WithoutAsides(events), max)
    decreases |events|
  {
    if events != [] {
      AsidesAreDropped(Feed(b, events[0], max).0, events[1..], max);
      var rest := WithoutAsides(events[1..]);
      if events[0] != Aside { assert ([events[0]] + rest)[1..] == rest; } else { assert [] + rest == rest; }
    }
  }
}
