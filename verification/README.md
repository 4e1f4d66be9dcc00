# A model of minipg, with proofs

minipg is a PostgreSQL driver written from the wire up. This Dafny project models its protocol state
machines and its codecs, and proves what they are for: that a cancel request never stops the wrong query,
that nothing dispatched stays unwritten, that a name is never parsed twice, that the replication slot never
passes an unhandled transaction, that a pooled connection has one holder, that the server reads the values that
were bound, that a row object holds its columns, and that every fast form (compiled encoder, compiled row mapper,
byte parsers, incremental framer) does what its plain form does.

`dafny verify dfyconfig.toml` checks everything.

## How it is built

Each protocol has a value-level specification (a datatype for the whole state, one function per operation,
an event type and runs) with lemmas over every run, and a class with the program's fields. The class has a
ghost picture of what is around it (server, wire, holders), its `Valid()` is the invariant of the runs, and its
methods keep it while they do in place what those functions say. Each codec has a pure reference, and methods with the
program's loops and cursors that are proved to compute it; the round trips are lemmas about the reference.

| files | what |
|---|---|
| `Scheduler`, `Pipeline`, `CancelProtocol`, `HarmfulAborts`, `Dispatching`, `ConnectionClass` | the connection: queue, pipeline, batch, cancel request and retirement, together with backend and cancel socket |
| `Statements`, `StatementSql` | prepared names: `prepared`, `parseInflight`, `staleStatements` against a backend that reads messages one by one |
| `ReplicationAck`, `TransactionBatches`, `Cdc`, `CdcSessions`, `ReplicationQueue` | acknowledgement, batching, the session loop with retries and stop, backpressure |
| `Checkout`, `Waiters`, `PoolClass` | the pool: checkout, hand-over, timed-out waits, rollback and cancel draining, eviction, breaker |
| `WriterClass`, `Params`, `ParamWriter`, `BindEncoder` | the output buffer, parameters, the generic and the compiled Bind |
| `ServerReads`, `ServerBind` | the server's side of it: what its input and receive functions make of a parameter, and of a whole Bind, Execute, Sync |
| `Objects`, `RowAssembly`, `RowContents`, `RowMapper` | the interpreted row tree, the generated literal as an expression tree, shapes, and what a row object holds column by column |
| `Framer`, `JsonScan`, `NeonRows`, `JsonParse`, `JsonValues` | the message framer, the raw JSON scans, the JSON parser |
| `ArrayText`, `BinaryArrays`, `Numeric`, `FloatText`, `Calendar`, `Temporal`, `TemporalText`, `Int64`, `PowersOfTen`, `Utf8`, `Bytes` | arrays, numerics, decimals, dates, 64-bit words by halves |

## What is assumed

- Cancel. SQLSTATE 57014 comes only from this connection's own cancels. A signal stops at most the query
  that runs when it arrives. The transport's `cancel` resolves only after delivery, except behind a pooler
  (src/transport-node.ts:77-98). These are the guards of `CancelProtocol.Enabled`.
- Prepared names. Only this connection's messages create or drop names.
- Replication. A keepalive names a position before the end of every commit that the server sends later;
  the slot is durable and never recreated; the consumer of a bare stream acknowledges nothing beyond what
  was delivered. `replicate`'s own acknowledgements are proved to meet that.
- Pool. A holder releases once and has no query in flight when it does, other than a cancelled one that the
  pool waits for.
- Arithmetic. `rnd` is any monotone rounding that is exact on the numbers a double holds (`Int64.Rounding`,
  `JsonParse.Lawful`, with symmetry `FloatText.Doubles`); JSON.stringify, JSON.parse, toISOString outside years 0 to 9999, column decoders and
  transforms are parameters.

## What is not true of the program

Each of these has a proof of the failure, and the exact condition beside it where one exists.

- A caller that aborts a head while the stop of a task that nobody cancelled is still to be read, and no cancel is
  pending, gets a later query stopped: `CancelProtocol.DoubtfulAbortIsUnsafe` is one run. `HarmfulAborts.HarmfulIff`
  says that exactly these aborts do it, in every run and every configuration, and `CancelProtocol.HarmfulIsDoubtful`
  that the client can see each of them coming, by its own list of suspects. An unread stop of a task that was itself
  cancelled does no harm.
- Aborting a queued stream leaves the task behind it waiting although it could start, until the next answer, submit or
  drain: the abort takes the stream off the queue and does not look at the queue again (src/connection.ts:966-988).
  `Dispatching.BarrierStalls` is a run; `Dispatching.LeavesUndoneIff` says that only the withdrawal of such a barrier
  does it, and `Dispatching.NothingUnstarted` that no other run leaves a startable task undispatched.
- A task that throws while it serializes, after it closed a name that the backend could hold, leaves a name the maps
  do not know (the catch at src/connection.ts:940-944 takes back bytes, not the maps):
  `Statements.ThrowBreaksThePromise`, and exactly when in `StatementSql.LosesIff`.
- A name used with two SQL texts in one burst can run the wrong one: `Statements.TwoSqlsInOneBurst`, exactly when in
  `StatementSql.MistakenIff`. A name whose tasks in flight all have one SQL text cannot, however often the text
  changes between them: `StatementSql.OwnSqlAlways`.
- In array mode the compiled mapper applies transforms and the interpreted one does not:
  `RowAssembly.ArrayRowsDiffer`. They agree whatever the row if and only if no column has a transform:
  `RowAssembly.ArrayMappersAgreeIff`.
- A declared json or jsonb parameter that is null goes out as the JSON text null, not as an SQL null:
  `Params.JsonNullIsText`; of all types exactly these two: `Params.NullIsSqlNullIff`.
- Flattening a shape loses empty groups, and only those: `RowAssembly.FlattenRoundTripIff`.
- A waiter that times out while a connection is being opened for it leaves that connection checked out for
  nobody: `Checkout.TimedOutWaiterLeaks`, exactly when in `Checkout.LeaksIff`. With the breaker on, so does a waiter
  that times out while its connection is opened and is then put back by the failed open: `Waiters.PutBackLeaks`. There
  is no third way: `Waiters.LeaksOnlyLate`.
- The byte and the string temporal parser differ on text that starts like an infinity, has its length and is
  not one: `Temporal.ParsersAgree` says exactly on which.

## Model

| member | source | states |
|---|---|---|
| `CancelProtocol.RunIsSafe` | src/connection.ts:966-1066 | over every run of client, backend and cancel socket without a harmful abort, no cancel request stops a task dispatched after the request was issued, and no request is on its way while none is pending |
| `HarmfulAborts.HarmfulIff` | src/connection.ts:966-1066 | after any run without a harmful abort, an event opens the way to a request that stops a task dispatched after it was issued if and only if it is a harmful abort |
| `CancelProtocol.IssueKeepsCoreIff` | src/connection.ts:992-1016 | issuing a request while none is pending keeps the bookkeeping right if and only if no stop of an uncancelled task is still unread |
| `CancelProtocol.HarmfulIsDoubtful` | src/connection.ts:1050-1061 | every harmful abort is of a head on the client's own list of suspects |
| `CancelProtocol.CarefulIsHarmless` | src/connection.ts:966-988 | so a caller that makes no such abort is safe in every run |
| `CancelProtocol.RunKeepsInv` | src/connection.ts:966-1196 | the invariant behind it, kept by every event: queries, answers, cancels that land, miss or time out, drains, socket loss, reconnect, end |
| `CancelProtocol.DoubtfulAbortIsUnsafe` | src/connection.ts:1029-1061 | a harmful abort is reachable: a whole run in which one makes its request stop a query dispatched after it |
| `CancelProtocol.RetiringIsFinal` | src/connection.ts:734-737 | a retiring connection dispatches nothing again: each step leaves its dispatch log alone or ends the session |
| `CancelProtocol.LateCancelIsMarked` | src/connection.ts:1042-1061 | unless cancels overlapped, an answer is reported as stopped by another query's cancel exactly if it was |
| `CancelProtocol.AnyRunKeepsPipeline` | src/connection.ts:734-950 | over every run: in-flight is dispatch order minus ended cycles, the bytes are those of the tasks that serialized in that order, depth is respected, a stream is alone, every accepted task is queued, in flight or settled |
| `Pipeline.AnswerEndsOldest` | src/connection.ts:1068-1132 | the k-th ReadyForQuery ends the k-th dispatched task, which is then settled or, once and only if invalidated, queued again |
| `Pipeline.FinishTaskInv` | src/connection.ts:1068-1132 | finishing a cycle keeps order, depth, lone streams, bytes and accounting |
| `Pipeline.CancelTaskInv` | src/connection.ts:966-988 | so does cancelling a queued task or the one in flight |
| `Pipeline.SubmitInv` | src/connection.ts:734-752 | so does accepting a task, in every phase |
| `Pipeline.ProcessQueueInv` | src/connection.ts:734-772 | so does dispatch, throwing tasks included, which leave the batch as it was |
| `Dispatching.NothingUnwritten` | src/connection.ts:734-772 | over every run: without a microtask to wait for, all that was dispatched is written when an event is over; else what is left is below the flush threshold, and the microtask writes it |
| `Dispatching.NothingUnstarted` | src/connection.ts:734-752 | over every run in which no queued stream is withdrawn, the first task of the queue waits for a full pipeline, a full socket, a pending cancel, a retirement or a stream |
| `Dispatching.LeavesUndoneIff` | src/connection.ts:966-988 | a step leaves a startable task undispatched if and only if it withdraws the stream in front of it |
| `Dispatching.BarrierStalls` | src/connection.ts:966-988 | a run of four events in which one does |
| `Dispatching.SettledForAReason` | src/connection.ts:734-1132 | as long as the session goes on, whoever is settled was aborted, was answered or throws while it serializes; while it reconnects, only who is aborted |
| `Pipeline.AnswerRetriesIff` | src/connection.ts:1085-1107 | an answer queues its task again if and only if it invalidates the statement and the task is retryable, not cancelled, not retried before and outside a transaction; every other answer settles it |
| `CancelProtocol.SettledMeans` | src/connection.ts:1004-1048 | once the canceled head has ended, the cancel's promise lets dispatch go on if the server closed the cancel connection itself, and retires the connection otherwise |
| `CancelProtocol.TimerMeans` | src/connection.ts:1029-1048 | no confirmation in time retires it |
| `ConnectionClass.Connection.ProcessQueue` | src/connection.ts:734-752 | afterwards the batch is written, or small and left to its microtask, and the first task still queued has a full pipeline, a full socket, a pending cancel or a stream in its way; the state is the one the specification gives |
| `ConnectionClass.Connection.StartTask` | src/connection.ts:857-950 | serialization, mark and rewind |
| `ConnectionClass.Connection.CancelTask` | src/connection.ts:966-988 | withdraws a queued task, settles and signals an in-flight one |
| `ConnectionClass.Connection.OnCancelSettled` | src/connection.ts:992-1016 | the cancel socket's promise settles: resume, wait on, or retire |
| `CancelProtocol.CanceledLeaves` | src/connection.ts:1029-1048 | when the canceled head is answered its request is used up, still awaited, or everyone behind is a suspect: the bookkeeping stays right, whatever its outcome |
| `ConnectionClass.Connection.FinishTask` | src/connection.ts:1068-1132 | one ReadyForQuery in place |
| `ConnectionClass.Connection.OnSocketDown` | src/connection.ts:1136-1196 | everything in flight is settled, a queue that can wait stays |
| `ConnectionClass.Connection.End` | src/connection.ts:1722-1731 | both lists are empty once closed |
| `Statements.NeverDuplicateParse` | src/connection.ts:872-911 | over every run with bursts, errors, retries, new SQL under an old name and reconnects, the backend reads no Parse for a name it holds, unless a throw lost a name |
| `Statements.RunKeepsInv` | src/connection.ts:872-937 | any name the backend could hold after all bytes sent is in one of the three maps |
| `Statements.CycleEffect` | src/connection.ts:872-937 | what one task's messages do to the name they are about and to every other |
| `Statements.CycleIsServed` | src/connection.ts:872-937 | a backend that agrees with the maps reads the cycle without an error: described unless the description is known, one ReadyForQuery, its own SQL under its name, no other name touched |
| `Statements.RunsOnce` | src/connection.ts:872-937 | every cycle binds and executes its statement once, right before its Sync |
| `Statements.ThrowKeepsInvIff` | src/connection.ts:940-944 | a throwing task keeps the invariant if and only if it forgot no name the backend could hold |
| `StatementSql.LosesIff` | src/connection.ts:898-944 | after any run that lost nothing, a throw opens the way to a duplicate Parse, with no further throw, if and only if it loses a name |
| `Statements.ThrowBreaksThePromise` | src/connection.ts:898-944 | a run in which such a throw leads to a duplicate Parse |
| `Statements.OneSqlPerName` | src/connection.ts:626-629 | with one SQL text per name in the whole run, a named execution runs its own SQL even if throws lose names |
| `StatementSql.OwnSqlAlways` | src/connection.ts:872-937 | over every run whose throws lose no name and that never has one name in flight with two SQL texts, every named execution runs its own SQL, with the text changed by Close and Parse in between |
| `StatementSql.OwnSqlUnlessMistaken` | src/connection.ts:872-937 | over every run whose throws lose no name, only a mistaken dispatch makes an execution run other SQL |
| `StatementSql.MistakenIff` | src/connection.ts:879-911 | after any such run, a dispatch leads by reads alone to a bind of other SQL if and only if the task trusts its name while the name will stand for other SQL once all that was sent is read |
| `StatementSql.DispatchRightIff` | src/connection.ts:879-911 | a dispatch keeps all binds on the wire right if and only if it is not mistaken |
| `StatementSql.CycleSql` | src/connection.ts:879-937 | what a cycle makes of the SQL of its name, and when its own Bind finds its own SQL |
| `Statements.TwoSqlsInOneBurst` | src/connection.ts:626-629 | with two in a burst one does not |
| `Statements.StatementCache.StartTask` | src/connection.ts:872-950 | writes the task's messages and keeps the maps covering what the backend could hold; they stop doing so exactly if the task throws after it lost a name |
| `Statements.StatementCache.CacheStatement` | src/connection.ts:626-629 | after a Describe response the next use of that SQL writes neither Close nor Parse, no other name is affected, and the maps still cover what the backend could hold |
| `Statements.StatementCache.OnCycleFailed` | src/connection.ts:1077-1107 | a name that an error leaves in doubt is closed before its next use, whatever the SQL; any other error leaves the maps alone; coverage is kept |
| `Cdc.AtLeastOnce` | src/cdc.ts:522-608 | over every run with failing handlers, retries, stop() at any moment and reconnects: when the slot reached the end of a transaction, the handler had resolved for every change of it and its commit |
| `Cdc.HandlerSeesTheLog` | src/cdc.ts:522-545 | the handler is given nothing but stretches of committed transactions, and all before in the transaction was handled |
| `Cdc.IdleMeansAcknowledged` | src/cdc.ts:546-551 | between batches all delivered is acknowledged, so every idle keepalive moves the slot |
| `Cdc.RunKeepsInv` | src/cdc.ts:522-608 | the invariant of session, link and log over every run |
| `Cdc.AckKeepsLink` | src/cdc.ts:546-550 | the loop's and stop()'s acknowledgement covers only what is handled |
| `CdcSessions.CdcSession.LoopRunsOn` | src/cdc.ts:546-552 | acknowledges the pending position once, before the next message: then everything delivered is acknowledged and no position is past an unhandled transaction |
| `CdcSessions.CdcSession.OnMessage` | src/cdc.ts:522-530 | the handler is given the next stretch of the log, all before it handled, and nothing once stop() was called |
| `CdcSessions.CdcSession.OnHandlerResolved` | src/cdc.ts:531-546 | what is then pending for acknowledgement is the end of a transaction that is wholly handled |
| `CdcSessions.CdcSession.OnHandlerRejected` | src/cdc.ts:535-543 | the same batch is kept for the next try unless stop() or the budget ends the loop; nothing counts as handled, no position moves, and the slot stays safe |
| `CdcSessions.CdcSession.StopRunsOn` | src/cdc.ts:587-608 | what the awaited handler completed is acknowledged before the stream ends: the flushed position covers it, nothing stays pending, and a status is on the wire exactly if the position moved; after a rejection nothing moves; the slot stays safe |
| `CdcSessions.CdcSession.StopCall` | src/cdc.ts:587-608 | stop() waits exactly if a promise of the handler is pending; a second call changes nothing |
| `Cdc.StopWaitsIff` | src/cdc.ts:587-608 | over every run: stop() waits exactly when it finds such a promise, and moves nothing else |
| `Cdc.StopAcknowledges` | src/cdc.ts:594-597 | over every run: if the handler held the last batch of a transaction when stop() was called and then resolved, the flushed position covers the transaction once stop() has ended |
| `CdcSessions.CdcSession.OnSessionFailed` | src/cdc.ts:556-577 | a new connection is tried exactly if neither stop() nor the budget forbids it; what is not handled is not counted, and the slot keeps its position |
| `ReplicationAck.NeverPastUnprocessed` | src/replication.ts:505-513 | whoever consumes the stream: the slot never passes a transaction the consumer was not done with |
| `ReplicationAck.KeepaliveIsSafe` | src/replication.ts:655-662 | an idle keepalive passes no transaction that is not done |
| `ReplicationAck.TakeKeepsInv` | src/replication.ts:655-671 | reading any packet keeps the link invariant |
| `ReplicationAck.AckKeepsInv` | src/replication.ts:505-513 | so does an allowed acknowledgement, normalized inside the last commit |
| `ReplicationAck.ReplicationConnection.Ack` | src/replication.ts:505-513 | moves the position monotonically and writes a status exactly if it moved |
| `ReplicationAck.ReplicationConnection.OnKeepalive` | src/replication.ts:655-662 | received and flushed positions, and a status on request |
| `TransactionBatches.BatchTransactions` | src/replication.ts:901-919 | the generator yields what the fold over the events says |
| `TransactionBatches.ChunksCarryAll` | src/replication.ts:901-919 | the chunks of a transaction carry its changes once, in order, within the bound, and only the last has commit fields |
| `TransactionBatches.StreamYields` | src/replication.ts:901-919 | a stream cut anywhere has yielded all whole transactions and no commit fields of the cut one |
| `TransactionBatches.AsidesAreDropped` | src/replication.ts:915-915 | messages outside transactions leave no trace |
| `ReplicationQueue.RunKeepsInv` | src/replication.ts:394-434 | through data, push-back, stream end and restart the byte count is the sum of the queued frames, and a pause means half the ceiling is queued |
| `ReplicationQueue.ParkedMeansFlowing` | src/replication.ts:422-434 | a consumer that finds nothing has not left the socket paused |
| `ReplicationQueue.RecountAgrees` | src/replication.ts:677-681 | the recount at stream end finds the count that was kept |
| `ReplicationQueue.NextInOrder` | src/replication.ts:422-434 | messages come out in order, only skipped kinds are dropped |
| `ReplicationQueue.MessageQueue.OnData` | src/replication.ts:394-407 | queueing, counting and pausing in place |
| `ReplicationQueue.MessageQueue.Next` | src/replication.ts:422-434 | one pass over the queue, resuming below half |
| `Checkout.CheckoutIsExclusive` | src/pool.ts:132-201 | over every run a connection has at most one holder, and while held is not idle, rolling back, settling or opening |
| `Checkout.NoTransactionLeaks` | src/pool.ts:316-341 | whatever a step hands out has the idle status |
| `Checkout.NeverTooMany` | src/pool.ts:151-183 | without the breaker the connections that are not closed never exceed the maximum |
| `Checkout.StepKeepsInv` | src/pool.ts:132-356 | each event keeps exclusiveness, cleanliness, the count and the bound |
| `Checkout.LeaksIff` | src/pool.ts:187-201 | a checked-out connection is left without an owner exactly by a step that gives it to a caller whose wait has timed out |
| `Waiters.EveryCallerPlaced` | src/pool.ts:151-201 | over every run the waiters are distinct, no caller is in two places, and without the breaker no waiter has timed out |
| `Waiters.LeaksOnlyLate` | src/pool.ts:187-201 | over every run such a step is a connection opened for a waiter that comes too late, or, with the breaker on, one given to a waiter that a failed open put back; never otherwise an acquire, a release, a rollback or a cancel's end |
| `Waiters.DeadWaiterWasPutBack` | src/pool.ts:167-201 | a waiter that has timed out is on the list only if a failed open put it back |
| `Waiters.PutBackLeaks` | src/pool.ts:167-201 | a run in which one is, and the only connection goes to it |
| `Checkout.NoTimeoutNoLeak` | src/pool.ts:187-201 | over every run without a timed-out wait, whatever is checked out has a holder |
| `Checkout.TimedOutWaiterLeaks` | src/pool.ts:343-354 | a run of seven events after which a full pool has a connection that nobody holds |
| `PoolClass.ConnectionPool.AcquireNow` | src/pool.ts:159-183 | newest live idle connection, else open below the maximum, else park; exclusiveness and the bound are kept and what is handed out has the idle status |
| `PoolClass.ConnectionPool.Release` | src/pool.ts:316-324 | a release that is no holder's changes nothing; a connection with a transaction open or a cancel draining goes to no idle list and no caller; the pool's invariants are kept |
| `PoolClass.ConnectionPool.Reclaim` | src/pool.ts:326-334 | a connection in a transaction, dead, or of a closed pool goes to nobody; whatever is handed out has the idle status; the invariants are kept |
| `PoolClass.ConnectionPool.Checkin` | src/pool.ts:336-341 | the first waiter is served, and only with this connection; it ends in exactly one place |
| `PoolClass.ConnectionPool.Refill` | src/pool.ts:343-354 | afterwards no caller waits below the maximum, and nobody was given a connection yet |
| `PoolClass.ConnectionPool.OnOpenFailed` | src/pool.ts:167-179 | the failed connection is gone and no other moved; a waiter stands first again unless the error is fatal; the invariants are kept |
| `PoolClass.ConnectionPool.OnIdleTimeout` | src/pool.ts:122-129 | evicts only what is still idle |
| `PoolClass.ConnectionPool.OnWaitTimeout` | src/pool.ts:187-201 | the caller is in no list any more, and the others wait on in their order |
| `BindEncoder.EncodersAgree` | src/encode.ts:342-385 | for all types, values and result formats the compiled encoder writes the bytes of Bind, Execute and Sync of the generic writer, or both throw, unless the row is too wide to compile |
| `ServerReads.ParamReads` | src/encode.ts:33-166 | for every type and every value: whatever is sent as the parameter, the server's input or receive function for that type reads the caller's value, arrays cell by cell and nested literals element by element included |
| `ServerReads.ParamFailsIff` | src/encode.ts:33-60 | serialization throws on every value that has no form (a NUL in a string, an invalid Date, no JSON text), and otherwise only where a length does not fit |
| `ServerReads.BinaryIff` | src/encode.ts:76-117 | a value of a binary type goes out in binary exactly if some bytes of that form stand for it, except that an int8 is given as a number only where numbers are exact |
| `ServerReads.ElementTypesAgree` | src/decode.ts:113-118 | the element type of every array type is the server's, and no other type has one |
| `ServerBind.CycleReads` | src/encode.ts:342-385 | the server reads the bytes of any cycle as one Bind of the named statement, an Execute of the unnamed portal without a limit and a Sync, and nothing more; every parameter is the caller's value and the result formats are those asked for |
| `Utf8.ReadsBack` | src/protocol.ts:95-105 | UTF-8 of any string is read back, with U+FFFD for a lone surrogate (RFC 3629) |
| `BindEncoder.RunEncoder` | src/encode.ts:352-385 | the compiled body appends exactly one cycle, or throws where the cycle has no bytes |
| `BindEncoder.CompileBindEncoder` | src/encode.ts:342-351 | refuses only what the generic writer throws on; gives up only above the widest row |
| `BindEncoder.WriteBindWith` | src/protocol.ts:173-187 | the generic Bind with reserved and back-patched format slots |
| `BindEncoder.WriteCycle` | src/protocol.ts:208-214 | Bind, Execute, Sync as one byte string |
| `BindEncoder.ParamPeriod` | src/encode.ts:330-340 | the smallest row width |
| `BindEncoder.PeriodRepeats` | src/encode.ts:330-340 | each type is that of its place in the row |
| `BindEncoder.PatchedSlot` | src/protocol.ts:88-88 | patching one format slot replaces that format and no other |
| `ParamWriter.EncodeValueInto` | src/encode.ts:33-60 | appends the text encoding of any value, which `ServerReads.ParamReads` reads back, or reports the throw |
| `ParamWriter.ArrayInto` | src/encode.ts:142-166 | on an element mismatch the bytes are exactly those of the text path |
| `ParamWriter.BinaryArrayInto` | src/encode.ts:142-166 | header, elements and the patched length |
| `ParamWriter.ParamInto` | src/encode.ts:305-325 | one parameter under the generic plan |
| `ParamWriter.BinaryInto` | src/encode.ts:76-117 | the binary scalar if the value fits, else nothing is written |
| `ParamWriter.WriteArrayBody` | src/encode.ts:280-296 | the write-through printer appends the UTF-8 of the string printer's text |
| `ParamWriter.ArrayLiteral` | src/encode.ts:246-260 | the string printer |
| `ParamWriter.WriteEscQuoted` | src/encode.ts:275-279 | runs between escapes give the UTF-8 of the escaped string |
| `ParamWriter.WriteIso` | src/encode.ts:262-273 | the bytes of the ISO text |
| `Params.LiteralRoundTrip` | src/encode.ts:246-260 | the printed literal of any array parses back to the elements' texts in the same nesting |
| `Params.NullIsSqlNullIff` | src/encode.ts:33-34 | a null parameter is an SQL null if and only if its type is neither json nor jsonb |
| `Params.JsonNullIsText` | src/encode.ts:99-99 | for those two it is the JSON text null |
| `ArrayText.RoundTrip` | src/decode.ts:160-186 | the parser inverts the printer on any nested array of nulls, quoted strings and bare scalars, for every delimiter |
| `ArrayText.ConditionalQuotingRoundTrip` | src/aurora.ts:136-148 | with quoting only where needed and ',' or ';' the same strings come back |
| `ArrayText.EscapedInTwoPasses` | src/aurora.ts:137-137 | two replaces are one escape |
| `ArrayText.ParseArrayLiteral` | src/decode.ts:160-186 | the cursor parser computes the reference parse of any text |
| `BinaryArrays.BinArray` | src/decode.ts:737-754 | any binary array of any dimensions is read back, null cells included |
| `BinaryArrays.EncodedArrayIsReadable` | src/encode.ts:119-166 | every array the encoder writes in binary is one of those, a cell per element |
| `WriterClass.Writer.Ensure` | src/protocol.ts:69-77 | growth by doubling keeps what was written |
| `WriterClass.Writer.LpI64` | src/protocol.ts:122-128 | two's complement of every safe integer |
| `WriterClass.Writer.LpAsciiInt` | src/protocol.ts:106-121 | the decimal text, written backwards, behind its length |
| `WriterClass.Writer.Patch16` | src/protocol.ts:88-88 | only the two bytes change |
| `WriterClass.Writer.Rewind` | src/protocol.ts:136-137 | everything before the mark is as it was |
| `Int64.HalvesAreTwosComplement` | src/protocol.ts:122-128 | floored high word and low word are the two's complement |
| `Int64.Rd64IsExact` | src/decode.ts:630-638 | the number path gives a safe integer exactly if the value is one, and that one |
| `Int64.BinTimestampIsExact` | src/temporal.ts:117-125 | exact to the millisecond for every instant of a Date, all intermediates below 2^53, everything else out of range |
| `Int64.DateSurvives` | src/encode.ts:89-96 | every Date survives encode and decode |
| `Numeric.NumericIsExact` | src/decode.ts:716-733 | the digits are the base-10000 digit sum cut off at dscale, for every weight, count and scale |
| `Numeric.TextIsExact` | src/decode.ts:716-733 | the whole text is a decimal with the sign that was sent and dscale digits behind its point, and its digits are the digit sum cut off there |
| `Numeric.FractionDigits` | src/decode.ts:726-732 | exactly dscale digits |
| `Numeric.BinNumericStr` | src/decode.ts:716-733 | the decoder's loops give sign, integer and fraction, or the special values |
| `FloatText.TxtF64` | src/decode.ts:607-620 | the cursor loop, with every sum and product rounded, computes the reference reading in doubles |
| `FloatText.FastPathIsExact` | src/decode.ts:607-620 | the fast path is taken exactly for at most 15 significant digits and a scale within 22, and then significand times ten to the scale is the text's rational value |
| `FloatText.FastPathRoundsOnce` | src/decode.ts:607-620 | with the loop, the table and the last operation all rounded, the result on the fast path is the rational value of the text rounded once (section 5.4.1 of IEEE 754-2019); every other text falls back |
| `FloatText.LoopIsExact` | src/decode.ts:613-613 | the rounded digit loop is exact for every text: no product or sum reaches 2^53 |
| `FloatText.ReadsTheSame` | src/decode.ts:607-620 | the reading in doubles is the reading in integers, scaled |
| `FloatText.PowersAreExact` | src/decode.ts:271-271 | each power is an integer below 2^53 times a power of two |
| `FloatText.TableIsExact` | src/decode.ts:271-271 | so every entry of the table is the power itself |
| `Temporal.InstantFromBytes` | src/temporal.ts:60-88 | the byte parser is the reference parse of its window, whatever surrounds it |
| `Temporal.InstantFromString` | src/temporal.ts:89-115 | so is the string parser |
| `Temporal.ParsersAgree` | src/temporal.ts:60-115 | they agree if and only if the text does not start like an infinity, is one, or has not its length |
| `TemporalText.PrintedParses` | src/temporal.ts:60-115 | every date text the server prints, years 0 to 99, BC and zones included, is the true proleptic Gregorian instant |
| `TemporalText.UtcIsTrue` | src/temporal.ts:22-59 | despite the two-digit-year remap of Date.UTC (section 21.4.3.4 of ECMA-262) |
| `TemporalText.EraReads` | src/temporal.ts:60-115 | BC is seen exactly where printed |
| `TemporalText.IsoRoundTrip` | src/encode.ts:262-273 | the ISO text of every Date in years 0 to 9999 reads back to the millisecond |
| `TemporalText.IsoReads` | src/encode.ts:262-273 | the ISO text of every Date, expanded years included, names its instant (section 21.4.1.32 of ECMA-262) |
| `Calendar.YearLength` | src/temporal.ts:22-59 | the closed day count grows by each year's length from 0 at the epoch |
| `Calendar.FieldsName` | src/encode.ts:265-273 | a Date's UTC fields name its instant |
| `RowAssembly.LiteralAgrees` | src/decode.ts:459-495 | for every column list and row the generated literal evaluates to the interpreted assembly |
| `RowAssembly.FlatAgrees` | src/mapper.ts:58-71 | the flat path is the tree's object |
| `RowAssembly.ArrayMappersAgreeIff` | src/mapper.ts:81-86 | on array rows the two mappers agree for every row and every transform if and only if no column has a transform |
| `RowAssembly.ArrayRowsAgreeIff` | src/decode.ts:496-503 | row by row: they agree exactly if no transform changes a value of the row |
| `RowAssembly.ArrayRowsDiffer` | src/decode.ts:496-503 | and here is one where they differ |
| `RowAssembly.FlattenRoundTripIff` | src/spec.ts:106-126 | flattening a shape and rebuilding its tree gives its nesting exactly if no group is empty |
| `RowAssembly.BuildObjTree` | src/mapper.ts:23-32 | the loop builds the reference tree |
| `RowAssembly.AssembleObj` | src/mapper.ts:33-38 | leaves, then groups |
| `RowAssembly.GroupAllNull` | src/mapper.ts:39-43 | every leaf below is null |
| `RowAssembly.AssembleObjGroup` | src/mapper.ts:44-51 | null on a miss, else the object |
| `RowContents.RowHolds` | src/mapper.ts:23-53 | for every column list and row: along a column's path, under its name, is that column's own value, transformed unless null, if it is the last of its name, no group has that name and no group on the path is missed |
| `RowContents.FieldAt` | src/mapper.ts:33-53 | what is under any key of any object of a row: the group of that key, else the last column of that name, else nothing |
| `RowContents.GroupIsNullIff` | src/mapper.ts:44-51 | a group is null exactly if it is nullable and a required column of its own is null or, with none required, all below are; else it is an object |
| `RowContents.KeysAre` | src/mapper.ts:33-38 | the keys of every object are the names of its own columns and then its groups, each where it was first used, and no other |
| `RowContents.ArrayRowHolds` | src/mapper.ts:81-86 | in an array row every cell stands in its column's place |
| `RowContents.TreeAt` | src/mapper.ts:23-32 | every node of the tree in terms of the columns below it |
| `Objects.AssignedHolds` | src/mapper.ts:18-21 | of several assignments to a key the last one counts, in the place of the first |
| `RowMapper.MappersAgree` | src/mapper.ts:54-92 | over the bytes of any DataRow both mappers build the same object, and every column that the row shows has in its place null for a null cell, else what its decoder makes of the cell's bytes, transformed unless null |
| `Framer.ChunksDoNotMatter` | src/protocol.ts:225-242 | any way of cutting a well-formed stream gives the same messages and leftover |
| `Framer.SplitStream` | src/protocol.ts:225-242 | the frames of any messages split into exactly those messages |
| `Framer.WireReader.Push` | src/protocol.ts:225-242 | one push over buffer views yields the reference split, wherever the bytes are placed |
| `Framer.WireReader.Keep` | src/connection.ts:574-589 | a kept frame extends or opens a span; what is collected grows by exactly that frame |
| `Framer.WireReader.Settle` | src/connection.ts:1117-1119 | a query's spans concatenate to exactly its own T, D, C, E and I frames in order, with other queries before and behind it on the connection |
| `Framer.KeptAreWanted` | src/connection.ts:574-589 | what a query keeps are the whole frames of RowDescription, DataRow, CommandComplete, ErrorResponse and EmptyQueryResponse, in order, and of no other message |
| `Framer.CyclesCut` | src/connection.ts:1117-1119 | the messages are cut behind each ReadyForQuery and nowhere else |
| `Framer.WireReader.OnData` | src/connection.ts:563-573 | after every chunk, each answered query has got exactly its own frames |
| `JsonScan.ValueSkipped` | src/neon-http.ts:95-107 | the scan lands exactly one past any well-formed value (sections 3 and 7 of RFC 8259) though it counts one bracket kind |
| `JsonScan.ValueNeutral` | src/neon-http.ts:100-106 | inside a nest any value leaves the depth as it was |
| `JsonScan.ScanString` | src/neon-http.ts:95-99 | end of the string and the escape flag |
| `JsonScan.EndOfValue` | src/neon-http.ts:100-106 | the index loop computes the reference skip |
| `NeonRows.DecodeSingleRaw` | src/neon-http.ts:227-254 | the raw scan builds the bodies of the parsed rows, for every rows array of strings and nulls with a cell per column |
| `NeonRows.DecodeParsed` | src/neon-http.ts:258-269 | so does the parse-first path |
| `NeonRows.DecodersAgree` | src/neon-http.ts:227-269 | on the same rows, once as text and once parsed, the raw scan and the parse-first path build the same list |
| `NeonRows.RowBuf.Finish` | src/neon-http.ts:109-121 | count and cells |
| `JsonParse.ParseJsonBuffer` | src/jsonparse.ts:34-120 | the text of any JSON tree, whatever the whitespace, gives the tree's value |
| `JsonValues.ValueSays` | src/jsonparse.ts:70-120 | that value: the words are their values, an array holds its items in order, an object has the keys of its members where each came first and under each the value of the last member with that key |
| `JsonValues.IntegerSays` | src/jsonparse.ts:49-68 | the text of any integer gives that number below 2^53 in size and beyond it the same integer or the same digits, as the mode asks |
| `JsonParse.ParseNumber` | src/jsonparse.ts:49-68 | every integer is exact in the 'string' and 'bigint' modes though the digits are accumulated with rounding |
| `JsonParse.AccumulatedTracks` | src/jsonparse.ts:49-68 | the rounded accumulator is exact up to 2^53 and stays above it afterwards |
| `JsonParse.MayHaveBigInt` | src/jsonparse.ts:23-32 | finds a long run of digits exactly if there is one |
| `JsonParse.BigIntegersHaveLongRuns` | src/jsonparse.ts:23-32 | so it misses no integer that a number cannot hold |

## Left out

- COPY in the connection: a sub-protocol of its own, with its own queueing.
- Unnamed statements in the claim about running the right SQL, and transparent retries of statements that DDL invalidated: the second pipelined reuse can fail, so no success is claimed.
- That reject is called once per task: the program relies on promises ignoring later settlement.
- CancelProtocol.LateCancelIsMarked: claims nothing after a second cancel was issued while the first could still land, because the program cannot tell their effects apart then.
- Recreating a lost slot and temporary slots in `replicate`, and backfills: they start a new history of the slot.
- LSN text: positions are numbers in the model.
- Pool liveness, a single probe, and a bound under the breaker: waiters are not always woken after a failed open, and the probe opens without a capacity check.
- The guard against using the pool inside one of its own transactions: it depends on the caller's asynchronous context.
- RowAssembly.BuildObjTree: builds the tree as a value; the program pushes into node arrays in place.
- Framer.WireReader.Settle: covers streams without a bad length; a bad length takes the connection down.
- RowContents.KeysAre: JavaScript lists keys that look like array indices first; the model keeps the order of assignment for all keys, here and in `JsonValues.ValueSays`.
- ServerBind.CycleReads: covers statement names without a NUL, which end in the message where the name does.
- ServerReads.ParamReads: the text of a number that is no safe integer is what String() makes of it, and is read as that text.
- Column decoders, transforms, JSON.stringify, JSON.parse of escapes and Number() are uninterpreted; generated source text is modelled by the meaning of the expressions.
- Raw parameters (src/encode.ts:401-408), which bypass both encoders.
- FloatText.FastPathRoundsOnce: says nothing of the sign of a zero, which reals do not have.
- The time zone suffix that src/aurora.ts adds to values without one, and the object-versus-entries checks of shape keys.
- Sockets, TLS, authentication, telemetry, timers as clocks: a timer is an event that may happen at any time.
