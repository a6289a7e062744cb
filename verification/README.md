# Redis-backed reliable log queue and FilterX expression reference counts

This project models two pieces of a log-processing daemon in Dafny.

The first is the Redis-backed log queue. Messages are appended to a remote
Redis list with RPUSH. They are read from its head with `LRANGE 0 0` and
removed with LPOP. In backlog mode each message handed to the consumer is
also buffered in an in-process GQueue, the backlog, until the consumer
acknowledges it (`ack_backlog`) or rewinds it onto the list's tail
(`rewind_backlog`). The backlog stores two slots per message
(`ITEMS_PER_MESSAGE`): the message, then its path options. Three counters
(queued, memory, dropped) track what is buffered and what was lost.

The second is the reference counting of FilterX expression nodes. A node
starts with one reference. `ref` and `unref` accept NULL. The node's free
method runs when its count reaches zero, and unary and binary nodes release
their operands when freed.

Everything is a pure function on immutable values:

- `wrappers.dfy` holds `Option`, `Result` and `Min`.
- `messages.dfy` holds the opaque messages, the path options and the outcome of deserialisation.
- `redis_client.dfy` (`RedisClient`) covers reply classification and connect / reconnect / disconnect / the liveness probe. The network is an oracle `Fault` per round trip.
- `backlog.dfy` (`Backlog`) covers the slot layout, its shape invariant and the entry view of it.
- `logqueue_redis.dfy` (`LogQueueRedis`) holds the queue operations.
- `logqueue_properties.dfy` (`LogQueueProperties`) holds the invariant preservation, FIFO order, drain lemmas and a worked scenario.
- `filterx_expr.dfy` (`FilterXExpr`) and `filterx_properties.dfy` (`FilterXProperties`) hold the node heap and its reference-count lemmas.

The queue's invariant is `LogQueueRedis.Valid`. The backlog must be whole
entries, the queued counter must equal the entry count, and the memory
counter must equal the sum of the buffered messages' sizes. Each queue
operation takes a `Link` per command it issues. A `Link` says whether the
liveness check before that command passed (`RedisClient.IsAlive`) and how
the command's round trip went.

Points where the model follows the code rather than a natural reading of it:

- `get_length` returns the raw LLEN of the list and does not divide it by the number of slots per message. Each RPUSH stores one element, so this raw value is the message count.
- `_ack_backlog` takes a `gint` count and compares it against a `guint` loop counter. A negative count is therefore converted to 2^32 plus the count, so `ack_backlog(-1)` acknowledges the whole backlog.
- `_backlog_all` passes -1 as a `guint`, which is 2^32 - 1.
- Without backlog mode, `pop_head` only peeks. The message stays on the list and the next pop returns it again.
- `pop_head` buffers the caller's path options as they were on entry. It clears "ack needed" only after buffering them.
- A failed deserialisation still returns a message: whatever the deserialiser filled in.
- A rewound entry leaves the backlog even when writing it back fails. The dropped counter does not change then.
- `_free` drains the backlog and drops every message in it. It does not decrement the queued or memory counters.

## Model

| member | source | states |
|---|---|---|
| `RedisClient.SendCommand` | modules/redisq/logqueue-redis.c:52-69 | a command succeeds exactly when a reply arrived and it is not an error reply: a missing reply and an error reply both mean failure |
| `RedisClient.GetReply` | modules/redisq/logqueue-redis.c:71-90 | the reply is handed back exactly when the command succeeded, unchanged; otherwise the caller gets NULL, never an error reply |
| `RedisClient.ControlCommand` | modules/redisq/logqueue-redis.c:92-108 | PING and AUTH succeed exactly when the context carries no error and the round trip is healthy |
| `RedisClient.CommandSucceedsIffHealthy` | modules/redisq/logqueue-redis.c:52-90 | a command counts as sent, and yields a reply, exactly when its round trip was healthy; a lost reply and an error reply are treated alike and leave the list unchanged |
| `RedisClient.Connect` | modules/redisq/logqueue-redis.c:110-145 | connecting keeps the new context even on failure; it succeeds iff the context opened without error, AUTH was accepted whenever a password is configured, and PING was answered |
| `RedisClient.Disconnect` | modules/redisq/logqueue-redis.c:161-170 | disconnecting leaves no context and keeps the options, whether or not a context existed |
| `RedisClient.DisconnectIdempotent` | modules/redisq/logqueue-redis.c:161-170 | disconnecting twice is the same as disconnecting once |
| `RedisClient.Reconnect` | modules/redisq/logqueue-redis.c:147-159 | a reconnect replaces the context with the new attempt's context and succeeds exactly when a fresh connect would |
| `RedisClient.IsAlive` | modules/redisq/logqueue-redis.c:172-185 | a ping answered on an error-free context reports alive and changes nothing; otherwise exactly one reconnect is attempted and its result is reported |
| `RedisClient.NewServer` | modules/redisq/logqueue-redis.c:443-484 | constructing the server connects once and keeps the options; the server holds the context that this connect attempt opened, error flag included, whatever the connect reported |
| `Backlog.EntryCountMeasuresEntries` | modules/redisq/logqueue-redis.c:46-50 | `_get_len_from_queue` counts whole entries, so a trailing lone slot is not counted; on a well-formed backlog it is exactly the slot count over two, the number of entries, and the number of entries laid out by `Flatten` |
| `Backlog.Entries` | modules/redisq/logqueue-redis.c:42-50 | a well-formed backlog of 2n slots holds n entries; entry j is the message in slot 2j and the options in slot 2j+1 |
| `Backlog.Flatten` | modules/redisq/logqueue-redis.c:264-267 | entries are laid out as two consecutive slots each, message first |
| `Backlog.FlattenRoundTrip` | modules/redisq/logqueue-redis.c:264-267 | slots written in message/options pairs always form a well-formed backlog, and reading it back gives the same entries |
| `Backlog.EntriesRoundTrip` | modules/redisq/logqueue-redis.c:42-50 | a well-formed backlog is exactly the slot layout of its entries |
| `Backlog.WellFormedSuffix` | modules/redisq/logqueue-redis.c:295-299 | popping whole entries from the front keeps the slot count even and message/options alternating, with k fewer entries |
| `Backlog.EntriesSuffix` | modules/redisq/logqueue-redis.c:321-324 | popping k entries' slots leaves exactly the entries after the first k |
| `Backlog.Push` | modules/redisq/logqueue-redis.c:264-267 | the paired push keeps the old slots as a prefix and adds the message slot then the options slot at the tail; on a well-formed backlog the result is well formed with one more entry |
| `Backlog.PushAppendsEntry` | modules/redisq/logqueue-redis.c:266-267 | the paired push of a message and its options keeps the backlog well formed and appends exactly one entry |
| `LogQueueRedis.ToGuint` | modules/redisq/logqueue-redis.c:335-341 | conversion to `guint` keeps values in [0, 2^32) and maps a negative `gint` n to 2^32 + n, so -1 becomes 2^32 - 1 |
| `LogQueueRedis.QueueName` | modules/redisq/logqueue-redis.c:457-464 | the key name is a prefix of "<keyprefix>_<persist-name>" of length min(full length, 1023); when it fits, prefix, separator and persist name are recoverable from it |
| `LogQueueRedis.NewQueue` | modules/redisq/logqueue-redis.c:523-538 | no queue is created when the connection is not alive; otherwise the queue has an empty backlog, queued, memory and dropped all 0, the backlog mode its caller sets, the list as found and the formatted key name, and it satisfies the queue invariant |
| `LogQueueRedis.GetLength` | modules/redisq/logqueue-redis.c:188-213 | the length is the list's element count when the connection is alive and LLEN answers, and 0 otherwise |
| `LogQueueRedis.WriteMessage` | modules/redisq/logqueue-redis.c:401-426 | a write is consumed iff the connection is alive and RPUSH succeeds; then the message is at the list's tail, otherwise the list is unchanged |
| `LogQueueRedis.ReadMessage` | modules/redisq/logqueue-redis.c:361-399 | a read yields a message iff the connection is alive, LRANGE succeeds and the list is non-empty; the message is the deserialised head, a partial one when deserialisation failed |
| `LogQueueRedis.DeleteMessage` | modules/redisq/logqueue-redis.c:428-441 | a delete reports success iff the connection is alive and LPOP succeeds; then the head is gone (an empty list stays empty), otherwise the list is unchanged |
| `LogQueueRedis.PushTail` | modules/redisq/logqueue-redis.c:230-249 | on success exactly one message is appended at the tail and acked, and nothing else changes; on failure only the dropped counter rises by one and there is no ack |
| `LogQueueRedis.PopHead` | modules/redisq/logqueue-redis.c:251-281 | no message (and no change) unless alive, LRANGE answers and the list is non-empty; in backlog mode the head plus the caller's original options become one new backlog entry, queued rises by 1, memory by the size, and the head is removed iff LPOP succeeds; without backlog nothing changes; a returned message clears "ack needed" |
| `LogQueueRedis.AckOne` | modules/redisq/logqueue-redis.c:298-303 | one ack iteration removes the two slots of the oldest entry, leaving exactly the later entries, lowers queued by 1 and memory by that entry's size, and changes nothing else |
| `LogQueueRedis.AckSteps` | modules/redisq/logqueue-redis.c:293-304 | running the ack loop for r iterations removes exactly the oldest min(r, entries) entries, never half a one, subtracts them from queued and their sizes from memory, and changes nothing else |
| `LogQueueRedis.AckBacklog` | modules/redisq/logqueue-redis.c:283-305 | ack_backlog(n) removes the oldest min(n as guint, entries) entries with the matching counter updates, and changes nothing else: the list, the dropped counter, the name and the mode stay as they were |
| `LogQueueRedis.RewindOne` | modules/redisq/logqueue-redis.c:323-330 | one rewind iteration removes the oldest entry and its accounting whether or not the write succeeds; its message reaches the list's tail iff the write was delivered, and nothing else changes |
| `LogQueueRedis.RewindSteps` | modules/redisq/logqueue-redis.c:319-332 | the rewind loop removes the oldest entries whether or not their writes succeed, appends the successfully written ones to the list in backlog order, and updates queued and memory for every removed entry |
| `LogQueueRedis.RewindBacklog` | modules/redisq/logqueue-redis.c:307-333 | rewind_backlog(n) removes the oldest min(n, entries) entries, appends the successfully rewritten messages to the list's tail oldest first, updates queued and memory for every removed entry, and changes nothing else |
| `LogQueueRedis.RewindBacklogAll` | modules/redisq/logqueue-redis.c:335-341 | rewinding everything empties any backlog a GQueue can hold: every entry leaves the backlog and the counters, the successfully rewritten messages are appended to the list oldest first, and nothing else changes |
| `LogQueueRedis.EmptyQueue` | modules/redisq/logqueue-redis.c:215-228 | draining drops exactly the backlog's messages, oldest first |
| `LogQueueRedis.Free` | modules/redisq/logqueue-redis.c:343-359 | free empties the backlog, releases the name, drops every buffered message in order, and leaves the list and all counters as they were |
| `LogQueueProperties.PushTailKeepsValid` | modules/redisq/logqueue-redis.c:230-249 | a push, successful or not, keeps the queue invariant and never touches the backlog |
| `LogQueueProperties.PopHeadKeepsValid` | modules/redisq/logqueue-redis.c:263-270 | a pop keeps the queue invariant: the new entry is counted in queued and its size in memory |
| `LogQueueProperties.AckBacklogKeepsValid` | modules/redisq/logqueue-redis.c:293-304 | an ack keeps the backlog well formed and the counters consistent with it |
| `LogQueueProperties.RewindBacklogKeepsValid` | modules/redisq/logqueue-redis.c:319-332 | a rewind keeps the backlog well formed and the counters consistent with it, whatever the writes' outcomes |
| `LogQueueProperties.PushAllAppends` | modules/redisq/logqueue-redis.c:230-245 | successful pushes append their messages at the list's tail in call order and change nothing else |
| `LogQueueProperties.PopManyTakesHeadInOrder` | modules/redisq/logqueue-redis.c:251-281 | in backlog mode n healthy pops return the first n list elements in order, remove exactly those, and buffer them in that order behind the existing backlog |
| `LogQueueProperties.FifoOrder` | modules/redisq/logqueue-redis.c:361-441 | after successful pushes of ms, popping returns the list's earlier contents and then ms in push order, leaving the list empty |
| `LogQueueProperties.LengthAfterPushes` | modules/redisq/logqueue-redis.c:188-213 | after n successful pushes onto an empty list, the reported length is n |
| `LogQueueProperties.PopWithoutBacklogOnlyPeeks` | modules/redisq/logqueue-redis.c:259-280 | without backlog, two pops return the same head message and leave the queue unchanged |
| `LogQueueProperties.ResubmittedAllWhenHealthy` | modules/redisq/logqueue-redis.c:319-332 | with every write delivered, the resubmitted messages are exactly the rewound ones, in backlog order |
| `LogQueueProperties.ResubmittedNoneWhenDown` | modules/redisq/logqueue-redis.c:328-331 | when every write fails, the rewind loop resubmits no message |
| `LogQueueProperties.RewindWhileDownOnlyDrops` | modules/redisq/logqueue-redis.c:319-332 | when every write fails, a rewind leaves the list exactly as it was, yet the oldest min(n, entries) entries still leave the backlog and the queue invariant holds |
| `LogQueueProperties.RewindAllRequeuesEverything` | modules/redisq/logqueue-redis.c:335-341 | over a healthy connection rewind-all moves the whole backlog back to the list's tail, oldest first, and zeroes queued and memory |
| `LogQueueProperties.AckMinusOneDrains` | modules/redisq/logqueue-redis.c:283-296 | ack_backlog(-1) wraps to 2^32 - 1 and acknowledges the whole backlog, zeroing queued and memory |
| `LogQueueProperties.FreeDrainedDropsNothing` | modules/redisq/logqueue-redis.c:343-359 | freeing a queue whose backlog is already drained drops nothing and changes only the released key name |
| `LogQueueProperties.PushPopAckRewindScenario` | modules/redisq/logqueue-redis.c:230-333 | push A, B, C; two pops give A then B and buffer two entries; ack(1) leaves only B buffered and the list at length 1; rewind(1) empties the backlog with the list [C, B]; the next pop returns C |
| `FilterXExpr.InitInstance` | lib/filterx/filterx-expr.c:65-70 | a freshly initialised node has count 1 and the base free method |
| `FilterXExpr.ExprNew` | lib/filterx/filterx-expr.c:72-78 | a new node is a fresh id with count 1 and the base free method; all other nodes are unchanged |
| `FilterXExpr.UnaryOpNew` | lib/filterx/filterx-expr.c:112-118 | a unary node starts with count 1 and the unary free method, holds its (possibly NULL) operand, and leaves the operand's count alone |
| `FilterXExpr.BinaryOpNew` | lib/filterx/filterx-expr.c:130-139 | a binary node requires non-NULL operands, starts with count 1 and the binary free method, and takes both operands without changing their counts |
| `FilterXExpr.Ref` | lib/filterx/filterx-expr.c:80-88 | ref(NULL) returns NULL and changes nothing; ref(e) returns e with its count one higher and nothing else changed |
| `FilterXExpr.Unref` | lib/filterx/filterx-expr.c:90-101 | unref(NULL) changes nothing; otherwise counts never grow, the freed set only grows, freed means count 0, and only e and older nodes can change |
| `FilterXExpr.Decrement` | lib/filterx/filterx-expr.c:96 | dropping a reference that is not the last lowers that count by one and keeps the node live |
| `FilterXExpr.Dying` | lib/filterx/filterx-expr.c:96-98 | dropping the last reference sets the count to 0 and marks exactly that node freed |
| `FilterXExpr.RunFree` | lib/filterx/filterx-expr.c:103-128 | a free method affects only nodes older than the one being freed and never raises a count |
| `FilterXProperties.RefThenUnrefRestores` | lib/filterx/filterx-expr.c:80-101 | taking and then dropping a reference restores the heap exactly |
| `FilterXProperties.UnrefKeepsReferencedNode` | lib/filterx/filterx-expr.c:96-100 | a node with more than one reference is not freed by unref; only its count drops by one |
| `FilterXProperties.UnrefFreesIffLastReference` | lib/filterx/filterx-expr.c:90-101 | a live node is freed by unref exactly when that unref drops its last reference |
| `FilterXProperties.UnrefOfFreedNodeFaults` | lib/filterx/filterx-expr.c:96-100 | unref on a node whose count already reached 0 is a use after free |
| `FilterXProperties.BinaryFreeUnrefsEachOperandOnce` | lib/filterx/filterx-expr.c:120-128 | freeing a binary node whose two distinct operands are also held elsewhere (count at least 2) takes exactly one reference from each, frees the node, and changes nothing else |
| `FilterXProperties.BinaryFreeUnrefsSharedOperandTwice` | lib/filterx/filterx-expr.c:120-128 | a binary node whose two slots hold the same operand, also held elsewhere (count at least 3), releases it twice, once per slot; only the node joins the freed set and no other node changes |
| `FilterXProperties.BinaryFreeReleasesSharedLeafTwice` | lib/filterx/filterx-expr.c:120-128 | a binary node whose two slots hold the same leaf operand, with any count of at least 2: the operand loses exactly two references, one per slot, and is freed iff those were its last two (an operand the node owns alone); the node is freed and no other node changes |
| `FilterXProperties.UnaryFreeUnrefsOperandOnce` | lib/filterx/filterx-expr.c:103-110 | freeing a unary node whose operand is also held elsewhere (count at least 2) takes exactly one reference from it, frees only the node itself and changes no other node; with a NULL operand only the node itself is freed |
| `FilterXProperties.UnrefLeafReleasesOnlyIt` | lib/filterx/filterx-expr.c:90-101 | unref on a live node with the base free method drops exactly that one reference, freeing the node iff it was the last, and touches nothing else |
| `FilterXProperties.BinaryFreeReleasesLeafOperands` | lib/filterx/filterx-expr.c:120-128 | freeing a binary node over two distinct leaf operands, on any heap and with any counts: each operand loses exactly one reference and is freed iff that was its last one (the operands the node owns alone), the node is freed, and no other node changes |
| `FilterXProperties.UnaryFreeReleasesLeafOperand` | lib/filterx/filterx-expr.c:103-110 | freeing a unary node over a leaf operand, on any heap and with any count: the operand loses exactly one reference and is freed iff that was its last one, the node is freed, and no other node changes |
| `FilterXProperties.TreeFreedWithRoot` | lib/filterx/filterx-expr.c:90-139 | dropping the only reference to a binary node over two fresh leaves frees all three |

## Left out

- The hiredis transport is not modelled: `redisConnectWithTimeout`, `redisvCommand`, reply freeing and the `timeval` timeout. Each round trip is an oracle `Fault`. A command with no reply is taken not to have run; a real server may have run it.
- The mutexes and `log_queue_push_notify` are not modelled. They exist only for concurrency and signalling, and the model is sequential.
- Message serialisation is not modelled. It is the identity, and a failed deserialisation returns a partial message given by the oracle.
- Logging is not modelled. The effects of `log_msg_ack`, `log_msg_drop` and the message reference counts are reduced to an "acked" flag on push and the list of dropped messages on free.
- Stats counters are plain integers that start at 0 when the queue is created. Their registry is not modelled.
- The queue operations take the liveness check's result as a boolean in `Link`. The reconnect it may cause is modelled in `RedisClient.IsAlive`, but that connection state is not threaded through the queue state.
- Releasing memory is not modelled: `g_queue_free`, `g_free`, `_redis_server_free`, `_redis_server_deinit` and `log_queue_redis_free`. `log_queue_redis_new_instance` only allocates and then creates the server, which `RedisClient.NewServer` models. `_set_virtual_functions` only wires function pointers. Neither is modelled on its own.
- LogQueueRedis.NewQueue: `log_queue_redis_new` takes no backlog mode and leaves `use_backlog` as `g_new0` zeroed it; the caller sets it afterwards, outside these files. The `useBacklog` parameter stands for that later setting.
- `LogQueueRedis.GetLength`: the `glong`/`gint64` width of the returned length is not modelled.
- `LogQueueRedis.QueueName`: characters stand for bytes, and strings containing NUL are not modelled.
- The source location and debug text helpers in filterx-expr.c are not modelled: `filterx_expr_set_location*`, `filterx_expr_format_location_tag`, and the `expr_text` freed by the base free method. They depend on the config lexer and event tags.
- The FilterX reference counter is atomic in the source. Here it is a plain `nat`.
- `FilterXExpr.Unref`: no general theorem says a heap whose counts match its owners never faults. The model reports a use after free as an error, and the lemmas show fault-free frees for the cases stated.
- FilterXProperties.BinaryFreeUnrefsEachOperandOnce: it covers operands held elsewhere (count at least 2), of any kind. An operand whose last reference this node holds is covered by `BinaryFreeReleasesLeafOperands` when that operand is a leaf. When it is itself a unary or binary node, its own free cascades further, and no all-heaps lemma describes that cascade.
- FilterXProperties.BinaryFreeUnrefsSharedOperandTwice: it covers a shared operand held elsewhere too (count at least 3), of any kind. A shared operand that only this node holds (count 2) is covered by `BinaryFreeReleasesSharedLeafTwice` when it is a leaf. The cascade through a non-leaf one is not stated in general.
- FilterXProperties.UnaryFreeUnrefsOperandOnce: the same restriction. An operand owned only by this node is covered by `UnaryFreeReleasesLeafOperand` when it is a leaf, and the cascade through a non-leaf operand is not stated in general.
- A second `_free` on the same queue is not modelled. In the source it releases `persist_name` a second time, because that field is never reset, and `persist_name` is not part of the model.
- lib/filterx/tests/test_object_json.c is not part of this model. It tests JSON objects whose implementation is not here.
- lib/filterx/filterx-scope.h is not part of this model. It declares functions and has no behaviour.
