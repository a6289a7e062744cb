/**
 * The reliable log queue over a remote list: push at the tail of the list,
 * peek and remove at its head, and an in-process backlog of delivered but
 * unacknowledged messages that can be acknowledged or rewound onto the list.
 *
 * Each operation is a pure transition on `Queue`. The network enters as a
 * `Link` per command: whether the liveness check before the command passed
 * (`RedisClient.IsAlive`), and how the command's round trip went.
 */
module LogQueueRedis {
  import opened Wrappers
  import opened Messages
  import opened Backlog
  import opened RedisClient

  /** Size of the buffer the queue name is formatted into, terminator included. */
  const QNAME_BUFFER_SIZE: nat := 1024

  /** 2^32: the modulus of the `guint` loop counters and counts. */
  const GUINT_MODULUS: nat := 0x1_0000_0000

  const GINT_MIN: int := -0x8000_0000
  const GINT_MAX: int := 0x7FFF_FFFF

  /** The C conversion of an integer to `guint`: reduction modulo 2^32. */
  function ToGuint(n: int): (u: nat)
    ensures u < GUINT_MODULUS
    ensures 0 <= n < GUINT_MODULUS ==> u == n
    ensures GINT_MIN <= n < 0 ==> u == n + GUINT_MODULUS
  {
    n % GUINT_MODULUS
  }

  /**
   * The queue: the remote list at the queue's key, the backlog, and the
   * queued / memory / dropped counters.
   */
  datatype Queue = Queue(
    store: seq<Msg>,
    backlog: seq<Slot>,
    name: string,
    useBacklog: bool,
    queued: int,
    memory: int,
    dropped: nat)

  /** The liveness check before a command, and the command's round trip. */
  datatype Link = Link(alive: bool, fault: Fault)

  /** A link over which the command is carried out. */
  predicate Delivers(link: Link)
  {
    link.alive && link.fault == Healthy
  }

  /**
   * The queue's invariant: the backlog is a sequence of whole entries, the
   * queued counter is its entry count and the memory counter the sum of
   * the buffered messages' sizes.
   */
  predicate Valid(q: Queue)
  {
    && WellFormed(q.backlog)
    && q.queued == EntryCount(q.backlog)
    && q.memory == Memory(Entries(q.backlog))
  }

  /**
   * `_set_redis_queue_name`: "<keyprefix>_<persist-name>" formatted into a
   * 1024-byte buffer, so at most 1023 characters survive.
   */
  function QueueName(keyprefix: string, persistName: string): (name: string)
    ensures |name| == Min(|keyprefix| + 1 + |persistName|, QNAME_BUFFER_SIZE - 1)
    ensures name <= keyprefix + "_" + persistName
    ensures |keyprefix| + 1 + |persistName| < QNAME_BUFFER_SIZE ==>
              && name[..|keyprefix|] == keyprefix
              && name[|keyprefix|] == '_'
              && name[|keyprefix| + 1..] == persistName
  {
    var full := keyprefix + "_" + persistName;
    if |full| < QNAME_BUFFER_SIZE then full else full[..QNAME_BUFFER_SIZE - 1]
  }

  /**
   * `log_queue_redis_new`: no queue when the connection is not alive;
   * otherwise an empty backlog, zero counters and the formatted key name,
   * over whatever the list already holds.
   */
  function NewQueue(options: Options, persistName: string, useBacklog: bool, store: seq<Msg>, alive: bool): (r: Option<Queue>)
    ensures r.Some? <==> alive
    ensures r.Some? ==> Valid(r.value) && r.value.backlog == [] && r.value.store == store
    ensures r.Some? ==> r.value.name == QueueName(options.keyprefix, persistName)
    ensures r.Some? ==> r.value.queued == 0 && r.value.memory == 0 && r.value.dropped == 0
    ensures r.Some? ==> r.value.useBacklog == useBacklog
  {
    if !alive then None
    else Some(Queue(store, [], QueueName(options.keyprefix, persistName), useBacklog, 0, 0, 0))
  }

  /**
   * `_get_length`: the raw LLEN of the list, or 0 when the connection is not
   * alive or the reply is missing or not an integer. Nothing else changes.
   */
  function GetLength(q: Queue, link: Link): (len: int)
    ensures Delivers(link) ==> len == |q.store|
    ensures !Delivers(link) ==> len == 0
  {
    if !link.alive then 0
    else
      match GetReply(Execute(q.store, LLen, link.fault).reply)
      case Some(IntegerReply(n)) => n
      case _ => 0
  }

  /** Whether a write was accepted, and the list afterwards. */
  datatype Write = Write(consumed: bool, store: seq<Msg>)

  /** `_write_message`: RPUSH the serialised message when the connection is alive. */
  function WriteMessage(store: seq<Msg>, m: Msg, link: Link): (w: Write)
    ensures w.consumed <==> Delivers(link)
    ensures w.consumed ==> w.store == store + [m]
    ensures !w.consumed ==> w.store == store
  {
    if !link.alive then Write(false, store)
    else
      var o := Execute(store, RPush(m), link.fault);
      Write(SendCommand(o.reply), o.store)
  }

  /**
   * `_read_message`: LRANGE 0 0 when the connection is alive; a message
   * only for a one-element array reply. A failed deserialisation still
   * yields the (partially filled) message.
   */
  function ReadMessage(store: seq<Msg>, link: Link, decoding: Decoding): (r: Option<Msg>)
    ensures r.Some? <==> Delivers(link) && |store| > 0
    ensures r.Some? ==> r.value == Decode(store[0], decoding)
  {
    if !link.alive then None
    else
      match GetReply(Execute(store, LRangeHead, link.fault).reply)
      case Some(ArrayReply(items)) =>
        if |items| == 1 then Some(Decode(items[0], decoding)) else None
      case _ => None
  }

  /** `_delete_message`: LPOP when the connection is alive. */
  function DeleteMessage(store: seq<Msg>, link: Link): (w: Write)
    ensures w.consumed <==> Delivers(link)
    ensures w.consumed && |store| > 0 ==> w.store == store[1..]
    ensures !w.consumed || store == [] ==> w.store == store
  {
    if !link.alive then Write(false, store)
    else
      var o := Execute(store, LPop, link.fault);
      Write(SendCommand(o.reply), o.store)
  }

  /** The queue after a push, and whether the message was acknowledged upstream. */
  datatype PushResult = PushResult(q: Queue, acked: bool)

  /**
   * `_push_tail`: on a successful write the message is at the list's tail
   * and acknowledged; otherwise nothing but the dropped counter changes.
   */
  function PushTail(q: Queue, m: Msg, opts: PathOptions, link: Link): (r: PushResult)
    ensures r.acked <==> Delivers(link)
    ensures r.acked ==> r.q == q.(store := q.store + [m])
    ensures !r.acked ==> r.q == q.(dropped := q.dropped + 1)
  {
    var w := WriteMessage(q.store, m, link);
    if w.consumed then PushResult(q.(store := w.store), true)
    else PushResult(q.(dropped := q.dropped + 1), false)
  }

  /** The queue after a pop, the message (None for NULL) and the caller's options afterwards. */
  datatype PopResult = PopResult(q: Queue, msg: Option<Msg>, opts: PathOptions)

  /**
   * `_pop_head`: read the head of the list. With the backlog enabled the
   * message and the caller's options (as they were on entry) are buffered,
   * the counters grow and the head is LPOPed; without it, nothing is
   * buffered and nothing is removed. A returned message always leaves the
   * caller's options with "ack needed" cleared.
   */
  function PopHead(q: Queue, opts: PathOptions, read: Link, decoding: Decoding, delete: Link): (r: PopResult)
    ensures r.msg.Some? <==> Delivers(read) && |q.store| > 0
    ensures r.msg.None? ==> r.q == q && r.opts == opts
    ensures r.msg.Some? ==> r.msg.value == Decode(q.store[0], decoding) && r.opts == PathOptions(false)
    ensures !q.useBacklog ==> r.q == q
    ensures r.msg.Some? && q.useBacklog ==>
              r.q == q.(backlog := Push(q.backlog, r.msg.value, opts),
                        queued := q.queued + 1,
                        memory := q.memory + r.msg.value.size,
                        store := if Delivers(delete) then q.store[1..] else q.store)
  {
    match ReadMessage(q.store, read, decoding)
    case None => PopResult(q, None, opts)
    case Some(m) =>
      var after :=
        if q.useBacklog then
          var buffered := q.(backlog := Push(q.backlog, m, opts), queued := q.queued + 1, memory := q.memory + m.size);
          buffered.(store := DeleteMessage(buffered.store, delete).store)
        else q;
      PopResult(after, Some(m), opts.(ackNeeded := false))
  }

  /** Pop the two slots of the oldest entry and release its accounting. */
  function AckOne(q: Queue): (r: Queue)
    requires WellFormed(q.backlog) && |q.backlog| >= ITEMS_PER_MESSAGE
    ensures r.backlog == q.backlog[ITEMS_PER_MESSAGE..]
    ensures WellFormed(r.backlog) && Entries(r.backlog) == Entries(q.backlog)[1..]
    ensures r.queued == q.queued - 1 && r.memory == q.memory - Entries(q.backlog)[0].msg.size
    ensures r == q.(backlog := r.backlog, queued := r.queued, memory := r.memory)
  {
    EntriesSuffix(q.backlog, 1);
    q.(backlog := q.backlog[ITEMS_PER_MESSAGE..],
       queued := q.queued - 1,
       memory := q.memory - q.backlog[0].msg.size)
  }

  /** One step of the oldest-entry accounting used by ack and rewind. */
  lemma PrefixStep(slots: seq<Slot>, k: nat)
    requires WellFormed(slots) && 1 <= k <= EntryCount(slots)
    ensures WellFormed(slots[ITEMS_PER_MESSAGE..])
    ensures Entries(slots)[..k] == [Entries(slots)[0]] + Entries(slots[ITEMS_PER_MESSAGE..])[..k - 1]
    ensures Memory(Entries(slots)[..k]) == slots[0].msg.size + Memory(Entries(slots[ITEMS_PER_MESSAGE..])[..k - 1])
    ensures slots[ITEMS_PER_MESSAGE..][ITEMS_PER_MESSAGE * (k - 1)..] == slots[ITEMS_PER_MESSAGE * k..]
  {
    EntriesSuffix(slots, 1);
    var es := Entries(slots);
    assert es[..k] == [es[0]] + es[1..][..k - 1];
    assert es[..k][1..] == es[1..][..k - 1];
  }

  /**
   * The loop of `_ack_backlog` run for `remaining` more iterations: each
   * one stops the loop if fewer than two slots remain, and otherwise pops
   * one whole entry. The outcome: the oldest min(remaining, entries)
   * entries are gone, counted out of both counters, and nothing else moved.
   */
  function AckSteps(q: Queue, remaining: nat): (r: Queue)
    requires WellFormed(q.backlog)
    ensures var k := Min(remaining, EntryCount(q.backlog));
      && r.backlog == q.backlog[ITEMS_PER_MESSAGE * k..]
      && r.queued == q.queued - k
      && r.memory == q.memory - Memory(Entries(q.backlog)[..k])
      && r == q.(backlog := r.backlog, queued := r.queued, memory := r.memory)
    decreases remaining
  {
    if remaining == 0 || |q.backlog| < ITEMS_PER_MESSAGE then q
    else
      PrefixStep(q.backlog, Min(remaining, EntryCount(q.backlog)));
      AckSteps(AckOne(q), remaining - 1)
  }

  /**
   * `_ack_backlog`: the count is a `gint` compared against a `guint` loop
   * counter, so C converts it to `guint`: a negative count means 2^32 plus
   * that count.
   */
  function AckBacklog(q: Queue, numMsgToAck: int): (r: Queue)
    requires WellFormed(q.backlog)
    requires GINT_MIN <= numMsgToAck <= GINT_MAX
    ensures var k := Min(ToGuint(numMsgToAck), EntryCount(q.backlog));
      && r.backlog == q.backlog[ITEMS_PER_MESSAGE * k..]
      && r.queued == q.queued - k
      && r.memory == q.memory - Memory(Entries(q.backlog)[..k])
      && r.store == q.store && r.dropped == q.dropped
    ensures r == q.(backlog := r.backlog, queued := r.queued, memory := r.memory)
  {
    AckSteps(q, ToGuint(numMsgToAck))
  }

  /**
   * The messages of `es` that get back onto the list when entry j is
   * written over link `env(i + j)`.
   */
  function Resubmitted(es: seq<Entry>, env: nat -> Link, i: nat): (ms: seq<Msg>)
    ensures |ms| <= |es|
    decreases |es|
  {
    if es == [] then []
    else (if Delivers(env(i)) then [es[0].msg] else []) + Resubmitted(es[1..], env, i + 1)
  }

  /** Pop the oldest entry, release its accounting and write its message back to the list. */
  function RewindOne(q: Queue, link: Link): (r: Queue)
    requires WellFormed(q.backlog) && |q.backlog| >= ITEMS_PER_MESSAGE
    ensures r.backlog == q.backlog[ITEMS_PER_MESSAGE..]
    ensures WellFormed(r.backlog) && Entries(r.backlog) == Entries(q.backlog)[1..]
    ensures r.queued == q.queued - 1 && r.memory == q.memory - Entries(q.backlog)[0].msg.size
    ensures Delivers(link) ==> r.store == q.store + [Entries(q.backlog)[0].msg]
    ensures !Delivers(link) ==> r.store == q.store
    ensures r == q.(backlog := r.backlog, store := r.store, queued := r.queued, memory := r.memory)
  {
    EntriesSuffix(q.backlog, 1);
    var m := q.backlog[0].msg;
    q.(backlog := q.backlog[ITEMS_PER_MESSAGE..],
       queued := q.queued - 1,
       memory := q.memory - m.size,
       store := WriteMessage(q.store, m, link).store)
  }

  /**
   * Iterations i .. count-1 of the loop of `_rewind_backlog`; iteration i
   * writes over link `env(i)`. An entry leaves the backlog whether or not
   * its write succeeds; the list gains the messages whose write did.
   */
  function RewindSteps(q: Queue, i: nat, count: nat, env: nat -> Link): (r: Queue)
    requires WellFormed(q.backlog) && i <= count
    ensures var k := Min(count - i, EntryCount(q.backlog));
      var done := Entries(q.backlog)[..k];
      && r.backlog == q.backlog[ITEMS_PER_MESSAGE * k..]
      && r.store == q.store + Resubmitted(done, env, i)
      && r.queued == q.queued - k
      && r.memory == q.memory - Memory(done)
      && r == q.(backlog := r.backlog, store := r.store, queued := r.queued, memory := r.memory)
    decreases count - i
  {
    if i >= count then q
    else if |q.backlog| > 0 then
      var r := RewindSteps(RewindOne(q, env(i)), i + 1, count, env);
      RewindStepAccounts(q, i, count, env, r);
      r
    else RewindSteps(q, i + 1, count, env)
  }

  /** One entry rewound first, the rest by the remaining iterations, add up to the whole. */
  lemma RewindStepAccounts(q: Queue, i: nat, count: nat, env: nat -> Link, r: Queue)
    requires WellFormed(q.backlog) && |q.backlog| > 0 && i < count
    requires WellFormed(RewindOne(q, env(i)).backlog)
    requires var q1 := RewindOne(q, env(i));
      var k1 := Min(count - (i + 1), EntryCount(q1.backlog));
      var done1 := Entries(q1.backlog)[..k1];
      && r.backlog == q1.backlog[ITEMS_PER_MESSAGE * k1..]
      && r.store == q1.store + Resubmitted(done1, env, i + 1)
      && r.queued == q1.queued - k1
      && r.memory == q1.memory - Memory(done1)
      && r == q1.(backlog := r.backlog, store := r.store, queued := r.queued, memory := r.memory)
    ensures var k := Min(count - i, EntryCount(q.backlog));
      var done := Entries(q.backlog)[..k];
      && r.backlog == q.backlog[ITEMS_PER_MESSAGE * k..]
      && r.store == q.store + Resubmitted(done, env, i)
      && r.queued == q.queued - k
      && r.memory == q.memory - Memory(done)
      && r == q.(backlog := r.backlog, store := r.store, queued := r.queued, memory := r.memory)
  {
    var k := Min(count - i, EntryCount(q.backlog));
    PrefixStep(q.backlog, k);
    RewindStepStore(q, i, k, env);
  }

  /** The list after rewinding the first entry and then k - 1 more is the list after rewinding k. */
  lemma RewindStepStore(q: Queue, i: nat, k: nat, env: nat -> Link)
    requires WellFormed(q.backlog) && 1 <= k <= EntryCount(q.backlog)
    ensures var q1 := RewindOne(q, env(i));
      q1.store + Resubmitted(Entries(q1.backlog)[..k - 1], env, i + 1)
        == q.store + Resubmitted(Entries(q.backlog)[..k], env, i)
  {
    var done := Entries(q.backlog)[..k];
    var q1 := RewindOne(q, env(i));
    var done1 := Entries(q1.backlog)[..k - 1];
    assert done[1..] == done1;
    var head := if Delivers(env(i)) then [done[0].msg] else [];
    assert Resubmitted(done, env, i) == head + Resubmitted(done1, env, i + 1);
    assert q1.store == q.store + head;
  }

  /** `_rewind_backlog`: clamp the count to the entries present, then run the loop. */
  function RewindBacklog(q: Queue, rewindCount: nat, env: nat -> Link): (r: Queue)
    requires WellFormed(q.backlog)
    requires rewindCount < GUINT_MODULUS
    ensures var k := Min(rewindCount, EntryCount(q.backlog));
      var done := Entries(q.backlog)[..k];
      && r.backlog == q.backlog[ITEMS_PER_MESSAGE * k..]
      && r.store == q.store + Resubmitted(done, env, 0)
      && r.queued == q.queued - k
      && r.memory == q.memory - Memory(done)
      && r.dropped == q.dropped
    ensures r == q.(backlog := r.backlog, store := r.store, queued := r.queued, memory := r.memory)
  {
    RewindSteps(q, 0, Min(rewindCount, EntryCount(q.backlog)), env)
  }

  /**
   * `_backlog_all`: rewind with count -1 converted to `guint`. A GQueue's
   * length is itself a `guint`, so every backlog it can hold is emptied.
   */
  function RewindBacklogAll(q: Queue, env: nat -> Link): (r: Queue)
    requires WellFormed(q.backlog)
    ensures |q.backlog| < GUINT_MODULUS ==> r.backlog == []
    ensures r.store == q.store + Resubmitted(Entries(q.backlog)[..Min(ToGuint(-1), EntryCount(q.backlog))], env, 0)
    ensures |q.backlog| < GUINT_MODULUS ==>
              && r.store == q.store + Resubmitted(Entries(q.backlog), env, 0)
              && r.queued == q.queued - EntryCount(q.backlog)
              && r.memory == q.memory - Memory(Entries(q.backlog))
    ensures r == q.(backlog := r.backlog, store := r.store, queued := r.queued, memory := r.memory)
  {
    assert Entries(q.backlog)[..EntryCount(q.backlog)] == Entries(q.backlog);
    RewindBacklog(q, ToGuint(-1), env)
  }

  /**
   * `_empty_queue`: pop entries until the backlog is empty, dropping each
   * message; the messages dropped, oldest first.
   */
  function EmptyQueue(slots: seq<Slot>): (drops: seq<Msg>)
    requires WellFormed(slots)
    ensures drops == MessagesOf(Entries(slots))
    decreases |slots|
  {
    if |slots| == 0 then []
    else
      EntriesSuffix(slots, 1);
      [slots[0].msg] + EmptyQueue(slots[ITEMS_PER_MESSAGE..])
  }

  /** The queue after `_free`, and the backlog messages it dropped. */
  datatype FreeResult = FreeResult(q: Queue, drops: seq<Msg>)

  /**
   * `_free`: drain the backlog, dropping every buffered message, and release
   * the key name. The queued and memory counters are not touched.
   */
  function Free(q: Queue): (r: FreeResult)
    requires WellFormed(q.backlog)
    ensures r.q.backlog == [] && r.q.name == []
    ensures r.drops == MessagesOf(Entries(q.backlog))
    ensures r.q == q.(backlog := [], name := [])
  {
    FreeResult(q.(backlog := [], name := []), EmptyQueue(q.backlog))
  }
}
