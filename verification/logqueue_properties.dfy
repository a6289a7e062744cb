/**
 * Properties of the reliable log queue that relate several operations:
 * the queue invariant is kept by every operation, messages come back out
 * in the order they went in, the ack / rewind drains, and a worked
 * push / pop / ack / rewind scenario.
 */
module LogQueueProperties {
  import opened Wrappers
  import opened Messages
  import opened Backlog
  import opened RedisClient
  import opened LogQueueRedis

  /** A connection that is alive and answers every command. */
  const Up: Link := Link(true, Healthy)

  // ---------------------------------------------------------------------
  // The invariant is kept by every operation
  // ---------------------------------------------------------------------

  lemma PushTailKeepsValid(q: Queue, m: Msg, opts: PathOptions, link: Link)
    requires Valid(q)
    ensures Valid(PushTail(q, m, opts, link).q)
    ensures PushTail(q, m, opts, link).q.backlog == q.backlog
  {
  }

  /** A popped message in backlog mode is one more entry, counted in both counters. */
  lemma PopHeadKeepsValid(q: Queue, opts: PathOptions, read: Link, decoding: Decoding, delete: Link)
    requires Valid(q)
    ensures Valid(PopHead(q, opts, read, decoding, delete).q)
  {
    var r := PopHead(q, opts, read, decoding, delete);
    if r.msg.Some? && q.useBacklog {
      var m := r.msg.value;
      var pushed := Push(q.backlog, m, opts);
      assert r.q.backlog == pushed && r.q.queued == q.queued + 1 && r.q.memory == q.memory + m.size;
      PushAppendsEntry(q.backlog, m, opts);
      MemoryAppend(Entries(q.backlog), [Entry(m, opts)]);
      assert Memory([Entry(m, opts)]) == m.size;
      assert Memory(Entries(pushed)) == q.memory + m.size;
      assert EntryCount(pushed) == q.queued + 1;
    }
  }

  /** Removing k whole entries from the front leaves the invariant in place. */
  lemma DropOldestKeepsValid(q: Queue, k: nat, r: Queue)
    requires Valid(q) && k <= EntryCount(q.backlog)
    requires r.backlog == q.backlog[ITEMS_PER_MESSAGE * k..]
    requires r.queued == q.queued - k
    requires r.memory == q.memory - Memory(Entries(q.backlog)[..k])
    ensures Valid(r)
  {
    var es := Entries(q.backlog);
    EntriesSuffix(q.backlog, k);
    WellFormedSuffix(q.backlog, k);
    assert es == es[..k] + es[k..];
    MemoryAppend(es[..k], es[k..]);
  }

  lemma AckBacklogKeepsValid(q: Queue, n: int)
    requires Valid(q) && GINT_MIN <= n <= GINT_MAX
    ensures Valid(AckBacklog(q, n))
  {
    DropOldestKeepsValid(q, Min(ToGuint(n), EntryCount(q.backlog)), AckBacklog(q, n));
  }

  lemma RewindBacklogKeepsValid(q: Queue, count: nat, env: nat -> Link)
    requires Valid(q) && count < GUINT_MODULUS
    ensures Valid(RewindBacklog(q, count, env))
  {
    DropOldestKeepsValid(q, Min(count, EntryCount(q.backlog)), RewindBacklog(q, count, env));
  }

  // ---------------------------------------------------------------------
  // FIFO order
  // ---------------------------------------------------------------------

  /** Push every message of `ms`, in order, over a healthy connection. */
  function PushAll(q: Queue, ms: seq<Msg>, opts: PathOptions): Queue
    decreases |ms|
  {
    if ms == [] then q else PushAll(PushTail(q, ms[0], opts, Up).q, ms[1..], opts)
  }

  /** Successful pushes append to the list's tail in call order, and touch nothing else. */
  lemma {:induction false} PushAllAppends(q: Queue, ms: seq<Msg>, opts: PathOptions)
    ensures PushAll(q, ms, opts) == q.(store := q.store + ms)
    decreases |ms|
  {
    if ms != [] {
      var q1 := PushTail(q, ms[0], opts, Up).q;
      PushAllAppends(q1, ms[1..], opts);
      assert q.store + ms == q.store + [ms[0]] + ms[1..];
    }
  }

  /** The result of popping repeatedly: the queue and the messages returned, in order. */
  datatype Drained = Drained(q: Queue, popped: seq<Msg>)

  /** Pop up to n times over a healthy connection, stopping at the first NULL. */
  function PopMany(q: Queue, n: nat, opts: PathOptions): Drained
    decreases n
  {
    if n == 0 then Drained(q, [])
    else
      var r := PopHead(q, opts, Up, Intact, Up);
      match r.msg
      case None => Drained(r.q, [])
      case Some(m) =>
        var rest := PopMany(r.q, n - 1, opts);
        Drained(rest.q, [m] + rest.popped)
  }

  /** The backlog entries `ms` become when popped with options `opts`. */
  function Tagged(ms: seq<Msg>, opts: PathOptions): (es: seq<Entry>)
    ensures |es| == |ms|
    ensures forall j :: 0 <= j < |ms| ==> es[j] == Entry(ms[j], opts)
  {
    seq(|ms|, j requires 0 <= j < |ms| => Entry(ms[j], opts))
  }

  /**
   * In backlog mode, n pops return the first n messages of the list in
   * list order, remove exactly those from the list, and buffer them in
   * the same order behind what the backlog already held.
   */
  lemma {:induction false} PopManyTakesHeadInOrder(q: Queue, n: nat, opts: PathOptions)
    requires q.useBacklog && n <= |q.store|
    ensures PopMany(q, n, opts).popped == q.store[..n]
    ensures PopMany(q, n, opts).q.store == q.store[n..]
    ensures PopMany(q, n, opts).q.backlog == q.backlog + Flatten(Tagged(q.store[..n], opts))
    decreases n
  {
    if n == 0 {
      assert Tagged(q.store[..0], opts) == [];
    } else {
      var next := PopManyStep(q, n, opts);
      PopManyTakesHeadInOrder(next, n - 1, opts);
      var rest := PopMany(next, n - 1, opts);
      PopManyCombine(q, n, opts, next, rest, PopMany(q, n, opts));
    }
  }

  /** The first pop followed by n - 1 more pops adds up to n pops. */
  lemma PopManyCombine(q: Queue, n: nat, opts: PathOptions, next: Queue, rest: Drained, whole: Drained)
    requires 0 < n <= |q.store|
    requires next.store == q.store[1..]
    requires next.backlog == q.backlog + [MsgSlot(q.store[0]), OptsSlot(opts)]
    requires rest.popped == next.store[..n - 1]
    requires rest.q.store == next.store[n - 1..]
    requires rest.q.backlog == next.backlog + Flatten(Tagged(next.store[..n - 1], opts))
    requires whole == Drained(rest.q, [q.store[0]] + rest.popped)
    ensures whole.popped == q.store[..n]
    ensures whole.q.store == q.store[n..]
    ensures whole.q.backlog == q.backlog + Flatten(Tagged(q.store[..n], opts))
  {
    assert q.store[..n][1..] == next.store[..n - 1];
    assert q.store[..n] == [q.store[0]] + rest.popped;
    BufferedInOrder(q.backlog, q.store[..n], opts);
  }

  /** Buffering the head, then the rest, is buffering the whole prefix. */
  lemma BufferedInOrder(backlog: seq<Slot>, taken: seq<Msg>, opts: PathOptions)
    requires |taken| > 0
    ensures (backlog + [MsgSlot(taken[0]), OptsSlot(opts)]) + Flatten(Tagged(taken[1..], opts))
         == backlog + Flatten(Tagged(taken, opts))
  {
    TaggedFlattenCons(taken, opts);
  }

  /** One healthy pop in backlog mode: the head comes out, and is buffered with the options. */
  lemma PopManyStep(q: Queue, n: nat, opts: PathOptions) returns (next: Queue)
    requires q.useBacklog && 0 < n <= |q.store|
    ensures next.useBacklog
    ensures next.store == q.store[1..]
    ensures next.backlog == q.backlog + [MsgSlot(q.store[0]), OptsSlot(opts)]
    ensures PopMany(q, n, opts) == Drained(PopMany(next, n - 1, opts).q, [q.store[0]] + PopMany(next, n - 1, opts).popped)
  {
    var r := PopHead(q, opts, Up, Intact, Up);
    next := r.q;
  }

  /** The slots of a tagged sequence: the first message and options, then the rest. */
  lemma TaggedFlattenCons(ms: seq<Msg>, opts: PathOptions)
    requires |ms| > 0
    ensures Flatten(Tagged(ms, opts)) == [MsgSlot(ms[0]), OptsSlot(opts)] + Flatten(Tagged(ms[1..], opts))
  {
    assert Tagged(ms, opts)[1..] == Tagged(ms[1..], opts);
  }

  /**
   * FIFO: after successful pushes of ms, popping drains what the list held
   * before and then ms itself, in push order, into the backlog.
   */
  lemma FifoOrder(q: Queue, ms: seq<Msg>, opts: PathOptions)
    requires q.useBacklog
    ensures PopMany(PushAll(q, ms, opts), |q.store| + |ms|, opts).popped == q.store + ms
    ensures PopMany(PushAll(q, ms, opts), |q.store| + |ms|, opts).q.store == []
  {
    PushAllAppends(q, ms, opts);
    PopManyTakesHeadInOrder(PushAll(q, ms, opts), |q.store| + |ms|, opts);
    assert (q.store + ms)[..|q.store| + |ms|] == q.store + ms;
  }

  /** The length reported after n successful pushes onto an empty list is n. */
  lemma LengthAfterPushes(q: Queue, ms: seq<Msg>, opts: PathOptions)
    requires q.store == []
    ensures GetLength(PushAll(q, ms, opts), Up) == |ms|
  {
    PushAllAppends(q, ms, opts);
  }

  /** Without the backlog a pop only peeks: popping again returns the same message. */
  lemma PopWithoutBacklogOnlyPeeks(q: Queue, opts: PathOptions)
    requires !q.useBacklog && |q.store| > 0
    ensures var first := PopHead(q, opts, Up, Intact, Up);
      var second := PopHead(first.q, opts, Up, Intact, Up);
      && first.msg == Some(q.store[0])
      && second.msg == first.msg
      && second.q == q
  {
  }

  // ---------------------------------------------------------------------
  // Ack, rewind and free
  // ---------------------------------------------------------------------

  /** Over a healthy connection every rewound message is written back, in backlog order. */
  lemma {:induction false} ResubmittedAllWhenHealthy(es: seq<Entry>, env: nat -> Link, i: nat)
    requires forall j :: i <= j ==> Delivers(env(j))
    ensures Resubmitted(es, env, i) == MessagesOf(es)
    decreases |es|
  {
    if es != [] {
      ResubmittedAllWhenHealthy(es[1..], env, i + 1);
      assert MessagesOf(es) == [es[0].msg] + MessagesOf(es[1..]);
    }
  }

  /** When every write fails, no message is resubmitted. */
  lemma {:induction false} ResubmittedNoneWhenDown(es: seq<Entry>, env: nat -> Link, i: nat)
    requires forall j :: i <= j ==> !Delivers(env(j))
    ensures Resubmitted(es, env, i) == []
    decreases |es|
  {
    if es != [] {
      ResubmittedNoneWhenDown(es[1..], env, i + 1);
    }
  }

  /**
   * When every write fails, a rewind still takes the oldest entries out of
   * the backlog and their accounting out of the counters, but the list is
   * left exactly as it was.
   */
  lemma RewindWhileDownOnlyDrops(q: Queue, count: nat, env: nat -> Link)
    requires Valid(q) && count < GUINT_MODULUS
    requires forall j :: !Delivers(env(j))
    ensures var r := RewindBacklog(q, count, env);
      var k := Min(count, EntryCount(q.backlog));
      && r.store == q.store
      && r.backlog == q.backlog[ITEMS_PER_MESSAGE * k..]
      && Valid(r)
  {
    var k := Min(count, EntryCount(q.backlog));
    ResubmittedNoneWhenDown(Entries(q.backlog)[..k], env, 0);
    RewindBacklogKeepsValid(q, count, env);
  }

  /** `_backlog_all` over a healthy connection moves the whole backlog back onto the list's tail. */
  lemma RewindAllRequeuesEverything(q: Queue)
    requires Valid(q) && |q.backlog| < GUINT_MODULUS
    ensures var r := RewindBacklogAll(q, _ => Up);
      && r.backlog == []
      && r.store == q.store + MessagesOf(Entries(q.backlog))
      && r.queued == 0 && r.memory == 0
  {
    var env: nat -> Link := _ => Up;
    var k := EntryCount(q.backlog);
    assert Min(ToGuint(-1), k) == k;
    assert Entries(q.backlog)[..k] == Entries(q.backlog);
    ResubmittedAllWhenHealthy(Entries(q.backlog), env, 0);
    RewindBacklogKeepsValid(q, ToGuint(-1), env);
  }

  /** An ack count of -1 wraps to 2^32 - 1 and acknowledges the whole backlog. */
  lemma AckMinusOneDrains(q: Queue)
    requires Valid(q) && |q.backlog| < GUINT_MODULUS
    ensures AckBacklog(q, -1).backlog == []
    ensures AckBacklog(q, -1).queued == 0 && AckBacklog(q, -1).memory == 0
  {
    AckBacklogKeepsValid(q, -1);
  }

  /**
   * Freeing a queue whose backlog is already drained drops nothing, and
   * releases only the key name.
   */
  lemma FreeDrainedDropsNothing(q: Queue)
    requires WellFormed(q.backlog) && Entries(q.backlog) == []
    ensures Free(q).drops == []
    ensures Free(q).q == q.(name := [])
  {
    EntriesRoundTrip(q.backlog);
  }

  // ---------------------------------------------------------------------
  // A worked scenario
  // ---------------------------------------------------------------------

  const A: Msg := Msg("A", 10)
  const B: Msg := Msg("B", 20)
  const C: Msg := Msg("C", 30)

  /**
   * Push A, B, C; pop twice (A then B, two entries buffered); ack one
   * (only B stays buffered, the list holds C); rewind one (backlog empty,
   * the list holds C then B); the next pop returns C.
   */
  lemma PushPopAckRewindScenario(q: Queue, opts: PathOptions)
    requires Valid(q) && q.useBacklog && q.store == [] && q.backlog == []
    ensures var pushed := PushAll(q, [A, B, C], opts);
      var popped := PopMany(pushed, 2, opts);
      && popped.popped == [A, B]
      && WellFormed(popped.q.backlog)
      && EntryCount(popped.q.backlog) == 2
      && var acked := AckBacklog(popped.q, 1);
      && WellFormed(acked.backlog)
      && Entries(acked.backlog) == [Entry(B, opts)]
      && GetLength(acked, Up) == 1
      && var rewound := RewindBacklog(acked, 1, _ => Up);
      && rewound.backlog == []
      && rewound.store == [C, B]
      && PopHead(rewound, opts, Up, Intact, Up).msg == Some(C)
  {
    var pushed := PushAll(q, [A, B, C], opts);
    PushAllAppends(q, [A, B, C], opts);
    PopManyTakesHeadInOrder(pushed, 2, opts);
    var popped := PopMany(pushed, 2, opts);
    assert pushed.store[..2] == [A, B];
    assert pushed.store[2..] == [C];
    var es := Tagged([A, B], opts);
    FlattenRoundTrip(es);
    assert popped.q.backlog == Flatten(es);
    assert Entries(popped.q.backlog) == [Entry(A, opts), Entry(B, opts)];
    var acked := AckBacklog(popped.q, 1);
    EntriesSuffix(popped.q.backlog, 1);
    assert Entries(acked.backlog) == [Entry(B, opts)];
    var rewound := RewindBacklog(acked, 1, _ => Up);
    assert Entries(acked.backlog)[..1] == [Entry(B, opts)];
    assert Resubmitted([Entry(B, opts)], _ => Up, 0) == [B];
  }
}
