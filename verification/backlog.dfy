/**
 * The in-process backlog: an ordered buffer of (message, path-options)
 * entries that were handed to the consumer but not yet acknowledged.
 *
 * The buffer does not store pairs. It stores flat slots, two per entry
 * (ITEMS_PER_MESSAGE): the message, then its options. `WellFormed` is the
 * shape every writer and reader keeps, and `Entries` / `Flatten` translate
 * between the slot view and the entry view.
 */
module Backlog {
  import opened Messages

  /** Slots one entry occupies. */
  const ITEMS_PER_MESSAGE: nat := 2

  datatype Slot = MsgSlot(msg: Msg) | OptsSlot(opts: PathOptions)

  datatype Entry = Entry(msg: Msg, opts: PathOptions)

  /** An even number of slots, message slots at even positions, options slots at odd ones. */
  predicate WellFormed(slots: seq<Slot>)
  {
    && |slots| % ITEMS_PER_MESSAGE == 0
    && forall i :: 0 <= i < |slots| ==> (slots[i].MsgSlot? <==> i % ITEMS_PER_MESSAGE == 0)
  }

  /** `_get_len_from_queue`: the number of entries, i.e. slots divided by two, rounded down. */
  function EntryCount(slots: seq<Slot>): nat
  {
    |slots| / ITEMS_PER_MESSAGE
  }

  /**
   * The entry count is the number of whole entries the slots hold: a
   * trailing lone slot is not counted, and a well-formed backlog is
   * exactly that many entries, as many as the entry view and the layout
   * of those entries have.
   */
  lemma EntryCountMeasuresEntries(slots: seq<Slot>, es: seq<Entry>)
    ensures ITEMS_PER_MESSAGE * EntryCount(slots) <= |slots| < ITEMS_PER_MESSAGE * (EntryCount(slots) + 1)
    ensures WellFormed(slots) ==> ITEMS_PER_MESSAGE * EntryCount(slots) == |slots| && EntryCount(slots) == |Entries(slots)|
    ensures EntryCount(Flatten(es)) == |es|
  {
  }

  /** Dropping whole entries from the front keeps the shape. */
  lemma WellFormedSuffix(slots: seq<Slot>, k: nat)
    requires WellFormed(slots)
    requires k <= EntryCount(slots)
    ensures WellFormed(slots[ITEMS_PER_MESSAGE * k..])
    ensures EntryCount(slots[ITEMS_PER_MESSAGE * k..]) == EntryCount(slots) - k
  {
    var rest := slots[ITEMS_PER_MESSAGE * k..];
    forall i | 0 <= i < |rest|
      ensures rest[i].MsgSlot? <==> i % ITEMS_PER_MESSAGE == 0
    {
      assert rest[i] == slots[2 * k + i];
      assert (2 * k + i) % 2 == i % 2;
    }
  }

  /** The entry view of a well-formed backlog: slot 2j is entry j's message, slot 2j+1 its options. */
  function Entries(slots: seq<Slot>): (es: seq<Entry>)
    requires WellFormed(slots)
    ensures |es| == EntryCount(slots)
    ensures forall j :: 0 <= j < |es| ==>
              es[j] == Entry(slots[ITEMS_PER_MESSAGE * j].msg, slots[ITEMS_PER_MESSAGE * j + 1].opts)
    decreases |slots|
  {
    if slots == [] then []
    else
      WellFormedSuffix(slots, 1);
      [Entry(slots[0].msg, slots[1].opts)] + Entries(slots[ITEMS_PER_MESSAGE..])
  }

  /** The slot layout of a sequence of entries. */
  function Flatten(es: seq<Entry>): (slots: seq<Slot>)
    ensures |slots| == ITEMS_PER_MESSAGE * |es|
    ensures forall j :: 0 <= j < |es| ==>
              && slots[ITEMS_PER_MESSAGE * j] == MsgSlot(es[j].msg)
              && slots[ITEMS_PER_MESSAGE * j + 1] == OptsSlot(es[j].opts)
  {
    if es == [] then []
    else [MsgSlot(es[0].msg), OptsSlot(es[0].opts)] + Flatten(es[1..])
  }

  /** Flattening always produces a well-formed backlog, and reading it back gives the entries. */
  lemma FlattenRoundTrip(es: seq<Entry>)
    ensures WellFormed(Flatten(es))
    ensures Entries(Flatten(es)) == es
  {
    var slots := Flatten(es);
    forall i | 0 <= i < |slots|
      ensures slots[i].MsgSlot? <==> i % ITEMS_PER_MESSAGE == 0
    {
      var j := i / 2;
      assert i == 2 * j || i == 2 * j + 1;
    }
  }

  /** A well-formed backlog is exactly the flattening of its entries. */
  lemma EntriesRoundTrip(slots: seq<Slot>)
    requires WellFormed(slots)
    ensures Flatten(Entries(slots)) == slots
  {
    var back := Flatten(Entries(slots));
    forall i | 0 <= i < |slots|
      ensures back[i] == slots[i]
    {
      var j := i / 2;
      var e := Entries(slots)[j];
      if i == 2 * j {
        assert slots[i].MsgSlot?;
        assert back[i] == MsgSlot(e.msg);
      } else {
        assert i == 2 * j + 1 && slots[i].OptsSlot?;
        assert back[i] == OptsSlot(e.opts);
      }
    }
  }

  /** The entries of a suffix that starts at an entry boundary. */
  lemma EntriesSuffix(slots: seq<Slot>, k: nat)
    requires WellFormed(slots)
    requires k <= EntryCount(slots)
    ensures WellFormed(slots[ITEMS_PER_MESSAGE * k..])
    ensures Entries(slots[ITEMS_PER_MESSAGE * k..]) == Entries(slots)[k..]
  {
    WellFormedSuffix(slots, k);
    var rest := slots[ITEMS_PER_MESSAGE * k..];
    var es := Entries(slots);
    var tail := Entries(rest);
    assert |tail| == |es[k..]|;
    forall j | 0 <= j < |tail|
      ensures tail[j] == es[k..][j]
    {
      assert rest[2 * j] == slots[2 * (k + j)];
      assert rest[2 * j + 1] == slots[2 * (k + j) + 1];
    }
    assert tail == es[k..];
  }

  /** The two paired `g_queue_push_tail` calls that buffer one entry. */
  function Push(slots: seq<Slot>, m: Msg, opts: PathOptions): (r: seq<Slot>)
    ensures |r| == |slots| + ITEMS_PER_MESSAGE && r[..|slots|] == slots
    ensures r[|slots|] == MsgSlot(m) && r[|slots| + 1] == OptsSlot(opts)
    ensures WellFormed(slots) ==> WellFormed(r) && EntryCount(r) == EntryCount(slots) + 1
  {
    slots + [MsgSlot(m), OptsSlot(opts)]
  }

  /** Pushing one entry keeps the shape and appends exactly that entry. */
  lemma PushAppendsEntry(slots: seq<Slot>, m: Msg, opts: PathOptions)
    requires WellFormed(slots)
    ensures WellFormed(Push(slots, m, opts))
    ensures Entries(Push(slots, m, opts)) == Entries(slots) + [Entry(m, opts)]
  {
    var pushed := Push(slots, m, opts);
    forall i | 0 <= i < |pushed|
      ensures pushed[i].MsgSlot? <==> i % ITEMS_PER_MESSAGE == 0
    {
      if i >= |slots| {
        assert |slots| % 2 == 0;
      }
    }
    assert WellFormed(pushed);
    var es := Entries(pushed);
    forall j | 0 <= j < |es|
      ensures es[j] == (Entries(slots) + [Entry(m, opts)])[j]
    {
      if j < EntryCount(slots) {
        assert pushed[2 * j] == slots[2 * j];
        assert pushed[2 * j + 1] == slots[2 * j + 1];
      } else {
        assert 2 * j == |slots|;
      }
    }
  }

  /** The memory the messages of `es` account for. */
  function Memory(es: seq<Entry>): int
  {
    if es == [] then 0 else es[0].msg.size + Memory(es[1..])
  }

  lemma {:induction false} MemoryAppend(a: seq<Entry>, b: seq<Entry>)
    ensures Memory(a + b) == Memory(a) + Memory(b)
    decreases |a|
  {
    if a == [] {
      assert a + b == b;
    } else {
      assert (a + b)[1..] == a[1..] + b;
      MemoryAppend(a[1..], b);
    }
  }

  /** The messages of `es`, in order. */
  function MessagesOf(es: seq<Entry>): (ms: seq<Msg>)
    ensures |ms| == |es|
    ensures forall j :: 0 <= j < |es| ==> ms[j] == es[j].msg
  {
    seq(|es|, j requires 0 <= j < |es| => es[j].msg)
  }
}
