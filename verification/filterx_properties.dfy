/**
 * Properties of the expression reference counts: a reference taken and
 * dropped again leaves no trace, a node is freed exactly by the unref that
 * drops its last reference, freeing a unary or binary node releases each
 * operand slot exactly once, and a whole tree goes with its root.
 */
module FilterXProperties {
  import opened Wrappers
  import opened FilterXExpr

  /** `Ref` and `Unref` are inverse on a live node. */
  lemma RefThenUnrefRestores(h: Heap, e: Option<Id>)
    requires Valid(h)
    requires e.Some? ==> Live(h, e.value)
    ensures Unref(Ref(h, e).heap, e) == Ok(h)
  {
    if e.Some? {
      var x := e.value;
      var h1 := Ref(h, e).heap;
      assert h1.nodes[x].refCnt >= 2;
      assert Decrement(h1, x).nodes == h.nodes;
    }
  }

  /** Dropping a reference that is not the last one only decrements that count. */
  lemma UnrefKeepsReferencedNode(h: Heap, x: Id)
    requires Valid(h) && Live(h, x) && h.nodes[x].refCnt >= 2
    ensures Unref(h, Some(x)) == Ok(Decrement(h, x))
    ensures Live(Decrement(h, x), x) && Decrement(h, x).nodes[x].refCnt == h.nodes[x].refCnt - 1
  {
  }

  /** A node is freed by an unref exactly when that unref drops its last reference. */
  lemma UnrefFreesIffLastReference(h: Heap, x: Id)
    requires Valid(h) && Live(h, x)
    requires Unref(h, Some(x)).Ok?
    ensures x in Unref(h, Some(x)).value.freed <==> h.nodes[x].refCnt == 1
  {
    var r := Unref(h, Some(x)).value;
    if h.nodes[x].refCnt == 1 {
      var h0 := Dying(h, x);
      assert r.nodes[x] == h0.nodes[x];
    }
  }

  /** Unref on a node whose count already reached 0 is a use after free. */
  lemma UnrefOfFreedNodeFaults(h: Heap, x: Id)
    requires Valid(h) && x in h.freed
    ensures Unref(h, Some(x)) == Err(UseAfterFree(x))
  {
  }

  /**
   * Freeing a binary node whose two distinct operands are still held
   * elsewhere takes exactly one reference from each, frees the node itself,
   * and changes nothing else.
   */
  lemma BinaryFreeUnrefsEachOperandOnce(h: Heap, b: Id)
    requires Valid(h) && Live(h, b) && h.nodes[b].refCnt == 1
    requires h.nodes[b].freeFn == BinaryOpFree
    requires h.nodes[b].lhs.Some? && h.nodes[b].rhs.Some?
    requires var l := h.nodes[b].lhs.value; var r := h.nodes[b].rhs.value;
      l != r && Live(h, l) && Live(h, r) && h.nodes[l].refCnt >= 2 && h.nodes[r].refCnt >= 2
    ensures Unref(h, Some(b)).Ok?
    ensures var l := h.nodes[b].lhs.value; var r := h.nodes[b].rhs.value;
      var after := Unref(h, Some(b)).value;
      && after.nodes[l].refCnt == h.nodes[l].refCnt - 1
      && after.nodes[r].refCnt == h.nodes[r].refCnt - 1
      && after.nodes[b].refCnt == 0 && b in after.freed
      && after.freed == h.freed + {b}
      && forall y | y in h.nodes && y != l && y != r && y != b :: after.nodes[y] == h.nodes[y]
  {
    var l := h.nodes[b].lhs.value;
    var r := h.nodes[b].rhs.value;
    var h0 := Dying(h, b);
    assert Unref(h, Some(b)) == RunFree(h0, b);
    UnrefKeepsReferencedNode(h0, l);
    var h1 := Decrement(h0, l);
    UnrefKeepsReferencedNode(h1, r);
    var h2 := Decrement(h1, r);
    assert RunFree(h0, b) == Ok(h2);
  }

  /**
   * A binary node whose two slots hold the same operand releases it twice,
   * once per slot.
   */
  lemma BinaryFreeUnrefsSharedOperandTwice(h: Heap, b: Id)
    requires Valid(h) && Live(h, b) && h.nodes[b].refCnt == 1
    requires h.nodes[b].freeFn == BinaryOpFree
    requires h.nodes[b].lhs.Some? && h.nodes[b].lhs == h.nodes[b].rhs
    requires var l := h.nodes[b].lhs.value; Live(h, l) && h.nodes[l].refCnt >= 3
    ensures Unref(h, Some(b)).Ok?
    ensures var l := h.nodes[b].lhs.value;
      var after := Unref(h, Some(b)).value;
      && after.nodes[l].refCnt == h.nodes[l].refCnt - 2
      && b in after.freed
      && after.freed == h.freed + {b}
      && forall y | y in h.nodes && y != l && y != b :: after.nodes[y] == h.nodes[y]
  {
    var l := h.nodes[b].lhs.value;
    var h0 := Dying(h, b);
    assert Unref(h, Some(b)) == RunFree(h0, b);
    UnrefKeepsReferencedNode(h0, l);
    var h1 := Unref(h0, Some(l)).value;
    UnrefKeepsReferencedNode(h1, l);
  }

  /** Freeing a unary node takes exactly one reference from its operand. */
  lemma UnaryFreeUnrefsOperandOnce(h: Heap, u: Id)
    requires Valid(h) && Live(h, u) && h.nodes[u].refCnt == 1
    requires h.nodes[u].freeFn == UnaryOpFree
    requires var o := h.nodes[u].operand; o.Some? ==> Live(h, o.value) && h.nodes[o.value].refCnt >= 2
    ensures Unref(h, Some(u)).Ok?
    ensures var after := Unref(h, Some(u)).value;
      && u in after.freed
      && (h.nodes[u].operand.Some? ==>
            after.nodes[h.nodes[u].operand.value].refCnt == h.nodes[h.nodes[u].operand.value].refCnt - 1)
      && (h.nodes[u].operand.None? ==> after == Dying(h, u))
      && (h.nodes[u].operand.Some? ==> after.freed == h.freed + {u})
      && forall y | y in h.nodes && y != u && (h.nodes[u].operand.None? || y != h.nodes[u].operand.value) ::
           after.nodes[y] == h.nodes[y]
  {
    var h0 := Dying(h, u);
    assert Unref(h, Some(u)) == RunFree(h0, u);
    if h.nodes[u].operand.Some? {
      UnrefKeepsReferencedNode(h0, h.nodes[u].operand.value);
    }
  }

  /**
   * The heap after one reference to x is dropped and nothing else happens:
   * the count is one lower, and x joins the freed set when it reaches 0.
   */
  function Released(h: Heap, x: Id): (r: Heap)
    requires x in h.nodes && h.nodes[x].refCnt >= 1
    ensures SameShape(h, r) && r.nodes[x].refCnt == h.nodes[x].refCnt - 1
    ensures forall y | y in h.nodes && y != x :: r.nodes[y] == h.nodes[y]
    ensures h.freed <= r.freed <= h.freed + {x}
    ensures x in r.freed <==> x in h.freed || h.nodes[x].refCnt == 1
  {
    h.(nodes := h.nodes[x := h.nodes[x].(refCnt := h.nodes[x].refCnt - 1)],
       freed := if h.nodes[x].refCnt == 1 then h.freed + {x} else h.freed)
  }

  /** Unref on a live leaf (base free method) releases that one reference and nothing more. */
  lemma UnrefLeafReleasesOnlyIt(h: Heap, x: Id)
    requires Valid(h) && Live(h, x) && h.nodes[x].freeFn == ExprFree
    ensures Unref(h, Some(x)) == Ok(Released(h, x))
  {
    if h.nodes[x].refCnt == 1 {
      assert Dying(h, x) == Released(h, x);
    } else {
      assert Decrement(h, x) == Released(h, x);
    }
  }

  /**
   * Freeing a binary node over two distinct leaf operands, whatever their
   * counts: each operand loses exactly one reference and is freed exactly
   * when that was its last one (the case of operands owned by this node
   * alone), the node itself is freed, and no other node changes.
   */
  lemma BinaryFreeReleasesLeafOperands(h: Heap, b: Id)
    requires Valid(h) && Live(h, b) && h.nodes[b].refCnt == 1
    requires h.nodes[b].freeFn == BinaryOpFree
    requires h.nodes[b].lhs.Some? && h.nodes[b].rhs.Some?
    requires var l := h.nodes[b].lhs.value; var r := h.nodes[b].rhs.value;
      && l != r && Live(h, l) && Live(h, r)
      && h.nodes[l].freeFn == ExprFree && h.nodes[r].freeFn == ExprFree
    ensures Unref(h, Some(b)).Ok?
    ensures var l := h.nodes[b].lhs.value; var r := h.nodes[b].rhs.value;
      var after := Unref(h, Some(b)).value;
      && after.nodes[l].refCnt == h.nodes[l].refCnt - 1
      && after.nodes[r].refCnt == h.nodes[r].refCnt - 1
      && (l in after.freed <==> h.nodes[l].refCnt == 1)
      && (r in after.freed <==> h.nodes[r].refCnt == 1)
      && b in after.freed
      && after.freed <= h.freed + {b, l, r}
      && forall y | y in h.nodes && y != l && y != r && y != b :: after.nodes[y] == h.nodes[y]
  {
    var l := h.nodes[b].lhs.value;
    var r := h.nodes[b].rhs.value;
    var h0 := Dying(h, b);
    assert Unref(h, Some(b)) == RunFree(h0, b);
    UnrefLeafReleasesOnlyIt(h0, l);
    var h1 := Released(h0, l);
    UnrefLeafReleasesOnlyIt(h1, r);
    assert RunFree(h0, b) == Ok(Released(h1, r));
  }

  /**
   * Freeing a unary node over a leaf operand, whatever its count: the
   * operand loses exactly one reference and is freed exactly when that was
   * its last one, the node itself is freed, and no other node changes.
   */
  lemma UnaryFreeReleasesLeafOperand(h: Heap, u: Id)
    requires Valid(h) && Live(h, u) && h.nodes[u].refCnt == 1
    requires h.nodes[u].freeFn == UnaryOpFree
    requires h.nodes[u].operand.Some?
    requires var o := h.nodes[u].operand.value; Live(h, o) && h.nodes[o].freeFn == ExprFree
    ensures Unref(h, Some(u)).Ok?
    ensures var o := h.nodes[u].operand.value;
      var after := Unref(h, Some(u)).value;
      && after.nodes[o].refCnt == h.nodes[o].refCnt - 1
      && (o in after.freed <==> h.nodes[o].refCnt == 1)
      && u in after.freed
      && after.freed <= h.freed + {u, o}
      && forall y | y in h.nodes && y != o && y != u :: after.nodes[y] == h.nodes[y]
  {
    var o := h.nodes[u].operand.value;
    var h0 := Dying(h, u);
    assert Unref(h, Some(u)) == RunFree(h0, u);
    UnrefLeafReleasesOnlyIt(h0, o);
  }

  /**
   * Freeing a binary node whose two slots hold the same leaf operand,
   * whatever its count: the operand loses exactly two references, one per
   * slot, and is freed exactly when those were its last two (the case of
   * an operand owned only by this node); the node is freed and no other
   * node changes.
   */
  lemma BinaryFreeReleasesSharedLeafTwice(h: Heap, b: Id)
    requires Valid(h) && Live(h, b) && h.nodes[b].refCnt == 1
    requires h.nodes[b].freeFn == BinaryOpFree
    requires h.nodes[b].lhs.Some? && h.nodes[b].lhs == h.nodes[b].rhs
    requires var l := h.nodes[b].lhs.value;
      Live(h, l) && h.nodes[l].freeFn == ExprFree && h.nodes[l].refCnt >= 2
    ensures Unref(h, Some(b)).Ok?
    ensures var l := h.nodes[b].lhs.value;
      var after := Unref(h, Some(b)).value;
      && after.nodes[l].refCnt == h.nodes[l].refCnt - 2
      && (l in after.freed <==> h.nodes[l].refCnt == 2)
      && b in after.freed
      && after.freed <= h.freed + {b, l}
      && forall y | y in h.nodes && y != l && y != b :: after.nodes[y] == h.nodes[y]
  {
    var l := h.nodes[b].lhs.value;
    var h0 := Dying(h, b);
    assert Unref(h, Some(b)) == RunFree(h0, b);
    UnrefLeafReleasesOnlyIt(h0, l);
    var h1 := Released(h0, l);
    UnrefLeafReleasesOnlyIt(h1, l);
    assert RunFree(h0, b) == Ok(Released(h1, l));
  }

  const EmptyHeap: Heap := Heap(map[], {}, 0)

  /**
   * Two leaves owned by a binary node go with it: dropping the only
   * reference to the binary node frees all three.
   */
  lemma TreeFreedWithRoot()
    ensures var a := ExprNew(EmptyHeap);
      var c := ExprNew(a.heap);
      var b := BinaryOpNew(c.heap, Some(a.id), Some(c.id));
      && Unref(b.heap, Some(b.id)).Ok?
      && Unref(b.heap, Some(b.id)).value.freed == {a.id, c.id, b.id}
  {
    var a := ExprNew(EmptyHeap);
    var c := ExprNew(a.heap);
    var b := BinaryOpNew(c.heap, Some(a.id), Some(c.id));
    assert a.id == 0 && c.id == 1 && b.id == 2;
    var h0 := Dying(b.heap, 2);
    assert Unref(b.heap, Some(2)) == RunFree(h0, 2);
    var h1 := Dying(h0, 0);
    assert Unref(h0, Some(0)) == RunFree(h1, 0);
    assert RunFree(h1, 0) == Ok(h1);
    var h2 := Dying(h1, 1);
    assert Unref(h1, Some(1)) == RunFree(h2, 1);
    assert RunFree(h2, 1) == Ok(h2);
  }
}
