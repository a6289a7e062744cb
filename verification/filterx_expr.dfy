/**
 * The reference-counting discipline of FilterX expression nodes.
 *
 * The heap maps every node id ever allocated to its node; a node is freed
 * exactly when its count has reached 0, and stays in the map (count 0) so
 * the freed set can be stated. Ids are handed out in increasing order and
 * a node's operands exist before it, so every operand id is smaller than
 * its parent's id: this is what bounds the cascade of frees.
 *
 * Touching a node that is already freed is undefined behaviour in the
 * source; here `Unref` reports it as `UseAfterFree`.
 */
module FilterXExpr {
  import opened Wrappers

  type Id = nat

  /** Which `free_fn` a node carries. */
  datatype FreeMethod = ExprFree | UnaryOpFree | BinaryOpFree

  /** A node: its count, its free method and the operand slots of the unary and binary nodes. */
  datatype Expr = Expr(refCnt: nat, freeFn: FreeMethod, operand: Option<Id>, lhs: Option<Id>, rhs: Option<Id>)

  datatype Heap = Heap(nodes: map<Id, Expr>, freed: set<Id>, next: Id)

  datatype Fault = UseAfterFree(id: Id)

  /** An operand slot that is NULL or points at an older node. */
  predicate Below(child: Option<Id>, parent: Id)
  {
    child.Some? ==> child.value < parent
  }

  predicate Valid(h: Heap)
  {
    && (forall x | x in h.nodes :: x < h.next)
    && (forall x | x in h.nodes ::
          Below(h.nodes[x].operand, x) && Below(h.nodes[x].lhs, x) && Below(h.nodes[x].rhs, x))
    && h.freed <= h.nodes.Keys
    && (forall x | x in h.nodes :: x in h.freed <==> h.nodes[x].refCnt == 0)
  }

  /** A node that is allocated and not freed: one that may be handed to ref / unref. */
  predicate Live(h: Heap, x: Id)
  {
    x in h.nodes && x !in h.freed
  }

  /** h2 differs from h1 in reference counts and the freed set only. */
  predicate SameShape(h1: Heap, h2: Heap)
  {
    && h2.next == h1.next
    && h2.nodes.Keys == h1.nodes.Keys
    && forall y | y in h1.nodes :: h2.nodes[y] == h1.nodes[y].(refCnt := h2.nodes[y].refCnt)
  }

  /** `filterx_expr_init_instance`: count 1, the base free method, no operands. */
  function InitInstance(): (e: Expr)
    ensures e.refCnt == 1 && e.freeFn == ExprFree
  {
    Expr(1, ExprFree, None, None, None)
  }

  /** A heap and the id of the node just allocated in it. */
  datatype Alloc = Alloc(heap: Heap, id: Id)

  function Allocate(h: Heap, e: Expr): (r: Alloc)
  {
    Alloc(h.(nodes := h.nodes[h.next := e], next := h.next + 1), h.next)
  }

  /** `filterx_expr_new`: a fresh node with count 1 and the base free method; nothing else changes. */
  function ExprNew(h: Heap): (r: Alloc)
    requires Valid(h)
    ensures Valid(r.heap) && r.id !in h.nodes
    ensures r.heap.nodes == h.nodes[r.id := Expr(1, ExprFree, None, None, None)]
    ensures r.heap.freed == h.freed
  {
    Allocate(h, InitInstance())
  }

  /**
   * A unary node created over `operand` (NULL allowed), which it takes
   * ownership of without touching its count.
   */
  function UnaryOpNew(h: Heap, operand: Option<Id>): (r: Alloc)
    requires Valid(h)
    requires operand.Some? ==> operand.value in h.nodes
    ensures Valid(r.heap) && r.id !in h.nodes
    ensures r.heap.nodes == h.nodes[r.id := Expr(1, UnaryOpFree, operand, None, None)]
    ensures r.heap.freed == h.freed
  {
    Allocate(h, InitInstance().(freeFn := UnaryOpFree, operand := operand))
  }

  /**
   * A binary node over `lhs` and `rhs`, which must not be NULL (the source
   * asserts this). It takes ownership of both without touching their counts.
   */
  function BinaryOpNew(h: Heap, lhs: Option<Id>, rhs: Option<Id>): (r: Alloc)
    requires Valid(h)
    requires lhs.Some? && lhs.value in h.nodes
    requires rhs.Some? && rhs.value in h.nodes
    ensures Valid(r.heap) && r.id !in h.nodes
    ensures r.heap.nodes == h.nodes[r.id := Expr(1, BinaryOpFree, None, lhs, rhs)]
    ensures r.heap.freed == h.freed
  {
    Allocate(h, InitInstance().(freeFn := BinaryOpFree, lhs := lhs, rhs := rhs))
  }

  /** A heap and the pointer a call returned. */
  datatype Handle = Handle(heap: Heap, e: Option<Id>)

  /** `filterx_expr_ref`: NULL gives NULL and changes nothing; otherwise one more reference. */
  function Ref(h: Heap, e: Option<Id>): (r: Handle)
    requires Valid(h)
    requires e.Some? ==> Live(h, e.value)
    ensures r.e == e
    ensures e.None? ==> r.heap == h
    ensures e.Some? ==> r.heap == h.(nodes := h.nodes[e.value := h.nodes[e.value].(refCnt := h.nodes[e.value].refCnt + 1)])
    ensures Valid(r.heap) && SameShape(h, r.heap)
  {
    match e
    case None => Handle(h, None)
    case Some(x) => Handle(h.(nodes := h.nodes[x := h.nodes[x].(refCnt := h.nodes[x].refCnt + 1)]), e)
  }

  /** The measure of a pointer: every id it may cascade into is below it. */
  function Rank(e: Option<Id>): nat
  {
    if e.Some? then e.value + 1 else 0
  }

  /**
   * `filterx_expr_unref`: NULL is a no-op; otherwise drop one reference and,
   * when the count reaches 0, run the node's free method, which may release
   * its operands in turn. Only nodes older than `e` can be affected, no count
   * ever grows, and the freed set only grows.
   */
  function Unref(h: Heap, e: Option<Id>): (r: Result<Heap, Fault>)
    requires Valid(h)
    ensures e.None? ==> r == Ok(h)
    ensures r.Ok? ==> Valid(r.value) && SameShape(h, r.value) && h.freed <= r.value.freed
    ensures r.Ok? ==> forall y | y in h.nodes :: r.value.nodes[y].refCnt <= h.nodes[y].refCnt
    ensures r.Ok? ==> forall y | y in h.nodes && y >= Rank(e) :: r.value.nodes[y] == h.nodes[y]
    decreases Rank(e), 1
  {
    match e
    case None => Ok(h)
    case Some(x) =>
      if x !in h.nodes || h.nodes[x].refCnt == 0 then Err(UseAfterFree(x))
      else if h.nodes[x].refCnt > 1 then Ok(Decrement(h, x))
      else RunFree(Dying(h, x), x)
  }

  /** One reference fewer on node x. */
  function Decrement(h: Heap, x: Id): (r: Heap)
    requires Valid(h) && x in h.nodes && h.nodes[x].refCnt >= 2
    ensures Valid(r) && SameShape(h, r) && r.freed == h.freed
    ensures r.nodes[x].refCnt == h.nodes[x].refCnt - 1
    ensures forall y | y in h.nodes && y != x :: r.nodes[y] == h.nodes[y]
  {
    h.(nodes := h.nodes[x := h.nodes[x].(refCnt := h.nodes[x].refCnt - 1)])
  }

  /** The heap once the last reference to x is dropped, as its free method starts. */
  function Dying(h: Heap, x: Id): (r: Heap)
    requires Valid(h) && x in h.nodes && h.nodes[x].refCnt == 1
    ensures Valid(r) && SameShape(h, r) && r.freed == h.freed + {x}
    ensures r.nodes[x].refCnt == 0
    ensures forall y | y in h.nodes && y != x :: r.nodes[y] == h.nodes[y]
  {
    h.(nodes := h.nodes[x := h.nodes[x].(refCnt := 0)], freed := h.freed + {x})
  }

  /**
   * The node's `free_fn`, run once its count is 0: a unary node unrefs its
   * operand, a binary node unrefs `lhs` then `rhs`, and all of them finish
   * with the base free, which releases no reference. Only nodes older than
   * `x` can be affected.
   */
  function RunFree(h: Heap, x: Id): (r: Result<Heap, Fault>)
    requires Valid(h) && x in h.nodes && x in h.freed
    ensures r.Ok? ==> Valid(r.value) && SameShape(h, r.value) && h.freed <= r.value.freed
    ensures r.Ok? ==> forall y | y in h.nodes :: r.value.nodes[y].refCnt <= h.nodes[y].refCnt
    ensures r.Ok? ==> forall y | y in h.nodes && y >= x :: r.value.nodes[y] == h.nodes[y]
    decreases x + 1, 0
  {
    var n := h.nodes[x];
    match n.freeFn
    case ExprFree => Ok(h)
    case UnaryOpFree => Unref(h, n.operand)
    case BinaryOpFree =>
      match Unref(h, n.lhs)
      case Err(f) => Err(f)
      case Ok(h1) => Unref(h1, n.rhs)
  }
}
