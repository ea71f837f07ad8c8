/** The fixed-size block allocator of xutil/src/mempool.cpp.

    A node is identified by its byte offset from `m_baseaddr`; the pointer handed to the client is past the
    node's list header.  */
module MemPool {
  import opened Options

  const TWO32: nat := 0x1_0000_0000
  const HEADER: nat := 16        // sizeof(struct list_head), and of MEM_NODE_T

  // ---------------------------------------------------------------- layout

  /** `i * pool->m_node_size` in 32-bit arithmetic. */
  function Offset(size: nat, i: nat): nat {
    i * size % TWO32
  }

  /** The number of bytes asked of malloc. */
  function Allocated(cnt: nat, size: nat): nat {
    cnt * size % TWO32
  }

  /** The node sizes and counts for which 32-bit arithmetic is exact. */
  predicate Fits(cnt: nat, size: nat) {
    HEADER <= size && cnt * size < TWO32
  }

  /** Every node lies inside the allocated bytes. */
  ghost predicate InBounds(cnt: nat, size: nat) {
    forall i: nat :: i < cnt ==> Offset(size, i) + size <= Allocated(cnt, size)
  }

  lemma MulLess(i: nat, j: nat, size: nat)
    requires i < j
    ensures i * size + size <= j * size
  {
    assert j * size == i * size + size + (j - i - 1) * size;
  }

  lemma {:induction false} NoWrapUpTo(cnt: nat, size: nat, i: nat)
    requires InBounds(cnt, size) && i < cnt && size < TWO32
    ensures Offset(size, i) == i * size
  {
    if i > 0 {
      NoWrapUpTo(cnt, size, i - 1);
      assert Offset(size, i - 1) + size <= Allocated(cnt, size);
      assert i * size == (i - 1) * size + size;
    }
  }

  /** The nodes lie inside the allocated memory exactly when count times size does not wrap: the source
      does not check this, so a caller has to. */
  lemma LayoutSound(cnt: nat, size: nat)
    requires cnt >= 1 && HEADER <= size < TWO32
    ensures InBounds(cnt, size) <==> Fits(cnt, size)
  {
    if Fits(cnt, size) {
      forall i: nat | i < cnt ensures Offset(size, i) + size <= Allocated(cnt, size) {
        MulLess(i, cnt, size);
      }
    }
    if InBounds(cnt, size) {
      NoWrapUpTo(cnt, size, cnt - 1);
      assert Offset(size, cnt - 1) + size <= Allocated(cnt, size);
      assert cnt * size == (cnt - 1) * size + size;
    }
  }

  /** All nodes, in address order: what `mpool_init` and `mpool_reset` push. */
  function Nodes(cnt: nat, size: nat): (s: seq<nat>)
    ensures |s| == cnt && forall i :: 0 <= i < cnt ==> s[i] == Offset(size, i)
  {
    if cnt == 0 then [] else Nodes(cnt - 1, size) + [Offset(size, cnt - 1)]
  }

  ghost predicate NoDup(s: seq<nat>) {
    forall i, j :: 0 <= i < j < |s| ==> s[i] != s[j]
  }

  lemma OffsetExact(cnt: nat, size: nat, i: nat)
    requires Fits(cnt, size) && i < cnt
    ensures Offset(size, i) == i * size && Allocated(cnt, size) == cnt * size && i * size + size <= cnt * size
  {
    MulLess(i, cnt, size);
  }

  /** Different nodes occupy disjoint bytes, inside the allocated memory. */
  lemma NodesApart(cnt: nat, size: nat, x: nat, y: nat)
    requires Fits(cnt, size) && x in Nodes(cnt, size) && y in Nodes(cnt, size)
    ensures x + size <= Allocated(cnt, size)
    ensures x < y ==> x + size <= y
  {
    var i :| 0 <= i < cnt && Nodes(cnt, size)[i] == x;
    var j :| 0 <= j < cnt && Nodes(cnt, size)[j] == y;
    OffsetExact(cnt, size, i);
    OffsetExact(cnt, size, j);
    OrderedApart(i, j, size);
  }

  lemma OrderedApart(i: nat, j: nat, size: nat)
    ensures i * size < j * size ==> i * size + size <= j * size
  {
    if i < j {
      MulLess(i, j, size);
    } else {
      assert i * size == j * size + (i - j) * size;
    }
  }

  lemma NodesNoDup(cnt: nat, size: nat)
    requires Fits(cnt, size)
    ensures NoDup(Nodes(cnt, size))
  {
    forall i, j | 0 <= i < j < cnt ensures Nodes(cnt, size)[i] != Nodes(cnt, size)[j] {
      MulLess(i, j, size);
      OffsetExact(cnt, size, i);
      OffsetExact(cnt, size, j);
    }
  }

  // ---------------------------------------------------------------- the free stack

  datatype Op = Malloc | Free(node: nat) | Reset

  /** What an operation does to the free stack. */
  function Apply(cnt: nat, size: nat, free: seq<nat>, op: Op): seq<nat> {
    match op
    case Malloc => if free == [] then free else free[..|free| - 1]
    case Free(x) => if |free| >= cnt then free else free + [x]
    case Reset => Nodes(cnt, size)
  }

  /** The nodes a client holds. */
  function Live(cnt: nat, size: nat, free: seq<nat>): set<nat> {
    set x | x in Nodes(cnt, size) && x !in free
  }

  /** The free stack has no duplicates and only nodes, so it and the live nodes partition all nodes. */
  ghost predicate Partition(cnt: nat, size: nat, free: seq<nat>) {
    NoDup(free) && forall x :: x in free ==> x in Nodes(cnt, size)
  }

  /** Clients free only what they hold. */
  predicate Legal(cnt: nat, size: nat, free: seq<nat>, op: Op) {
    op.Free? ==> op.node in Live(cnt, size, free)
  }

  function Elems(s: seq<nat>): set<nat> {
    set x | x in s
  }

  lemma {:induction false} CountNoDup(s: seq<nat>)
    requires NoDup(s)
    ensures |Elems(s)| == |s|
  {
    if s == [] {
      assert Elems(s) == {};
    } else {
      var front, last := s[..|s| - 1], s[|s| - 1];
      assert s == front + [last];
      CountNoDup(front);
      assert last !in front;
      assert Elems(s) == Elems(front) + {last};
    }
  }

  lemma SubsetCount(some: set<nat>, all: set<nat>)
    requires some <= all
    ensures |some| <= |all| && |all - some| == |all| - |some|
  {
    assert all == some + (all - some);
  }

  /** The used count is the number of live nodes; so all are live exactly when the stack is empty, and none
      exactly when it is full. */
  lemma UsedIsLive(cnt: nat, size: nat, free: seq<nat>)
    requires Fits(cnt, size) && Partition(cnt, size, free)
    ensures |free| <= cnt && |Live(cnt, size, free)| == cnt - |free|
  {
    NodesNoDup(cnt, size);
    CountNoDup(Nodes(cnt, size));
    CountNoDup(free);
    SubsetCount(Elems(free), Elems(Nodes(cnt, size)));
    assert Live(cnt, size, free) == Elems(Nodes(cnt, size)) - Elems(free);
  }

  /** While a node is live the stack is not full. */
  lemma LiveFits(cnt: nat, size: nat, free: seq<nat>, x: nat)
    requires Fits(cnt, size) && Partition(cnt, size, free) && x in Live(cnt, size, free)
    ensures |free| < cnt
  {
    UsedIsLive(cnt, size, free);
    assert Live(cnt, size, free) != {};
  }

  /** The node popped was free and becomes live. */
  lemma PopLives(cnt: nat, size: nat, free: seq<nat>)
    requires Partition(cnt, size, free) && free != []
    ensures
      var rest, x := free[..|free| - 1], free[|free| - 1];
      && Partition(cnt, size, rest) && x !in Live(cnt, size, free)
      && Live(cnt, size, rest) == Live(cnt, size, free) + {x}
  {
    hide Nodes;
    assert free == free[..|free| - 1] + [free[|free| - 1]];
  }

  /** Freeing keeps the partition exactly when the block is live or the stack is full already (when the
      call does nothing). */
  lemma FreeKeepsPartition(cnt: nat, size: nat, free: seq<nat>, x: nat)
    requires Fits(cnt, size) && Partition(cnt, size, free)
    ensures Partition(cnt, size, Apply(cnt, size, free, Free(x))) <==>
      x in Live(cnt, size, free) || |free| == cnt
  {
    UsedIsLive(cnt, size, free);
    var free' := Apply(cnt, size, free, Free(x));
    if |free| < cnt {
      assert free'[|free|] == x;
      assert forall i :: 0 <= i < |free| ==> free'[i] == free[i];
      if x in free {
        var i :| 0 <= i < |free| && free[i] == x;
        assert free'[i] == free'[|free|];
      }
    }
  }

  lemma StepKeepsPartition(cnt: nat, size: nat, free: seq<nat>, op: Op)
    requires Fits(cnt, size) && Partition(cnt, size, free) && Legal(cnt, size, free, op)
    ensures Partition(cnt, size, Apply(cnt, size, free, op))
  {
    match op
    case Malloc =>
    case Free(x) => FreeKeepsPartition(cnt, size, free, x);
    case Reset => NodesNoDup(cnt, size);
  }

  predicate LegalRun(cnt: nat, size: nat, free: seq<nat>, ops: seq<Op>)
    decreases |ops|
  {
    ops == [] || (Legal(cnt, size, free, ops[0]) && LegalRun(cnt, size, Apply(cnt, size, free, ops[0]), ops[1..]))
  }

  function Run(cnt: nat, size: nat, free: seq<nat>, ops: seq<Op>): seq<nat>
    decreases |ops|
  {
    if ops == [] then free else Run(cnt, size, Apply(cnt, size, free, ops[0]), ops[1..])
  }

  lemma {:induction false} RunKeepsPartition(cnt: nat, size: nat, free: seq<nat>, ops: seq<Op>)
    requires Fits(cnt, size) && Partition(cnt, size, free) && LegalRun(cnt, size, free, ops)
    ensures Partition(cnt, size, Run(cnt, size, free, ops))
    decreases |ops|
  {
    if ops != [] {
      StepKeepsPartition(cnt, size, free, ops[0]);
      RunKeepsPartition(cnt, size, Apply(cnt, size, free, ops[0]), ops[1..]);
    }
  }

  /** Over any run of allocations, frees of live blocks and resets after `mpool_init`: the free stack has no
      duplicates; free and live nodes partition all nodes; the used count is the number of live ones; the
      next allocation fails exactly when all are live; and live blocks are in bounds and disjoint. */
  lemma AllocatorSafe(cnt: nat, size: nat, ops: seq<Op>)
    requires Fits(cnt, size) && LegalRun(cnt, size, Nodes(cnt, size), ops)
    ensures
      var free := Run(cnt, size, Nodes(cnt, size), ops);
      var live := Live(cnt, size, free);
      && NoDup(free)
      && Elems(free) + live == Elems(Nodes(cnt, size))
      && Elems(free) !! live
      && |live| == cnt - |free|
      && (free == [] <==> live == Elems(Nodes(cnt, size)))
      && (forall x :: x in live ==> x + size <= Allocated(cnt, size))
      && (forall x, y :: x in live && y in live && x != y ==> x + size <= y || y + size <= x)
  {
    NodesNoDup(cnt, size);
    RunKeepsPartition(cnt, size, Nodes(cnt, size), ops);
    var free := Run(cnt, size, Nodes(cnt, size), ops);
    UsedIsLive(cnt, size, free);
    CountNoDup(Nodes(cnt, size));
    forall x, y | x in Live(cnt, size, free) && y in Live(cnt, size, free)
      ensures x + size <= Allocated(cnt, size) && (x != y ==> x + size <= y || y + size <= x)
    {
      NodesApart(cnt, size, x, y);
      NodesApart(cnt, size, y, x);
    }
  }

  // ---------------------------------------------------------------- the object

  /** What mpool_new_obj gives: nothing, whatever lies behind the stack, or a node. */
  datatype Handed = NoNode | OutsideStack | Node(node: nat)

  /** MEM_POOL_T.  `stack` keeps its old contents above `idx`. */
  class Pool {
    var nodeCnt: nat
    var nodeSize: nat
    var stack: array<nat>
    var idx: nat

    ghost predicate Valid()
      reads this, stack
    {
      stack.Length == nodeCnt && idx <= nodeCnt && Fits(nodeCnt, nodeSize) && Partition(nodeCnt, nodeSize, stack[..idx])
    }

    ghost function FreeStack(): seq<nat>
      requires idx <= stack.Length
      reads this, stack
    {
      stack[..idx]
    }

    constructor ()
    {
      nodeCnt, nodeSize, idx := 0, 0, 0;
      stack := new nat[0];
    }

    /** mpool_init: fails when either allocation fails; otherwise every node is free.  It does not look whether
        the sizes fit, and the pool is sound exactly when they do: when every node it pushes is inside the
        memory it got. */
    method Init(objMaxCnt: nat, size: nat, gotMemory: bool, gotStack: bool) returns (r: int)
      requires objMaxCnt < TWO32 && size < TWO32
      modifies this
      ensures r == if gotMemory && gotStack then 0 else -1
      ensures r == 0 ==> fresh(stack) && nodeCnt == objMaxCnt && nodeSize == (size + 16) % 0x1_0000_0000
      ensures r == 0 ==> idx == nodeCnt == stack.Length && FreeStack() == Nodes(nodeCnt, nodeSize)
      ensures r == 0 ==> forall i :: 0 <= i < nodeCnt ==> stack[i] == i * nodeSize % 0x1_0000_0000
      ensures r == 0 ==> (Valid() <==> Fits(nodeCnt, nodeSize))
      ensures r == 0 && nodeCnt >= 1 && nodeSize >= HEADER ==> (Valid() <==> InBounds(nodeCnt, nodeSize))
    {
      nodeSize := (size + HEADER) % TWO32;
      nodeCnt := objMaxCnt;
      if !gotMemory {
        return -1;
      }
      if !gotStack {
        return -1;
      }
      stack := new nat[nodeCnt];
      FillStack();
      r := 0;
      if nodeCnt >= 1 && nodeSize >= HEADER {
        LayoutSound(nodeCnt, nodeSize);
      }
    }

    /** mpool_reset: every node is free again, whoever held it. */
    method ResetPool()
      requires stack.Length == nodeCnt
      modifies this`idx, stack
      ensures idx == nodeCnt && (Valid() <==> Fits(nodeCnt, nodeSize))
      ensures forall i :: 0 <= i < nodeCnt ==> stack[i] == i * nodeSize % 0x1_0000_0000
      ensures FreeStack() == Apply(nodeCnt, nodeSize, old(stack[..]), Reset)
    {
      FillStack();
    }

    /** The loop that `mpool_init` and `mpool_reset` share. */
    method FillStack()
      requires stack.Length == nodeCnt
      modifies this`idx, stack
      ensures idx == nodeCnt && FreeStack() == Nodes(nodeCnt, nodeSize)
      ensures forall i :: 0 <= i < nodeCnt ==> stack[i] == i * nodeSize % 0x1_0000_0000
      ensures Valid() <==> Fits(nodeCnt, nodeSize)
    {
      idx := 0;
      var i := 0;
      while i < nodeCnt
        invariant 0 <= i <= nodeCnt && idx == i
        invariant stack[..idx] == Nodes(i, nodeSize)
      {
        FreeNode(Offset(nodeSize, i));
        i := i + 1;
      }
      assert stack[..idx] == Nodes(nodeCnt, nodeSize);
      forall i | 0 <= i < nodeCnt ensures stack[i] == i * nodeSize % 0x1_0000_0000 {
        assert stack[..idx][i] == Nodes(nodeCnt, nodeSize)[i];
      }
      if Fits(nodeCnt, nodeSize) {
        NodesNoDup(nodeCnt, nodeSize);
      }
    }

    /** mpool_free_obj: does nothing when the stack is full. */
    method FreeNode(node: nat)
      requires stack.Length == nodeCnt && idx <= nodeCnt
      modifies this`idx, stack
      ensures idx <= nodeCnt
      ensures FreeStack() == Apply(nodeCnt, nodeSize, old(FreeStack()), Free(node))
    {
      if idx >= nodeCnt {
        return;
      }
      stack[idx] := node;
      idx := idx + 1;
    }

    /** mpool_free: the same, given the client's pointer. */
    method FreeBlock(ptr: nat)
      requires Valid() && HEADER <= ptr
      modifies this`idx, stack
      ensures idx <= nodeCnt == stack.Length
      ensures FreeStack() == Apply(nodeCnt, nodeSize, old(FreeStack()), Free(ptr - HEADER))
      ensures Valid() <==> old(ptr - HEADER in Live(nodeCnt, nodeSize, FreeStack()) || idx == nodeCnt)
    {
      FreeKeepsPartition(nodeCnt, nodeSize, stack[..idx], ptr - HEADER);
      FreeNode(ptr - HEADER);
    }

    /** mpool_malloc: fails exactly when every node is live; otherwise hands out the node freed last, which
        was not live, and leaves its slot as it was. */
    method Allocate() returns (p: Option<nat>)
      requires Valid()
      modifies this`idx
      ensures Valid() && FreeStack() == Apply(nodeCnt, nodeSize, old(FreeStack()), Malloc)
      ensures p == None <==> |old(Live(nodeCnt, nodeSize, FreeStack()))| == nodeCnt
      ensures p.Some? ==> old(idx) > 0 && p.value == old(stack[idx - 1]) + HEADER
      ensures p.Some? ==> idx < stack.Length && p.value == stack[idx] + HEADER
      ensures p.Some? ==>
        && p.value - HEADER !in old(Live(nodeCnt, nodeSize, FreeStack()))
        && Live(nodeCnt, nodeSize, FreeStack()) == old(Live(nodeCnt, nodeSize, FreeStack())) + {p.value - HEADER}
    {
      hide Live, Partition, Nodes, Fits;
      UsedIsLive(nodeCnt, nodeSize, stack[..idx]);
      if idx == 0 {
        return None;
      }
      ghost var free := stack[..idx];
      idx := idx - 1;
      assert stack[..idx] == free[..|free| - 1];
      PopLives(nodeCnt, nodeSize, free);
      p := Some(stack[idx] + HEADER);
    }

    /** mpoll_get_used_cnt */
    method UsedCount() returns (n: nat)
      requires Valid()
      ensures n == |Live(nodeCnt, nodeSize, FreeStack())|
    {
      UsedIsLive(nodeCnt, nodeSize, stack[..idx]);
      n := nodeCnt - idx;
    }

    /** Freeing a live block and allocating gives the same block back, and the stack as it was. */
    method FreeThenAllocate(ptr: nat) returns (p: Option<nat>)
      requires Valid() && HEADER <= ptr && ptr - HEADER in Live(nodeCnt, nodeSize, FreeStack())
      modifies this`idx, stack
      ensures Valid() && p == Some(ptr) && FreeStack() == old(FreeStack())
    {
      hide Live, Partition, Nodes, Fits;
      LiveFits(nodeCnt, nodeSize, FreeStack(), ptr - HEADER);
      FreeBlock(ptr);
      assert stack[..idx][idx - 1] == ptr - HEADER;
      UsedIsLive(nodeCnt, nodeSize, stack[..idx]);
      p := Allocate();
    }

    /** mpool_new_obj as written: takes the top node off the stack, but hands out what the slot above it holds;
        that slot is outside the stack exactly when every node was free, and the node is the one taken off exactly
        when both slots hold the same. */
    method NewObj() returns (r: Handed)
      requires Valid()
      modifies this`idx
      ensures idx == if old(idx) == 0 then 0 else old(idx) - 1
      ensures r == NoNode <==> old(idx) == 0
      ensures r == OutsideStack <==> nodeCnt > 0 && old(Live(nodeCnt, nodeSize, FreeStack())) == {}
      ensures r.Node? ==> old(idx) < stack.Length && r.node == stack[old(idx)]
      ensures old(idx) > 0 ==>
        (r == Node(stack[old(idx) - 1]) <==> old(idx) < stack.Length && stack[old(idx)] == stack[old(idx) - 1])
    {
      UsedIsLive(nodeCnt, nodeSize, stack[..idx]);
      if idx == 0 {
        return NoNode;
      }
      r := if idx < stack.Length then Node(stack[idx]) else OutsideStack;
      idx := idx - 1;
    }

    /** Why it breaks the allocator: called after an allocation, with a node still free, it hands out the
        node that was just allocated. */
    method NewObjAfterAllocate() returns (p: Option<nat>, r: Handed)
      requires Valid() && idx >= 2
      modifies this`idx
      ensures p.Some? && r.Node? && r.node + HEADER == p.value
    {
      UsedIsLive(nodeCnt, nodeSize, stack[..idx]);
      p := Allocate();
      r := NewObj();
    }
  }
}
