/** The single-head lists of xutil/include/list.h (`hlist_*`), on the heap.

    `pprev` points at the pointer that points at the node, which is either the head's `first` or the
    previous node's `next`.  Both are Slot objects here, so that a pointer to either has one type.  */
module HashList {

  /** A memory cell holding a `struct hlist_node *`; `struct hlist_head` is one. */
  class Slot {
    var ptr: Node?
  }

  /** `struct hlist_node`; `next` is the cell embedded in the node. */
  class Node {
    const next: Slot
    var pprev: Slot?

    /** INIT_HLIST_NODE on a fresh node */
    constructor ()
      ensures fresh(next) && next.ptr == null && pprev == null
    {
      next := new Slot;
      pprev := null;
      new;
      next.ptr := null;
    }
  }

  /** The cell that comes before position `i` of the list: the head's, or the previous node's. */
  ghost function Cell(head: Slot, s: seq<Node>, i: nat): Slot
    requires i <= |s|
  {
    if i == 0 then head else s[i - 1].next
  }

  /** The cells of a list. */
  ghost function Cells(head: Slot, s: seq<Node>): set<Slot> {
    {head} + set n | n in s :: n.next
  }

  ghost predicate NoDup(s: seq<Node>) {
    forall i, j :: 0 <= i < j < |s| ==> s[i] != s[j]
  }

  /** Distinct nodes embed distinct cells, none of which is the head. */
  ghost predicate Separate(head: Slot, s: seq<Node>) {
    && NoDup(s)
    && (forall i :: 0 <= i < |s| ==> s[i].next != head)
    && (forall i, j :: 0 <= i < j < |s| ==> s[i].next != s[j].next)
  }

  /** The node at position `i`, or null past the end. */
  ghost function At(s: seq<Node>, i: nat): Node? {
    if i < |s| then s[i] else null
  }

  /** `s` hangs off `head`: each node's `pprev` is the cell before it, and that cell points at it. */
  ghost predicate Chain(head: Slot, s: seq<Node>)
    reads head, s, set n | n in s :: n.next
  {
    && Separate(head, s)
    && head.ptr == At(s, 0)
    && (forall i {:trigger s[i].next} :: 0 <= i < |s| ==> s[i].next.ptr == At(s, i + 1))
    && (forall i {:trigger s[i].pprev} :: 0 <= i < |s| ==> s[i].pprev == Cell(head, s, i))
  }

  /** A node that is in no list that uses any cell of this one. */
  ghost predicate Outside(n: Node, head: Slot, s: seq<Node>) {
    n !in s && n.next != head && forall i :: 0 <= i < |s| ==> s[i].next != n.next
  }

  /** INIT_HLIST_HEAD */
  method InitHead(head: Slot)
    modifies head
    ensures Chain(head, [])
  {
    head.ptr := null;
  }

  /** hlist_empty */
  method Empty(head: Slot, ghost s: seq<Node>) returns (b: bool)
    requires Chain(head, s)
    ensures b <==> s == []
  {
    b := head.ptr == null;
  }

  /** `pprev` is the one cell of the list that points at the node. */
  lemma PprevIsSoleCell(head: Slot, s: seq<Node>, k: nat, c: Slot)
    requires Chain(head, s) && k < |s| && c in Cells(head, s)
    ensures c.ptr == s[k] <==> c == s[k].pprev
  {
    assert s[k].pprev == Cell(head, s, k);
    if c != head {
      var i :| 0 <= i < |s| && s[i].next == c;
      assert s[i].next.ptr == At(s, i + 1);
    }
  }

  /** `s` with `n` inserted at position `k`. */
  ghost function With(s: seq<Node>, k: nat, n: Node): seq<Node>
    requires k <= |s|
  {
    s[..k] + [n] + s[k..]
  }

  /** `s` without position `k`. */
  ghost function Without(s: seq<Node>, k: nat): seq<Node>
    requires k < |s|
  {
    s[..k] + s[k + 1..]
  }

  lemma WithSeparate(head: Slot, s: seq<Node>, k: nat, n: Node)
    requires Separate(head, s) && Outside(n, head, s) && k <= |s|
    ensures Separate(head, With(s, k, n))
  {
  }

  lemma WithoutSeparate(head: Slot, s: seq<Node>, k: nat)
    requires Separate(head, s) && k < |s|
    ensures Separate(head, Without(s, k)) && Outside(s[k], head, Without(s, k))
  {
  }

  /** Inserting: the links around position `k` are redirected and all others are as before. */
  lemma WithChain(head: Slot, s: seq<Node>, k: nat, n: Node)
    requires Separate(head, s) && Outside(n, head, s) && k <= |s|
    requires n.next.ptr == At(s, k) && n.pprev == Cell(head, s, k) && Cell(head, s, k).ptr == n
    requires k < |s| ==> s[k].pprev == n.next
    requires k > 0 ==> head.ptr == At(s, 0)
    requires forall i {:trigger s[i].next} :: 0 <= i < |s| && i + 1 != k ==> s[i].next.ptr == At(s, i + 1)
    requires forall i {:trigger s[i].pprev} :: 0 <= i < |s| && i != k ==> s[i].pprev == Cell(head, s, i)
    ensures Chain(head, With(s, k, n))
  {
    var q := With(s, k, n);
    WithSeparate(head, s, k, n);
    forall i | 0 <= i < |q|
      ensures q[i].next.ptr == At(q, i + 1) && q[i].pprev == Cell(head, q, i)
    {
      if i < k {
        assert q[i] == s[i];
      } else if i > k {
        assert q[i] == s[i - 1];
      }
    }
  }

  /** Removing: the cell before the node and the node after it are tied together. */
  lemma WithoutChain(head: Slot, s: seq<Node>, k: nat)
    requires Separate(head, s) && k < |s|
    requires Cell(head, s, k).ptr == At(s, k + 1)
    requires k + 1 < |s| ==> s[k + 1].pprev == Cell(head, s, k)
    requires k > 0 ==> head.ptr == At(s, 0)
    requires forall i {:trigger s[i].next} :: 0 <= i < |s| && i + 1 != k && i != k ==> s[i].next.ptr == At(s, i + 1)
    requires forall i {:trigger s[i].pprev} :: 0 <= i < |s| && i != k + 1 && i != k ==>
      s[i].pprev == Cell(head, s, i)
    ensures Chain(head, Without(s, k))
  {
    var q := Without(s, k);
    WithoutSeparate(head, s, k);
    forall i | 0 <= i < |q|
      ensures q[i].next.ptr == At(q, i + 1) && q[i].pprev == Cell(head, q, i)
    {
      if i < k {
        assert q[i] == s[i];
      } else {
        assert q[i] == s[i + 1];
      }
    }
  }

  /** hlist_add_head */
  method AddHead(n: Node, head: Slot, ghost s: seq<Node>)
    requires Chain(head, s) && Outside(n, head, s)
    modifies n, n.next, head, head.ptr
    ensures Chain(head, With(s, 0, n))
  {
    var first := head.ptr;
    n.next.ptr := first;
    if first != null {
      first.pprev := n.next;
    }
    head.ptr := n;
    n.pprev := head;
    WithChain(head, s, 0, n);
  }

  /** hlist_add_before: needs neither the head nor the predecessor. */
  method AddBefore(n: Node, next: Node, ghost head: Slot, ghost s: seq<Node>, ghost k: nat)
    requires Chain(head, s) && Outside(n, head, s) && k < |s| && s[k] == next
    modifies n, n.next, next, next.pprev
    ensures Chain(head, With(s, k, n))
  {
    assert next.pprev == Cell(head, s, k);
    n.pprev := next.pprev;
    n.next.ptr := next;
    next.pprev := n.next;
    n.pprev.ptr := n;
    WithChain(head, s, k, n);
  }

  /** hlist_add_after: `next` is the new node, placed after `n`. */
  method AddAfter(n: Node, next: Node, ghost head: Slot, ghost s: seq<Node>, ghost k: nat)
    requires Chain(head, s) && Outside(next, head, s) && k < |s| && s[k] == n
    modifies n.next, next, next.next, n.next.ptr
    ensures Chain(head, With(s, k + 1, next))
  {
    assert n.next.ptr == At(s, k + 1);
    next.next.ptr := n.next.ptr;
    n.next.ptr := next;
    next.pprev := n.next;
    if next.next.ptr != null {
      next.next.ptr.pprev := next.next;
    }
    WithChain(head, s, k + 1, next);
  }

  /** hlist_del: removes the node without knowing the head; the node keeps its own pointers. */
  method Del(n: Node, ghost head: Slot, ghost s: seq<Node>, ghost k: nat)
    requires Chain(head, s) && k < |s| && s[k] == n
    modifies n.pprev, n.next.ptr
    ensures Chain(head, Without(s, k))
    ensures n.pprev == old(n.pprev) && n.next.ptr == old(n.next.ptr)
  {
    assert n.pprev == Cell(head, s, k) && n.next.ptr == At(s, k + 1);
    var next, pprev := n.next.ptr, n.pprev;
    pprev.ptr := next;
    if next != null {
      next.pprev := pprev;
    }
    WithoutChain(head, s, k);
  }

  /** hlist_del_init: as hlist_del for a linked node, which ends up unhashed; nothing at all for an
      unhashed one. */
  method DelInit(n: Node, ghost head: Slot, ghost s: seq<Node>, ghost k: nat)
    requires n.pprev != null ==> Chain(head, s) && k < |s| && s[k] == n
    modifies if n.pprev == null then {} else {n, n.next, n.pprev, n.next.ptr}
    ensures n.pprev == null
    ensures old(n.pprev) != null ==> Chain(head, Without(s, k)) && n.next.ptr == null
  {
    if n.pprev != null {
      WithoutSeparate(head, s, k);
      Del(n, head, s, k);
      Detach(n, head, Without(s, k));
    }
  }

  /** INIT_HLIST_NODE on a node that is no longer linked. */
  method Detach(n: Node, ghost head: Slot, ghost s: seq<Node>)
    requires Chain(head, s) && Outside(n, head, s)
    modifies n, n.next
    ensures Chain(head, s) && n.pprev == null && n.next.ptr == null
  {
    n.next.ptr := null;
    n.pprev := null;
  }

  /** A second hlist_del_init does nothing: the list is as the first one left it. */
  method DelInitTwice(n: Node, ghost head: Slot, ghost s: seq<Node>, ghost k: nat)
    requires Chain(head, s) && k < |s| && s[k] == n
    modifies n, n.next, n.pprev, n.next.ptr
    ensures Chain(head, Without(s, k)) && n.pprev == null && n.next.ptr == null
  {
    DelInit(n, head, s, k);
    DelInit(n, head, s, k);
  }

  // ---------------------------------------------------------------- a table of lists

  ghost function Nodes(lists: seq<seq<Node>>): set<Node> {
    set b, n | 0 <= b < |lists| && n in lists[b] :: n
  }

  /** A hash table: lists hanging off several heads, sharing no node and no cell. */
  ghost predicate Table(heads: seq<Slot>, lists: seq<seq<Node>>)
    reads heads, Nodes(lists), set n | n in Nodes(lists) :: n.next
  {
    && |heads| == |lists|
    && (forall b :: 0 <= b < |heads| ==> InTable(heads, lists, b) && Chain(heads[b], lists[b]))
    && Disjoint(heads, lists)
  }

  /** Every node of list `b` is one of the table's. */
  ghost predicate InTable(heads: seq<Slot>, lists: seq<seq<Node>>, b: nat)
    requires b < |heads| == |lists|
    ensures InTable(heads, lists, b)
  {
    forall n :: n in lists[b] ==> n in Nodes(lists)
  }

  /** In a whole table, a node's `pprev` is the one cell that points at it. */
  lemma PprevIsSoleCellInTable(heads: seq<Slot>, lists: seq<seq<Node>>, b: nat, k: nat, c: nat, x: Slot)
    requires Table(heads, lists) && b < |heads| && c < |heads|
    requires k < |lists[b]| && x in Cells(heads[c], lists[c])
    ensures x.ptr == lists[b][k] <==> x == lists[b][k].pprev
  {
    assert Chain(heads[b], lists[b]) && Chain(heads[c], lists[c]);
    var n := lists[b][k];
    assert n.next in Cells(heads[b], lists[b]);
    assert n.pprev == Cell(heads[b], lists[b], k);
    assert n.pprev in Cells(heads[b], lists[b]);
    if b == c {
      PprevIsSoleCell(heads[b], lists[b], k, x);
    } else {
      assert Cells(heads[b], lists[b]) !! Cells(heads[c], lists[c]);
      PointedAtIsMember(heads[c], lists[c], x);
    }
  }

  lemma PointedAtIsMember(head: Slot, s: seq<Node>, x: Slot)
    requires Chain(head, s) && x in Cells(head, s)
    ensures x.ptr != null ==> x.ptr in s && x.ptr.next in Cells(head, s)
  {
    if x != head {
      var i :| 0 <= i < |s| && s[i].next == x;
      assert s[i].next.ptr == At(s, i + 1);
    }
  }

  /** The cells of different buckets are different. */
  ghost predicate Disjoint(heads: seq<Slot>, lists: seq<seq<Node>>)
    requires |heads| == |lists|
  {
    forall b, c :: 0 <= b < c < |heads| ==> Cells(heads[b], lists[b]) !! Cells(heads[c], lists[c])
  }

  lemma DisjointPair(heads: seq<Slot>, lists: seq<seq<Node>>, b: nat, c: nat)
    requires |heads| == |lists| && Disjoint(heads, lists) && b < |heads| && c < |heads| && b != c
    ensures Cells(heads[b], lists[b]) !! Cells(heads[c], lists[c])
  {
  }

  /** Bucket `c` shares neither a cell nor a node with bucket `b`. */
  lemma Strangers(heads: seq<Slot>, lists: seq<seq<Node>>, b: nat, c: nat)
    requires |heads| == |lists| && Disjoint(heads, lists) && b < |heads| && c < |heads| && b != c
    ensures Cells(heads[b], lists[b]) !! Cells(heads[c], lists[c])
    ensures forall m :: m in lists[b] ==> m !in lists[c]
  {
    DisjointPair(heads, lists, b, c);
    assert forall m :: m in lists[b] ==> m.next in Cells(heads[b], lists[b]);
    assert forall m :: m in lists[c] ==> m.next in Cells(heads[c], lists[c]);
  }

  /** All buckets but `b` hang together, and none has one of these nodes or cells. */
  ghost predicate Others(heads: seq<Slot>, lists: seq<seq<Node>>, b: nat, nodes: set<Node?>, cells: set<Slot?>)
    requires |heads| == |lists|
    reads heads, Nodes(lists), set n | n in Nodes(lists) :: n.next
  {
    forall c :: 0 <= c < |heads| && c != b ==>
      && InTable(heads, lists, c) && Chain(heads[c], lists[c])
      && (forall m :: m in lists[c] ==> m !in nodes)
      && Cells(heads[c], lists[c]) !! cells
  }

  /** Whatever bucket `b` has, its cells and nodes, a node outside the table and its cell: no other bucket
      has any of it. */
  lemma OthersApart(heads: seq<Slot>, lists: seq<seq<Node>>, b: nat, n: Node?, nodes: set<Node?>, cells: set<Slot?>)
    requires Table(heads, lists) && b < |heads|
    requires n != null ==> forall c :: 0 <= c < |heads| ==> Outside(n, heads[c], lists[c])
    requires forall m :: m in nodes ==> m == null || m == n || m in lists[b]
    requires forall x :: x in cells ==> x == null || (n != null && x == n.next) || x in Cells(heads[b], lists[b])
    ensures Others(heads, lists, b, nodes, cells)
  {
    forall c | 0 <= c < |heads| && c != b
      ensures InTable(heads, lists, c) && Chain(heads[c], lists[c])
      ensures forall m :: m in lists[c] ==> m !in nodes
      ensures Cells(heads[c], lists[c]) !! cells
    {
      Strangers(heads, lists, b, c);
    }
  }

  lemma Rebuild(heads: seq<Slot>, lists: seq<seq<Node>>, b: nat, q: seq<Node>, extra: set<Slot>)
    requires |heads| == |lists| && Disjoint(heads, lists) && b < |heads|
    requires Cells(heads[b], q) <= Cells(heads[b], lists[b]) + extra && Chain(heads[b], q)
    requires forall c :: 0 <= c < |heads| && c != b ==>
      Chain(heads[c], lists[c]) && Cells(heads[c], lists[c]) !! extra
    ensures Table(heads, lists[b := q])
  {
    var lists' := lists[b := q];
    forall c, d | 0 <= c < d < |heads| ensures Cells(heads[c], lists'[c]) !! Cells(heads[d], lists'[d]) {
      DisjointPair(heads, lists, c, d);
    }
  }

  // ---------------------------------------------------------------- the operations on a table

  /** hlist_del in a table, without knowing the bucket: that bucket loses the node, and the table stays a
      table with every other bucket as it was. */
  method TableDel(n: Node, ghost heads: seq<Slot>, ghost lists: seq<seq<Node>>, ghost b: nat, ghost k: nat)
    requires Table(heads, lists) && b < |heads| && k < |lists[b]| && lists[b][k] == n
    modifies n.pprev, n.next.ptr
    ensures Table(heads, lists[b := Without(lists[b], k)])
  {
    hide Table, Chain, Others, Disjoint, Cells, With, Without;
    TableParts(heads, lists, b);
    PlaceOf(heads[b], lists[b], k);
    OthersApart(heads, lists, b, null, {n.next.ptr}, {n.pprev});
    DelAmong(n, heads, lists, b, k);
    WithoutCells(heads[b], lists[b], k);
    Rebuild(heads, lists, b, Without(lists[b], k), {});
  }

  /** A node's neighbours are in its own list. */
  lemma PlaceOf(head: Slot, s: seq<Node>, k: nat)
    requires Chain(head, s) && k < |s|
    ensures s[k].pprev == Cell(head, s, k) && s[k].pprev in Cells(head, s)
    ensures s[k].next.ptr == At(s, k + 1) && s[k].next in Cells(head, s)
    ensures head.ptr == At(s, 0)
  {
  }

  /** hlist_del leaves every bucket it does not write as it was. */
  method DelAmong(n: Node, ghost heads: seq<Slot>, ghost lists: seq<seq<Node>>, ghost b: nat, ghost k: nat)
    requires |heads| == |lists| && b < |heads| && k < |lists[b]| && lists[b][k] == n
    requires Chain(heads[b], lists[b]) && Others(heads, lists, b, {n.next.ptr}, {n.pprev})
    modifies n.pprev, n.next.ptr
    ensures Chain(heads[b], Without(lists[b], k))
    ensures forall c :: 0 <= c < |heads| && c != b ==> Chain(heads[c], lists[c])
  {
    hide Chain, With, Without;
    Del(n, heads[b], lists[b], k);
  }

  lemma TableParts(heads: seq<Slot>, lists: seq<seq<Node>>, b: nat)
    requires Table(heads, lists) && b < |heads|
    ensures |heads| == |lists| && Chain(heads[b], lists[b]) && Disjoint(heads, lists)
  {
  }

  lemma WithCells(head: Slot, s: seq<Node>, k: nat, n: Node)
    requires k <= |s|
    ensures Cells(head, With(s, k, n)) == Cells(head, s) + {n.next}
  {
  }

  lemma WithoutCells(head: Slot, s: seq<Node>, k: nat)
    requires k < |s|
    ensures Cells(head, Without(s, k)) <= Cells(head, s)
  {
  }

  ghost predicate OutsideTable(n: Node, heads: seq<Slot>, lists: seq<seq<Node>>)
    requires |heads| == |lists|
  {
    forall c :: 0 <= c < |heads| ==> Outside(n, heads[c], lists[c])
  }

  /** hlist_add_head in a table: its bucket gains the node in front. */
  method TableAddHead(n: Node, head: Slot, ghost heads: seq<Slot>, ghost lists: seq<seq<Node>>, ghost b: nat)
    requires Table(heads, lists) && b < |heads| && heads[b] == head && OutsideTable(n, heads, lists)
    modifies n, n.next, head, head.ptr
    ensures Table(heads, lists[b := With(lists[b], 0, n)])
  {
    hide Table, Chain, Others, Disjoint, Cells, With, Without;
    TableParts(heads, lists, b);
    HeadOf(head, lists[b]);
    OthersApart(heads, lists, b, n, {n, head.ptr}, {n.next, head});
    AddHeadAmong(n, head, heads, lists, b);
    WithCells(heads[b], lists[b], 0, n);
    Rebuild(heads, lists, b, With(lists[b], 0, n), {n.next});
  }

  lemma HeadOf(head: Slot, s: seq<Node>)
    requires Chain(head, s)
    ensures head.ptr == At(s, 0) && head in Cells(head, s)
  {
  }

  method AddHeadAmong(n: Node, head: Slot, ghost heads: seq<Slot>, ghost lists: seq<seq<Node>>, ghost b: nat)
    requires |heads| == |lists| && b < |heads| && heads[b] == head && Outside(n, head, lists[b])
    requires Chain(head, lists[b]) && Others(heads, lists, b, {n, head.ptr}, {n.next, head})
    modifies n, n.next, head, head.ptr
    ensures Chain(head, With(lists[b], 0, n))
    ensures forall c :: 0 <= c < |heads| && c != b ==> Chain(heads[c], lists[c])
    ensures forall c :: 0 <= c < |heads| && c != b ==> Cells(heads[c], lists[c]) !! {n.next}
  {
    hide Chain, With, Without;
    AddHead(n, head, lists[b]);
  }

  /** hlist_add_before in a table, without knowing the bucket. */
  method TableAddBefore(n: Node, next: Node, ghost heads: seq<Slot>, ghost lists: seq<seq<Node>>, ghost b: nat,
                        ghost k: nat)
    requires Table(heads, lists) && b < |heads| && k < |lists[b]| && lists[b][k] == next
    requires OutsideTable(n, heads, lists)
    modifies n, n.next, next, next.pprev
    ensures Table(heads, lists[b := With(lists[b], k, n)])
  {
    hide Table, Chain, Others, Disjoint, Cells, With, Without;
    TableParts(heads, lists, b);
    PlaceOf(heads[b], lists[b], k);
    OthersApart(heads, lists, b, n, {n, next}, {n.next, next.pprev});
    AddBeforeAmong(n, next, heads, lists, b, k);
    WithCells(heads[b], lists[b], k, n);
    Rebuild(heads, lists, b, With(lists[b], k, n), {n.next});
  }

  method AddBeforeAmong(n: Node, next: Node, ghost heads: seq<Slot>, ghost lists: seq<seq<Node>>, ghost b: nat,
                        ghost k: nat)
    requires |heads| == |lists| && b < |heads| && k < |lists[b]| && lists[b][k] == next
    requires Outside(n, heads[b], lists[b])
    requires Chain(heads[b], lists[b]) && Others(heads, lists, b, {n, next}, {n.next, next.pprev})
    modifies n, n.next, next, next.pprev
    ensures Chain(heads[b], With(lists[b], k, n))
    ensures forall c :: 0 <= c < |heads| && c != b ==> Chain(heads[c], lists[c])
    ensures forall c :: 0 <= c < |heads| && c != b ==> Cells(heads[c], lists[c]) !! {n.next}
  {
    hide Chain, With, Without;
    AddBefore(n, next, heads[b], lists[b], k);
  }

  /** hlist_add_after in a table, without knowing the bucket; `next` is the new node. */
  method TableAddAfter(n: Node, next: Node, ghost heads: seq<Slot>, ghost lists: seq<seq<Node>>, ghost b: nat,
                       ghost k: nat)
    requires Table(heads, lists) && b < |heads| && k < |lists[b]| && lists[b][k] == n
    requires OutsideTable(next, heads, lists)
    modifies n.next, next, next.next, n.next.ptr
    ensures Table(heads, lists[b := With(lists[b], k + 1, next)])
  {
    hide Table, Chain, Others, Disjoint, Cells, With, Without;
    TableParts(heads, lists, b);
    PlaceOf(heads[b], lists[b], k);
    OthersApart(heads, lists, b, next, {next, n.next.ptr}, {next.next, n.next});
    AddAfterAmong(n, next, heads, lists, b, k);
    WithCells(heads[b], lists[b], k + 1, next);
    Rebuild(heads, lists, b, With(lists[b], k + 1, next), {next.next});
  }

  method AddAfterAmong(n: Node, next: Node, ghost heads: seq<Slot>, ghost lists: seq<seq<Node>>, ghost b: nat,
                       ghost k: nat)
    requires |heads| == |lists| && b < |heads| && k < |lists[b]| && lists[b][k] == n
    requires Outside(next, heads[b], lists[b])
    requires Chain(heads[b], lists[b]) && Others(heads, lists, b, {next, n.next.ptr}, {next.next, n.next})
    modifies n.next, next, next.next, n.next.ptr
    ensures Chain(heads[b], With(lists[b], k + 1, next))
    ensures forall c :: 0 <= c < |heads| && c != b ==> Chain(heads[c], lists[c])
    ensures forall c :: 0 <= c < |heads| && c != b ==> Cells(heads[c], lists[c]) !! {next.next}
  {
    hide Chain, With, Without;
    AddAfter(n, next, heads[b], lists[b], k);
  }

  /** hlist_del_init in a table: for a linked node its bucket loses it, and the node ends up unhashed; for an
      unhashed one nothing happens. */
  method TableDelInit(n: Node, ghost heads: seq<Slot>, ghost lists: seq<seq<Node>>, ghost b: nat, ghost k: nat)
    requires Table(heads, lists)
    requires n.pprev != null ==> b < |heads| && k < |lists[b]| && lists[b][k] == n
    modifies if n.pprev == null then {} else {n, n.next, n.pprev, n.next.ptr}
    ensures n.pprev == null
    ensures old(n.pprev) == null ==> Table(heads, lists)
    ensures old(n.pprev) != null ==> Table(heads, lists[b := Without(lists[b], k)]) && n.next.ptr == null
  {
    hide Table, Chain, Others, Disjoint, Cells, With, Without;
    if n.pprev != null {
      TableParts(heads, lists, b);
      PlaceOf(heads[b], lists[b], k);
      OthersApart(heads, lists, b, null, {n, n.next.ptr}, {n.next, n.pprev});
      DelInitAmong(n, heads, lists, b, k);
      WithoutCells(heads[b], lists[b], k);
      Rebuild(heads, lists, b, Without(lists[b], k), {});
    }
  }

  method DelInitAmong(n: Node, ghost heads: seq<Slot>, ghost lists: seq<seq<Node>>, ghost b: nat, ghost k: nat)
    requires |heads| == |lists| && b < |heads| && k < |lists[b]| && lists[b][k] == n && n.pprev != null
    requires Chain(heads[b], lists[b]) && Others(heads, lists, b, {n, n.next.ptr}, {n.next, n.pprev})
    modifies n, n.next, n.pprev, n.next.ptr
    ensures Chain(heads[b], Without(lists[b], k)) && n.pprev == null && n.next.ptr == null
    ensures forall c :: 0 <= c < |heads| && c != b ==> Chain(heads[c], lists[c])
  {
    hide Chain, With, Without;
    DelInit(n, heads[b], lists[b], k);
  }
}
