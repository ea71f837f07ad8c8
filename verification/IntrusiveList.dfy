/** The circular doubly linked lists of xutil/include/list.h, on the heap.

    A list is a head and the entries after it; the ghost sequence `s` in each contract lists the entries.
    Everything a method does not name in `modifies` is untouched, so every list disjoint from the named
    nodes is left alone.  */
module IntrusiveList {

  /** `struct list_head`; both fields are undefined until a list operation sets them. */
  class ListHead {
    var next: ListHead?
    var prev: ListHead?
  }

  ghost predicate NoDup(r: seq<ListHead>) {
    forall i, j :: 0 <= i < j < |r| ==> r[i] != r[j]
  }

  /** The node after position `i` of a ring. */
  ghost function After(r: seq<ListHead>, i: nat): ListHead
    requires i < |r|
  {
    if i + 1 < |r| then r[i + 1] else r[0]
  }

  /** The node before position `i` of a ring. */
  ghost function Before(r: seq<ListHead>, i: nat): ListHead
    requires i < |r|
  {
    if i == 0 then r[|r| - 1] else r[i - 1]
  }

  /** `r` is a whole ring: `next` and `prev` lead to the neighbours. */
  ghost predicate Ring(r: seq<ListHead>)
    reads r
  {
    && 0 < |r| && NoDup(r)
    && (forall i {:trigger r[i].next} :: 0 <= i < |r| ==> r[i].next == After(r, i))
    && (forall i {:trigger r[i].prev} :: 0 <= i < |r| ==> r[i].prev == Before(r, i))
  }

  /** `head` is a list whose entries are `s`, in order. */
  ghost predicate IsList(head: ListHead, s: seq<ListHead>)
    reads head, s
  {
    Ring([head] + s)
  }

  /** A head is the head of one sequence only. */
  lemma {:induction false} ListUnique(head: ListHead, s: seq<ListHead>, t: seq<ListHead>)
    requires IsList(head, s) && IsList(head, t)
    ensures s == t
  {
    if |s| <= |t| {
      ShorterUnique(head, s, t);
    } else {
      ShorterUnique(head, t, s);
    }
  }

  lemma ShorterUnique(head: ListHead, s: seq<ListHead>, t: seq<ListHead>)
    requires IsList(head, s) && IsList(head, t) && |s| <= |t|
    ensures s == t
  {
    var r, q := [head] + s, [head] + t;
    PrefixUnique(r, q, |r|);
    assert r[|r| - 1].next == After(r, |r| - 1) == q[0];
    assert q[|r| - 1].next == After(q, |r| - 1);
    assert |r| == |q|;
    assert r == q;
    assert s == r[1..] && t == q[1..];
  }

  lemma {:induction false} PrefixUnique(r: seq<ListHead>, q: seq<ListHead>, n: nat)
    requires Ring(r) && Ring(q) && r[0] == q[0] && 0 < n <= |r| <= |q|
    ensures forall i :: 0 <= i < n ==> r[i] == q[i]
  {
    if n > 1 {
      PrefixUnique(r, q, n - 1);
      assert r[n - 2].next == r[n - 1] && q[n - 2].next == q[n - 1];
    }
  }

  /** INIT_LIST_HEAD */
  method InitListHead(ptr: ListHead)
    modifies ptr
    ensures IsList(ptr, [])
  {
    ptr.next := ptr;
    ptr.prev := ptr;
  }

  /** __list_add, between the neighbours `prev` and `next` at position `k` of a ring. */
  method InsertBetween(entry: ListHead, prev: ListHead, next: ListHead, ghost r: seq<ListHead>, ghost k: nat)
    requires Ring(r) && entry !in r && k < |r| && prev == r[k] && next == After(r, k)
    modifies entry, prev, next
    ensures Ring(r[..k + 1] + [entry] + r[k + 1..])
  {
    next.prev := entry;
    entry.next := next;
    entry.prev := prev;
    prev.next := entry;
    ghost var q := r[..k + 1] + [entry] + r[k + 1..];
    InsertNoDup(r, entry, k + 1);
    assert forall i {:trigger r[i].next} :: 0 <= i < |r| && i != k ==> r[i].next == After(r, i);
    assert forall i {:trigger r[i].prev} :: 0 <= i < |r| && r[i] != next ==> r[i].prev == Before(r, i);
    assert forall i :: 0 <= i <= k ==> q[i] == r[i];
    assert forall i :: k + 1 < i < |q| ==> q[i] == r[i - 1];
  }

  lemma InsertNoDup(r: seq<ListHead>, e: ListHead, k: nat)
    requires NoDup(r) && e !in r && k <= |r|
    ensures NoDup(r[..k] + [e] + r[k..])
  {
  }

  /** list_add: the new entry becomes the first. */
  method ListAdd(entry: ListHead, head: ListHead, ghost s: seq<ListHead>)
    requires IsList(head, s) && entry != head && entry !in s
    modifies entry, head, head.next
    ensures IsList(head, [entry] + s)
  {
    ghost var r := [head] + s;
    assert r[0].next == After(r, 0);
    InsertBetween(entry, head, head.next, r, 0);
    assert r[..1] + [entry] + r[1..] == [head] + ([entry] + s);
  }

  /** list_add_tail: the new entry becomes the last. */
  method ListAddTail(entry: ListHead, head: ListHead, ghost s: seq<ListHead>)
    requires IsList(head, s) && entry != head && entry !in s
    modifies entry, head, head.prev
    ensures IsList(head, s + [entry])
  {
    ghost var r := [head] + s;
    assert r[0].prev == Before(r, 0) && After(r, |s|) == head;
    InsertBetween(entry, head.prev, head, r, |s|);
    assert r[..|s| + 1] + [entry] + r[|s| + 1..] == [head] + (s + [entry]);
  }

  /** list_del, of the entry at position `k`; the entry itself keeps its old pointers. */
  method ListDel(entry: ListHead, ghost head: ListHead, ghost s: seq<ListHead>, ghost k: nat)
    requires IsList(head, s) && k < |s| && entry == s[k]
    modifies entry.prev, entry.next
    ensures IsList(head, s[..k] + s[k + 1..])
    ensures entry.next == old(entry.next) && entry.prev == old(entry.prev)
  {
    ghost var r := [head] + s;
    assert r[k + 1] == entry && entry.next == After(r, k + 1) && entry.prev == r[k];
    var prev, next := entry.prev, entry.next;
    next.prev := prev;
    prev.next := next;
    ghost var q := [head] + (s[..k] + s[k + 1..]);
    assert forall i {:trigger r[i].next} :: 0 <= i < |r| && i != k ==> r[i].next == After(r, i);
    assert forall i {:trigger r[i].prev} :: 0 <= i < |r| && r[i] != next ==> r[i].prev == Before(r, i);
    assert forall i :: 0 <= i <= k ==> q[i] == r[i];
    assert forall i :: k < i < |q| ==> q[i] == r[i + 1];
    assert NoDup(q);
  }

  /** list_empty */
  method ListEmpty(head: ListHead, ghost s: seq<ListHead>) returns (b: bool)
    requires IsList(head, s)
    ensures b <==> s == []
  {
    assert ([head] + s)[0].next == After([head] + s, 0);
    b := head.next == head;
  }

  /** list_is_singular */
  method ListIsSingular(head: ListHead, ghost s: seq<ListHead>) returns (b: bool)
    requires IsList(head, s)
    ensures b <==> |s| == 1
  {
    ghost var r := [head] + s;
    assert r[0].next == After(r, 0) && r[0].prev == Before(r, 0);
    var empty := ListEmpty(head, s);
    b := !empty && head.next == head.prev;
  }

  /** list_cut_position: an empty list is left alone (and `list` with it); cutting at the head makes
      `list` empty; cutting at the k-th entry moves the first k + 1 entries to `list`. */
  method ListCutPosition(list: ListHead, head: ListHead, entry: ListHead, ghost s: seq<ListHead>, ghost k: nat)
    requires IsList(head, s) && list != head && list !in s
    requires s == [] || entry == head || (k < |s| && s[k] == entry) || (|s| == 1 && entry !in s)
    modifies list, head, head.next, entry, entry.next
    ensures s == [] || (|s| == 1 && entry != head && entry != s[0]) ==>
      IsList(head, s) && list.next == old(list.next) && list.prev == old(list.prev)
    ensures s != [] && entry == head ==> IsList(list, []) && IsList(head, s)
    ensures s != [] && entry != head && k < |s| && s[k] == entry ==>
      IsList(list, s[..k + 1]) && IsList(head, s[k + 1..])
  {
    ghost var r := [head] + s;
    assert r[0].next == After(r, 0);
    var empty := ListEmpty(head, s);
    if empty {
      return;
    }
    var singular := ListIsSingular(head, s);
    if singular && head.next != entry && head != entry {
      return;
    }
    if entry == head {
      InitListHead(list);
      assert forall i :: 0 <= i < |r| ==> r[i] != list;
    } else {
      CutPosition(list, head, entry, s, k);
    }
  }

  /** __list_cut_position */
  method CutPosition(list: ListHead, head: ListHead, entry: ListHead, ghost s: seq<ListHead>, ghost k: nat)
    requires IsList(head, s) && list != head && list !in s && k < |s| && s[k] == entry
    modifies list, head, head.next, entry, entry.next
    ensures IsList(list, s[..k + 1]) && IsList(head, s[k + 1..])
  {
    ghost var r := [head] + s;
    assert r[0].next == After(r, 0) && r[k + 1] == entry && entry.next == After(r, k + 1);
    assert forall i :: 0 <= i < |r| ==> r[i] != list;
    ghost var last := Before(r, 0);
    var newFirst := entry.next;
    list.next := head.next;
    list.next.prev := list;
    list.prev := entry;
    entry.next := list;
    head.next := newFirst;
    newFirst.prev := head;
    assert forall i {:trigger r[i].next} :: 0 < i < |r| && i != k + 1 ==> r[i].next == After(r, i);
    assert forall i {:trigger r[i].prev} :: 1 < i < |r| && i != k + 2 ==> r[i].prev == Before(r, i);
    assert k + 1 < |s| ==> head.prev == last;
    FrontRing(list, s[..k + 1], head, s);
    BackRing(head, s, k);
  }

  /** The cut-off front, once its ends are tied to `list`. */
  lemma FrontRing(list: ListHead, front: seq<ListHead>, head: ListHead, s: seq<ListHead>)
    requires NoDup([head] + s) && list != head && list !in s && front != [] && front <= s
    requires list.next == s[0] && s[0].prev == list
    requires list.prev == s[|front| - 1] && s[|front| - 1].next == list
    requires forall i {:trigger ([head] + s)[i].next} :: 0 < i < |front| ==> ([head] + s)[i].next == After([head] + s, i)
    requires forall i {:trigger ([head] + s)[i].prev} :: 1 < i <= |front| ==> ([head] + s)[i].prev == Before([head] + s, i)
    ensures IsList(list, front)
  {
    var r, q := [head] + s, [list] + front;
    assert forall i :: 0 < i < |q| ==> q[i] == r[i];
  }

  /** What is left behind, once its ends are tied to `head`. */
  lemma BackRing(head: ListHead, s: seq<ListHead>, k: nat)
    requires NoDup([head] + s) && k < |s|
    requires head.next == After([head] + s, k + 1)
    requires k + 1 < |s| ==> s[k + 1].prev == head && head.prev == s[|s| - 1]
    requires k + 1 == |s| ==> head.prev == head
    requires forall i {:trigger ([head] + s)[i].next} :: k + 1 < i <= |s| ==> ([head] + s)[i].next == After([head] + s, i)
    requires forall i {:trigger ([head] + s)[i].prev} :: k + 2 < i <= |s| ==> ([head] + s)[i].prev == Before([head] + s, i)
    ensures IsList(head, s[k + 1..])
  {
    var r, q := [head] + s, [head] + s[k + 1..];
    assert forall i :: 0 < i < |q| ==> q[i] == r[i + k + 1];
  }

  /** copy_list_and_flush: moves a non-empty list whole and leaves the source empty.  On an empty source
      `dst` is left pointing into the source, so it becomes a list exactly when there was something to
      move. */
  method CopyListAndFlush(dst: ListHead, src: ListHead, ghost s: seq<ListHead>)
    requires IsList(src, s) && dst != src && dst !in s
    modifies dst, src, src.next, src.prev
    ensures IsList(src, [])
    ensures s != [] ==> IsList(dst, s)
    ensures s == [] ==> dst.next == src && dst.prev == src
  {
    ghost var r := [src] + s;
    assert r[0].next == After(r, 0) && r[0].prev == Before(r, 0);
    assert forall i :: 0 <= i < |r| ==> r[i] != dst;
    var next, prev := src.next, src.prev;
    dst.next := next;
    dst.prev := prev;
    next.prev := dst;
    prev.next := dst;
    InitListHead(src);
    if s != [] {
      assert forall i {:trigger r[i].next} :: 0 < i < |s| ==> r[i].next == After(r, i);
      assert forall i {:trigger r[i].prev} :: 1 < i <= |s| ==> r[i].prev == Before(r, i);
      FrontRing(dst, s, src, s);
    }
  }

  /** A node that points at another, empty list is the head of no list of its own: what an empty source
      leaves in `dst` is not a list. */
  lemma PointsAwayIsNoList(dst: ListHead, src: ListHead, t: seq<ListHead>)
    requires dst != src && dst.next == src && IsList(src, [])
    ensures !IsList(dst, t)
  {
    var q, r := [dst] + t, [src] + [];
    assert r[0].next == src && q[0].next == src;
    if 1 < |q| && q[1] == src {
      assert q[1].next == src;
    }
  }

  // ---------------------------------------------------------------- safe iteration

  /** The entries that are not dropped, in order. */
  function Keep(s: seq<ListHead>, drop: ListHead -> bool): seq<ListHead> {
    if s == [] then []
    else
      var front := Keep(s[..|s| - 1], drop);
      if drop(s[|s| - 1]) then front else front + [s[|s| - 1]]
  }

  /** Exactly the entries not dropped are kept. */
  lemma {:induction false} KeptAre(s: seq<ListHead>, drop: ListHead -> bool)
    ensures forall x :: x in Keep(s, drop) <==> x in s && !drop(x)
  {
    if s != [] {
      KeptAre(s[..|s| - 1], drop);
      assert s == s[..|s| - 1] + [s[|s| - 1]];
    }
  }

  /** Between two iterations: `pos` is the entry at `i` or the head again, `n` the one after it, and the entries
      kept so far are still in front. */
  ghost predicate Between(head: ListHead, s: seq<ListHead>, i: nat, kept: seq<ListHead>, pos: ListHead, n: ListHead?)
    reads head, s, kept, pos
  {
    && i <= |s| && IsList(head, kept + s[i..]) && head !in s
    && (forall x :: x in kept ==> x in s)
    && pos == (if i < |s| then s[i] else head)
    && n == pos.next
  }

  /** list_for_each_safe with a body that deletes the entries it chooses: it visits every entry once, in
      order, ends, and leaves exactly the entries not chosen; if all are chosen, the list is empty. */
  method ForEachSafe(head: ListHead, drop: ListHead -> bool, ghost s: seq<ListHead>) returns (visited: seq<ListHead>)
    requires IsList(head, s)
    modifies head, s
    ensures visited == s
    ensures IsList(head, Keep(s, drop))
    ensures forall x :: x in Keep(s, drop) <==> x in s && !drop(x)
    ensures (forall x :: x in s ==> drop(x)) ==> IsList(head, [])
  {
    hide Between, Keep;
    visited := [];
    ghost var i := 0;
    ghost var kept: seq<ListHead> := [];
    Starts(head, s, drop);
    var pos: ListHead := head.next;
    var n := pos.next;
    while pos != head
      invariant 0 <= i <= |s| && kept == Keep(s[..i], drop) && visited == s[..i]
      invariant Between(head, s, i, kept, pos, n) && (i < |s| <==> pos != head)
      decreases |s| - i
    {
      Reachable(head, s, i, kept, pos, n);
      KeepMore(s, i, drop);
      visited := visited + [pos];
      pos, n, kept := Turn(head, pos, n, drop(pos), s, i, kept);
      i := i + 1;
    }
    Ends(head, s, kept, pos, n);
    assert s[..i] == s;
    KeptAre(s, drop);
    if forall x :: x in s ==> drop(x) {
      NoneKept(s, drop);
    }
  }

  lemma {:induction false} NoneKept(s: seq<ListHead>, drop: ListHead -> bool)
    requires forall x :: x in s ==> drop(x)
    ensures Keep(s, drop) == []
  {
    if s != [] {
      assert forall x :: x in s[..|s| - 1] ==> x in s;
      NoneKept(s[..|s| - 1], drop);
    }
  }

  lemma Starts(head: ListHead, s: seq<ListHead>, drop: ListHead -> bool)
    requires IsList(head, s)
    ensures head.next != null && head.next.next != null && Keep(s[..0], drop) == []
    ensures Between(head, s, 0, [], head.next, head.next.next) && (0 < |s| <==> head.next != head)
  {
    assert [] + s[0..] == s && s[..0] == [];
    HeadOutside(head, s);
    ListStep(head, [], s);
  }

  lemma Reachable(head: ListHead, s: seq<ListHead>, i: nat, kept: seq<ListHead>, pos: ListHead, n: ListHead?)
    requires Between(head, s, i, kept, pos, n) && i < |s|
    ensures pos == s[i] && pos in s && n == pos.next && n != null
    ensures pos.prev == head || pos.prev in s
    ensures pos.next == head || pos.next in s
  {
    ListStep(head, kept, s[i..]);
    Neighbours(head, kept, s, i);
  }

  lemma KeepMore(s: seq<ListHead>, i: nat, drop: ListHead -> bool)
    requires i < |s|
    ensures s[..i + 1] == s[..i] + [s[i]]
    ensures Keep(s[..i + 1], drop) == if drop(s[i]) then Keep(s[..i], drop) else Keep(s[..i], drop) + [s[i]]
  {
    assert s[..i + 1][..i] == s[..i];
  }

  lemma Ends(head: ListHead, s: seq<ListHead>, kept: seq<ListHead>, pos: ListHead, n: ListHead?)
    requires Between(head, s, |s|, kept, pos, n)
    ensures IsList(head, kept)
  {
    assert kept + s[|s|..] == kept;
  }

  /** One iteration: the body, and the step to the entry that was saved before it. */
  method Turn(head: ListHead, pos: ListHead, n: ListHead?, dropped: bool, ghost s: seq<ListHead>, ghost i: nat,
              ghost kept: seq<ListHead>)
    returns (pos': ListHead, n': ListHead?, ghost kept': seq<ListHead>)
    requires Between(head, s, i, kept, pos, n) && i < |s| && n != null
    modifies pos.prev, pos.next
    ensures kept' == if dropped then kept else kept + [pos]
    ensures Between(head, s, i + 1, kept', pos', n') && (i + 1 < |s| <==> pos' != head)
  {
    Middle(kept, s, i);
    ListStep(head, kept + [pos], s[i + 1..]);
    kept' := BodyOf(pos, dropped, head, kept, s, i);
    ListStep(head, kept', s[i + 1..]);
    pos' := n;
    n' := pos'.next;
  }

  /** One iteration's body. */
  method BodyOf(pos: ListHead, dropped: bool, ghost head: ListHead, ghost kept: seq<ListHead>,
                ghost s: seq<ListHead>, ghost i: nat)
    returns (ghost kept': seq<ListHead>)
    requires i < |s| && pos == s[i] && IsList(head, kept + s[i..])
    modifies pos.prev, pos.next
    ensures kept' == if dropped then kept else kept + [pos]
    ensures IsList(head, kept' + s[i + 1..])
  {
    Middle(kept, s, i);
    if dropped {
      ListDel(pos, head, kept + s[i..], |kept|);
      kept' := kept;
    } else {
      kept' := kept + [pos];
    }
  }

  lemma HeadOutside(head: ListHead, s: seq<ListHead>)
    requires IsList(head, s)
    ensures head !in s
  {
    var r := [head] + s;
    forall j | 0 <= j < |s| ensures s[j] != head {
      assert r[0] != r[j + 1];
    }
  }

  lemma Middle(kept: seq<ListHead>, s: seq<ListHead>, i: nat)
    requires i < |s|
    ensures (kept + s[i..])[|kept|] == s[i]
    ensures (kept + s[i..])[..|kept|] + (kept + s[i..])[|kept| + 1..] == kept + s[i + 1..]
    ensures kept + [s[i]] + s[i + 1..] == kept + s[i..]
  {
  }

  /** Following `next` from the end of `a` reaches the first entry of `b`, or the head. */
  lemma ListStep(head: ListHead, a: seq<ListHead>, b: seq<ListHead>)
    requires IsList(head, a + b)
    ensures ([head] + a)[|a|].next == if b == [] then head else b[0]
    ensures forall x :: x in b ==> x.next != null
    ensures head.next != null
  {
    var r := [head] + (a + b);
    assert r[|a|] == ([head] + a)[|a|] && r[|a|].next == After(r, |a|);
    assert r[0].next == After(r, 0);
    forall x | x in b ensures x.next != null {
      var j :| 0 <= j < |b| && b[j] == x;
      assert r[|a| + 1 + j] == x && r[|a| + 1 + j].next == After(r, |a| + 1 + j);
    }
  }

  lemma Neighbours(head: ListHead, kept: seq<ListHead>, s: seq<ListHead>, i: nat)
    requires i < |s| && IsList(head, kept + s[i..])
    ensures s[i].prev == head || s[i].prev in kept
    ensures s[i].next == head || s[i].next in s
  {
    var r, k := [head] + (kept + s[i..]), |kept| + 1;
    assert r[k] == s[i] && r[k].next == After(r, k) && r[k].prev == Before(r, k);
    assert k > 1 ==> r[k - 1] == kept[k - 2];
    assert k + 1 < |r| ==> r[k + 1] == s[i + 1];
  }
}
