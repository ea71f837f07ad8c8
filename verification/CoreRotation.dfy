/** How CThreadPool::get_new_core deals out cores: 32-bit arithmetic that may wrap, and its balance. */
module CoreRotation {

  const WORD: nat := 0x1_0000_0000
  const NO_SPEC_CORE: nat := 0xFFFF

  /** An unsigned int. */
  type Uint = n: int | 0 <= n < WORD

  function Wrap(n: int): Uint {
    n % WORD
  }

  /** The place in the current turn, and the turns completed, after `k` calls on `n` cores. */
  function Slot(k: nat, n: nat): (r: nat)
    requires n > 0
    ensures r < n
  {
    k % n
  }

  function Turns(k: nat, n: nat): nat
    requires n > 0
  {
    k / n
  }

  /** Counting on by one. */
  lemma NextSlot(k: nat, n: nat)
    requires n > 0
    ensures Slot(k, n) + 1 < n ==> Slot(k + 1, n) == Slot(k, n) + 1 && Turns(k + 1, n) == Turns(k, n)
    ensures Slot(k, n) + 1 == n ==> Slot(k + 1, n) == 0 && Turns(k + 1, n) == Turns(k, n) + 1
  {
    var q, r := k / n, k % n;
    assert k == n * q + r;
    var e, f := (k + 1) / n, (k + 1) % n;
    assert k + 1 == n * e + f;
    if r + 1 < n {
      SameQuotient(n, q, r + 1, e, f);
    } else {
      assert n * (q + 1) == n * q + n;
      SameQuotient(n, q + 1, 0, e, f);
    }
  }

  lemma SameQuotient(d: nat, q: nat, r: nat, e: nat, f: nat)
    requires d * q + r == d * e + f && r < d && f < d
    ensures q == e && r == f
  {
    var lo, hi := if q < e then q else e, if q < e then e else q;
    assert d * hi - d * lo == d * (hi - lo);
    if hi > lo {
      AtLeast(d, hi - lo);
    }
  }

  lemma AtLeast(d: nat, n: nat)
    requires n > 0
    ensures d * n >= d
  {
  }

  lemma SmallSlot(k: nat, n: nat)
    requires k < n
    ensures Slot(k, n) == k && Turns(k, n) == 0
  {
  }

  lemma FullSlot(n: nat)
    requires n > 0
    ensures Slot(n, n) == 0
  {
  }

  /** What a call returns and what it leaves in m_cur_core_id. */
  function Take(start: Uint, cnt: Uint, cur: Uint): (r: (Uint, Uint)) {
    if cnt != 0 then
      var core := Wrap(start + Slot(Wrap(cur - start), cnt));
      (core, Wrap(core + 1))
    else (NO_SPEC_CORE, cur)
  }

  /** m_cur_core_id after `k` calls. */
  function Cursor(start: Uint, cnt: Uint, k: nat): Uint {
    if k == 0 then start else Take(start, cnt, Cursor(start, cnt, k - 1)).1
  }

  /** What call `k`, from 0, returns. */
  function Core(start: Uint, cnt: Uint, k: nat): Uint {
    Take(start, cnt, Cursor(start, cnt, k)).0
  }

  /** Wrapping arithmetic on an offset from `start` is arithmetic on the offset. */
  lemma Offset(start: Uint, off: Uint)
    ensures Wrap(Wrap(start + off) - start) == off
    ensures off + 1 < WORD ==> Wrap(Wrap(start + off) + 1) == Wrap(start + (off + 1))
  {
  }

  /** Call k, from 0, returns start + k mod cnt, even where start + cnt is past the end of an unsigned int;
      with no cores configured every call returns NO_SPEC_CORE. */
  lemma {:induction false} KthCore(start: Uint, cnt: Uint, k: nat)
    ensures Core(start, cnt, k) == if cnt == 0 then 0xFFFF else Wrap(start + Slot(k, cnt))
  {
    hide Wrap, Slot, Turns;
    if cnt > 0 {
      if k == 0 {
        Offset(start, 0);
        SmallSlot(0, cnt);
        assert start + 0 == start;
        WrapSmall(start);
      } else {
        KthCore(start, cnt, k - 1);
        var off := Slot(k - 1, cnt) + 1;
        Offset(start, off - 1);
        Offset(start, off);
        NextSlot(k - 1, cnt);
        if off < cnt {
          SmallSlot(off, cnt);
        } else {
          FullSlot(cnt);
        }
      }
    }
  }

  lemma SlotIs(start: Uint, cnt: Uint, k: nat)
    ensures cnt > 0 ==> Wrap(start + Slot(k, cnt)) == (start + k % cnt) % 0x1_0000_0000
  {
  }

  lemma WrapSmall(n: Uint)
    ensures Wrap(n) == n
  {
  }

  /** How many of the first `k` calls return `core`. */
  function Uses(start: Uint, cnt: Uint, k: nat, core: Uint): nat {
    if k == 0 then 0
    else Uses(start, cnt, k - 1, core) + if Core(start, cnt, k - 1) == core then 1 else 0
  }

  /** The core at offset c from the start has been used once for each full turn, and once more if the
      current turn has passed it. */
  lemma {:induction false} UsesOf(start: Uint, cnt: Uint, k: nat, c: nat)
    requires c < cnt
    ensures Uses(start, cnt, k, Wrap(start + c)) == Turns(k, cnt) + if c < Slot(k, cnt) then 1 else 0
  {
    hide Wrap, Slot, Turns, Core;
    if k == 0 {
      SmallSlot(0, cnt);
    } else {
      UsesOf(start, cnt, k - 1, c);
      KthCore(start, cnt, k - 1);
      Offset(start, c);
      Offset(start, Slot(k - 1, cnt));
      NextSlot(k - 1, cnt);
    }
  }

  /** After any number of calls the use counts of any two of the configured cores differ by at most one. */
  lemma Balanced(start: Uint, cnt: Uint, k: nat, c: nat, d: nat)
    requires c < cnt && d < cnt
    ensures -1 <= Uses(start, cnt, k, Wrap(start + c)) - Uses(start, cnt, k, Wrap(start + d)) <= 1
  {
    UsesOf(start, cnt, k, c);
    UsesOf(start, cnt, k, d);
  }
}
