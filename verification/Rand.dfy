/** The xorshift generator of xutil/src/utilrand.cpp: four 32-bit words, shifted and mixed on each call.
    The lemmas hide the bit operations as soon as the few laws they need are known. */
module Rand {

  type Word = bv32

  // ---------------------------------------------------------------- laws of the bit operations

  function Xor(a: Word, b: Word): Word { a ^ b }

  function Up11(a: Word): Word { a << 11 }

  function Up22(a: Word): Word { a << 22 }

  function Down8(a: Word): Word { a >> 8 }

  function Down16(a: Word): Word { a >> 16 }

  function Down19(a: Word): Word { a >> 19 }

  lemma XorLaws(a: Word, b: Word)
    ensures Xor(a, a) == 0 && Xor(a, 0) == a && Xor(Xor(a, b), a) == b && Xor(Xor(a, b), b) == a
    ensures Xor(a, b) == 0 ==> a == b
  {
  }

  lemma XorSwap(a: Word, b: Word)
    ensures Xor(a, b) == Xor(b, a)
  {
  }

  lemma XorRegroup(a: Word, b: Word, c: Word)
    ensures Xor(Xor(a, b), c) == Xor(a, Xor(b, c))
  {
  }

  /** The middle terms of a sum of four may change places. */
  lemma XorMiddle(a: Word, b: Word, c: Word, d: Word)
    ensures Xor(Xor(a, b), Xor(c, d)) == Xor(Xor(a, c), Xor(b, d))
  {
    hide Xor;
    XorRegroup(a, b, Xor(c, d));
    XorRegroup(b, c, d);
    XorSwap(b, c);
    XorRegroup(c, b, d);
    XorRegroup(a, c, Xor(b, d));
  }

  lemma XorChain(a: Word, b: Word, c: Word)
    ensures Xor(Xor(a, b), Xor(b, c)) == Xor(a, c)
  {
    hide Xor;
    XorRegroup(a, b, Xor(b, c));
    XorRegroup(b, b, c);
    XorSwap(0, c);
    XorLaws(b, c);
    XorLaws(c, b);
  }

  lemma Up11Adds(a: Word, b: Word)
    ensures Up11(Xor(a, b)) == Xor(Up11(a), Up11(b))
  {
  }

  lemma Up22Adds(a: Word, b: Word)
    ensures Up22(Xor(a, b)) == Xor(Up22(a), Up22(b))
  {
  }

  lemma Down8Adds(a: Word, b: Word)
    ensures Down8(Xor(a, b)) == Xor(Down8(a), Down8(b))
  {
  }

  lemma Down16Adds(a: Word, b: Word)
    ensures Down16(Xor(a, b)) == Xor(Down16(a), Down16(b))
  {
  }

  lemma Down19Adds(a: Word, b: Word)
    ensures Down19(Xor(a, b)) == Xor(Down19(a), Down19(b))
  {
  }

  lemma ShiftsTwice(a: Word)
    ensures Up11(Up11(a)) == Up22(a) && Up22(Up22(a)) == 0
    ensures Down8(Down8(a)) == Down16(a) && Down16(Down16(a)) == 0
  {
  }

  // ---------------------------------------------------------------- one step and its inverse

  datatype State = State(x: Word, y: Word, z: Word, w: Word)

  function Left(a: Word): Word { Xor(a, Up11(a)) }

  function Right(a: Word): Word { Xor(a, Down8(a)) }

  /** What the two shifts make of the oldest word. */
  function Mix(x: Word): Word { Right(Left(x)) }

  function Stir(w: Word): Word { Xor(w, Down19(w)) }

  function Next(s: State): State {
    State(s.y, s.z, s.w, Xor(Stir(s.w), Mix(s.x)))
  }

  // ---------------------------------------------------------------- which bits go where

  /** Bit `j` of a word. */
  predicate Bit(a: Word, j: Word)
    requires j < 32
  {
    a & (1 << j) != 0
  }

  lemma XorBit(a: Word, b: Word, j: Word)
    requires j < 32
    ensures Bit(Xor(a, b), j) <==> Bit(a, j) != Bit(b, j)
  {
    hide Bit;
    XorBitOf(a, b, j);
  }

  lemma XorBitOf(a: Word, b: Word, j: Word)
    requires j < 32
    ensures Bit(a ^ b, j) <==> Bit(a, j) != Bit(b, j)
  {
  }

  lemma Up11Bit(a: Word, j: Word)
    requires j < 32
    ensures Bit(Up11(a), j) <==> j >= 11 && Bit(a, j - 11)
  {
    hide Bit;
    Up11BitOf(a, j);
  }

  lemma Up11BitOf(a: Word, j: Word)
    requires j < 32
    ensures Bit(a << 11, j) <==> j >= 11 && Bit(a, j - 11)
  {
  }

  lemma Down8Bit(a: Word, j: Word)
    requires j < 32
    ensures Bit(Down8(a), j) <==> j < 24 && Bit(a, j + 8)
  {
    hide Bit;
    Down8BitOf(a, j);
  }

  lemma Down8BitOf(a: Word, j: Word)
    requires j < 32
    ensures Bit(a >> 8, j) <==> j < 24 && Bit(a, j + 8)
  {
  }

  lemma Down19Bit(a: Word, j: Word)
    requires j < 32
    ensures Bit(Down19(a), j) <==> j < 13 && Bit(a, j + 19)
  {
    hide Bit;
    Down19BitOf(a, j);
  }

  lemma Down19BitOf(a: Word, j: Word)
    requires j < 32
    ensures Bit(a >> 19, j) <==> j < 13 && Bit(a, j + 19)
  {
  }

  /** An odd number of the six hold. */
  predicate Odd(a: bool, b: bool, c: bool, d: bool, e: bool, f: bool) {
    ((a != b) != (c != d)) != (e != f)
  }

  /** Bit `j` of a new number, in terms of the newest and the oldest word: bits j and j+19 of the one, and j, j-11,
      j+8 and j-3 of the other, those that fall outside the word left out. */
  predicate NewBit(w: Word, x: Word, j: Word)
    requires j < 32
  {
    Odd(Bit(w, j), j < 13 && Bit(w, j + 19), Bit(x, j), j >= 11 && Bit(x, j - 11),
        j < 24 && Bit(x, j + 8), 3 <= j < 24 && Bit(x, j - 3))
  }

  lemma NextBits(s: State, j: Word)
    requires j < 32
    ensures Bit(Next(s).w, j) <==> NewBit(s.w, s.x, j)
  {
    hide Xor, Down19, Bit, Mix;
    XorBit(Stir(s.w), Mix(s.x), j);
    XorBit(s.w, Down19(s.w), j);
    Down19Bit(s.w, j);
    MixBit(s.x, j);
  }

  lemma MixBit(x: Word, j: Word)
    requires j < 32
    ensures Bit(Mix(x), j) <==>
      (Bit(x, j) != (j >= 11 && Bit(x, j - 11))) != (j < 24 && Bit(x, j + 8) != (j >= 3 && Bit(x, j - 3)))
  {
    hide Xor, Down8, Left, Bit;
    XorBit(Left(x), Down8(Left(x)), j);
    Down8Bit(Left(x), j);
    LeftBit(x, j);
    if j < 24 {
      LeftBit(x, j + 8);
      Shifted(j);
    }
  }

  lemma LeftBit(x: Word, j: Word)
    requires j < 32
    ensures Bit(Left(x), j) <==> Bit(x, j) != (j >= 11 && Bit(x, j - 11))
  {
    hide Xor, Up11, Bit;
    XorBit(x, Up11(x), j);
    Up11Bit(x, j);
  }

  lemma Shifted(j: Word)
    requires j < 24
    ensures j + 8 < 32 && (j + 8 >= 11 <==> j >= 3) && (j >= 3 ==> j + 8 - 11 == j - 3)
  {
  }

  /** Undoes Mix: either shift applied four times is the identity, so three more times undo it. */
  function Unmix(m: Word): Word {
    Left(Left(Left(Right(Right(Right(m))))))
  }

  /** The step backwards: the word that was dropped is found from the newest one. */
  function Prev(s: State): State {
    State(Unmix(Xor(s.w, Stir(s.z))), s.x, s.y, s.z)
  }

  lemma LeftFour(a: Word)
    ensures Left(Left(Left(Left(a)))) == a
  {
    hide Xor, Up11, Up22;
    var b := Left(Left(a));
    LeftTwice(a);
    LeftTwice(b);
    Up22Adds(a, Up22(a));
    ShiftsTwice(a);
    XorLaws(Up22(a), 0);
    XorLaws(a, Up22(a));
  }

  lemma LeftTwice(a: Word)
    ensures Left(Left(a)) == Xor(a, Up22(a))
  {
    hide Xor, Up11, Up22;
    Up11Adds(a, Up11(a));
    ShiftsTwice(a);
    XorChain(a, Up11(a), Up22(a));
  }

  lemma RightTwice(a: Word)
    ensures Right(Right(a)) == Xor(a, Down16(a))
  {
    hide Xor, Down8, Down16;
    Down8Adds(a, Down8(a));
    ShiftsTwice(a);
    XorChain(a, Down8(a), Down16(a));
  }

  lemma RightFour(a: Word)
    ensures Right(Right(Right(Right(a)))) == a
  {
    hide Xor, Down8, Down16;
    var b := Right(Right(a));
    RightTwice(a);
    RightTwice(b);
    Down16Adds(a, Down16(a));
    ShiftsTwice(a);
    XorLaws(Down16(a), 0);
    XorLaws(a, Down16(a));
  }

  lemma UnmixUndoesMix(a: Word)
    ensures Unmix(Mix(a)) == a && Mix(Unmix(a)) == a
  {
    hide Left, Right;
    RightFour(Left(a));
    LeftFour(a);
    LeftFour(Right(Right(Right(a))));
    RightFour(a);
  }

  /** The step is a bijection: Prev is its inverse on both sides. */
  lemma StepIsBijection(s: State)
    ensures Prev(Next(s)) == s && Next(Prev(s)) == s
  {
    hide Xor, Stir, Mix, Unmix;
    XorLaws(Stir(s.w), Mix(s.x));
    UnmixUndoesMix(s.x);
    UnmixUndoesMix(Xor(s.w, Stir(s.z)));
    XorLaws(s.w, Stir(s.z));
    XorSwap(Stir(s.z), Xor(s.w, Stir(s.z)));
  }

  // ---------------------------------------------------------------- any number of steps

  function Steps(s: State, n: nat): State
    decreases n
  {
    if n == 0 then s else Steps(Next(s), n - 1)
  }

  function Back(s: State, n: nat): State {
    if n == 0 then s else Prev(Back(s, n - 1))
  }

  /** n steps are undone by n steps back, and the other way round. */
  lemma {:induction false} StepsUndone(s: State, n: nat)
    ensures Back(Steps(s, n), n) == s && Steps(Back(s, n), n) == s
    decreases n
  {
    hide Next, Prev;
    if n > 0 {
      StepsUndone(Next(s), n - 1);
      StepIsBijection(s);
      StepsUndone(s, n - 1);
      StepIsBijection(Back(s, n - 1));
    }
  }

  lemma {:induction false} StepsCompose(s: State, m: nat, n: nat)
    ensures Steps(s, m + n) == Steps(Steps(s, m), n)
    decreases m
  {
    hide Next;
    if m > 0 {
      StepsCompose(Next(s), m - 1, n);
    }
  }

  /** Every orbit is a cycle: the first state to come up again is the one it started from. */
  lemma OrbitIsCycle(s: State, m: nat, n: nat)
    requires m <= n && Steps(s, m) == Steps(s, n)
    ensures Steps(s, n - m) == s
  {
    hide Next, Prev;
    StepsCompose(s, n - m, m);
    StepsUndone(s, m);
    StepsUndone(Steps(s, n - m), m);
  }

  // ---------------------------------------------------------------- linearity

  function Sum(s: State, t: State): State {
    State(Xor(s.x, t.x), Xor(s.y, t.y), Xor(s.z, t.z), Xor(s.w, t.w))
  }

  lemma MixAdds(a: Word, b: Word)
    ensures Mix(Xor(a, b)) == Xor(Mix(a), Mix(b))
  {
    hide Xor, Up11, Down8;
    Up11Adds(a, b);
    XorMiddle(a, b, Up11(a), Up11(b));
    Down8Adds(Left(a), Left(b));
    XorMiddle(Left(a), Left(b), Down8(Left(a)), Down8(Left(b)));
  }

  lemma StirAdds(a: Word, b: Word)
    ensures Stir(Xor(a, b)) == Xor(Stir(a), Stir(b))
  {
    hide Xor, Down19;
    Down19Adds(a, b);
    XorMiddle(a, b, Down19(a), Down19(b));
  }

  /** The generator is linear over xor, for any number of steps. */
  lemma {:induction false} StepsLinear(s: State, t: State, n: nat)
    ensures Steps(Sum(s, t), n) == Sum(Steps(s, n), Steps(t, n))
    decreases n
  {
    hide Xor, Stir, Mix;
    if n > 0 {
      MixAdds(s.x, t.x);
      StirAdds(s.w, t.w);
      XorMiddle(Stir(s.w), Stir(t.w), Mix(s.x), Mix(t.x));
      assert Next(Sum(s, t)) == Sum(Next(s), Next(t));
      StepsLinear(Next(s), Next(t), n - 1);
    }
  }

  const ZERO := State(0, 0, 0, 0)

  lemma {:induction false} ZeroStays(n: nat)
    ensures Steps(ZERO, n) == ZERO
  {
    if n > 0 {
      assert Next(ZERO) == ZERO;
      ZeroStays(n - 1);
    }
  }

  /** The all-zero state is a trap that no other state falls into. */
  lemma ZeroOnlyFromZero(s: State, n: nat)
    ensures Steps(s, n) == ZERO <==> s == ZERO
  {
    hide Next, Prev;
    StepsUndone(s, n);
    StepsUndone(ZERO, n);
    ZeroStays(n);
  }

  // ---------------------------------------------------------------- the numbers handed out

  /** The k-th number, from 1. */
  function Output(s: State, k: nat): Word {
    Steps(s, k).w
  }

  lemma FourSteps(s: State)
    ensures Steps(s, 4) == State(Output(s, 1), Output(s, 2), Output(s, 3), Output(s, 4))
  {
    hide Xor, Stir, Mix;
    var s1 := Next(s);
    var s2 := Next(s1);
    OneMore(s, 1);
    OneMore(s, 2);
    OneMore(s, 3);
    assert Steps(s, 1) == s1 && Steps(s, 2) == s2;
    assert Steps(s, 3) == Next(s2) && Steps(s, 4) == Next(Next(s2));
  }

  lemma OneMore(s: State, n: nat)
    ensures Steps(s, n + 1) == Next(Steps(s, n)) && Steps(s, 1) == Next(s)
  {
    hide Next;
    StepsCompose(s, n, 1);
    assert Steps(Steps(s, n), 1) == Steps(Next(Steps(s, n)), 0);
    assert Steps(s, 1) == Steps(Next(s), 0);
  }

  /** Any four words are the first four numbers of exactly one state. */
  lemma FourOutputsFixState(s: State, o: State)
    ensures (Output(s, 1) == o.x && Output(s, 2) == o.y && Output(s, 3) == o.z && Output(s, 4) == o.w)
      <==> s == Back(o, 4)
  {
    hide Next, Prev;
    FourSteps(s);
    StepsUndone(s, 4);
    StepsUndone(o, 4);
    FourSteps(Back(o, 4));
  }

  // ---------------------------------------------------------------- filling a buffer

  type Octet = bv8

  /** Byte j of a word as a little-endian store lays it out. */
  function ByteOf(v: Word, j: nat): Octet
    requires j < 4
  {
    if j == 0 then (v & 0xFF) as Octet
    else if j == 1 then ((v >> 8) & 0xFF) as Octet
    else if j == 2 then ((v >> 16) & 0xFF) as Octet
    else (v >> 24) as Octet
  }

  /** The four bytes make up the word, the low one first. */
  lemma BytesMakeWord(v: Word)
    ensures v == ByteOf(v, 0) as Word + 0x100 * (ByteOf(v, 1) as Word)
                 + 0x1_0000 * (ByteOf(v, 2) as Word) + 0x100_0000 * (ByteOf(v, 3) as Word)
  {
  }

  /** And no other four bytes do. */
  lemma BytesAreUnique(v: Word, b: Octet, c: Octet, d: Octet, e: Octet)
    requires v == b as Word + 0x100 * (c as Word) + 0x1_0000 * (d as Word) + 0x100_0000 * (e as Word)
    ensures b == ByteOf(v, 0) && c == ByteOf(v, 1) && d == ByteOf(v, 2) && e == ByteOf(v, 3)
  {
  }

  function Stored(v: Word, n: nat): (bytes: seq<Octet>)
    requires n <= 4
    ensures |bytes| == n
  {
    seq(n, j requires 0 <= j < n => ByteOf(v, j))
  }

  /** How many bytes the next number fills when `len` are wanted. */
  function Piece(len: nat): (n: nat)
    requires len > 0
    ensures 1 <= n <= 4 && n <= len
  {
    if len >= 4 then 4 else if len >= 2 then 2 else 1
  }

  function Fill(s: State, len: nat): (r: (seq<Octet>, State))
    ensures |r.0| == len
    decreases len
  {
    if len == 0 then ([], s)
    else
      var n := Piece(len);
      var more := Fill(Next(s), len - n);
      (Stored(Next(s).w, n) + more.0, more.1)
  }

  /** What a request of `len` bytes draws: a number for each four bytes, one for a pair left over and one
      for an odd byte. */
  function Draws(len: nat): nat {
    len / 4 + len % 4 / 2 + len % 2
  }

  lemma DrawsPiece(len: nat)
    requires len > 0
    ensures Draws(len) == 1 + Draws(len - Piece(len))
  {
    if len >= 4 {
      FourLess(len);
    } else {
      assert len == 1 || len == 2 || len == 3;
    }
  }

  lemma FourLess(len: nat)
    requires len >= 4
    ensures (len - 4) / 4 == len / 4 - 1 && (len - 4) % 4 == len % 4 && (len - 4) % 2 == len % 2
  {
  }

  lemma DrawsNone()
    ensures Draws(0) == 0
  {
  }

  /** The state moves on by exactly the numbers drawn. */
  lemma {:induction false} FillSteps(s: State, len: nat)
    ensures Fill(s, len).1 == Steps(s, Draws(len))
    decreases len
  {
    hide Next, Stored, Draws, Piece;
    DrawsNone();
    if len > 0 {
      DrawsPiece(len);
      FillSteps(Next(s), len - Piece(len));
    }
  }

  /** Byte i of a filled buffer is byte i % 4 of number i / 4 + 1, except that a third odd byte at the end is
      the low byte of a number of its own. */
  lemma {:induction false} FillIsOutputs(s: State, len: nat, i: nat)
    requires i < len
    ensures Fill(s, len).0[i] ==
      if i % 4 == 2 && i == len - 1 then ByteOf(Output(s, i / 4 + 2), 0) else ByteOf(Output(s, i / 4 + 1), i % 4)
    decreases len
  {
    hide Next, ByteOf;
    var n := Piece(len);
    OneMore(s, 0);
    if i >= n {
      FillIsOutputs(Next(s), len - n, i - n);
      assert Fill(s, len).0[i] == Fill(Next(s), len - n).0[i - n];
      if n == 4 {
        assert (i - 4) % 4 == i % 4 && (i - 4) / 4 == i / 4 - 1;
      }
    } else {
      assert Fill(s, len).0[i] == Stored(Next(s).w, n)[i];
    }
  }

  lemma FillNone(s: State)
    ensures Fill(s, 0) == ([], s)
  {
  }

  lemma FillPiece(s: State, len: nat, n: nat)
    requires len > 0 && n == Piece(len)
    ensures Fill(s, len).0 == Stored(Next(s).w, n) + Fill(Next(s), len - n).0
    ensures Fill(s, len).1 == Fill(Next(s), len - n).1
  {
  }

  lemma Regroup(a: seq<Octet>, b: seq<Octet>, c: seq<Octet>)
    ensures a + (b + c) == a + b + c
  {
  }

  /** The store of the low `n` bytes of a number at `at`. */
  method Store(str: array<Octet>, at: nat, v: Word, n: nat)
    requires at + n <= str.Length && n <= 4
    modifies str
    ensures str[..at + n] == old(str[..at]) + Stored(v, n) && str[at + n..] == old(str[at + n..])
  {
    for j := 0 to n
      invariant str[..at] == old(str[..at]) && str[at + n..] == old(str[at + n..])
      invariant forall k :: 0 <= k < j ==> str[at + k] == ByteOf(v, k)
    {
      str[at + j] := ByteOf(v, j);
    }
  }

  /** The generator's static words. */
  class Generator {
    var x: Word
    var y: Word
    var z: Word
    var w: Word

    constructor (s: State)
      ensures Current() == s
    {
      x, y, z, w := s.x, s.y, s.z, s.w;
    }

    ghost function Current(): State
      reads this
    {
      State(x, y, z, w)
    }

    method RandNext() returns (r: Word)
      modifies this
      ensures Current() == Next(old(Current())) && r == Current().w
      ensures x == old(y) && y == old(z) && z == old(w)
      ensures forall j: Word :: j < 32 ==> (Bit(r, j) <==> NewBit(old(w), old(x), j))
    {
      hide Xor, Up11, Down8, Down19, Bit;
      var t := x;
      t := Xor(t, Up11(t));
      t := Xor(t, Down8(t));
      x := y;
      y := z;
      z := w;
      w := Xor(w, Down19(w));
      w := Xor(w, t);
      r := w;
      OneMore(old(Current()), 0);
      forall j: Word | j < 32 ensures Bit(r, j) <==> NewBit(old(w), old(x), j) {
        NextBits(old(Current()), j);
      }
    }

    method RandStr(str: array<Octet>, len: nat)
      requires len <= str.Length
      modifies this, str
      ensures str[..len] == Fill(old(Current()), len).0 && Current() == Fill(old(Current()), len).1
      ensures str[len..] == old(str[len..])
    {
      hide Next, Stored, Fill, Bit, NewBit;
      var at := 0;
      ghost var done, whole := [], Fill(Current(), len);
      while at < len
        invariant at <= len && str[..at] == done && str[len..] == old(str[len..])
        invariant done + Fill(Current(), len - at).0 == whole.0 && Fill(Current(), len - at).1 == whole.1
        decreases len - at
      {
        var left := len - at;
        ghost var s := Current();
        var v := RandNext();
        var n := if left >= 4 then 4 else if left >= 2 then 2 else 1;
        Store(str, at, v, n);
        FillPiece(s, left, n);
        Regroup(done, Stored(v, n), Fill(Current(), left - n).0);
        done := done + Stored(v, n);
        at := at + n;
      }
      FillNone(Current());
    }
  }
}
