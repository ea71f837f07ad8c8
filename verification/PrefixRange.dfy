/** The prefix-to-range arithmetic of xutil/include/engine_ip_range.h and its use on IPv4 and on the four words
    of an IPv6 address in xutil/src/engine_ip_range.cpp, against aligned blocks of addresses.  Products and
    quotients of two variables are named, so that lemmas can hide them and argue from their laws. */
module PrefixRange {

  // ---------------------------------------------------------------- laws of products and quotients

  function Times(a: nat, b: nat): nat { a * b }

  function Quot(v: nat, d: nat): nat
    requires d > 0
  {
    v / d
  }

  lemma TimesSwap(a: nat, b: nat)
    ensures Times(a, b) == Times(b, a)
  {
  }

  lemma TimesRegroup(a: nat, b: nat, c: nat)
    ensures Times(Times(a, b), c) == Times(a, Times(b, c))
  {
  }

  lemma TimesAdds(a: nat, b: nat, c: nat)
    ensures Times(a + b, c) == Times(a, c) + Times(b, c) && Times(1, c) == c && Times(0, c) == 0
  {
  }

  lemma TimesGrows(a: nat, b: nat, c: nat)
    requires a <= b
    ensures Times(a, c) <= Times(b, c)
  {
    hide Times;
    TimesAdds(a, b - a, c);
  }

  lemma QuotRange(v: nat, d: nat)
    requires d > 0
    ensures Times(Quot(v, d), d) <= v < Times(Quot(v, d), d) + d
  {
    assert v == v / d * d + v % d;
  }

  lemma QuotIs(v: nat, d: nat, q: nat)
    requires d > 0 && Times(q, d) <= v < Times(q, d) + d
    ensures Quot(v, d) == q
  {
    hide Times, Quot;
    var e := Quot(v, d);
    QuotRange(v, d);
    TimesAdds(q, 1, d);
    TimesAdds(e, 1, d);
    if e < q {
      TimesGrows(e + 1, q, d);
    } else if q < e {
      TimesGrows(q + 1, e, d);
    }
  }

  lemma QuotTwice(v: nat, s: nat, u: nat)
    requires s > 0 && u > 0
    ensures Times(u, s) > 0 && Quot(v, Times(u, s)) == Quot(Quot(v, s), u)
  {
    hide Times, Quot;
    var q := Quot(v, s);
    var e := Quot(q, u);
    QuotRange(v, s);
    QuotRange(q, u);
    TimesAdds(1, 0, s);
    TimesGrows(1, u, s);
    TimesGrows(Times(e, u), q, s);
    TimesAdds(q, 1, s);
    TimesGrows(q + 1, Times(e, u) + u, s);
    TimesAdds(Times(e, u), u, s);
    TimesRegroup(e, u, s);
    QuotIs(v, Times(u, s), e);
  }

  // ---------------------------------------------------------------- powers and masks on words

  function Pow2(n: nat): (p: nat)
    ensures p >= 1
  {
    if n == 0 then 1 else 2 * Pow2(n - 1)
  }

  const WORD: nat := 0x1_0000_0000
  const ONES: nat := 0xFFFF_FFFF

  lemma {:induction false} Pow2Sum(a: nat, b: nat)
    ensures Pow2(a + b) == Times(Pow2(a), Pow2(b))
  {
    hide Times;
    TimesAdds(0, 0, Pow2(b));
    if a > 0 {
      Pow2Sum(a - 1, b);
      TimesAdds(Pow2(a - 1), Pow2(a - 1), Pow2(b));
    }
  }

  lemma Pow2Word()
    ensures Pow2(32) == WORD
  {
    assert Pow2(8) == 256;
    Pow2Sum(8, 8);
    Pow2Sum(16, 16);
  }

  /** The size of a block times the number of blocks in a word. */
  lemma WordSplits(m: nat)
    requires m <= 32
    ensures Times(Pow2(m), Pow2(32 - m)) == WORD && Pow2(m) <= WORD && Pow2(32 - m) <= WORD
  {
    hide Times, Pow2;
    var n, s := Pow2(m), Pow2(32 - m);
    Pow2Word();
    Pow2Sum(m, 32 - m);
    TimesAdds(1, 0, s);
    TimesGrows(1, n, s);
    TimesSwap(n, s);
    TimesAdds(1, 0, n);
    TimesGrows(1, s, n);
  }

  /** Bitwise and, bit by bit. */
  function And(a: nat, b: nat): nat {
    if a == 0 || b == 0 then 0 else 2 * And(a / 2, b / 2) + if a % 2 == 1 && b % 2 == 1 then 1 else 0
  }

  /** (uint32_t)((uint64_t)0xffffffff << (32 - mask)). */
  function Mask(m: nat): nat
    requires m <= 32
  {
    ONES * Pow2(32 - m) % (WORD * WORD) % WORD
  }

  /** What the macro leaves in minIP and maxIP. */
  function Convert(ip: nat, m: nat): (r: (nat, nat))
    requires m <= 32
  {
    var low := And(ip, Mask(m));
    (low, (low + Quot(ONES, Pow2(m))) % WORD)
  }

  // ---------------------------------------------------------------- the reference: aligned blocks

  /** `v` rounded down to a multiple of `s`. */
  function Floor(v: nat, s: nat): nat
    requires s > 0
  {
    Times(Quot(v, s), s)
  }

  /** The addresses of a space of `width` bits that share their first `m` bits with `v`: first and last. */
  function Block(width: nat, v: nat, m: nat): (nat, nat)
    requires m <= width
  {
    var s := Pow2(width - m);
    (Floor(v, s), Floor(v, s) + s - 1)
  }

  predicate In(y: nat, range: (nat, nat)) {
    range.0 <= y <= range.1
  }

  // ---------------------------------------------------------------- the macro computes the block

  lemma MaskValue(m: nat)
    requires m <= 32
    ensures Mask(m) == WORD - Pow2(32 - m)
  {
    hide Pow2, Times;
    var s := Pow2(32 - m);
    WordSplits(m);
    assert ONES * s == WORD * (s - 1) + (WORD - s);
  }

  lemma {:induction false} AndOnes(a: nat, w: nat)
    requires a < Pow2(w)
    ensures And(a, Pow2(w) - 1) == a
  {
    if w > 0 && a > 0 {
      AndOnes(a / 2, w - 1);
    }
  }

  lemma AndEven(a: nat, b: nat)
    ensures And(a, 2 * b) == 2 * And(a / 2, b)
  {
    if a != 0 && b != 0 {
      var c := 2 * b;
      assert c / 2 == b && c % 2 == 0;
      assert And(a, c) == 2 * And(a / 2, c / 2) + if a % 2 == 1 && c % 2 == 1 then 1 else 0;
    }
  }

  lemma FloorEven(a: nat, p: nat)
    requires p > 0
    ensures Floor(a, 2 * p) == 2 * Floor(a / 2, p)
  {
    var q := Quot(a / 2, p);
    assert Quot(a, 2) == a / 2 && Times(p, 2) == 2 * p;
    QuotTwice(a, 2, p);
    assert Times(q, 2 * p) == 2 * Times(q, p);
  }

  /** Masking off the low k bits rounds down to a multiple of 2^k. */
  lemma {:induction false} AndMask(a: nat, w: nat, k: nat)
    requires k <= w && a < Pow2(w)
    ensures Pow2(k) <= Pow2(w) && And(a, Pow2(w) - Pow2(k)) == Floor(a, Pow2(k))
  {
    hide And, Floor;
    if k == 0 {
      AndOnes(a, w);
      FloorOne(a);
    } else {
      var p := Pow2(k - 1);
      AndMask(a / 2, w - 1, k - 1);
      AndEven(a, Pow2(w - 1) - p);
      FloorEven(a, p);
    }
  }

  lemma FloorOne(a: nat)
    ensures Floor(a, 1) == a
  {
  }

  lemma MaskRoundsDown(ip: nat, m: nat)
    requires ip < WORD && m <= 32
    ensures And(ip, Mask(m)) == Floor(ip, Pow2(32 - m))
  {
    hide And, Mask, Floor, Pow2;
    MaskValue(m);
    Pow2Word();
    AndMask(ip, 32, 32 - m);
  }

  lemma OnesShifted(m: nat)
    requires m <= 32
    ensures Quot(ONES, Pow2(m)) == Pow2(32 - m) - 1
  {
    hide Pow2, Times, Quot;
    var n, s := Pow2(m), Pow2(32 - m);
    WordSplits(m);
    TimesSwap(n, s);
    TimesAdds(s - 1, 1, n);
    QuotIs(ONES, n, s - 1);
  }

  lemma BlockFits(v: nat, s: nat, n: nat)
    requires s > 0 && v < Times(n, s)
    ensures Floor(v, s) + s <= Times(n, s)
  {
    hide Times, Quot;
    var q := Quot(v, s);
    QuotRange(v, s);
    TimesAdds(q, 1, s);
    if q < n {
      TimesGrows(q + 1, n, s);
    } else {
      TimesGrows(n, q, s);
    }
  }

  /** For every address and every mask from 0 to 32 the macro gives the block of the address, of exactly
      2^(32 - mask) addresses, and nothing wraps. */
  lemma ConvertIsBlock(ip: nat, m: nat)
    requires ip < WORD && m <= 32
    ensures Convert(ip, m) == Block(32, ip, m) && Convert(ip, m).1 < WORD
  {
    hide And, Mask, Pow2, Times, Quot, Floor;
    MaskRoundsDown(ip, m);
    OnesShifted(m);
    WordSplits(m);
    BlockFits(ip, Pow2(32 - m), Pow2(m));
  }

  // ---------------------------------------------------------------- IPv6: four words

  datatype Words = Words(w0: nat, w1: nat, w2: nat, w3: nat) {
    predicate Valid() {
      w0 < WORD && w1 < WORD && w2 < WORD && w3 < WORD
    }

    /** The address as one number of 128 bits, most significant word first. */
    function Value(): nat {
      ((w0 * WORD + w1) * WORD + w2) * WORD + w3
    }
  }

  /** The four branches of _load_ipv6_subnet: first and last address. */
  function LoadV6(ip: Words, m: nat): (r: (Words, Words))
    requires m <= 128
  {
    if 96 < m then
      var c := Convert(ip.w3, m - 96);
      (ip.(w3 := c.0), ip.(w3 := c.1))
    else if 64 < m then
      var c := Convert(ip.w2, m - 64);
      (ip.(w2 := c.0, w3 := 0), ip.(w2 := c.1, w3 := ONES))
    else if 32 < m then
      var c := Convert(ip.w1, m - 32);
      (ip.(w1 := c.0, w2 := 0, w3 := 0), ip.(w1 := c.1, w2 := ONES, w3 := ONES))
    else
      var c := Convert(ip.w0, m);
      (Words(c.0, 0, 0, 0), Words(c.1, ONES, ONES, ONES))
  }

  /** A block no bigger than a word, seen with the words above it. */
  lemma BlockUnder(high: nat, w: nat, width: nat, m: nat)
    requires m <= 32 <= width && w < WORD
    ensures Block(width, high * WORD + w, width - 32 + m) == (high * WORD + Convert(w, m).0, high * WORD + Convert(w, m).1)
    ensures Convert(w, m).0 < WORD && Convert(w, m).1 < WORD
  {
    hide Convert, Pow2, Times, Floor;
    ConvertIsBlock(w, m);
    WordSplits(m);
    FloorUnder(high, w, Pow2(32 - m), Pow2(m));
  }

  lemma FloorUnder(high: nat, w: nat, s: nat, n: nat)
    requires s > 0 && Times(n, s) == WORD
    ensures Floor(high * WORD + w, s) == high * WORD + Floor(w, s)
  {
    hide Times, Quot;
    var q := Quot(w, s);
    QuotRange(w, s);
    TimesAdds(Times(high, n), q, s);
    TimesRegroup(high, n, s);
    assert Times(high, WORD) == high * WORD by {
      ByWord(high);
    }
    QuotIs(high * WORD + w, s, Times(high, n) + q);
  }

  lemma ByWord(a: nat)
    ensures Times(a, WORD) == a * WORD == Times(WORD, a)
  {
  }

  /** A block bigger than a word: the word below is free. */
  lemma BlockOver(high: nat, w: nat, width: nat, m: nat)
    requires m <= width && w < WORD
    ensures Block(width + 32, high * WORD + w, m) == (Block(width, high, m).0 * WORD, Block(width, high, m).1 * WORD + ONES)
  {
    hide Times, Quot, Pow2;
    var s := Pow2(width - m);
    var q := Quot(high, s);
    Pow2Word();
    Pow2Sum(width - m, 32);
    ByWord(s);
    ByWord(high);
    QuotIs(high * WORD + w, WORD, high);
    QuotTwice(high * WORD + w, WORD, s);
    TimesRegroup(q, s, WORD);
    ByWord(Times(q, s));
  }

  /** For every IPv6 address and mask the word-by-word code gives the 128-bit block of the address. */
  lemma LoadV6IsBlock(ip: Words, m: nat)
    requires ip.Valid() && m <= 128
    ensures
      var r := LoadV6(ip, m);
      && r.0.Valid() && r.1.Valid()
      && (r.0.Value(), r.1.Value()) == Block(128, ip.Value(), m)
  {
    hide Convert, Block, Pow2;
    var h1 := ip.w0;
    var h2 := h1 * WORD + ip.w1;
    var h3 := h2 * WORD + ip.w2;
    if 96 < m {
      BlockUnder(h3, ip.w3, 128, m - 96);
    } else if 64 < m {
      BlockUnder(h2, ip.w2, 96, m - 64);
      BlockOver(h3, ip.w3, 96, m);
    } else if 32 < m {
      BlockUnder(h1, ip.w1, 64, m - 32);
      BlockOver(h2, ip.w2, 64, m);
      BlockOver(h3, ip.w3, 96, m);
    } else {
      BlockUnder(0, ip.w0, 32, m);
      BlockOver(h1, ip.w1, 32, m);
      BlockOver(h2, ip.w2, 64, m);
      BlockOver(h3, ip.w3, 96, m);
    }
  }

  // ---------------------------------------------------------------- blocks nest, never overlap, and tile

  /** An address lies in a block exactly when it rounds down to the same quotient; a block contains the
      address it is made from. */
  lemma Members(width: nat, v: nat, m: nat, y: nat)
    requires m <= width
    ensures In(y, Block(width, v, m)) <==> Quot(y, Pow2(width - m)) == Quot(v, Pow2(width - m))
    ensures In(v, Block(width, v, m))
  {
    hide Pow2, Times, Quot;
    var s := Pow2(width - m);
    QuotRange(v, s);
    QuotRange(y, s);
    if In(y, Block(width, v, m)) {
      QuotIs(y, s, Quot(v, s));
    }
  }

  /** Masking tells membership: y is in the range of ip exactly when both have the same masked bits. */
  lemma MaskTellsMembership(ip: nat, y: nat, m: nat)
    requires ip < WORD && y < WORD && m <= 32
    ensures In(y, Convert(ip, m)) <==> And(y, Mask(m)) == And(ip, Mask(m))
    ensures In(ip, Convert(ip, m)) && Convert(ip, m).1 - Convert(ip, m).0 + 1 == Pow2(32 - m)
  {
    hide And, Mask, Pow2, Convert, Times, Quot;
    ConvertIsBlock(ip, m);
    MaskRoundsDown(ip, m);
    MaskRoundsDown(y, m);
    Members(32, ip, m, y);
    SameFloor(y, ip, Pow2(32 - m));
  }

  lemma SameFloor(a: nat, b: nat, s: nat)
    requires s > 0
    ensures Floor(a, s) == Floor(b, s) <==> Quot(a, s) == Quot(b, s)
  {
    hide Times, Quot;
    QuotRange(a, s);
    if Floor(a, s) == Floor(b, s) {
      QuotIs(a, s, Quot(b, s));
    }
  }

  /** The quotient by a bigger block is found from the quotient by a smaller one. */
  lemma Coarser(width: nat, v: nat, m: nat, n: nat)
    requires m <= n <= width
    ensures Pow2(width - m) == Times(Pow2(n - m), Pow2(width - n))
    ensures Quot(v, Pow2(width - m)) == Quot(Quot(v, Pow2(width - n)), Pow2(n - m))
  {
    hide Pow2, Times, Quot;
    Pow2Sum(n - m, width - n);
    QuotTwice(v, Pow2(width - n), Pow2(n - m));
  }

  /** Two ranges are nested or disjoint, in any address space: if y is in the range with the longer prefix, it
      is in the other exactly when that one contains the longer range's own address. */
  lemma Laminar(width: nat, a: nat, m: nat, b: nat, n: nat, y: nat)
    requires m <= n <= width && In(y, Block(width, b, n))
    ensures In(y, Block(width, a, m)) <==> In(b, Block(width, a, m))
  {
    hide Pow2, Block, Quot;
    Members(width, b, n, y);
    Coarser(width, y, m, n);
    Coarser(width, b, m, n);
    Members(width, a, m, y);
    Members(width, a, m, b);
  }

  /** The first address of tile j when a range of mask m is cut by mask m + k. */
  function Tile(width: nat, a: nat, m: nat, k: nat, j: nat): nat
    requires m + k <= width
  {
    Block(width, a, m).0 + Times(j, Pow2(width - m - k))
  }

  predicate InTile(width: nat, a: nat, m: nat, k: nat, j: nat, y: nat)
    requires m + k <= width
  {
    In(y, Block(width, Tile(width, a, m, k, j), m + k))
  }

  /** Tile j starts a range of its own, and holds the addresses whose quotient is j past the whole's. */
  lemma TileIsBlock(width: nat, a: nat, m: nat, k: nat, j: nat, y: nat)
    requires m + k <= width
    ensures Block(width, Tile(width, a, m, k, j), m + k).0 == Tile(width, a, m, k, j)
    ensures InTile(width, a, m, k, j, y)
      <==> Quot(y, Pow2(width - m - k)) == Times(Quot(a, Pow2(width - m)), Pow2(k)) + j
  {
    hide Pow2, Times, Quot;
    var q, s, u := Quot(a, Pow2(width - m)), Pow2(width - m - k), Pow2(k);
    Coarser(width, a, m, m + k);
    TimesRegroup(q, u, s);
    TimesAdds(Times(q, u), j, s);
    QuotIs(Tile(width, a, m, k, j), s, Times(q, u) + j);
    Members(width, Tile(width, a, m, k, j), m + k, y);
  }

  lemma TileInside(width: nat, a: nat, m: nat, k: nat, j: nat, y: nat)
    requires m + k <= width && j < Pow2(k) && InTile(width, a, m, k, j, y)
    ensures In(y, Block(width, a, m))
  {
    hide Pow2, Block, InTile, Times, Quot;
    TileIsBlock(width, a, m, k, j, y);
    Coarser(width, y, m, m + k);
    QuotIs(Quot(y, Pow2(width - m - k)), Pow2(k), Quot(a, Pow2(width - m)));
    Members(width, a, m, y);
  }

  lemma TileOf(width: nat, a: nat, m: nat, k: nat, y: nat) returns (j: nat)
    requires m + k <= width && In(y, Block(width, a, m))
    ensures j < Pow2(k) && InTile(width, a, m, k, j, y)
  {
    hide Pow2, Block, InTile, Times, Quot;
    var q := Quot(y, Pow2(width - m - k));
    Members(width, a, m, y);
    Coarser(width, y, m, m + k);
    QuotRange(q, Pow2(k));
    j := q - Times(Quot(q, Pow2(k)), Pow2(k));
    TileIsBlock(width, a, m, k, j, y);
  }

  /** A range of mask m is tiled exactly by its 2^k ranges of mask m + k: an address is in the whole exactly
      when it is in one of them, and no address is in two. */
  lemma Tiles(width: nat, a: nat, m: nat, k: nat, y: nat)
    requires m + k <= width
    ensures In(y, Block(width, a, m)) <==> exists j: nat :: j < Pow2(k) && InTile(width, a, m, k, j, y)
    ensures forall i: nat, j: nat :: InTile(width, a, m, k, i, y) && InTile(width, a, m, k, j, y) ==> i == j
  {
    hide Pow2, Block, InTile, Times, Quot;
    if In(y, Block(width, a, m)) {
      var _ := TileOf(width, a, m, k, y);
    }
    forall j: nat | j < Pow2(k) && InTile(width, a, m, k, j, y)
      ensures In(y, Block(width, a, m))
    {
      TileInside(width, a, m, k, j, y);
    }
    forall i: nat, j: nat | InTile(width, a, m, k, i, y) && InTile(width, a, m, k, j, y)
      ensures i == j
    {
      TileIsBlock(width, a, m, k, i, y);
      TileIsBlock(width, a, m, k, j, y);
    }
  }
}
