/** The address printers of xutil/src/win_inet_ntop.cpp.  */
module InetNtop {
  import opened Options
  import opened InetText

  // ---------------------------------------------------------------- numerals

  const DIGITS: string := "0123456789abcdef"

  /** All but the last digit of `n`. */
  function Front(base: Base, n: nat): (f: nat)
    ensures f <= n && (f < n || n == 0)
  {
    if base.Decimal? then n / 10 else n / 16
  }

  function Last(base: Base, n: nat): (d: nat)
    ensures d < Radix(base) && Shift(base, Front(base, n)) + d == n
  {
    if base.Decimal? then n % 10 else n % 16
  }

  /** `n` in the given base, without leading zeros. */
  function Digits(base: Base, n: nat): (s: string)
    ensures s != []
  {
    if n < Radix(base) then [DIGITS[n]] else Digits(base, Front(base, n)) + [DIGITS[Last(base, n)]]
  }

  lemma DigitValue(d: nat)
    requires d < 16
    ensures HexValue(DIGITS[d]) == Some(d) && DIGITS[d] != ':' && DIGITS[d] != '.' && (DIGITS[d] == '0' ==> d == 0)
  {
  }

  /** A numeral one digit longer. */
  lemma NumeralSnoc(base: Base, s: string, v: nat, d: nat)
    requires Numeral(base, s) == Some(v) && d < Radix(base)
    ensures Numeral(base, s + [DIGITS[d]]) == Some(Shift(base, v) + d)
  {
    DigitValue(d);
    var t := s + [DIGITS[d]];
    assert t[..|t| - 1] == s;
  }

  /** A printed numeral parses back to its number. */
  lemma {:induction false} DigitsRoundTrip(base: Base, n: nat)
    ensures Numeral(base, Digits(base, n)) == Some(n)
  {
    if n < Radix(base) {
      DigitValue(n);
    } else {
      DigitsRoundTrip(base, Front(base, n));
      NumeralSnoc(base, Digits(base, Front(base, n)), Front(base, n), Last(base, n));
    }
  }

  /** It has no separator, and starts with a zero only if it is "0". */
  lemma {:induction false} DigitsShape(base: Base, n: nat)
    ensures ':' !in Digits(base, n) && '.' !in Digits(base, n)
    ensures Digits(base, n)[0] == '0' ==> n == 0 && Digits(base, n) == "0"
  {
    if n < Radix(base) {
      DigitValue(n);
    } else {
      DigitsShape(base, Front(base, n));
      DigitValue(Last(base, n));
    }
  }

  /** What a numeral is written with: digits, and small letters. */
  predicate DigitOf(base: Base, c: char) {
    '0' <= c <= '9' || (base == Hexadecimal && 'a' <= c <= 'f')
  }

  lemma {:induction false} DigitsAre(base: Base, n: nat)
    ensures forall c :: c in Digits(base, n) ==> DigitOf(base, c)
  {
    if n >= Radix(base) {
      DigitsAre(base, Front(base, n));
    }
  }

  lemma {:induction false} JoinedAre(base: Base, groups: seq<nat>, sep: char)
    requires groups != []
    ensures forall c :: c in Join(Texts(base, groups), sep) ==> c == sep || DigitOf(base, c)
    decreases |groups|
  {
    DigitsAre(base, groups[0]);
    if |groups| > 1 {
      JoinedAre(base, groups[1..], sep);
      assert Texts(base, groups)[1..] == Texts(base, groups[1..]);
    }
  }

  lemma HexLength(g: nat)
    requires g < 0x10000
    ensures |Digits(Hexadecimal, g)| == if g < 0x10 then 1 else if g < 0x100 then 2 else if g < 0x1000 then 3 else 4
  {
  }

  lemma DecimalLength(n: nat)
    requires n < 256
    ensures |Digits(Decimal, n)| == if n < 10 then 1 else if n < 100 then 2 else 3
  {
  }

  function Texts(base: Base, groups: seq<nat>): (t: seq<string>)
    ensures |t| == |groups| && forall i :: 0 <= i < |groups| ==> t[i] == Digits(base, groups[i])
  {
    seq(|groups|, i requires 0 <= i < |groups| => Digits(base, groups[i]))
  }

  lemma TextsPlain(base: Base, groups: seq<nat>)
    ensures forall f :: f in Texts(base, groups) ==> f != [] && ':' !in f && '.' !in f
  {
    forall f | f in Texts(base, groups) ensures f != [] && ':' !in f && '.' !in f {
      var i :| 0 <= i < |groups| && Texts(base, groups)[i] == f;
      DigitsShape(base, groups[i]);
    }
  }

  // ---------------------------------------------------------------- IPv4

  const INET_ADDRSTRLEN: nat := 16

  predicate IsAddress4(a: nat) {
    a < 0x1_0000_0000
  }

  /** `(a >> (24 - i * 8)) & 0xFF` */
  function Octet(a: nat, i: nat): (n: nat)
    ensures n < 256
  {
    if i == 0 then a / 0x100_0000 % 256
    else if i == 1 then a / 0x1_0000 % 256
    else if i == 2 then a / 0x100 % 256
    else a % 256
  }

  function Octets(a: nat): (o: seq<nat>)
    ensures |o| == 4 && forall i :: 0 <= i < 4 ==> o[i] == Octet(a, i)
  {
    [Octet(a, 0), Octet(a, 1), Octet(a, 2), Octet(a, 3)]
  }

  /** Dotted decimal. */
  function TextV4(a: nat): string {
    Join(Texts(Decimal, Octets(a)), '.')
  }

  lemma {:induction false} OctetsParse(o: seq<nat>)
    requires forall i :: 0 <= i < |o| ==> o[i] < 256
    ensures ParseOctets(Texts(Decimal, o)) == Some(o)
  {
    if o != [] {
      DigitsRoundTrip(Decimal, o[0]);
      DecimalLength(o[0]);
      OctetsParse(o[1..]);
      assert Texts(Decimal, o)[1..] == Texts(Decimal, o[1..]);
      assert [o[0]] + o[1..] == o;
    }
  }

  /** Round trip: the printed text parses to the address's octets, and those are all of the address. */
  lemma RoundTripV4(a: nat)
    requires IsAddress4(a)
    ensures ParseV4(TextV4(a)) == Some(Octets(a))
    ensures a == Octet(a, 0) * 0x100_0000 + Octet(a, 1) * 0x1_0000 + Octet(a, 2) * 0x100 + Octet(a, 3)
  {
    var o := Octets(a);
    TextsPlain(Decimal, o);
    SplitJoin(Texts(Decimal, o), '.');
    OctetsParse(o);
    OctetsAreAll(a);
  }

  lemma OctetsAreAll(a: nat)
    requires IsAddress4(a)
    ensures a == Octet(a, 0) * 0x100_0000 + Octet(a, 1) * 0x1_0000 + Octet(a, 2) * 0x100 + Octet(a, 3)
  {
    var p := a / 0x100;
    var q := p / 0x100;
    assert q == a / 0x1_0000 && q / 0x100 == a / 0x100_0000;
  }

  /** Different addresses print differently. */
  lemma TextV4Injective(a: nat, b: nat)
    requires IsAddress4(a) && IsAddress4(b) && TextV4(a) == TextV4(b)
    ensures a == b
  {
    RoundTripV4(a);
    RoundTripV4(b);
    assert Octets(a) == Octets(b);
  }

  lemma {:induction false} JoinLength(fields: seq<string>, sep: char, each: nat)
    requires fields != [] && forall i :: 0 <= i < |fields| ==> |fields[i]| <= each
    ensures |Join(fields, sep)| <= |fields| * (each + 1) - 1
    decreases |fields|
  {
    if |fields| > 1 {
      var rest := fields[1..];
      JoinLength(rest, sep, each);
      assert |fields| * (each + 1) == |rest| * (each + 1) + (each + 1);
    }
  }

  /** The text and its terminator fit the smallest buffer the printer accepts. */
  lemma TextV4Fits(a: nat)
    ensures |TextV4(a)| + 1 <= INET_ADDRSTRLEN
  {
    var t := Texts(Decimal, Octets(a));
    forall i | 0 <= i < 4 ensures |t[i]| <= 3 {
      DecimalLength(Octet(a, i));
    }
    JoinLength(t, '.', 3);
  }

  /** Dotted decimal is written with decimal digits and dots. */
  lemma CharsV4(a: nat)
    ensures forall c :: c in TextV4(a) ==> c == '.' || '0' <= c <= '9'
  {
    JoinedAre(Decimal, Octets(a), '.');
  }

  /** Everything the first `i` turns of the loop write. */
  function Dotted(a: nat, i: nat): string
    requires i <= 4
  {
    if i == 0 then "" else Dotted(a, i - 1) + Digits(Decimal, Octet(a, i - 1)) + if i == 4 then "" else "."
  }

  lemma JoinFour(p: string, q: string, r: string, s: string, sep: char)
    ensures Join([p, q, r, s], sep) == p + [sep] + q + [sep] + r + [sep] + s
  {
    assert [p, q, r, s][1..] == [q, r, s] && [q, r, s][1..] == [r, s] && [r, s][1..] == [s];
    var j := r + [sep] + s;
    assert Join([r, s], sep) == j;
    assert Join([q, r, s], sep) == q + [sep] + j;
    assert p + [sep] + (q + [sep] + j) == p + [sep] + q + [sep] + r + [sep] + s;
  }

  lemma DottedNone(a: nat, was: string)
    ensures Dotted(a, 0) == "" && "" + was[0..] == was
  {
  }

  lemma DottedIsText(a: nat)
    ensures Dotted(a, 4) == TextV4(a)
  {
    var t := Texts(Decimal, Octets(a));
    assert t == [t[0], t[1], t[2], t[3]];
    JoinFour(t[0], t[1], t[2], t[3], '.');
    assert Dotted(a, 1) == t[0] + ".";
    assert Dotted(a, 2) == t[0] + "." + t[1] + ".";
    assert Dotted(a, 3) == t[0] + "." + t[1] + "." + t[2] + ".";
  }

  lemma {:induction false} DottedShort(a: nat, i: nat)
    requires i <= 4
    ensures |Dotted(a, i)| <= 4 * i && (i == 4 ==> |Dotted(a, i)| <= 15)
  {
    if i > 0 {
      DottedShort(a, i - 1);
      DecimalLength(Octet(a, i - 1));
    }
  }

  /** inet_ntop_v4: refuses a buffer of fewer than INET_ADDRSTRLEN characters; otherwise writes the text
      and a NUL, and nothing else. */
  method PrintV4(a: nat, dst: array<char>, size: nat) returns (ok: bool)
    requires IsAddress4(a) && size <= dst.Length
    modifies dst
    ensures ok <==> size >= 16
    ensures !ok ==> dst[..] == old(dst[..])
    ensures ok ==> |TextV4(a)| < size && dst[..] == TextV4(a) + ['\0'] + old(dst[..])[|TextV4(a)| + 1..]
  {
    if size < INET_ADDRSTRLEN {
      return false;
    }
    hide Dotted, TextV4;
    var d: nat, i: nat := 0, 0;
    ghost var was := dst[..];
    DottedNone(a, was);
    while i < 4
      invariant i <= 4 && d == |Dotted(a, i)| <= 15
      invariant dst[..] == Dotted(a, i) + was[d..]
    {
      d := PutPart4(a, i, dst, d, was);
      i := i + 1;
    }
    DottedIsText(a);
    d := Put('\0', dst, d, TextV4(a), was);
    ok := true;
  }

  /** One turn: the octet, and a dot unless it is the last. */
  method PutPart4(a: nat, i: nat, dst: array<char>, d0: nat, ghost was: string) returns (d: nat)
    requires i < 4 && d0 == |Dotted(a, i)| <= 15 && |was| >= 16 && dst[..] == Dotted(a, i) + was[d0..]
    modifies dst
    ensures d == |Dotted(a, i + 1)| <= 15 && dst[..] == Dotted(a, i + 1) + was[d..]
  {
    DottedShort(a, i);
    DottedShort(a, i + 1);
    ghost var digits := Digits(Decimal, Octet(a, i));
    d := PutOctet(Octet(a, i), dst, d0, Dotted(a, i), was);
    if i != 3 {
      d := Put('.', dst, d, Dotted(a, i) + digits, was);
    }
  }

  /** `*dst++ = c`: the buffer is `text` and then what was in it before. */
  method Put(c: char, dst: array<char>, d0: nat, ghost text: string, ghost was: string) returns (d: nat)
    requires d0 == |text| < |was| && dst[..] == text + was[d0..]
    modifies dst
    ensures d == d0 + 1 && dst[..] == text + [c] + was[d..]
  {
    assert dst.Length == |dst[..]| == |was|;
    dst[d0] := c;
    d := d0 + 1;
    assert dst[..] == (text + was[d0..])[d0 := c];
  }

  /** One octet with its leading zeros suppressed. */
  method PutOctet(n0: nat, dst: array<char>, d0: nat, ghost text: string, ghost was: string) returns (d: nat)
    requires n0 < 256 && d0 == |text| && d0 + 3 <= |was| && dst[..] == text + was[d0..]
    modifies dst
    ensures d == d0 + |Digits(Decimal, n0)| <= d0 + 3
    ensures dst[..] == text + Digits(Decimal, n0) + was[d..]
  {
    var n, nonZero := n0, false;
    ghost var s := text;
    d := d0;
    if nonZero || n / 100 > 0 {
      d := Put(DIGITS[n / 100], dst, d, s, was);
      s := s + [DIGITS[n / 100]];
      n := n % 100;
      nonZero := true;
    }
    if nonZero || n / 10 > 0 {
      d := Put(DIGITS[n / 10], dst, d, s, was);
      s := s + [DIGITS[n / 10]];
      n := n % 10;
      nonZero := true;
    }
    d := Put(DIGITS[n], dst, d, s, was);
    DecimalDigits(n0);
    assert s + [DIGITS[n]] == text + Digits(Decimal, n0);
  }

  /** The printer's digits are the numeral's. */
  lemma DecimalDigits(n: nat)
    requires n < 256
    ensures n >= 100 ==> Digits(Decimal, n) == [DIGITS[n / 100], DIGITS[n % 100 / 10], DIGITS[n % 100 % 10]]
    ensures 10 <= n < 100 ==> Digits(Decimal, n) == [DIGITS[n / 10], DIGITS[n % 10]]
    ensures n < 10 ==> Digits(Decimal, n) == [DIGITS[n]]
  {
    if n >= 100 {
      assert n / 10 / 10 == n / 100 && n / 10 % 10 == n % 100 / 10 && n % 100 % 10 == n % 10;
      assert Digits(Decimal, n / 10) == [DIGITS[n / 100], DIGITS[n % 100 / 10]];
    }
  }
}
