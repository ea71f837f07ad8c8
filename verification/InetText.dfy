/** The text forms of IPv4 and IPv6 addresses: reference parsers for dotted decimal and for section 2.2 of
    RFC 4291, written without reference to the printer.  */
module InetText {
  import opened Options


  // ---------------------------------------------------------------- digits

  /** The value of a hexadecimal digit of either case, or None. */
  function HexValue(c: char): (r: Option<nat>)
    ensures r.Some? ==> r.value < 16
  {
    if '0' <= c <= '9' then Some(c as int - '0' as int)
    else if 'a' <= c <= 'f' then Some(c as int - 'a' as int + 10)
    else if 'A' <= c <= 'F' then Some(c as int - 'A' as int + 10)
    else None
  }

  datatype Base = Decimal | Hexadecimal

  function Radix(base: Base): nat {
    if base.Decimal? then 10 else 16
  }

  /** `v` shifted one digit to the left. */
  function Shift(base: Base, v: nat): nat {
    if base.Decimal? then v * 10 else v * 16
  }

  /** A numeral, most significant digit first; None if it is empty or has a character that is not a digit of
      the base. */
  function Numeral(base: Base, s: string): Option<nat>
    decreases |s|
  {
    if s == [] then None
    else
      var d := HexValue(s[|s| - 1]);
      if d == None || d.value >= Radix(base) then None
      else if |s| == 1 then d
      else
        var front := Numeral(base, s[..|s| - 1]);
        if front == None then None else Some(Shift(base, front.value) + d.value)
  }

  // ---------------------------------------------------------------- fields

  /** The fields of `s` between occurrences of `sep`; there is always at least one. */
  function Split(s: string, sep: char): (fields: seq<string>)
    ensures fields != []
  {
    if s == [] then [""]
    else
      var rest := Split(s[1..], sep);
      if s[0] == sep then [""] + rest else [[s[0]] + rest[0]] + rest[1..]
  }

  /** The inverse: the fields with `sep` between them. */
  function Join(fields: seq<string>, sep: char): string
    requires fields != []
  {
    if |fields| == 1 then fields[0] else fields[0] + [sep] + Join(fields[1..], sep)
  }

  /** Splitting what was joined gives the fields back, if no field contains the separator. */
  lemma {:induction false} SplitJoin(fields: seq<string>, sep: char)
    requires fields != [] && forall f :: f in fields ==> sep !in f
    ensures Split(Join(fields, sep), sep) == fields
    decreases |fields|
  {
    if |fields| == 1 {
      SplitPlain(fields[0], sep);
    } else {
      SplitJoin(fields[1..], sep);
      SplitFirst(fields[0], Join(fields[1..], sep), sep);
      assert Join(fields, sep) == fields[0] + [sep] + Join(fields[1..], sep);
    }
  }

  lemma {:induction false} SplitPlain(f: string, sep: char)
    requires sep !in f
    ensures Split(f, sep) == [f]
  {
    if f != [] {
      assert f[0] in f;
      SplitPlain(f[1..], sep);
      assert [f[0]] + f[1..] == f;
    }
  }

  lemma {:induction false} SplitFirst(f: string, rest: string, sep: char)
    requires sep !in f
    ensures Split(f + [sep] + rest, sep) == [f] + Split(rest, sep)
  {
    var s := f + [sep] + rest;
    if f == [] {
      assert s[1..] == rest;
    } else {
      assert f[0] in f && s[0] == f[0];
      SplitFirst(f[1..], rest, sep);
      assert s[1..] == f[1..] + [sep] + rest;
      assert [f[0]] + f[1..] == f;
    }
  }

  // ---------------------------------------------------------------- IPv4

  /** One decimal octet: one to three decimal digits, at most 255. */
  function ParseOctet(s: string): Option<nat> {
    if |s| > 3 then None
    else
      var v := Numeral(Decimal, s);
      if v == None || v.value > 255 then None else v
  }

  function ParseOctets(fields: seq<string>): Option<seq<nat>> {
    if fields == [] then Some([])
    else
      var first, rest := ParseOctet(fields[0]), ParseOctets(fields[1..]);
      if first == None || rest == None then None else Some([first.value] + rest.value)
  }

  /** Dotted decimal: four octets. */
  function ParseV4(s: string): Option<seq<nat>> {
    var fields := Split(s, '.');
    if |fields| == 4 then ParseOctets(fields) else None
  }

  // ---------------------------------------------------------------- IPv6

  /** One 16-bit group: one to four hexadecimal digits. */
  function ParseGroup(s: string): Option<nat> {
    if |s| > 4 then None else Numeral(Hexadecimal, s)
  }

  function ParseGroups(fields: seq<string>): Option<seq<nat>> {
    if fields == [] then Some([])
    else
      var first, rest := ParseGroup(fields[0]), ParseGroups(fields[1..]);
      if first == None || rest == None then None else Some([first.value] + rest.value)
  }

  /** Groups separated by single colons; the empty text has none. */
  function ParseSide(s: string): Option<seq<nat>> {
    if s == [] then Some([]) else ParseGroups(Split(s, ':'))
  }

  /** The position of the first "::", or None. */
  function FindGap(s: string): (r: Option<nat>)
    ensures r.Some? ==> r.value + 1 < |s| && s[r.value] == s[r.value + 1] == ':'
  {
    if |s| < 2 then None
    else if s[0] == ':' && s[1] == ':' then Some(0)
    else
      var r := FindGap(s[1..]);
      if r == None then None else Some(r.value + 1)
  }

  function Zeros(n: nat): (z: seq<nat>)
    ensures |z| == n && forall i :: 0 <= i < n ==> z[i] == 0
  {
    seq(n, i => 0)
  }

  /** The two sides of a "::", which stands for the missing groups; there is at least one. */
  function ParseGapped(left: string, right: string): Option<seq<nat>> {
    var l, r := ParseSide(left), ParseSide(right);
    if l == None || r == None || |l.value| + |r.value| > 7 then None
    else Some(l.value + Zeros(8 - |l.value| - |r.value|) + r.value)
  }

  /** Section 2.2 of RFC 4291, forms 1 and 2: eight groups, or fewer with one "::" standing for the
      missing zero groups. */
  function ParseV6(s: string): Option<seq<nat>> {
    var gap := FindGap(s);
    if gap == None then
      var g := ParseSide(s);
      if g == None || |g.value| != 8 then None else g
    else ParseGapped(s[..gap.value], s[gap.value + 2..])
  }
}
