/** The IPv6 printer of xutil/src/win_inet_ntop.cpp.  */
module InetNtop6 {
  import opened Options
  import opened InetText
  import opened InetNtop

  const INET6_ADDRSTRLEN: nat := 46

  predicate IsAddress6(g: seq<nat>) {
    |g| == 8 && forall i :: 0 <= i < 8 ==> g[i] < 0x10000
  }

  // ---------------------------------------------------------------- which zeros are compressed

  /** Three zero groups start at `i`. */
  predicate ThreeZeros(g: seq<nat>, i: nat) {
    i + 2 < |g| && g[i] == 0 && g[i + 1] == 0 && g[i + 2] == 0
  }

  /** Where the zeros from `i` end. */
  function ZerosEnd(g: seq<nat>, i: nat): (e: nat)
    requires i <= |g|
    ensures i <= e <= |g| && (forall k :: i <= k < e ==> g[k] == 0) && (e < |g| ==> g[e] != 0)
    decreases |g| - i
  {
    if i < |g| && g[i] == 0 then ZerosEnd(g, i + 1) else i
  }

  /** The first position from `i` on where three zeros start; |g| if there is none. */
  function FirstThree(g: seq<nat>, i: nat): (c: nat)
    requires i <= |g|
    ensures i <= c <= |g| && (forall k :: i <= k < c ==> !ThreeZeros(g, k))
    ensures c < |g| ==> ThreeZeros(g, c)
    decreases |g| - i
  {
    if i == |g| || ThreeZeros(g, i) then i else FirstThree(g, i + 1)
  }

  /** Groups with single colons between them; nothing for no groups. */
  function Side(g: seq<nat>): string {
    if g == [] then "" else Join(Texts(Hexadecimal, g), ':')
  }

  /** The text: "::" stands for the leftmost maximal run of three or more zero groups, if there is one. */
  function TextV6(g: seq<nat>): string
    requires |g| == 8
  {
    var c := FirstThree(g, 0);
    if c == 8 then Side(g) else Side(g[..c]) + "::" + Side(g[ZerosEnd(g, c)..])
  }

  /** The compressed run is maximal, has at least three groups, and no other run of three starts earlier. */
  lemma RunIsLeftmostMaximal(g: seq<nat>)
    requires |g| == 8 && FirstThree(g, 0) < 8
    ensures
      var c, e := FirstThree(g, 0), ZerosEnd(g, FirstThree(g, 0));
      && c + 3 <= e <= 8 && (forall k :: c <= k < e ==> g[k] == 0)
      && (c == 0 || g[c - 1] != 0) && (e == 8 || g[e] != 0)
      && (forall k :: 0 <= k < c ==> !ThreeZeros(g, k))
  {
    var c := FirstThree(g, 0);
    assert c > 0 ==> !ThreeZeros(g, c - 1);
  }

  predicate AllZero(g: seq<nat>, k: nat, f: nat) {
    k <= f <= |g| && forall j :: k <= j < f ==> g[j] == 0
  }

  /** Three zero groups, one that is not, and four zero groups. */
  predicate ShortBeforeLong(g: seq<nat>)
    requires |g| == 8
  {
    AllZero(g, 0, 3) && g[3] != 0 && AllZero(g, 4, 8)
  }

  /** The compressed run is as long as every run of zero groups, which is what section 4.2.3 of RFC 5952 asks
      for, if and only if the address is not three zero groups, one that is not zero, and four zero groups. */
  lemma RunIsLongestIff(g: seq<nat>)
    requires |g| == 8 && FirstThree(g, 0) < 8
    ensures
      var c, e := FirstThree(g, 0), ZerosEnd(g, FirstThree(g, 0));
      (forall k: nat, f: nat :: AllZero(g, k, f) ==> f - k <= e - c) <==> !ShortBeforeLong(g)
  {
    var c, e := FirstThree(g, 0), ZerosEnd(g, FirstThree(g, 0));
    RunIsLeftmostMaximal(g);
    if ShortBeforeLong(g) {
      assert ThreeZeros(g, 0) && e == 3;
      assert AllZero(g, 4, 8);
    } else {
      forall k: nat, f: nat | AllZero(g, k, f) ensures f - k <= e - c {
        LongerIsLater(g, k, f);
      }
    }
  }

  /** A run longer than the compressed one starts behind it, with a group between: only one address has room. */
  lemma LongerIsLater(g: seq<nat>, k: nat, f: nat)
    requires |g| == 8 && FirstThree(g, 0) < 8 && AllZero(g, k, f)
    ensures
      var c, e := FirstThree(g, 0), ZerosEnd(g, FirstThree(g, 0));
      f - k <= e - c || ShortBeforeLong(g)
  {
    var c, e := FirstThree(g, 0), ZerosEnd(g, FirstThree(g, 0));
    RunIsLeftmostMaximal(g);
    if f - k > e - c {
      assert ThreeZeros(g, k);
      assert k >= c;
      assert e < 8 ==> g[e] != 0;
    }
  }

  // ---------------------------------------------------------------- round trip

  lemma {:induction false} GroupsParse(g: seq<nat>)
    requires forall i :: 0 <= i < |g| ==> g[i] < 0x10000
    ensures ParseGroups(Texts(Hexadecimal, g)) == Some(g)
  {
    if g != [] {
      DigitsRoundTrip(Hexadecimal, g[0]);
      HexLength(g[0]);
      GroupsParse(g[1..]);
      assert Texts(Hexadecimal, g)[1..] == Texts(Hexadecimal, g[1..]);
      assert [g[0]] + g[1..] == g;
    }
  }

  /** One side of the text parses back to its groups. */
  lemma SideParse(g: seq<nat>)
    requires forall i :: 0 <= i < |g| ==> g[i] < 0x10000
    ensures ParseSide(Side(g)) == Some(g)
  {
    if g != [] {
      TextsPlain(Hexadecimal, g);
      SplitJoin(Texts(Hexadecimal, g), ':');
      GroupsParse(g);
      SideTight(g);
    }
  }

  /** No colon at either end and no two together. */
  predicate Tight(s: string) {
    s != [] && s[0] != ':' && s[|s| - 1] != ':' && forall i :: 0 <= i < |s| - 1 ==> s[i] != ':' || s[i + 1] != ':'
  }

  lemma {:induction false} JoinTight(fields: seq<string>)
    requires fields != [] && forall f :: f in fields ==> f != [] && ':' !in f
    ensures Tight(Join(fields, ':'))
    decreases |fields|
  {
    var f := fields[0];
    assert f in fields;
    if |fields| > 1 {
      assert forall x :: x in fields[1..] ==> x in fields;
      JoinTight(fields[1..]);
      TightConcat(f, Join(fields[1..], ':'));
    } else {
      assert forall i :: 0 <= i < |f| ==> f[i] in f;
    }
  }

  lemma TightConcat(f: string, r: string)
    requires f != [] && ':' !in f && Tight(r)
    ensures Tight(f + ":" + r)
  {
    var s := f + ":" + r;
    assert forall i :: 0 <= i < |f| ==> s[i] == f[i] && f[i] in f;
    assert forall i :: |f| < i < |s| ==> s[i] == r[i - |f| - 1];
  }

  lemma SideTight(g: seq<nat>)
    requires g != []
    ensures Tight(Side(g))
  {
    TextsPlain(Hexadecimal, g);
    JoinTight(Texts(Hexadecimal, g));
  }

  lemma {:induction false} NoGap(s: string)
    requires forall i :: 0 <= i < |s| - 1 ==> s[i] != ':' || s[i + 1] != ':'
    ensures FindGap(s) == None
  {
    if |s| >= 2 {
      NoGap(s[1..]);
    }
  }

  lemma {:induction false} GapAfter(left: string, right: string)
    requires left == "" || Tight(left)
    ensures FindGap(left + "::" + right) == Some(|left|)
    decreases |left|
  {
    var s := left + "::" + right;
    if left != "" {
      assert s[1..] == left[1..] + "::" + right;
      GapAfterTail(left[1..], right);
    }
  }

  lemma {:induction false} GapAfterTail(left: string, right: string)
    requires left == "" || left[|left| - 1] != ':'
    requires forall i :: 0 <= i < |left| - 1 ==> left[i] != ':' || left[i + 1] != ':'
    ensures FindGap(left + "::" + right) == Some(|left|)
    decreases |left|
  {
    var s := left + "::" + right;
    if left != "" {
      assert s[1..] == left[1..] + "::" + right;
      GapAfterTail(left[1..], right);
    }
  }

  /** Round trip: for every address the printed text parses, by the rules of section 2.2 of RFC 4291, to the
      same eight groups. */
  lemma RoundTripV6(g: seq<nat>)
    requires IsAddress6(g)
    ensures ParseV6(TextV6(g)) == Some(g)
  {
    var c := FirstThree(g, 0);
    if c == 8 {
      SideTight(g);
      NoGap(Side(g));
      SideParse(g);
    } else {
      CompressedParse(g);
    }
  }

  /** The same from the sixteen bytes of the address, which are in network byte order. */
  lemma RoundTripBytes(b: seq<nat>)
    requires IsBytes(b)
    ensures
      var p := ParseV6(TextV6(Groups(b)));
      p.Some? && |p.value| == 8 && forall i :: 0 <= i < 8 ==> p.value[i] == 256 * b[2 * i] + b[2 * i + 1]
  {
    RoundTripV6(Groups(b));
  }

  lemma CompressedParse(g: seq<nat>)
    requires IsAddress6(g) && FirstThree(g, 0) < 8
    ensures ParseV6(TextV6(g)) == Some(g)
  {
    RunIsLeftmostMaximal(g);
    GapParse(g, FirstThree(g, 0), ZerosEnd(g, FirstThree(g, 0)));
  }

  /** A text that leaves out the zero groups from `c` to `e` parses to all the groups. */
  lemma GapParse(g: seq<nat>, c: nat, e: nat)
    requires IsAddress6(g) && c < e <= 8 && forall k :: c <= k < e ==> g[k] == 0
    ensures ParseV6(Side(g[..c]) + "::" + Side(g[e..])) == Some(g)
  {
    SideIsTight(g[..c]);
    SideParse(g[..c]);
    SideParse(g[e..]);
    Refill(g, c, e);
    SidesParse(Side(g[..c]), Side(g[e..]), g[..c], g[e..], g);
  }

  lemma SideIsTight(g: seq<nat>)
    ensures Side(g) == "" || Tight(Side(g))
  {
    if g != [] {
      SideTight(g);
    }
  }

  lemma SidesParse(left: string, right: string, gl: seq<nat>, gr: seq<nat>, g: seq<nat>)
    requires left == "" || Tight(left)
    requires ParseSide(left) == Some(gl) && ParseSide(right) == Some(gr) && |gl| + |gr| <= 7
    requires gl + Zeros(8 - |gl| - |gr|) + gr == g
    ensures ParseV6(left + "::" + right) == Some(g)
  {
    var s := left + "::" + right;
    GapAfter(left, right);
    Around(left, right);
    ParseAtGap(s, |left|);
    GappedIs(left, right, gl, gr);
  }

  lemma ParseAtGap(s: string, k: nat)
    requires FindGap(s) == Some(k) && k + 2 <= |s|
    ensures ParseV6(s) == ParseGapped(s[..k], s[k + 2..])
  {
  }

  lemma GappedIs(left: string, right: string, gl: seq<nat>, gr: seq<nat>)
    requires ParseSide(left) == Some(gl) && ParseSide(right) == Some(gr) && |gl| + |gr| <= 7
    ensures ParseGapped(left, right) == Some(gl + Zeros(8 - |gl| - |gr|) + gr)
  {
  }

  lemma Around(left: string, right: string)
    ensures (left + "::" + right)[..|left|] == left && (left + "::" + right)[|left| + 2..] == right
  {
  }

  lemma Refill(g: seq<nat>, c: nat, e: nat)
    requires |g| == 8 && c <= e <= 8 && forall k :: c <= k < e ==> g[k] == 0
    ensures g[..c] + Zeros(8 - |g[..c]| - |g[e..]|) + g[e..] == g
  {
  }

  /** Different addresses print differently. */
  lemma TextV6Injective(g: seq<nat>, h: seq<nat>)
    requires IsAddress6(g) && IsAddress6(h) && TextV6(g) == TextV6(h)
    ensures g == h
  {
    RoundTripV6(g);
    RoundTripV6(h);
  }

  // ---------------------------------------------------------------- shape

  predicate DoubleColonAt(s: string, k: nat) {
    k + 1 < |s| && s[k] == ':' && s[k + 1] == ':'
  }

  /** A zero at `k` that begins a group is all of it. */
  predicate PlainAt(s: string, k: nat)
    requires k < |s|
  {
    s[k] == '0' && (k == 0 || s[k - 1] == ':') ==> k + 1 == |s| || s[k + 1] == ':'
  }

  predicate NoLeadingZero(s: string) {
    forall k :: 0 <= k < |s| ==> PlainAt(s, k)
  }

  lemma LeadingConcat(a: string, b: string)
    requires NoLeadingZero(a) && NoLeadingZero(b)
    ensures NoLeadingZero(a + ":" + b)
  {
    var s := a + ":" + b;
    forall k | 0 <= k < |s| ensures PlainAt(s, k) {
      if k < |a| {
        assert PlainAt(a, k);
      } else if k > |a| {
        assert PlainAt(b, k - |a| - 1);
      }
    }
  }

  lemma NumeralLeading(n: nat)
    ensures NoLeadingZero(Digits(Hexadecimal, n))
  {
    var d := Digits(Hexadecimal, n);
    DigitsShape(Hexadecimal, n);
    assert forall k :: 0 <= k < |d| ==> d[k] in d;
  }

  lemma {:induction false} SideLeading(g: seq<nat>)
    ensures NoLeadingZero(Side(g))
    decreases |g|
  {
    if g != [] {
      NumeralLeading(g[0]);
      if |g| > 1 {
        SideLeading(g[1..]);
        assert Texts(Hexadecimal, g)[1..] == Texts(Hexadecimal, g[1..]);
        LeadingConcat(Digits(Hexadecimal, g[0]), Side(g[1..]));
      }
    }
  }

  /** The text has a "::" exactly where the run was, so at most one, and one exactly when there is a run of
      three; no group of it has a leading zero (section 4.1 of RFC 5952); and with its terminator it fits the
      buffer. */
  lemma ShapeV6(g: seq<nat>)
    requires IsAddress6(g)
    ensures forall k: nat :: DoubleColonAt(TextV6(g), k) <==>
      FirstThree(g, 0) < 8 && k == |Side(g[..FirstThree(g, 0)])|
    ensures (exists k: nat :: DoubleColonAt(TextV6(g), k)) <==>
      exists i :: 0 <= i < 6 && g[i] == 0 && g[i + 1] == 0 && g[i + 2] == 0
    ensures NoLeadingZero(TextV6(g))
    ensures |TextV6(g)| <= 39 && |TextV6(g)| + 1 <= INET6_ADDRSTRLEN
  {
    var c := FirstThree(g, 0);
    if c == 8 {
      SideTight(g);
      SideLength(g);
      SideLeading(g);
      forall i | 0 <= i < 6 ensures g[i] != 0 || g[i + 1] != 0 || g[i + 2] != 0 {
        assert !ThreeZeros(g, i);
      }
    } else {
      GappedShape(g, c, ZerosEnd(g, c));
      assert DoubleColonAt(TextV6(g), |Side(g[..c])|);
      assert ThreeZeros(g, c);
    }
  }

  lemma GappedShape(g: seq<nat>, c: nat, e: nat)
    requires IsAddress6(g) && c + 3 <= e <= 8
    ensures
      var s := Side(g[..c]) + "::" + Side(g[e..]);
      && (forall k: nat :: DoubleColonAt(s, k) <==> k == |Side(g[..c])|)
      && NoLeadingZero(s) && |s| <= 39
  {
    assert NoLeadingZero("");
    hide Side, NoLeadingZero;
    var left, right := Side(g[..c]), Side(g[e..]);
    SideIsTight(g[..c]);
    SideIsTight(g[e..]);
    OneGap(left, right);
    SideLength(g[..c]);
    SideLength(g[e..]);
    SideLeading(g[..c]);
    SideLeading(g[e..]);
    LeadingConcat("", right);
    LeadingConcat(left, "" + ":" + right);
    assert left + ":" + ("" + ":" + right) == left + "::" + right;
  }

  lemma OneGap(left: string, right: string)
    requires (left == "" || Tight(left)) && (right == "" || Tight(right))
    ensures
      forall k: nat :: DoubleColonAt(left + "::" + right, k) <==> k == |left|
  {
    var s := left + "::" + right;
    assert forall i :: 0 <= i < |left| ==> s[i] == left[i];
    assert forall i :: |left| + 2 <= i < |s| ==> s[i] == right[i - |left| - 2];
  }

  /** The text is written with digits, small letters and colons (section 4.3 of RFC 5952). */
  lemma CharsV6(g: seq<nat>)
    requires |g| == 8
    ensures forall c :: c in TextV6(g) ==> c == ':' || '0' <= c <= '9' || 'a' <= c <= 'f'
  {
    var c := FirstThree(g, 0);
    if c == 8 {
      SideChars(g);
    } else {
      SideChars(g[..c]);
      SideChars(g[ZerosEnd(g, c)..]);
    }
  }

  lemma SideChars(g: seq<nat>)
    ensures forall c :: c in Side(g) ==> c == ':' || DigitOf(Hexadecimal, c)
  {
    if g != [] {
      JoinedAre(Hexadecimal, g, ':');
    }
  }

  lemma SideLength(g: seq<nat>)
    requires forall i :: 0 <= i < |g| ==> g[i] < 0x10000
    ensures |Side(g)| <= if g == [] then 0 else 5 * |g| - 1
  {
    if g != [] {
      forall i | 0 <= i < |g| ensures |Texts(Hexadecimal, g)[i]| <= 4 {
        HexLength(g[i]);
      }
      JoinLength(Texts(Hexadecimal, g), ':', 4);
    }
  }

  // ---------------------------------------------------------------- the loop

  predicate IsBytes(b: seq<nat>) {
    |b| == 16 && forall i :: 0 <= i < 16 ==> b[i] < 256
  }

  /** The eight groups in network byte order. */
  function Groups(b: seq<nat>): (g: seq<nat>)
    requires IsBytes(b)
    ensures IsAddress6(g) && forall i :: 0 <= i < 8 ==> g[i] == b[2 * i] * 256 + b[2 * i + 1]
  {
    seq(8, i requires 0 <= i < 8 => b[2 * i] * 256 + b[2 * i + 1])
  }

  /** What is still to be written before turn `i`. */
  function Rest(g: seq<nat>, i: nat, compressed: bool): string
    requires |g| == 8 && i <= 8
  {
    var c := FirstThree(g, i);
    if compressed || c == 8 then Side(g[i..])
    else
      (if c > i then Side(g[i..c]) + "::" else if i == 0 then "::" else ":") + Side(g[ZerosEnd(g, c)..])
  }

  lemma RestAtStart(g: seq<nat>)
    requires |g| == 8
    ensures Rest(g, 0, false) == TextV6(g)
  {
    assert g[0..] == g;
    assert g[..0] == [];
  }

  lemma SideStep(g: seq<nat>)
    requires g != []
    ensures Side(g) == Digits(Hexadecimal, g[0]) + if |g| == 1 then "" else ":" + Side(g[1..])
  {
    assert Texts(Hexadecimal, g)[1..] == Texts(Hexadecimal, g[1..]);
  }

  lemma RestPlain(g: seq<nat>, i: nat, compressed: bool)
    requires |g| == 8 && i <= 8 && (compressed || FirstThree(g, i) == 8)
    ensures Rest(g, i, compressed) == Side(g[i..])
  {
    hide Side, FirstThree, ZerosEnd;
  }

  lemma SideNone()
    ensures Side([]) == ""
  {
  }

  lemma NoThreeHere(g: seq<nat>, i: nat)
    requires |g| == 8 && i < 8 && !ThreeZeros(g, i)
    ensures FirstThree(g, i + 1) == FirstThree(g, i) && (FirstThree(g, i) < 8 ==> i < FirstThree(g, i))
  {
  }

  /** A turn that prints group `i`. */
  lemma RestStep(g: seq<nat>, i: nat, compressed: bool)
    requires |g| == 8 && i < 8 && (compressed || !ThreeZeros(g, i))
    ensures Rest(g, i, compressed) ==
      Digits(Hexadecimal, g[i]) + (if i != 7 then ":" else "") + Rest(g, i + 1, compressed)
  {
    hide Side, Digits, Rest, FirstThree, ThreeZeros;
    if !compressed {
      NoThreeHere(g, i);
    }
    var c := FirstThree(g, i);
    if compressed || c == 8 {
      RestPlain(g, i, compressed);
      RestPlain(g, i + 1, compressed);
      assert g[i..][1..] == g[i + 1..] && g[8..] == [];
      SideStep(g[i..]);
      SideNone();
    } else {
      RestStepGap(g, i, c);
    }
  }

  lemma RestStepGap(g: seq<nat>, i: nat, c: nat)
    requires |g| == 8 && i < c < 8 && c == FirstThree(g, i) == FirstThree(g, i + 1)
    ensures Rest(g, i, false) == Digits(Hexadecimal, g[i]) + ":" + Rest(g, i + 1, false)
  {
    var tail := Side(g[ZerosEnd(g, c)..]);
    var d := Digits(Hexadecimal, g[i]);
    assert g[i..c][1..] == g[i + 1..c];
    SideStep(g[i..c]);
    if i + 1 == c {
      assert d + "::" + tail == d + ":" + (":" + tail);
    } else {
      assert d + (":" + Side(g[i + 1..c])) + "::" + tail == d + ":" + (Side(g[i + 1..c]) + "::" + tail);
    }
  }

  lemma LengthV6(g: seq<nat>)
    requires IsAddress6(g)
    ensures |TextV6(g)| <= 39
  {
    ShapeV6(g);
  }

  lemma NothingWritten(full: string, was: string)
    ensures full[..0] + was[0..] == was && full[0..] == full
  {
  }

  /** inet_ntop_v6: refuses a buffer of fewer than INET6_ADDRSTRLEN characters; otherwise writes the text
      and a NUL, and nothing else. */
  method PrintV6(src: seq<nat>, dst: array<char>, size: nat) returns (ok: bool)
    requires IsBytes(src) && size <= dst.Length
    modifies dst
    ensures ok <==> size >= 46
    ensures !ok ==> dst[..] == old(dst[..])
    ensures ok ==>
      var text := TextV6(Groups(src));
      |text| < size && dst[..] == text + ['\0'] + old(dst[..])[|text| + 1..]
  {
    if size < INET6_ADDRSTRLEN {
      return false;
    }
    hide Rest, TextV6, Groups, NoLeadingZero;
    ghost var was, g := dst[..], Groups(src);
    ghost var full := TextV6(g);
    LengthV6(g);
    RestAtStart(g);
    var d: nat, i: nat, p: nat, compressed := 0, 0, 0, false;
    NothingWritten(full, was);
    while i < 8
      invariant i <= 8 && p == 2 * i && d <= |full| <= 39
      invariant dst[..] == full[..d] + was[d..]
      invariant full[d..] == Rest(g, i, compressed)
      decreases 8 - i
    {
      d, i, p, compressed := Turn(src, i, p, compressed, dst, d, full, was);
    }
    RestAtEnd(g, compressed, full, d);
    d := Put('\0', dst, d, full, was);
    ok := true;
  }

  /** One turn of the loop; the source's `break` is the early return. */
  method Turn(src: seq<nat>, i0: nat, p0: nat, compressed0: bool, dst: array<char>, d0: nat,
              ghost full: string, ghost was: string)
    returns (d: nat, i: nat, p: nat, compressed: bool)
    requires IsBytes(src) && i0 < 8 && p0 == 2 * i0
    requires d0 <= |full| <= 39 && |was| >= 46 && dst[..] == full[..d0] + was[d0..]
    requires full[d0..] == Rest(Groups(src), i0, compressed0)
    modifies dst
    ensures i0 < i <= 8 && p == 2 * i
    ensures d <= |full| && dst[..] == full[..d] + was[d..]
    ensures full[d..] == Rest(Groups(src), i, compressed)
  {
    d, i, p, compressed := d0, i0, p0, compressed0;
    var gap := TestGap(src, i, p);
    if !compressed && gap {
      compressed := true;
      d := PutGap(Groups(src), i, dst, d, full, was);
      i, p := SkipZeros(src, i, p);
      if i >= 8 {
        return;
      }
    }
    d := PutPart(src, i, p, compressed, dst, d, full, was);
    p := p + 2;
    i := i + 1;
  }

  /** The test for a run of three zero groups at `ptr`, byte by byte. */
  method TestGap(src: seq<nat>, i: nat, p: nat) returns (b: bool)
    requires IsBytes(src) && i < 8 && p == 2 * i
    ensures b == ThreeZeros(Groups(src), i)
  {
    b := src[p] == 0 && src[p + 1] == 0 && i <= 5
      && src[p + 2] == 0 && src[p + 3] == 0 && src[p + 4] == 0 && src[p + 5] == 0;
    ghost var g := Groups(src);
    assert g[i] == src[p] * 256 + src[p + 1];
    if i <= 5 {
      assert g[i + 1] == src[p + 2] * 256 + src[p + 3];
      assert g[i + 2] == src[p + 4] * 256 + src[p + 5];
    }
  }

  lemma RestAtEnd(g: seq<nat>, compressed: bool, full: string, d: nat)
    requires |g| == 8 && d <= |full| && full[d..] == Rest(g, 8, compressed)
    ensures d == |full| && full[..d] == full
  {
  }

  /** Having written `part`, what is left to write is `rest`. */
  lemma Advance(full: string, d: nat, part: string, rest: string)
    requires d <= |full| && full[d..] == part + rest
    ensures d + |part| <= |full| && full[..d] + part == full[..d + |part|] && full[d + |part|..] == rest
  {
    assert full == full[..d] + (part + rest);
  }

  /** The colons of a gap: one more at the very start, where no group has written one. */
  function Gap(i: nat): string {
    if i == 0 then "::" else ":"
  }

  lemma RestGap(g: seq<nat>, i: nat)
    requires |g| == 8 && i < 8 && ThreeZeros(g, i)
    ensures Rest(g, i, false) == Gap(i) + Rest(g, ZerosEnd(g, i), true)
  {
    assert FirstThree(g, i) == i;
  }

  method PutGap(ghost g: seq<nat>, i: nat, dst: array<char>, d0: nat, ghost full: string, ghost was: string)
    returns (d: nat)
    requires |g| == 8 && i < 8 && ThreeZeros(g, i)
    requires d0 <= |full| <= 39 && |was| >= 46 && dst[..] == full[..d0] + was[d0..]
    requires full[d0..] == Rest(g, i, false)
    modifies dst
    ensures d <= |full| && dst[..] == full[..d] + was[d..]
    ensures full[d..] == Rest(g, ZerosEnd(g, i), true)
  {
    RestGap(g, i);
    Advance(full, d0, Gap(i), Rest(g, ZerosEnd(g, i), true));
    d := d0;
    ghost var s := full[..d0];
    if i == 0 {
      d := Put(':', dst, d, s, was);
      s := s + ":";
    }
    d := Put(':', dst, d, s, was);
    assert s + [':'] == full[..d0] + Gap(i);
  }

  /** The inner loop: the three zero groups found, and any further ones. */
  method SkipZeros(src: seq<nat>, i0: nat, p0: nat) returns (i: nat, p: nat)
    requires IsBytes(src) && i0 < 8 && p0 == 2 * i0 && ThreeZeros(Groups(src), i0)
    ensures i == ZerosEnd(Groups(src), i0) && p == 2 * i && i0 < i
  {
    ghost var g := Groups(src);
    ghost var e := ZerosEnd(g, i0);
    assert e >= i0 + 3;
    p, i := p0 + 6, i0 + 3;
    while i < 8 && src[p] == 0 && src[p + 1] == 0
      invariant i0 < i <= e && p == 2 * i
    {
      assert g[i] == 0;
      i, p := i + 1, p + 2;
    }
    assert i < 8 ==> g[i] == src[p] * 256 + src[p + 1];
  }

  /** The rest of a turn: the group, and a colon unless it is the last. */
  method PutPart(src: seq<nat>, i: nat, p: nat, ghost compressed: bool, dst: array<char>, d0: nat,
                 ghost full: string, ghost was: string)
    returns (d: nat)
    requires IsBytes(src) && i < 8 && p == 2 * i && (compressed || !ThreeZeros(Groups(src), i))
    requires d0 <= |full| <= 39 && |was| >= 46 && dst[..] == full[..d0] + was[d0..]
    requires full[d0..] == Rest(Groups(src), i, compressed)
    modifies dst
    ensures d <= |full| && dst[..] == full[..d] + was[d..]
    ensures full[d..] == Rest(Groups(src), i + 1, compressed)
  {
    ghost var g := Groups(src);
    ghost var digits := Digits(Hexadecimal, g[i]);
    RestStep(g, i, compressed);
    Advance(full, d0, digits + if i != 7 then ":" else "", Rest(g, i + 1, compressed));
    d := PutGroup(src[p], src[p + 1], dst, d0, full[..d0], was);
    if i != 7 {
      d := Put(':', dst, d, full[..d0] + digits, was);
      assert full[..d0] + digits + [':'] == full[..d0] + (digits + ":");
    } else {
      assert full[..d0] + digits == full[..d0] + (digits + "");
    }
  }

  function Nibble(h: nat, nonZero: bool): string
    requires h < 16
  {
    if nonZero || h != 0 then [DIGITS[h]] else ""
  }

  /** The nibbles that are written: all from the first that is not zero, and always the last. */
  function Suppressed(h0: nat, h1: nat, h2: nat, h3: nat): string
    requires h0 < 16 && h1 < 16 && h2 < 16 && h3 < 16
  {
    Nibble(h0, false) + Nibble(h1, h0 != 0) + Nibble(h2, h0 != 0 || h1 != 0) + [DIGITS[h3]]
  }

  /** One group with its leading zeros suppressed. */
  method PutGroup(b0: nat, b1: nat, dst: array<char>, d0: nat, ghost text: string, ghost was: string) returns (d: nat)
    requires b0 < 256 && b1 < 256 && d0 == |text| && d0 + 4 <= |was| && dst[..] == text + was[d0..]
    modifies dst
    ensures
      var digits := Digits(Hexadecimal, b0 * 256 + b1);
      d == d0 + |digits| <= d0 + 4 && dst[..] == text + digits + was[d..]
  {
    ghost var h0, h1, h2 := b0 / 16, b0 % 16, b1 / 16;
    var nonZero := false;
    d, nonZero := PutNibble(b0 / 16, nonZero, dst, d0, text, was);
    ghost var s := text + Nibble(h0, false);
    d, nonZero := PutNibble(b0 % 16, nonZero, dst, d, s, was);
    s := s + Nibble(h1, h0 != 0);
    d, nonZero := PutNibble(b1 / 16, nonZero, dst, d, s, was);
    s := s + Nibble(h2, h0 != 0 || h1 != 0);
    d := Put(DIGITS[b1 % 16], dst, d, s, was);
    HexDigits(b0, b1);
    assert s + [DIGITS[b1 % 16]] == text + Suppressed(h0, h1, h2, b1 % 16);
  }

  /** `if (non_zerop || nibble)`: a digit that is written unless it is a leading zero. */
  method PutNibble(h: nat, nonZero: bool, dst: array<char>, d0: nat, ghost text: string, ghost was: string)
    returns (d: nat, nonZero': bool)
    requires h < 16 && d0 == |text| < |was| && dst[..] == text + was[d0..]
    modifies dst
    ensures nonZero' == (nonZero || h != 0)
    ensures d == d0 + |Nibble(h, nonZero)| && dst[..] == text + Nibble(h, nonZero) + was[d..]
  {
    d, nonZero' := d0, nonZero;
    if nonZero || h != 0 {
      d := Put(DIGITS[h], dst, d, text, was);
      nonZero' := true;
    } else {
      assert text + "" == text;
    }
  }

  /** The printer's nibbles are the numeral's digits. */
  lemma HexDigits(b0: nat, b1: nat)
    requires b0 < 256 && b1 < 256
    ensures Suppressed(b0 / 16, b0 % 16, b1 / 16, b1 % 16) == Digits(Hexadecimal, b0 * 256 + b1)
  {
    Nibbles(b0, b1);
    FourDigits(b0 / 16, b0 % 16, b1 / 16, b1 % 16, b0, b0 * 16 + b1 / 16, b0 * 256 + b1);
  }

  lemma FourDigits(h0: nat, h1: nat, h2: nat, h3: nat, m: nat, k: nat, n: nat)
    requires h0 < 16 && h1 < 16 && h2 < 16 && h3 < 16 && m == h0 * 16 + h1 && k == m * 16 + h2 && n == k * 16 + h3
    ensures Digits(Hexadecimal, n) == Suppressed(h0, h1, h2, h3)
  {
    ThreeDigits(h0, h1, h2, m, k);
    OneMore(k, h3, n);
  }

  lemma Nibbles(b0: nat, b1: nat)
    requires b0 < 256 && b1 < 256
    ensures b0 / 16 < 16 && b1 / 16 < 16 && b0 == b0 / 16 * 16 + b0 % 16
    ensures b0 * 256 + b1 == (b0 * 16 + b1 / 16) * 16 + b1 % 16
  {
  }

  lemma TwoDigits(h0: nat, h1: nat, n: nat)
    requires h0 < 16 && h1 < 16 && n == h0 * 16 + h1
    ensures Digits(Hexadecimal, n) == if h0 != 0 then [DIGITS[h0], DIGITS[h1]] else [DIGITS[h1]]
  {
    OneMore(h0, h1, n);
  }

  lemma ThreeDigits(h0: nat, h1: nat, h2: nat, m: nat, n: nat)
    requires h0 < 16 && h1 < 16 && h2 < 16 && m == h0 * 16 + h1 && n == m * 16 + h2
    ensures Digits(Hexadecimal, n) ==
      if h0 != 0 then [DIGITS[h0], DIGITS[h1], DIGITS[h2]]
      else if h1 != 0 then [DIGITS[h1], DIGITS[h2]]
      else [DIGITS[h2]]
  {
    TwoDigits(h0, h1, m);
    OneMore(m, h2, n);
  }

  lemma OneMore(q: nat, r: nat, n: nat)
    requires r < 16 && n == q * 16 + r
    ensures Digits(Hexadecimal, n) == (if q == 0 then [] else Digits(Hexadecimal, q)) + [DIGITS[r]]
  {
    assert n / 16 == q && n % 16 == r;
  }
}
