/** The searches of xutil/src/utilstr.cpp: a scan that, on a mismatch, starts the pattern over at the next
    byte without looking at the current one again. */
module StrSearch {

  type Octet = bv8

  /** The pattern stands in the buffer at `at`. */
  ghost predicate Occurs<T>(buf: seq<T>, mem: seq<T>, at: nat) {
    at + |mem| <= |buf| && forall j :: 0 <= j < |mem| ==> buf[at + j] == mem[j]
  }

  /** The scan from byte `i` with `matched` bytes of the pattern behind it. */
  function Scan<T(==)>(buf: seq<T>, mem: seq<T>, i: nat, matched: nat): (r: int)
    requires i <= |buf| && matched < |mem|
    decreases |buf| - i
  {
    if i == |buf| then -1
    else if buf[i] != mem[matched] then Scan(buf, mem, i + 1, 0)
    else if matched + 1 == |mem| then i + 1
    else Scan(buf, mem, i + 1, matched + 1)
  }

  // ---------------------------------------------------------------- the searches

  /** util_memsearch.  With a pattern length of zero it never finds anything, and reads the pattern's memory as
      far as the buffer is long. */
  method MemSearch(buf: array<Octet>, bufLen: nat, mem: array<Octet>, memLen: nat) returns (r: int)
    requires bufLen <= buf.Length && memLen <= mem.Length && (memLen == 0 ==> bufLen <= mem.Length)
    ensures memLen > 0 ==> r == Scan(buf[..bufLen], mem[..memLen], 0, 0)
    ensures memLen == 0 ==> r == -1
  {
    if memLen > bufLen {
      TooShort(buf[..bufLen], mem[..memLen], 0);
      return -1;
    }
    var matched := 0;
    for i := 0 to bufLen
      invariant matched <= i && (memLen > 0 ==> matched < memLen)
      invariant memLen > 0 ==>
        Scan(buf[..bufLen], mem[..memLen], i, matched) == Scan(buf[..bufLen], mem[..memLen], 0, 0)
    {
      if buf[i] == mem[matched] {
        matched := matched + 1;
        if matched == memLen {
          return i + 1;
        }
      } else {
        matched := 0;
      }
    }
    return -1;
  }

  ghost predicate Terminated(str: seq<Octet>) {
    exists n: nat :: n < |str| && str[n] == 0
  }

  /** The index of the first NUL. */
  ghost function Length(str: seq<Octet>): (n: nat)
    requires Terminated(str)
    ensures n < |str| && str[n] == 0 && forall i :: 0 <= i < n ==> str[i] != 0
  {
    if str[0] == 0 then 0 else 1 + Length(str[1..])
  }

  lemma LengthIs(str: seq<Octet>, c: nat)
    requires c < |str| && str[c] == 0 && forall i :: 0 <= i < c ==> str[i] != 0
    ensures Terminated(str) && Length(str) == c
  {
  }

  /** util_strlen, on a string whose NUL is inside the array. */
  method StrLen(str: array<Octet>) returns (c: nat)
    requires Terminated(str[..])
    ensures c == Length(str[..])
  {
    c := 0;
    ghost var n := Length(str[..]);
    while str[c] != 0
      invariant c <= n && forall i :: 0 <= i < c ==> str[i] != 0
      decreases n - c
    {
      c := c + 1;
    }
    LengthIs(str[..], c);
  }

  function Fold(a: Octet): Octet {
    if 0x41 <= a <= 0x5A then a | 0x60 else a
  }

  function FoldAll(s: seq<Octet>): (t: seq<Octet>)
    ensures |t| == |s|
  {
    seq(|s|, i requires 0 <= i < |s| => Fold(s[i]))
  }

  /** Equal, or one letter in its two cases. */
  predicate SameLetter(a: Octet, b: Octet) {
    a == b || (a ^ b == 0x20 && (0x41 <= a <= 0x5A || 0x41 <= b <= 0x5A))
  }

  lemma FoldIgnoresCase(a: Octet, b: Octet)
    ensures Fold(a) == Fold(b) <==> SameLetter(a, b)
  {
  }

  /** The pattern stands in the buffer at `at`, whatever the case of its letters. */
  ghost predicate OccursFolded(buf: seq<Octet>, pat: seq<Octet>, at: nat) {
    at + |pat| <= |buf| && forall j :: 0 <= j < |pat| ==> SameLetter(buf[at + j], pat[j])
  }

  lemma FoldedOccurs(buf: seq<Octet>, pat: seq<Octet>, at: nat)
    ensures Occurs(FoldAll(buf), FoldAll(pat), at) <==> OccursFolded(buf, pat, at)
  {
    hide Fold, SameLetter;
    forall j | 0 <= j < |pat| && at + |pat| <= |buf|
      ensures FoldAll(buf)[at + j] == FoldAll(pat)[j] <==> SameLetter(buf[at + j], pat[j])
    {
      FoldIgnoresCase(buf[at + j], pat[j]);
    }
  }

  /** The part of the haystack that is searched. */
  function Searched(haystack: seq<Octet>, haystackLen: int): seq<Octet>
    requires haystackLen <= |haystack|
  {
    haystack[..if haystackLen < 0 then 0 else haystackLen]
  }

  /** util_stristr: the same as util_memsearch on case-folded inputs, so what it returns is the end of an
      occurrence in any case.  With an empty pattern it never finds anything, and reads the pattern's memory as
      far as the haystack is long. */
  method StrIStr(haystack: array<Octet>, haystackLen: int, str: array<Octet>) returns (r: int)
    requires haystackLen <= haystack.Length && Terminated(str[..])
    requires str[0] == 0 ==> haystackLen <= str.Length
    ensures
      var hay, pat := Searched(haystack[..], haystackLen), str[..Length(str[..])];
      if pat == [] then r == -1
      else
        && r == Scan(FoldAll(hay), FoldAll(pat), 0, 0)
        && (r == -1 || (r >= |pat| && OccursFolded(hay, pat, r - |pat|)))
  {
    hide Fold, OccursFolded;
    var strLen := StrLen(str);
    ghost var hay, pat := Searched(haystack[..], haystackLen), str[..strLen];
    var at, left, matchCount := 0, haystackLen, 0;
    while left > 0
      invariant at <= |hay| && matchCount <= at && (strLen > 0 ==> matchCount < strLen)
      invariant left == (if haystackLen < 0 then haystackLen else |hay| - at)
      invariant strLen > 0 ==> Scan(FoldAll(hay), FoldAll(pat), at, matchCount) == Scan(FoldAll(hay), FoldAll(pat), 0, 0)
    {
      left := left - 1;
      var a, b := haystack[at], str[matchCount];
      at := at + 1;
      a := Fold(a);
      b := Fold(b);
      if a == b {
        matchCount := matchCount + 1;
        if matchCount == strLen {
          FoundEnds(hay, pat);
          return at;
        }
      } else {
        matchCount := 0;
      }
    }
    return -1;
  }

  lemma FoundEnds(hay: seq<Octet>, pat: seq<Octet>)
    requires pat != []
    ensures
      var r := Scan(FoldAll(hay), FoldAll(pat), 0, 0);
      r == -1 || (r >= |pat| && OccursFolded(hay, pat, r - |pat|))
  {
    hide Fold, OccursFolded;
    var r := Scan(FoldAll(hay), FoldAll(pat), 0, 0);
    ScanFinds(FoldAll(hay), FoldAll(pat), 0, 0);
    if r != -1 {
      FoldedOccurs(hay, pat, r - |pat|);
    }
  }

  // ---------------------------------------------------------------- what a search finds

  /** Whatever the scan returns is the end of an occurrence that is not before where the scan began. */
  lemma {:induction false} ScanFinds<T>(buf: seq<T>, mem: seq<T>, i: nat, matched: nat)
    requires matched < |mem| && matched <= i <= |buf|
    requires forall j :: 0 <= j < matched ==> buf[i - matched + j] == mem[j]
    ensures
      var r := Scan(buf, mem, i, matched);
      r == -1 || (r >= i - matched + |mem| && Occurs(buf, mem, r - |mem|))
    decreases |buf| - i
  {
    if i < |buf| {
      if buf[i] != mem[matched] {
        ScanFinds(buf, mem, i + 1, 0);
      } else if matched + 1 < |mem| {
        ScanFinds(buf, mem, i + 1, matched + 1);
      }
    }
  }

  /** Nothing is found where too few bytes are left. */
  lemma TooShort<T>(buf: seq<T>, mem: seq<T>, i: nat)
    requires mem != [] && i <= |buf| < i + |mem|
    ensures Scan(buf, mem, i, 0) == -1
  {
    ScanFinds(buf, mem, i, 0);
  }

  /** How many bytes of the pattern agree with the buffer from `at` on. */
  function Agree<T(==)>(buf: seq<T>, mem: seq<T>, at: nat, j: nat): (n: nat)
    requires at + j <= |buf| && j <= |mem|
    ensures j <= n <= |mem| && at + n <= |buf|
    ensures forall k :: j <= k < n ==> buf[at + k] == mem[k]
    ensures n < |mem| && at + n < |buf| ==> buf[at + n] != mem[n]
    decreases |mem| - j
  {
    if j == |mem| || at + j == |buf| || buf[at + j] != mem[j] then j else Agree(buf, mem, at, j + 1)
  }

  /** The search as a chain of attempts: after one that fails on byte b, the next starts behind b. */
  function Attempts<T(==)>(buf: seq<T>, mem: seq<T>, at: nat): int
    requires at <= |buf| && mem != []
    decreases |buf| - at
  {
    var n := Agree(buf, mem, at, 0);
    if n == |mem| then at + n
    else if at + n == |buf| then -1
    else Attempts(buf, mem, at + n + 1)
  }

  /** On every input the scan is that chain: this says exactly which occurrences it sees. */
  lemma {:induction false} ScanIsAttempts<T>(buf: seq<T>, mem: seq<T>, at: nat, j: nat)
    requires at + j <= |buf| && j < |mem|
    requires forall k :: 0 <= k < j ==> buf[at + k] == mem[k]
    ensures Scan(buf, mem, at + j, j) == Attempts(buf, mem, at)
    decreases |buf| - at - j, 0
  {
    AgreeFrom(buf, mem, at, j);
    if at + j < |buf| {
      if buf[at + j] != mem[j] {
        ScanIsAttempts(buf, mem, at + j + 1, 0);
      } else if j + 1 < |mem| {
        ScanIsAttempts(buf, mem, at, j + 1);
      } else {
        AgreeFrom(buf, mem, at, j + 1);
      }
    }
  }

  lemma {:induction false} AgreeFrom<T>(buf: seq<T>, mem: seq<T>, at: nat, j: nat)
    requires at + j <= |buf| && j <= |mem|
    requires forall k :: 0 <= k < j ==> buf[at + k] == mem[k]
    ensures Agree(buf, mem, at, 0) == Agree(buf, mem, at, j)
  {
    if j > 0 {
      AgreeFrom(buf, mem, at, j - 1);
    }
  }

  /** If the first byte equal to the pattern's first byte begins an occurrence, that one is returned. */
  lemma {:induction false} FirstByteWins<T>(buf: seq<T>, mem: seq<T>, at: nat, first: nat)
    requires mem != [] && at <= first && Occurs(buf, mem, first)
    requires forall k :: at <= k < first ==> buf[k] != mem[0]
    ensures Attempts(buf, mem, at) == first + |mem|
    decreases first - at
  {
    if at < first {
      assert Agree(buf, mem, at, 0) == 0;
      FirstByteWins(buf, mem, at + 1, first);
    }
  }

  // ---------------------------------------------------------------- when the search is complete

  /** All bytes of the pattern are the same. */
  predicate IsUniform<T(==)>(mem: seq<T>) {
    forall j :: 0 <= j < |mem| ==> mem[j] == mem[0]
  }

  /** A uniform pattern is never missed, and its first occurrence is the one returned. */
  lemma {:induction false} UniformIsFound<T>(buf: seq<T>, mem: seq<T>, at: nat, first: nat)
    requires mem != [] && IsUniform(mem) && at <= first && Occurs(buf, mem, first)
    requires forall k :: at <= k < first ==> !Occurs(buf, mem, k)
    ensures Attempts(buf, mem, at) == first + |mem|
    decreases first - at
  {
    var n := Agree(buf, mem, at, 0);
    if n < |mem| {
      UniformAgrees(buf, mem, first, at + n, n);
      UniformIsFound(buf, mem, at + n + 1, first);
    } else {
      assert Occurs(buf, mem, at);
    }
  }

  lemma UniformAgrees<T>(buf: seq<T>, mem: seq<T>, first: nat, p: nat, n: nat)
    requires IsUniform(mem) && Occurs(buf, mem, first) && p < first + |mem| && n < |mem|
    ensures first <= p ==> buf[p] == mem[n]
  {
    assert first <= p ==> buf[first + (p - first)] == mem[p - first];
  }

  /** Any other pattern is missed behind one more copy of its first byte ("ab" in "aab"). */
  lemma OthersAreMissed<T>(mem: seq<T>)
    requires mem != [] && !IsUniform(mem)
    ensures
      var buf := [mem[0]] + mem;
      Occurs(buf, mem, 1) && Scan(buf, mem, 0, 0) == -1
  {
    var buf := [mem[0]] + mem;
    ShiftedCopyIsMissed(buf, mem);
  }

  lemma ShiftedCopyIsMissed<T>(buf: seq<T>, mem: seq<T>)
    requires mem != [] && !IsUniform(mem) && |buf| == |mem| + 1 && buf[0] == mem[0]
    requires forall k :: 0 < k < |buf| ==> buf[k] == mem[k - 1]
    ensures Scan(buf, mem, 0, 0) == -1
  {
    var n := Agree(buf, mem, 0, 0);
    Spread(buf, mem, n);
    assert 0 < n < |mem|;
    AfterMismatch(buf, mem, n);
    TooShort(buf, mem, n + 1);
  }

  lemma AfterMismatch<T>(buf: seq<T>, mem: seq<T>, n: nat)
    requires n == Agree(buf, mem, 0, 0) && n < |mem| && n < |buf|
    ensures Scan(buf, mem, 0, 0) == Scan(buf, mem, n + 1, 0)
  {
    ScanIsAttempts(buf, mem, 0, 0);
    ScanIsAttempts(buf, mem, n + 1, 0);
  }

  lemma {:induction false} Spread<T>(buf: seq<T>, mem: seq<T>, n: nat)
    requires mem != [] && |buf| == |mem| + 1 && n <= |mem|
    requires forall k :: 0 < k < |buf| ==> buf[k] == mem[k - 1]
    requires forall k :: 0 <= k < n ==> buf[k] == mem[k]
    ensures forall k :: 0 <= k < n ==> mem[k] == mem[0]
  {
    if n > 1 {
      Spread(buf, mem, n - 1);
      assert buf[n - 1] == mem[n - 2];
    }
  }

  ghost predicate IsComplete<T(!new)>(mem: seq<T>)
    requires mem != []
  {
    forall buf: seq<T>, at: nat :: Occurs(buf, mem, at) ==> Scan(buf, mem, 0, 0) != -1
  }

  /** The search misses no occurrence in any buffer exactly when all bytes of the pattern are the same. */
  lemma CompleteIffUniform<T(!new)>(mem: seq<T>)
    requires mem != []
    ensures IsComplete(mem) <==> IsUniform(mem)
  {
    if IsUniform(mem) {
      forall buf: seq<T>, at: nat | Occurs(buf, mem, at)
        ensures Scan(buf, mem, 0, 0) != -1
      {
        var first := FirstOccurrence(buf, mem, at);
        UniformIsFound(buf, mem, 0, first);
        ScanIsAttempts(buf, mem, 0, 0);
      }
    } else {
      OthersAreMissed(mem);
      assert Occurs([mem[0]] + mem, mem, 1);
    }
  }

  lemma {:induction false} FirstOccurrence<T>(buf: seq<T>, mem: seq<T>, at: nat) returns (first: nat)
    requires Occurs(buf, mem, at)
    ensures first <= at && Occurs(buf, mem, first) && forall k :: 0 <= k < first ==> !Occurs(buf, mem, k)
  {
    first := 0;
    while !Occurs(buf, mem, first)
      invariant first <= at && forall k :: 0 <= k < first ==> !Occurs(buf, mem, k)
      decreases at - first
    {
      first := first + 1;
    }
  }
}
