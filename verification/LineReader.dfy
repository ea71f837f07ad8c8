/** The line reader of xutil/src/socketwrap.cpp, over a scripted socket.  */
module LineReader {

  /** What the socket does next: not readable in time; an error from recv; or some bytes to hand out, none
      meaning that the peer has closed.  After the script nothing becomes readable any more. */
  datatype Event = NotReady | Failed | Data(bytes: string)

  datatype Status = RecvOk | RecvError

  /** The bytes that are still to come, and a bound on the number of events a reader can meet. */
  function Weight(script: seq<Event>): nat {
    if script == [] then 0
    else 1 + (if script[0].Data? then |script[0].bytes| else 0) + Weight(script[1..])
  }

  // ---------------------------------------------------------------- reading a fixed number of bytes

  /** What `recv` leaves behind after handing out `n` of the first event's bytes.  Asked for none, it leaves data
      unread, and takes note of a close. */
  function After(script: seq<Event>, n: nat): (rest: seq<Event>)
    requires script != [] && script[0].Data? && n <= |script[0].bytes|
    ensures n > 0 ==> Weight(rest) < Weight(script)
    ensures n == 0 && script[0].bytes != "" ==> rest == script
  {
    if n < |script[0].bytes| then [Data(script[0].bytes[n..])] + script[1..] else script[1..]
  }

  function Min(a: nat, b: nat): nat {
    if a < b then a else b
  }

  /** The outcome of `sock_read_timeout`: what it returns, the bytes it has put in the buffer (some even when
      it returns 0), and the script left. */
  datatype Got = Got(n: nat, bytes: string, rest: seq<Event>)

  function Read(script: seq<Event>, len: nat, got: string): (r: Got)
    requires |got| <= len
    ensures r.n <= |r.bytes| <= len && got <= r.bytes
    ensures r.n > |got| ==> Weight(r.rest) < Weight(script)
    ensures Weight(r.rest) <= Weight(script)
    decreases Weight(script)
  {
    if script == [] then Got(|got|, got, [])
    else
      match script[0]
      case NotReady => Got(|got|, got, script[1..])
      case Failed => Got(0, got, script[1..])
      case Data(bytes) =>
        var n := Min(|bytes|, len - |got|);
        if n == 0 then Got(0, got, After(script, 0))
        else if |got| + n == len then Got(len, got + bytes[..n], After(script, n))
        else Read(After(script, n), len, got + bytes[..n])
  }

  /** One turn of the read loop. */
  lemma ReadTurn(script: seq<Event>, len: nat, got: string)
    requires |got| <= len
    ensures script == [] ==> Read(script, len, got) == Got(|got|, got, [])
    ensures script != [] && script[0].NotReady? ==> Read(script, len, got) == Got(|got|, got, script[1..])
    ensures script != [] && script[0].Failed? ==> Read(script, len, got) == Got(0, got, script[1..])
    ensures script != [] && script[0].Data? ==>
      var n := Min(|script[0].bytes|, len - |got|);
      var got' := got + script[0].bytes[..n];
      Read(script, len, got) ==
        if n == 0 then Got(0, got, After(script, 0))
        else if |got'| == len then Got(len, got', After(script, n))
        else Read(After(script, n), len, got')
  {
  }

  /** A timeout, an error, or the peer's close. */
  predicate Stops(e: Event) {
    e.Data? ==> e.bytes == ""
  }

  /** The bytes that arrive before anything stops them, however they are cut into pieces. */
  function Heard(script: seq<Event>): string {
    if script == [] || Stops(script[0]) then "" else script[0].bytes + Heard(script[1..])
  }

  /** The script from that event on. */
  function Stopped(script: seq<Event>): seq<Event> {
    if script == [] || Stops(script[0]) then script else Stopped(script[1..])
  }

  /** Running out of a script is a timeout. */
  predicate TimesOut(script: seq<Event>) {
    script == [] || script[0].NotReady?
  }

  function Tail(script: seq<Event>): seq<Event> {
    if script == [] then [] else script[1..]
  }

  /** What a read of `want` more bytes comes to on any script: all of them if that many arrive; otherwise those that
      do, which are counted if a timeout stopped them and not if an error or a close did. */
  ghost predicate Fetches(r: Got, script: seq<Event>, got: string, want: nat) {
    var h, stop := Heard(script), Stopped(script);
    if want <= |h| then
      && r.n == |got| + want && r.bytes == got + h[..want]
      && Heard(r.rest) == h[want..] && Stopped(r.rest) == stop
    else
      && r.n == (if TimesOut(stop) then |got| + |h| else 0) && r.bytes == got + h && r.rest == Tail(stop)
  }

  lemma {:induction false} ReadFetches(script: seq<Event>, len: nat, got: string)
    requires |got| < len
    ensures Fetches(Read(script, len, got), script, got, len - |got|)
    decreases Weight(script)
  {
    if script != [] && !Stops(script[0]) {
      var bytes := script[0].bytes;
      var n := Min(|bytes|, len - |got|);
      AfterHeard(script, n);
      if |got| + n < len {
        ReadFetches(After(script, n), len, got + bytes[..n]);
        assert bytes[..n] == bytes && got + bytes + Heard(script[1..]) == got + Heard(script);
      }
    }
  }

  lemma AfterHeard(script: seq<Event>, n: nat)
    requires script != [] && !Stops(script[0]) && n <= |script[0].bytes|
    ensures Heard(script) == script[0].bytes[..n] + Heard(After(script, n))
    ensures Stopped(After(script, n)) == Stopped(script)
  {
    var rest := After(script, n);
    if n < |script[0].bytes| {
      assert rest[1..] == script[1..];
    }
  }

  /** sock_read_timeout on every script. */
  lemma ReadIs(script: seq<Event>, len: nat)
    ensures len == 0 ==> Read(script, len, "").n == 0 && Read(script, len, "").bytes == ""
    ensures len > 0 ==> Fetches(Read(script, len, ""), script, "", len)
  {
    if len > 0 {
      ReadFetches(script, len, "");
    }
  }

  /** `now` is `was` with `bytes` written over it from position `at` on. */
  ghost predicate Spliced(was: string, at: nat, bytes: string, now: string) {
    && |now| == |was| && at + |bytes| <= |was|
    && (forall i :: 0 <= i < |was| ==> now[i] == if at <= i < at + |bytes| then bytes[i - at] else was[i])
  }

  lemma SpliceMore(was: string, at: nat, bytes: string, end: nat, before: string, more: string, now: string)
    requires Spliced(was, at, bytes, before) && end == at + |bytes| && Spliced(before, end, more, now)
    ensures Spliced(was, at, bytes + more, now)
  {
  }

  lemma SpliceNone(was: string, at: nat)
    requires at <= |was|
    ensures Spliced(was, at, "", was)
  {
  }

  lemma SpliceNothing(was: string, at: nat, now: string)
    requires Spliced(was, at, "", now)
    ensures now == was
  {
  }

  class Socket {
    var script: seq<Event>

    constructor (s: seq<Event>)
      ensures script == s
    {
      script := s;
    }

    /** sock_readable, then recv of at most `want` bytes into `buf` at `at`; n is recv's result, and
        `readable` says whether recv was called at all. */
    method Recv(buf: array<char>, at: nat, want: nat) returns (readable: bool, n: int, ghost got: string)
      requires at + want <= buf.Length
      modifies this, buf
      ensures readable <==> old(script) != [] && !old(script)[0].NotReady?
      ensures !readable ==> script == (if old(script) == [] then [] else old(script)[1..]) && buf[..] == old(buf[..])
      ensures readable && old(script)[0].Failed? ==> n == -1 && script == old(script)[1..] && buf[..] == old(buf[..])
      ensures readable && old(script)[0].Data? ==>
        var bytes := old(script)[0].bytes;
        && n == Min(|bytes|, want) && got == bytes[..n]
        && script == After(old(script), n)
        && Spliced(old(buf[..]), at, got, buf[..])
    {
      readable, n, got := false, 0, "";
      if script == [] {
        return;
      }
      var e := script[0];
      match e {
        case NotReady => script := script[1..];
        case Failed =>
          readable, n := true, -1;
          script := script[1..];
        case Data(bytes) =>
          readable, n := true, Min(|bytes|, want);
          ghost var was := buf[..];
          for k := 0 to n
            invariant script == old(script)
            invariant Spliced(was, at, bytes[..k], buf[..])
          {
            buf[at + k] := bytes[k];
          }
          got := bytes[..n];
          script := After(script, n);
      }
    }

    /** sock_read_timeout: the POSIX branch, whose retry test no errno value can satisfy. */
    method ReadTimeout(buf: array<char>, at: nat, len: nat) returns (got: nat)
      requires at + len <= buf.Length
      modifies this, buf
      ensures
        var r := Read(old(script), len, "");
        && got == r.n && script == r.rest
        && Spliced(old(buf[..]), at, r.bytes, buf[..])
    {
      hide Spliced, Read, After, Weight;
      got := 0;
      SpliceNone(buf[..], at);
      ghost var bytes, whole := "", Read(script, len, "");
      ghost var was := buf[..];
      while true
        invariant got == |bytes| <= len
        invariant Read(script, len, bytes) == whole
        invariant Spliced(was, at, bytes, buf[..])
        decreases Weight(script)
      {
        ghost var before := buf[..];
        ReadTurn(script, len, bytes);
        var readable, n, more := Recv(buf, at + got, len - got);
        if readable {
          if n == 0 {
            SpliceNothing(before, at + got, buf[..]);
            assert bytes == whole.bytes;
            got := 0;
            break;
          }
          if n < 0 {
            assert bytes == whole.bytes;
            return 0;
          }
          SpliceMore(was, at, bytes, at + got, before, more, buf[..]);
          bytes := bytes + more;
          got := got + n;
          if got == len {
            assert bytes == whole.bytes;
            break;
          }
        } else {
          assert bytes == whole.bytes;
          break;
        }
      }
    }
  }

  // ---------------------------------------------------------------- reading a line

  /** The outcome of `sock_recv_line`: the status, the characters stored, whether a NUL follows them, and
      the script left. */
  datatype Line = Line(status: Status, text: string, ended: bool, rest: seq<Event>)

  /** `room` is what is left of the buffer, less one for the NUL. */
  function NextLine(script: seq<Event>, room: nat, text: string): (r: Line)
    ensures |r.text| <= |text| + room
    decreases Weight(script), room
  {
    if room == 0 then Line(RecvError, text, true, script)
    else
      var r := Read(script, 1, "");
      if r.n != 1 then Line(RecvError, text, false, r.rest)
      else if r.bytes[0] == '\0' || r.bytes[0] == '\n' then Line(RecvOk, text, true, r.rest)
      else if r.bytes[0] == '\r' then NextLine(r.rest, room, text)
      else NextLine(r.rest, room - 1, text + r.bytes)
  }

  /** `now` starts with `text`, keeps `was` from one byte further on, and has anything in between. */
  ghost predicate Filled(was: string, text: string, now: string) {
    && |now| == |was| && |text| < |was|
    && (forall i :: 0 <= i < |was| && i != |text| ==> now[i] == if i < |text| then text[i] else was[i])
  }

  lemma PutByte(was: string, text: string, before: string, at: nat, bytes: string, now: string)
    requires Filled(was, text, before) && at == |text| && |bytes| <= 1 && Spliced(before, at, bytes, now)
    ensures Filled(was, text, now) && (|bytes| == 1 ==> bytes == [now[at]])
  {
  }

  lemma KeepByte(was: string, text: string, now: string, text': string)
    requires Filled(was, text, now) && text' == text + [now[|text|]] && |text'| < |was|
    ensures Filled(was, text', now)
  {
  }

  /** sock_recv_line, for a buffer of at least one byte (a size of zero would wrap).  On every script the
      stored text and its NUL stay inside the first `bufsiz` bytes, and nothing else is written. */
  method RecvLine(sock: Socket, buf: array<char>, bufsiz: nat) returns (status: Status)
    requires 1 <= bufsiz <= buf.Length
    modifies sock, buf
    ensures
      var r := NextLine(old(sock.script), bufsiz - 1, "");
      && status == r.status && sock.script == r.rest
      && |r.text| < bufsiz && Filled(old(buf[..]), r.text, buf[..])
      && (r.ended ==> buf[|r.text|] == '\0')
    ensures
      var h := Heard(old(sock.script));
      status == RecvOk <==> LineEnd(h) < |h| && |FirstLine(h)| < bufsiz - 1
    ensures status == RecvOk ==>
      var line := FirstLine(Heard(old(sock.script)));
      |line| < buf.Length && buf[..|line|] == line && buf[|line|] == '\0'
  {
    hide Heard, FirstLine, LineEnd, Fate, Weight, Spliced;
    var room, at := bufsiz - 1, 0;
    ghost var text, was, script0 := "", buf[..], sock.script;
    FateStatus(script0, room);
    while room > 0
      invariant at == |text| && at + room == bufsiz - 1
      invariant NextLine(sock.script, room, text) == NextLine(script0, bufsiz - 1, "")
      invariant Filled(was, text, buf[..])
      decreases Weight(sock.script)
    {
      ghost var r, before := Read(sock.script, 1, ""), buf[..];
      var got := sock.ReadTimeout(buf, at, 1);
      PutByte(was, text, before, at, r.bytes, buf[..]);
      if got != 1 {
        return RecvError;
      }
      if buf[at] == '\0' {
        assert buf[..|text|] == text;
        return RecvOk;
      }
      if buf[at] == '\n' {
        break;
      }
      if buf[at] != '\r' {
        KeepByte(was, text, buf[..], text + [buf[at]]);
        text := text + [buf[at]];
        at := at + 1;
        room := room - 1;
      }
    }
    buf[at] := '\0';
    assert buf[..|text|] == text;
    status := if room > 0 then RecvOk else RecvError;
  }

  /** `bufsiz--` on a size_t of 64 bits. */
  function Room(bufsiz: nat): nat {
    if bufsiz == 0 then 0xFFFF_FFFF_FFFF_FFFF else bufsiz - 1
  }

  /** The bytes a call stores: the text, and its NUL if it gets that far. */
  function Stored(script: seq<Event>, bufsiz: nat): nat {
    var r := NextLine(script, Room(bufsiz), "");
    |r.text| + if r.ended then 1 else 0
  }

  /** Everything stored stays inside the buffer on every script if and only if the buffer has a byte; with size
      zero the first character is already outside. */
  lemma StaysInsideIff(bufsiz: nat)
    ensures (forall script :: Stored(script, bufsiz) <= bufsiz) <==> bufsiz >= 1
  {
    if bufsiz == 0 {
      var script := [Data("a")];
      var room := Room(bufsiz);
      assert Read(script, 1, "") == Got(1, "a", []) by {
        assert script[1..] == [];
      }
      assert NextLine(script, room, "") == NextLine([], room - 1, "" + "a");
      assert Read([], 1, "").n == 0;
      assert Stored(script, bufsiz) == 1;
    }
  }

  predicate IsClean(text: string) {
    forall i :: 0 <= i < |text| ==> text[i] !in ['\0', '\n', '\r']
  }

  /** On every script, failing calls included, what is stored is free of carriage returns, newlines and NULs,
      so the NUL after it is its only one. */
  lemma {:induction false} StoresClean(script: seq<Event>, room: nat, text: string)
    requires IsClean(text)
    ensures IsClean(NextLine(script, room, text).text)
    decreases Weight(script), room
  {
    if room > 0 {
      var r := Read(script, 1, "");
      if r.n == 1 && r.bytes[0] !in ['\0', '\n'] {
        if r.bytes[0] == '\r' {
          StoresClean(r.rest, room, text);
        } else {
          StoresClean(r.rest, room - 1, text + r.bytes);
        }
      }
    }
  }

  function StripReturns(w: string): string {
    if w == "" then "" else (if w[0] == '\r' then "" else [w[0]]) + StripReturns(w[1..])
  }

  /** Where the first newline or NUL is; |h| if there is none. */
  function LineEnd(h: string): (k: nat)
    ensures k <= |h| && (forall i :: 0 <= i < k ==> h[i] != '\0' && h[i] != '\n')
    ensures k < |h| ==> h[k] == '\0' || h[k] == '\n'
  {
    if h == "" || h[0] == '\0' || h[0] == '\n' then 0 else 1 + LineEnd(h[1..])
  }

  /** The first line, without its carriage returns. */
  function FirstLine(h: string): string {
    StripReturns(h[..LineEnd(h)])
  }

  /** Exactly `j` of the bytes are gone. */
  ghost predicate Consumed(h: string, j: nat, rest: seq<Event>) {
    j <= |h| && Heard(rest) == h[j..]
  }

  /** The bytes consumed are just enough to give `stored`. */
  ghost predicate JustEnough(h: string, j: nat, rest: seq<Event>, stored: string) {
    Consumed(h, j, rest) && StripReturns(h[..j]) == stored && (j > 0 ==> h[j - 1] != '\r')
  }

  /** What a call comes to on any script.  It succeeds exactly if a newline or NUL arrives before a timeout, an error
      or a close, and before the room runs out; then it has stored the line without its carriage returns, and a NUL,
      and has consumed exactly through the newline or NUL.  If the room runs out it has stored as much as fits, with
      a NUL; if the bytes stop it has stored those that came, without a NUL. */
  ghost predicate Fate(r: Line, script: seq<Event>, room: nat, text: string) {
    var h, line := Heard(script), FirstLine(Heard(script));
    if |line| >= room then
      && r.status == RecvError && r.ended && r.text == text + line[..room]
      && exists j: nat :: JustEnough(h, j, r.rest, line[..room])
    else if LineEnd(h) < |h| then
      r.status == RecvOk && r.ended && r.text == text + line && Consumed(h, LineEnd(h) + 1, r.rest)
    else
      r.status == RecvError && !r.ended && r.text == text + line && r.rest == Tail(Stopped(script))
  }

  /** One more byte in front of a line. */
  lemma LineFront(c: char, g: string)
    requires c != '\n' && c != '\0'
    ensures LineEnd([c] + g) == LineEnd(g) + 1
    ensures FirstLine([c] + g) == (if c == '\r' then "" else [c]) + FirstLine(g)
  {
    var h, k := [c] + g, LineEnd(g);
    assert h[1..] == g;
    assert h[..k + 1] == [c] + g[..k];
    StripFront(c, g[..k]);
  }

  lemma StripFront(c: char, w: string)
    ensures StripReturns([c] + w) == (if c == '\r' then "" else [c]) + StripReturns(w)
  {
    assert ([c] + w)[1..] == w;
  }

  lemma ConsumedFront(c: char, g: string, j: nat, rest: seq<Event>)
    requires Consumed(g, j, rest)
    ensures Consumed([c] + g, j + 1, rest)
  {
    assert ([c] + g)[j + 1..] == g[j..];
  }

  lemma EnoughFront(c: char, g: string, j: nat, rest: seq<Event>, stored: string)
    requires JustEnough(g, j, rest, stored) && (c == '\r' ==> j > 0)
    ensures JustEnough([c] + g, j + 1, rest, (if c == '\r' then "" else [c]) + stored)
  {
    ConsumedFront(c, g, j, rest);
    StripFront(c, g[..j]);
    assert ([c] + g)[..j + 1] == [c] + g[..j];
  }

  lemma FateReturn(r: Line, script: seq<Event>, next: seq<Event>, room: nat, text: string)
    requires Heard(script) == ['\r'] + Heard(next) && Stopped(script) == Stopped(next)
    requires room > 0 && Fate(r, next, room, text)
    ensures Fate(r, script, room, text)
  {
    hide Heard, FirstLine, LineEnd, Consumed, JustEnough;
    var g, line := Heard(next), FirstLine(Heard(next));
    LineFront('\r', g);
    if |line| >= room {
      var j: nat :| JustEnough(g, j, r.rest, line[..room]);
      StoredNeeds(g, j, r.rest, line[..room]);
      EnoughFront('\r', g, j, r.rest, line[..room]);
      assert "" + line[..room] == line[..room] && "" + line == line;
    } else if LineEnd(g) < |g| {
      ConsumedFront('\r', g, LineEnd(g) + 1, r.rest);
    }
  }

  lemma StoredNeeds(h: string, j: nat, rest: seq<Event>, stored: string)
    requires JustEnough(h, j, rest, stored) && stored != ""
    ensures j > 0
  {
  }

  lemma FateStore(r: Line, script: seq<Event>, next: seq<Event>, room: nat, text: string, c: char)
    requires c != '\r' && c != '\n' && c != '\0'
    requires Heard(script) == [c] + Heard(next) && Stopped(script) == Stopped(next)
    requires room > 0 && Fate(r, next, room - 1, text + [c])
    ensures Fate(r, script, room, text)
  {
    hide Heard, FirstLine, LineEnd, Consumed, JustEnough;
    var g, line := Heard(next), FirstLine(Heard(next));
    LineFront(c, g);
    assert text + ([c] + line) == text + [c] + line;
    if |line| >= room - 1 {
      var j: nat :| JustEnough(g, j, r.rest, line[..room - 1]);
      EnoughFront(c, g, j, r.rest, line[..room - 1]);
      assert ([c] + line)[..room] == [c] + line[..room - 1];
      assert text + ([c] + line[..room - 1]) == text + [c] + line[..room - 1];
    } else if LineEnd(g) < |g| {
      ConsumedFront(c, g, LineEnd(g) + 1, r.rest);
    }
  }

  lemma {:induction false} LineFate(script: seq<Event>, room: nat, text: string)
    ensures Fate(NextLine(script, room, text), script, room, text)
    decreases Weight(script), room
  {
    hide Fate, Heard, Stopped, Fetches;
    if room == 0 {
      FateFull(script, text);
    } else if Heard(script) == "" {
      FateStopped(script, room, text);
    } else {
      var r, c := Read(script, 1, ""), Heard(script)[0];
      ReadByte(script);
      if c == '\0' || c == '\n' {
        FateEnded(NextLine(script, room, text), script, room, text);
      } else if c == '\r' {
        LineFate(r.rest, room, text);
        FateReturn(NextLine(r.rest, room, text), script, r.rest, room, text);
      } else {
        LineFate(r.rest, room - 1, text + [c]);
        FateStore(NextLine(r.rest, room - 1, text + [c]), script, r.rest, room, text, c);
      }
    }
  }

  lemma ReadByte(script: seq<Event>)
    requires Heard(script) != ""
    ensures
      var r := Read(script, 1, "");
      && r.n == 1 && r.bytes == [Heard(script)[0]]
      && Heard(script) == [Heard(script)[0]] + Heard(r.rest) && Stopped(script) == Stopped(r.rest)
  {
    hide Heard, Stopped, Read;
    ReadFetches(script, 1, "");
    assert "" + Heard(script)[..1] == [Heard(script)[0]];
    assert Heard(script) == [Heard(script)[0]] + Heard(script)[1..];
  }

  lemma FateFull(script: seq<Event>, text: string)
    ensures Fate(Line(RecvError, text, true, script), script, 0, text)
  {
    var h := Heard(script);
    assert h[..0] == "" && h[0..] == h && FirstLine(h)[..0] == "";
    assert StripReturns("") == "" && text + "" == text;
    assert JustEnough(h, 0, script, "");
  }

  lemma FateStopped(script: seq<Event>, room: nat, text: string)
    requires room > 0 && Heard(script) == ""
    ensures Fate(NextLine(script, room, text), script, room, text)
  {
    ReadFetches(script, 1, "");
    assert StripReturns("") == "" && text + "" == text;
  }

  lemma FateEnded(r: Line, script: seq<Event>, room: nat, text: string)
    requires room > 0 && Heard(script) != "" && Heard(script)[0] in ['\0', '\n']
    requires r.status == RecvOk && r.ended && r.text == text
    requires Heard(script) == [Heard(script)[0]] + Heard(r.rest)
    ensures Fate(r, script, room, text)
  {
    hide Heard;
    var h := Heard(script);
    assert h[..0] == "" && StripReturns("") == "" && text + "" == text && h[1..] == Heard(r.rest);
    assert Consumed(h, 1, r.rest);
  }

  /** What success means, without the details. */
  lemma FateStatus(script: seq<Event>, room: nat)
    ensures
      var r, h := NextLine(script, room, ""), Heard(script);
      && (r.status == RecvOk <==> LineEnd(h) < |h| && |FirstLine(h)| < room)
      && (r.status == RecvOk ==> r.ended && r.text == FirstLine(h))
  {
    LineFate(script, room, "");
    assert "" + FirstLine(Heard(script)) == FirstLine(Heard(script));
  }

  // ---------------------------------------------------------------- lines of a stream

  /** Every byte arrives: no timeout, no error, no close. */
  ghost predicate Flowing(script: seq<Event>) {
    forall i :: 0 <= i < |script| ==> script[i].Data? && script[i].bytes != ""
  }

  /** The bytes that arrive, however they are cut into pieces. */
  function Stream(script: seq<Event>): string {
    if script == [] then ""
    else (if script[0].Data? then script[0].bytes else "") + Stream(script[1..])
  }

  /** Reading one byte of a flowing stream takes its first byte. */
  lemma ReadOne(script: seq<Event>)
    requires Flowing(script) && Stream(script) != ""
    ensures
      var r := Read(script, 1, "");
      && r.n == 1 && r.bytes == [Stream(script)[0]]
      && Flowing(r.rest) && Stream(r.rest) == Stream(script)[1..]
  {
    assert script != [];
    var bytes := script[0].bytes;
    var rest := After(script, 1);
    assert Stream(script) == bytes + Stream(script[1..]);
    if |bytes| > 1 {
      assert rest[1..] == script[1..];
      assert Stream(rest) == bytes[1..] + Stream(script[1..]);
    } else {
      assert bytes == [bytes[0]];
    }
  }

  /** A line on the wire, without its newline; carriage returns may be anywhere in it. */
  predicate IsWire(w: string) {
    '\n' !in w && '\0' !in w
  }

  /** One turn of the line reader on a flowing stream whose next byte is `c`. */
  lemma TakeByte(script: seq<Event>, room: nat, text: string, c: char, more: string) returns (next: seq<Event>)
    requires Flowing(script) && Stream(script) == [c] + more && room > 0
    ensures Flowing(next) && Stream(next) == more
    ensures NextLine(script, room, text) ==
      if c == '\0' || c == '\n' then Line(RecvOk, text, true, next)
      else if c == '\r' then NextLine(next, room, text)
      else NextLine(next, room - 1, text + [c])
  {
    ReadOne(script);
    next := Read(script, 1, "").rest;
  }

  /** What a line of a flowing stream comes to: returned whole, without carriage returns and with exactly
      its own bytes and its newline consumed, if it fits; otherwise a failure with the buffer full. */
  ghost predicate Delivers(r: Line, text: string, line: string, tail: string, room: nat) {
    if |line| < room
    then r.status == RecvOk && r.text == text + line && r.ended && Flowing(r.rest) && Stream(r.rest) == tail
    else r.status == RecvError && r.text == text + line[..room] && r.ended
  }

  lemma PushFront(r: Line, text: string, c: char, text': string, line': string, line: string, tail: string,
                  room': nat, room: nat)
    requires text' == text + [c] && line == [c] + line' && room == room' + 1 && Delivers(r, text', line', tail, room')
    ensures Delivers(r, text, line, tail, room)
  {
    assert text' + line' == text + line;
    if |line| >= room {
      assert line[..room] == [c] + line'[..room'];
      assert text' + line'[..room'] == text + line[..room];
    }
  }

  lemma {:induction false} LineOfStream(script: seq<Event>, w: string, tail: string, room: nat, text: string)
    requires Flowing(script) && IsWire(w) && Stream(script) == w + "\n" + tail
    ensures Delivers(NextLine(script, room, text), text, StripReturns(w), tail, room)
    decreases |w|
  {
    if room == 0 {
      assert text + StripReturns(w)[..0] == text;
    } else if w == "" {
      var _ := TakeByte(script, room, text, '\n', tail);
    } else {
      var c, w', more := w[0], w[1..], w[1..] + "\n" + tail;
      assert IsWire(w') && c in w;
      assert Stream(script) == [c] + more;
      var next := TakeByte(script, room, text, c, more);
      if c == '\r' {
        LineOfStream(next, w', tail, room, text);
      } else {
        var text', room', line' := text + [c], room - 1, StripReturns(w');
        LineOfStream(next, w', tail, room', text');
        PushFront(NextLine(next, room', text'), text, c, text', line', StripReturns(w), tail, room', room);
      }
    }
  }

  /** A call succeeds on a line exactly when the line, carriage returns dropped, has at most bufsiz - 2
      characters (one less than the source's own comment says). */
  lemma FitsExactly(script: seq<Event>, w: string, tail: string, bufsiz: nat)
    requires Flowing(script) && IsWire(w) && Stream(script) == w + "\n" + tail && bufsiz >= 1
    ensures NextLine(script, bufsiz - 1, "").status == RecvOk <==> |StripReturns(w)| <= bufsiz - 2
  {
    LineOfStream(script, w, tail, bufsiz - 1, "");
  }

  function Wire(lines: seq<string>): string {
    if lines == [] then "" else lines[0] + "\n" + Wire(lines[1..])
  }

  function StripAll(lines: seq<string>): seq<string> {
    if lines == [] then [] else [StripReturns(lines[0])] + StripAll(lines[1..])
  }

  /** `n` calls in a row: their texts if all succeed, and the script left. */
  function Lines(script: seq<Event>, bufsiz: nat, n: nat): (r: (bool, seq<string>, seq<Event>))
    requires bufsiz >= 1
    decreases n
  {
    if n == 0 then (true, [], script)
    else
      var first := NextLine(script, bufsiz - 1, "");
      if first.status == RecvError then (false, [], first.rest)
      else
        var more := Lines(first.rest, bufsiz, n - 1);
        (more.0, [first.text] + more.1, more.2)
  }

  /** A stream of lines that fit: successive calls return the lines in order, carriage returns removed,
      and consume exactly through each newline, however the bytes are cut into pieces. */
  lemma {:induction false} LinesInOrder(script: seq<Event>, lines: seq<string>, tail: string, bufsiz: nat)
    requires bufsiz >= 1 && Flowing(script) && Stream(script) == Wire(lines) + tail
    requires forall i :: 0 <= i < |lines| ==> IsWire(lines[i]) && |StripReturns(lines[i])| <= bufsiz - 2
    ensures
      var r := Lines(script, bufsiz, |lines|);
      r.0 && r.1 == StripAll(lines) && Flowing(r.2) && Stream(r.2) == tail
    decreases |lines|
  {
    if lines != [] {
      var rest := Wire(lines[1..]) + tail;
      assert Stream(script) == lines[0] + "\n" + rest;
      LineOfStream(script, lines[0], rest, bufsiz - 1, "");
      var first := NextLine(script, bufsiz - 1, "");
      assert first.text == StripReturns(lines[0]);
      LinesInOrder(first.rest, lines[1..], tail, bufsiz);
    } else {
      assert Wire(lines) + tail == tail;
    }
  }
}
