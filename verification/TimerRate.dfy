/** How often a timer fires in the long run, given only the times at which the list is walked.  */
module TimerRate {

  /** The walk times at which a timer that expires at `e` and has value `v` fires, when each firing re-arms
      it at the walk's time plus `v` (a one-shot is dropped instead). */
  function Firings(e: nat, v: nat, once: bool, times: seq<nat>): seq<nat>
    decreases |times|
  {
    if times == [] then []
    else if e <= times[0] then [times[0]] + if once then [] else Firings(times[0] + v, v, once, times[1..])
    else Firings(e, v, once, times[1..])
  }

  lemma FiringsStep(e: nat, v: nat, once: bool, times: seq<nat>, k: nat)
    requires k < |times|
    ensures Firings(e, v, once, times[k..]) ==
      if e > times[k] then Firings(e, v, once, times[k + 1..])
      else if once then [times[k]]
      else [times[k]] + Firings(times[k] + v, v, once, times[k + 1..])
  {
    assert times[k..][0] == times[k] && times[k..][1..] == times[k + 1..];
  }

  /** The clock does not go back. */
  predicate Ascending(times: seq<nat>) {
    forall i, j :: 0 <= i <= j < |times| ==> times[i] <= times[j]
  }

  /** No two consecutive walks are more than `g` apart. */
  predicate GapsAtMost(times: seq<nat>, g: nat) {
    forall i :: 0 <= i < |times| - 1 ==> times[i + 1] <= times[i] + g
  }

  /** A firing happens at a walk, and never before the expiry. */
  lemma {:induction false} NeverEarly(e: nat, v: nat, once: bool, times: seq<nat>, k: nat)
    requires Ascending(times) && k < |Firings(e, v, once, times)|
    ensures e <= Firings(e, v, once, times)[k]
    ensures Firings(e, v, once, times)[k] in times
    decreases |times|
  {
    var rest := times[1..];
    if e <= times[0] {
      if k > 0 {
        NeverEarly(times[0] + v, v, once, rest, k - 1);
      }
    } else {
      NeverEarly(e, v, once, rest, k);
    }
  }

  /** A one-shot fires at most once: at the first walk not before its expiry, if there is one. */
  lemma {:induction false} OneShotOnce(e: nat, v: nat, times: seq<nat>)
    ensures |Firings(e, v, true, times)| <= 1
    ensures |Firings(e, v, true, times)| == 1 <==> exists i :: 0 <= i < |times| && e <= times[i]
    decreases |times|
  {
    if times != [] && !(e <= times[0]) {
      OneShotOnce(e, v, times[1..]);
      if i :| 0 <= i < |times| && e <= times[i] {
        assert times[1..][i - 1] == times[i];
      }
    }
  }

  /** The first firing comes less than one gap after the expiry, once a walk has happened before it. */
  lemma {:induction false} FirstFiring(e: nat, v: nat, times: seq<nat>, g: nat)
    requires Ascending(times) && GapsAtMost(times, g) && times != [] && times[0] < e
    ensures Firings(e, v, false, times) != [] ==> e <= Firings(e, v, false, times)[0] <= e + g - 1
    ensures Firings(e, v, false, times) == [] ==> times[|times| - 1] < e
    decreases |times|
  {
    var rest := times[1..];
    if rest != [] {
      assert rest[0] == times[1];
      if rest[0] < e {
        FirstFiring(e, v, rest, g);
      }
    }
  }

  /** Consecutive firings of a periodic timer are at least its value apart, and less than a gap more. */
  lemma {:induction false} Spacing(e: nat, v: nat, times: seq<nat>, g: nat, k: nat)
    requires Ascending(times) && GapsAtMost(times, g) && v >= 1 && g >= 1
    requires k + 1 < |Firings(e, v, false, times)|
    ensures
      var f := Firings(e, v, false, times);
      f[k] + v <= f[k + 1] <= f[k] + v + g - 1
    decreases |times|
  {
    var rest := times[1..];
    assert Ascending(rest) && GapsAtMost(rest, g);
    if e <= times[0] {
      if k > 0 {
        Spacing(times[0] + v, v, rest, g, k - 1);
      } else {
        FirstFiring(times[0] + v, v, times, g);
        assert Firings(times[0] + v, v, false, times) == Firings(times[0] + v, v, false, rest);
      }
    } else {
      Spacing(e, v, rest, g, k);
    }
  }

  /** Long-run rate: the n-th firing lies between (n-1) values and (n-1) values plus almost a gap each
      after the first. */
  lemma {:induction false} LongRunRate(e: nat, v: nat, times: seq<nat>, g: nat, n: nat)
    requires Ascending(times) && GapsAtMost(times, g) && v >= 1 && g >= 1
    requires n < |Firings(e, v, false, times)|
    ensures
      var f := Firings(e, v, false, times);
      f[0] + n * v <= f[n] <= f[0] + n * (v + g - 1)
  {
    if n > 0 {
      LongRunRate(e, v, times, g, n - 1);
      Spacing(e, v, times, g, n - 1);
    }
  }

  /** And it keeps firing: when the walks end, the last firing is less than one value old. */
  lemma {:induction false} KeepsFiring(e: nat, v: nat, times: seq<nat>)
    requires Ascending(times) && v >= 1 && times != [] && Firings(e, v, false, times) != []
    ensures
      var f := Firings(e, v, false, times);
      times[|times| - 1] < f[|f| - 1] + v
    decreases |times|
  {
    var rest := times[1..];
    assert Ascending(rest);
    if e <= times[0] {
      if Firings(times[0] + v, v, false, rest) != [] {
        KeepsFiring(times[0] + v, v, rest);
      } else if rest != [] {
        NoFiring(times[0] + v, v, rest);
      }
    } else {
      KeepsFiring(e, v, rest);
    }
  }

  lemma {:induction false} NoFiring(e: nat, v: nat, times: seq<nat>)
    requires Ascending(times) && times != [] && Firings(e, v, false, times) == []
    ensures times[|times| - 1] < e
    decreases |times|
  {
    if |times| > 1 {
      NoFiring(e, v, times[1..]);
    }
  }
}
