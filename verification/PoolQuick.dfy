/** Quick-free: `Terminate(true)` has the workers delete tasks without running them.  */
module PoolQuick {
  import opened Options
  import opened PoolModel
  import opened PoolConservation
  import opened PoolShutdown
  import opened PoolExit

  /** Quick-free is set exactly if `Terminate` has been called so. */
  lemma {:induction false} QuickIffAsked(s: State, run: seq<Action>)
    requires IsRun(s, run) && s.term == NotCalled && !s.quickFree
    ensures Exec(s, run).quickFree <==> StartTerminate(true) in run
    decreases |run|
  {
    hide Next, Enabled;
    if run != [] {
      var s1 := Next(s, run[0]);
      QuickStep(s, run[0]);
      assert run == [run[0]] + run[1..];
      if s1.term == NotCalled {
        QuickIffAsked(s1, run[1..]);
      } else {
        QuickStays(s1, run[1..]);
      }
    }
  }

  lemma QuickStep(s: State, a: Action)
    requires Enabled(s, a)
    ensures
      var s' := Next(s, a);
      && (a.StartTerminate? ==> s.term == NotCalled && s'.term != NotCalled && s'.quickFree == a.quick)
      && (!a.StartTerminate? ==> s'.quickFree == s.quickFree && (s'.term == NotCalled <==> s.term == NotCalled))
  {
    match a
    case Submit(i, hint, now) => SubmitQuick(s, i, hint, now);
    case Work(w, now) => WorkShape(s, w, now);
    case Terminate(hint) =>
    case Age(hint) =>
    case _ =>
  }

  lemma SubmitQuick(s: State, i: Sid, hint: Option<Wid>, now: int)
    requires CanSubmit(s, i, hint)
    ensures SubmitNext(s, i, hint, now).quickFree == s.quickFree && SubmitNext(s, i, hint, now).term == s.term
  {
  }

  /** Once called, it is not called again. */
  lemma {:induction false} QuickStays(s: State, run: seq<Action>)
    requires IsRun(s, run) && s.term != NotCalled
    ensures Exec(s, run).quickFree == s.quickFree && StartTerminate(true) !in run
    decreases |run|
  {
    hide Next, Enabled;
    if run != [] {
      QuickStep(s, run[0]);
      QuickStays(Next(s, run[0]), run[1..]);
      assert run == [run[0]] + run[1..];
    }
  }

  /** Worker `w` is not about to run `t`. */
  ghost predicate NotAbout(s: State, w: Wid, t: Task) {
    w in s.workers ==> s.workers[w].pc != RunTask(t)
  }

  /** From then on no worker runs a task that it was not already about to run. */
  lemma {:induction false} RunsNoMore(s: State, run: seq<Action>, w: Wid, t: Task)
    requires IsRun(s, run) && s.quickFree && s.term != NotCalled && NotAbout(s, w, t)
    ensures Ran(w, t) in Exec(s, run).log ==> Ran(w, t) in s.log
    decreases |run|
  {
    hide Next, Enabled, NotAbout;
    if run != [] {
      QuickStep(s, run[0]);
      NotAboutStays(s, run[0], w, t);
      RunsNoMore(Next(s, run[0]), run[1..], w, t);
    }
  }

  lemma NotAboutStays(s: State, a: Action, w: Wid, t: Task)
    requires Enabled(s, a) && s.quickFree && NotAbout(s, w, t)
    ensures NotAbout(Next(s, a), w, t)
    ensures Ran(w, t) in Next(s, a).log ==> Ran(w, t) in s.log
  {
    match a
    case Work(v, now) => WorkAbout(s, v, now, w, t);
    case Submit(i, hint, now) => SubmitAbout(s, i, hint, now, w, t);
    case Age(hint) => AgeAbout(s, hint, w, t);
    case Terminate(hint) => TerminateAbout(s, hint, w, t);
    case _ =>
  }

  lemma WorkAbout(s: State, v: Wid, now: int, w: Wid, t: Task)
    requires CanWork(s, v) && s.quickFree && NotAbout(s, w, t)
    ensures NotAbout(WorkNext(s, v, now), w, t)
    ensures Ran(w, t) in WorkNext(s, v, now).log ==> Ran(w, t) in s.log
  {
  }

  lemma SubmitAbout(s: State, i: Sid, hint: Option<Wid>, now: int, w: Wid, t: Task)
    requires CanSubmit(s, i, hint) && NotAbout(s, w, t)
    ensures NotAbout(SubmitNext(s, i, hint, now), w, t)
    ensures Ran(w, t) in SubmitNext(s, i, hint, now).log ==> Ran(w, t) in s.log
  {
  }

  lemma AgeAbout(s: State, hint: Option<Wid>, w: Wid, t: Task)
    requires CanAge(s, hint) && NotAbout(s, w, t)
    ensures NotAbout(AgeNext(s, hint), w, t) && AgeNext(s, hint).log == s.log
  {
  }

  lemma TerminateAbout(s: State, hint: Option<Wid>, w: Wid, t: Task)
    requires CanTerminate(s, hint) && NotAbout(s, w, t)
    ensures NotAbout(TerminateNext(s, hint), w, t) && TerminateNext(s, hint).log == s.log
  {
  }

  /** What becomes of tasks under quick-free.  Take any run from `Init` in which `Terminate(true)` is called, and any
      continuation.  A task that a worker has disposed of by then, and had neither run nor been about to run when the
      flag was set, was passed over: pushed, popped, skipped and deleted, and never run.  Without such a call every
      disposed task was run. */
  lemma QuickFreeSkips(lo: nat, hi: nat, sids: set<Sid>, before: seq<Action>, after: seq<Action>, w: Wid, t: Task)
    requires InitPool(lo, hi, sids).Some? && IsRun(InitPool(lo, hi, sids).value, before)
    requires
      var s := Exec(InitPool(lo, hi, sids).value, before);
      IsRun(s, after) && Disposed(Hist(Exec(s, after).log, t), w, t, Exec(s, after).quickFree)
    ensures
      var s := Exec(InitPool(lo, hi, sids).value, before);
      var h := Hist(Exec(s, after).log, t);
      && (StartTerminate(true) in before && NotAbout(s, w, t) && Ran(w, t) !in s.log ==>
            h == [Pushed(t), Popped(w, t), Skipped(w, t), Deleted(w, t)])
      && (StartTerminate(true) !in before + after ==>
            h == [Pushed(t), Popped(w, t), Ran(w, t), Deleted(w, t)])
  {
    hide IsRun, Exec, Hist, NotAbout;
    var s0 := Fresh(lo, hi, sids);
    var s := Exec(s0, before);
    var s' := Exec(s, after);
    var h := Hist(s'.log, t);
    assert h == h[..3] + [h[3]];
    QuickIffAsked(s0, before);
    Then(s0, before, after);
    QuickIffAsked(s0, before + after);
    if StartTerminate(true) in before && NotAbout(s, w, t) && Ran(w, t) !in s.log {
      Called(s0, before);
      RunsNoMore(s, after, w, t);
      if Ran(w, t) in h {
        HistIn(s'.log, t, Ran(w, t));
      }
      assert h[..3][2] in h;
    }
  }

  lemma {:induction false} Called(s: State, run: seq<Action>)
    requires IsRun(s, run) && StartTerminate(true) in run
    ensures Exec(s, run).term != NotCalled
    decreases |run|
  {
    hide Next, Enabled;
    if run[0].StartTerminate? {
      QuickStep(s, run[0]);
      StaysCalled(Next(s, run[0]), run[1..]);
    } else {
      assert run == [run[0]] + run[1..];
      Called(Next(s, run[0]), run[1..]);
    }
  }

  lemma {:induction false} StaysCalled(s: State, run: seq<Action>)
    requires IsRun(s, run) && s.term != NotCalled
    ensures Exec(s, run).term != NotCalled
    decreases |run|
  {
    hide Next, Enabled;
    if run != [] {
      QuickStep(s, run[0]);
      StaysCalled(Next(s, run[0]), run[1..]);
    }
  }

  /** The history holds only what the log holds. */
  lemma {:induction false} HistIn(log: seq<Event>, t: Task, e: Event)
    requires e in Hist(log, t)
    ensures e in log
    decreases |log|
  {
    var n := |log| - 1;
    if e in Hist(log[..n], t) {
      HistIn(log[..n], t, e);
    } else {
      assert e == log[n];
    }
  }
}
