/** What the ageing thread reads: the stamp of a worker is the clock of its last completed task, and what that says
    about whom a pass takes out.  */
module PoolStamp {
  import opened Options
  import opened PoolModel
  import opened PoolConservation
  import opened PoolShutdown
  import opened PoolExit
  import opened PoolReturn

  // ---------------------------------------------------------------- moments of a run

  /** The state before action `k` of the run. */
  ghost function Before(s: State, run: seq<Action>, k: nat): State
    requires IsRun(s, run) && k <= |run|
  {
    PrefixRuns(s, run, k);
    Exec(s, run[..k])
  }

  lemma {:induction false} PrefixRuns(s: State, run: seq<Action>, k: nat)
    requires IsRun(s, run) && k <= |run|
    ensures IsRun(s, run[..k])
    decreases k
  {
    if k > 0 {
      PrefixRuns(Next(s, run[0]), run[1..], k - 1);
      assert run[..k][1..] == run[1..][..k - 1];
    }
  }

  /** A run and its last action. */
  lemma {:induction false} LastAction(s: State, run: seq<Action>)
    requires IsRun(s, run) && run != []
    ensures
      var n := |run| - 1;
      && IsRun(s, run[..n]) && Enabled(Exec(s, run[..n]), run[n])
      && Exec(s, run) == Next(Exec(s, run[..n]), run[n])
    decreases |run|
  {
    var n := |run| - 1;
    if n > 0 {
      LastAction(Next(s, run[0]), run[1..]);
      assert run[..n][1..] == run[1..][..n - 1];
    } else {
      assert run[..0] == [] && run[1..] == [];
    }
  }

  /** Earlier moments do not depend on what comes later. */
  lemma SameBefore(s: State, run: seq<Action>, n: nat, k: nat)
    requires IsRun(s, run) && k <= n <= |run|
    ensures IsRun(s, run[..n]) && Before(s, run[..n], k) == Before(s, run, k)
  {
    PrefixRuns(s, run, n);
    assert run[..n][..k] == run[..k];
  }

  predicate By(a: Action, w: Wid) {
    a.Work? && a.wid == w
  }

  /** Action `j` is worker `w` deleting a task. */
  ghost predicate Deletes(s: State, run: seq<Action>, j: nat, w: Wid)
    requires IsRun(s, run)
  {
    && j < |run| && By(run[j], w)
    && exists t :: Before(s, run, j + 1).log == Before(s, run, j).log + [Deleted(w, t)]
  }

  /** Action `j` was the last of worker `w` before `k`, and it deleted a task. */
  ghost predicate JustDeleted(s: State, run: seq<Action>, k: nat, j: nat, w: Wid)
    requires IsRun(s, run)
  {
    j < k <= |run| && Deletes(s, run, j, w) && forall i :: j < i < k ==> !By(run[i], w)
  }

  /** The last action of worker `w` before `k` deleted a task. */
  ghost predicate Pending(s: State, run: seq<Action>, k: nat, w: Wid)
    requires IsRun(s, run)
  {
    exists j: nat :: JustDeleted(s, run, k, j, w)
  }

  /** Action `k` of the run completes a task of worker `w`: it is the worker's next action after the deletion. */
  ghost predicate Completes(s: State, run: seq<Action>, k: nat, w: Wid)
    requires IsRun(s, run)
  {
    k < |run| && By(run[k], w) && Pending(s, run, k, w)
  }

  /** Action `k` creates worker `w`. */
  ghost predicate Creates(s: State, run: seq<Action>, k: nat, w: Wid)
    requires IsRun(s, run)
  {
    k < |run| && run[k].Submit? && run[k].hint == Some(w) && w !in Before(s, run, k).workers
    && w in Before(s, run, k + 1).workers
  }

  /** Action `k` completes a task of worker `w`, and no later one does. */
  ghost predicate CompletesLast(s: State, run: seq<Action>, k: nat, w: Wid)
    requires IsRun(s, run)
  {
    Completes(s, run, k, w) && forall m: nat :: k < m ==> !Completes(s, run, m, w)
  }

  /** `clock` is that of the worker's last completed task, or if it has none of its creation; the workers that
      `Init` makes are created at clock 0. */
  ghost predicate LastClock(s: State, run: seq<Action>, w: Wid, clock: int)
    requires IsRun(s, run)
  {
    if exists k: nat :: Completes(s, run, k, w) then
      exists k: nat :: CompletesLast(s, run, k, w) && clock == run[k].now
    else if w in s.workers then clock == 0
    else exists k: nat :: Creates(s, run, k, w) && clock == run[k].now
  }

  // ---------------------------------------------------------------- one action more

  /** `run` goes on from `front`. */
  ghost predicate GoesOn(s: State, front: seq<Action>, run: seq<Action>) {
    front <= run && IsRun(s, run) && IsRun(s, front)
  }

  /** ... by one action. */
  ghost predicate OneMore(s: State, front: seq<Action>, a: Action, run: seq<Action>) {
    run == front + [a] && IsRun(s, run) && IsRun(s, front)
  }

  lemma FrontMoments(s: State, front: seq<Action>, run: seq<Action>, k: nat)
    requires GoesOn(s, front, run) && k <= |front|
    ensures Before(s, front, k) == Before(s, run, k)
    ensures Before(s, run, |front|) == Exec(s, front) && Before(s, run, |run|) == Exec(s, run)
  {
    assert run[..|front|] == front && run[..|run|] == run;
    SameBefore(s, run, |front|, k);
  }

  lemma FrontDeletes(s: State, front: seq<Action>, run: seq<Action>, j: nat, w: Wid)
    requires GoesOn(s, front, run) && j < |front|
    ensures Deletes(s, run, j, w) <==> Deletes(s, front, j, w)
  {
    hide IsRun, Exec;
    FrontMoments(s, front, run, j);
    FrontMoments(s, front, run, j + 1);
  }

  lemma FrontPending(s: State, front: seq<Action>, run: seq<Action>, k: nat, w: Wid)
    requires GoesOn(s, front, run) && k <= |front|
    ensures Pending(s, run, k, w) <==> Pending(s, front, k, w)
  {
    hide IsRun, Deletes;
    assert forall i :: 0 <= i < |front| ==> run[i] == front[i];
    forall j: nat ensures JustDeleted(s, run, k, j, w) <==> JustDeleted(s, front, k, j, w) {
      if j < k {
        FrontDeletes(s, front, run, j, w);
      }
    }
  }

  lemma FrontCompletes(s: State, front: seq<Action>, run: seq<Action>, k: nat, w: Wid)
    requires GoesOn(s, front, run) && k < |front|
    ensures Completes(s, run, k, w) <==> Completes(s, front, k, w)
  {
    hide IsRun, Pending;
    FrontPending(s, front, run, k, w);
  }

  lemma FrontCreates(s: State, front: seq<Action>, run: seq<Action>, k: nat, w: Wid)
    requires GoesOn(s, front, run) && k < |front|
    ensures Creates(s, run, k, w) <==> Creates(s, front, k, w)
  {
    hide IsRun;
    FrontMoments(s, front, run, k);
    FrontMoments(s, front, run, k + 1);
  }

  /** What a step of `w` does to its own stamp ... */
  lemma OwnStamp(s: State, w: Wid, now: int)
    requires CanWork(s, w)
    ensures
      var s' := WorkNext(s, w, now);
      && w in s'.workers
      && (s'.workers[w].pc == Stamp <==> s.workers[w].pc.DeleteTask?)
      && s'.workers[w].stamp == (if s.workers[w].pc == Stamp then now else s.workers[w].stamp)
      && ((exists t :: s'.log == s.log + [Deleted(w, t)]) <==> s.workers[w].pc.DeleteTask?)
  {
    var s' := WorkNext(s, w, now);
    if t :| s'.log == s.log + [Deleted(w, t)] {
      assert s'.log[|s.log|] == Deleted(w, t);
    }
  }

  /** ... and a step of another thread does nothing to it. */
  lemma OtherStamp(s: State, a: Action, w: Wid)
    requires Enabled(s, a) && w in s.workers && !By(a, w)
    ensures
      var s' := Next(s, a);
      && w in s'.workers && s'.workers[w].stamp == s.workers[w].stamp
      && (s'.workers[w].pc == Stamp <==> s.workers[w].pc == Stamp)
  {
    match a
    case Submit(i, hint, now) => SubmitStamp(s, i, hint, now, w);
    case Work(v, now) => WorkShape(s, v, now);
    case Age(hint) => AgeStamps(s, hint, w);
    case Terminate(hint) => TerminateStamps(s, hint, w);
    case _ =>
  }

  lemma SubmitStamp(s: State, i: Sid, hint: Option<Wid>, now: int, w: Wid)
    requires CanSubmit(s, i, hint) && w in s.workers
    ensures
      var s' := SubmitNext(s, i, hint, now);
      && w in s'.workers && s'.workers[w].stamp == s.workers[w].stamp
      && (s'.workers[w].pc == Stamp <==> s.workers[w].pc == Stamp)
  {
  }

  lemma AgeStamps(s: State, hint: Option<Wid>, w: Wid)
    requires CanAge(s, hint) && w in s.workers
    ensures
      var s' := AgeNext(s, hint);
      w in s'.workers && s'.workers[w].stamp == s.workers[w].stamp && s'.workers[w].pc == s.workers[w].pc
  {
  }

  lemma TerminateStamps(s: State, hint: Option<Wid>, w: Wid)
    requires CanTerminate(s, hint) && w in s.workers
    ensures
      var s' := TerminateNext(s, hint);
      w in s'.workers && s'.workers[w].stamp == s.workers[w].stamp && s'.workers[w].pc == s.workers[w].pc
  {
  }

  /** A worker that appears was just made, and is stamped with that clock. */
  lemma NewStamp(s: State, a: Action, w: Wid)
    requires Enabled(s, a) && w !in s.workers && w in Next(s, a).workers
    ensures a.Submit? && a.hint == Some(w) && Next(s, a).workers[w].stamp == a.now
    ensures Next(s, a).workers[w].pc != Stamp
  {
    match a
    case Submit(i, hint, now) =>
    case Call(i, arg) =>
    case _ => OtherShape(s, a);
  }

  lemma StaysMade(s: State, a: Action, w: Wid)
    requires Enabled(s, a) && w in s.workers
    ensures w in Next(s, a).workers
  {
    if By(a, w) {
      WorkShape(s, w, a.now);
    } else {
      OtherStamp(s, a, w);
    }
  }

  /** A worker that does not exist has done nothing. */
  lemma {:induction false} NothingBefore(s: State, run: seq<Action>, w: Wid)
    requires IsRun(s, run) && w !in Exec(s, run).workers
    ensures w !in s.workers && forall k :: 0 <= k < |run| ==> !By(run[k], w)
    decreases |run|
  {
    if run != [] {
      NothingBefore(Next(s, run[0]), run[1..], w);
      forall k | 0 <= k < |run| ensures !By(run[k], w) {
        if k > 0 {
          assert run[k] == run[1..][k - 1];
        }
      }
      if w in s.workers {
        StaysMade(s, run[0], w);
      }
    }
  }

  // ---------------------------------------------------------------- the stamp is the last clock

  /** What holds of the stamp after a run. */
  ghost predicate Tracked(s: State, run: seq<Action>, w: Wid)
    requires IsRun(s, run) && w in Exec(s, run).workers
  {
    var me := Exec(s, run).workers[w];
    LastClock(s, run, w, me.stamp) && (me.pc == Stamp <==> Pending(s, run, |run|, w))
  }

  lemma {:induction false} StampTracked(lo: nat, hi: nat, sids: set<Sid>, run: seq<Action>, w: Wid)
    requires IsRun(Fresh(lo, hi, sids), run) && w in Exec(Fresh(lo, hi, sids), run).workers
    ensures Tracked(Fresh(lo, hi, sids), run, w)
    decreases |run|
  {
    hide IsRun, Next, Enabled, LastClock, Pending, Tracked;
    var s := Fresh(lo, hi, sids);
    if run == [] {
      TrackedAtInit(lo, hi, sids, w);
    } else {
      var front, a := run[..|run| - 1], run[|run| - 1];
      LastAction(s, run);
      assert OneMore(s, front, a, run);
      if w in Exec(s, front).workers {
        StampTracked(lo, hi, sids, front, w);
        TrackedStep(s, front, a, run, w);
      } else {
        TrackedNew(s, front, a, run, w);
      }
    }
  }

  lemma TrackedAtInit(lo: nat, hi: nat, sids: set<Sid>, w: Wid)
    requires w in Fresh(lo, hi, sids).workers
    ensures IsRun(Fresh(lo, hi, sids), []) && Exec(Fresh(lo, hi, sids), []) == Fresh(lo, hi, sids)
    ensures Tracked(Fresh(lo, hi, sids), [], w)
  {
  }

  lemma LastOfMore(s: State, front: seq<Action>, a: Action, run: seq<Action>)
    requires OneMore(s, front, a, run)
    ensures Enabled(Exec(s, front), a) && Exec(s, run) == Next(Exec(s, front), a)
  {
    LastAction(s, run);
    assert run[..|run| - 1] == front;
  }

  lemma TrackedNew(s: State, front: seq<Action>, a: Action, run: seq<Action>, w: Wid)
    requires OneMore(s, front, a, run) && w in Exec(s, run).workers && w !in Exec(s, front).workers
    ensures Tracked(s, run, w)
  {
    hide IsRun, Exec, Next, Enabled;
    LastOfMore(s, front, a, run);
    NothingBefore(s, front, w);
    NewStamp(Exec(s, front), a, w);
    FrontMoments(s, front, run, |front|);
    forall k | 0 <= k < |run| ensures !By(run[k], w) {
      if k < |front| {
        assert run[k] == front[k];
      }
    }
    assert Creates(s, run, |front|, w);
  }

  /** Whether the last action deletes a task. */
  lemma LastDeletes(s: State, front: seq<Action>, a: Action, run: seq<Action>, w: Wid)
    requires OneMore(s, front, a, run) && w in Exec(s, front).workers
    ensures Deletes(s, run, |front|, w) <==> By(a, w) && Exec(s, front).workers[w].pc.DeleteTask?
  {
    hide IsRun, Exec, Next;
    LastOfMore(s, front, a, run);
    FrontMoments(s, front, run, |front|);
    if By(a, w) {
      StepIsWork(Exec(s, front), a, w);
      OwnStamp(Exec(s, front), w, a.now);
    }
  }

  lemma StepIsWork(s: State, a: Action, w: Wid)
    requires Enabled(s, a) && By(a, w)
    ensures CanWork(s, w) && Next(s, a) == WorkNext(s, w, a.now)
  {
  }

  lemma LastPending(s: State, front: seq<Action>, a: Action, run: seq<Action>, w: Wid)
    requires OneMore(s, front, a, run) && w in Exec(s, front).workers
    ensures Pending(s, run, |run|, w) <==>
      if By(a, w) then Exec(s, front).workers[w].pc.DeleteTask? else Pending(s, front, |front|, w)
  {
    hide IsRun, Exec, Deletes;
    LastDeletes(s, front, a, run, w);
    assert run[|front|] == a;
    if By(a, w) {
      assert Deletes(s, run, |front|, w) ==> JustDeleted(s, run, |run|, |front|, w);
    } else {
      FrontPending(s, front, run, |front|, w);
      assert !Deletes(s, run, |front|, w);
      forall j: nat ensures JustDeleted(s, run, |run|, j, w) <==> JustDeleted(s, run, |front|, j, w) {
      }
    }
  }

  lemma TrackedStep(s: State, front: seq<Action>, a: Action, run: seq<Action>, w: Wid)
    requires OneMore(s, front, a, run) && w in Exec(s, front).workers
    requires w in Exec(s, run).workers && Tracked(s, front, w)
    ensures Tracked(s, run, w)
  {
    hide IsRun, Exec, Next, Enabled, Pending, LastClock;
    var c := Exec(s, front);
    LastOfMore(s, front, a, run);
    LastPending(s, front, a, run, w);
    FrontPending(s, front, run, |front|, w);
    if By(a, w) {
      StepIsWork(c, a, w);
      OwnStamp(c, w, a.now);
    } else {
      OtherStamp(c, a, w);
    }
    ClockStep(s, front, a, run, w, c.workers[w].stamp, Exec(s, run).workers[w].stamp);
  }

  lemma ClockStep(s: State, front: seq<Action>, a: Action, run: seq<Action>, w: Wid, was: int, clock: int)
    requires OneMore(s, front, a, run) && LastClock(s, front, w, was)
    requires if Completes(s, run, |front|, w) then a.Work? && clock == a.now else clock == was
    ensures LastClock(s, run, w, clock)
  {
    hide IsRun, Completes, Creates;
    forall k: nat | k < |front| ensures Completes(s, run, k, w) <==> Completes(s, front, k, w) {
      FrontCompletes(s, front, run, k, w);
    }
    NoneBeyond(s, run, w);
    NoneBeyond(s, front, w);
    if !Completes(s, run, |front|, w) {
      assert forall k: nat :: Completes(s, run, k, w) <==> Completes(s, front, k, w);
      if k: nat :| CompletesLast(s, front, k, w) && was == front[k].now {
        assert CompletesLast(s, run, k, w) && run[k] == front[k];
      } else if w !in s.workers {
        var k: nat :| Creates(s, front, k, w) && was == front[k].now;
        FrontCreates(s, front, run, k, w);
      }
    }
  }

  lemma NoneBeyond(s: State, run: seq<Action>, w: Wid)
    requires IsRun(s, run)
    ensures forall k: nat :: Completes(s, run, k, w) ==> k < |run| && run[k].Work?
    ensures forall k: nat :: Creates(s, run, k, w) ==> k < |run| && run[k].Submit?
  {
  }

  /** After any run from `Init`, the stamp of every worker is the clock of its last completed task, or of its
      creation if it has completed none. */
  lemma StampIsLastClock(lo: nat, hi: nat, sids: set<Sid>, run: seq<Action>, w: Wid)
    requires InitPool(lo, hi, sids).Some? && IsRun(InitPool(lo, hi, sids).value, run)
    requires w in Exec(InitPool(lo, hi, sids).value, run).workers
    ensures LastClock(InitPool(lo, hi, sids).value, run, w, Exec(InitPool(lo, hi, sids).value, run).workers[w].stamp)
  {
    StampTracked(lo, hi, sids, run, w);
  }

  // ---------------------------------------------------------------- the busy flag

  /** In every reachable state a worker is busy exactly if it has begun a task and not yet completed it: from before
      the quick-free test, through the run and the deletion, until after its stamp is stored.  A worker that has only
      popped a task is not. */
  lemma BusyIsWorking(lo: nat, hi: nat, sids: set<Sid>, run: seq<Action>, w: Wid)
    requires InitPool(lo, hi, sids).Some? && IsRun(InitPool(lo, hi, sids).value, run)
    requires w in Exec(InitPool(lo, hi, sids).value, run).workers
    ensures
      var s := Exec(InitPool(lo, hi, sids).value, run);
      var pc := s.workers[w].pc;
      && (s.workers[w].busy <==> pc.TestQuick? || pc.RunTask? || pc.DeleteTask? || pc == Stamp || pc == ClearBusy)
      && (forall t :: Held(pc) == Some(t) ==> s.workers[w].busy || pc == MarkBusy(t))
      && (Pending(InitPool(lo, hi, sids).value, run, |run|, w) ==> s.workers[w].busy)
  {
    hide IsRun, Exec, Next, Enabled, Pending, LastClock;
    var s := Fresh(lo, hi, sids);
    InitReached(lo, hi, sids);
    RunReached(s, run);
    assert StatusFits(Exec(s, run).workers[w]);
    StampTracked(lo, hi, sids, run, w);
  }

  // ---------------------------------------------------------------- whom a pass takes out

  /** The ageing thread is about to tell `w`, or to take it out, in a pass for `age`. */
  predicate Aimed(ager: AgePc, age: int, w: Wid) {
    (ager.AgeTell? || ager.AgeErase?) && ager.age == age && ager.wid == w
  }

  /** At action `n` the pass read the stamp of `w`, found that its last task was completed not after `age`, and has
      been about to tell it or take it out since. */
  ghost predicate FoundOld(s: State, run: seq<Action>, n: nat, age: int, w: Wid)
    requires IsRun(s, run)
  {
    && n < |run| && run[n].Age? && IsRun(s, run[..n]) && Before(s, run, n).ager.AgeStamp?
    && (exists clock :: LastClock(s, run[..n], w, clock) && clock <= age)
    && forall m :: n < m <= |run| ==> Aimed(Before(s, run, m).ager, age, w)
  }

  lemma FoundOldStays(s: State, front: seq<Action>, a: Action, run: seq<Action>, n: nat, age: int, w: Wid)
    requires OneMore(s, front, a, run) && FoundOld(s, front, n, age, w) && Aimed(Exec(s, run).ager, age, w)
    ensures FoundOld(s, run, n, age, w)
  {
    hide IsRun, Exec, LastClock;
    assert run[..n] == front[..n] && run[n] == front[n];
    forall m | n < m <= |run| ensures Aimed(Before(s, run, m).ager, age, w) {
      FrontMoments(s, front, run, if m <= |front| then m else 0);
    }
    FrontMoments(s, front, run, n);
  }

  lemma FoundOldNow(s: State, front: seq<Action>, a: Action, run: seq<Action>, age: int, w: Wid)
    requires OneMore(s, front, a, run) && a.Age? && Exec(s, front).ager.AgeStamp?
    requires w in Exec(s, front).workers && LastClock(s, front, w, Exec(s, front).workers[w].stamp)
    requires Exec(s, front).workers[w].stamp <= age && Aimed(Exec(s, run).ager, age, w)
    ensures FoundOld(s, run, |front|, age, w)
  {
    hide IsRun, Exec, LastClock;
    assert run[..|front|] == front && run[|front|] == a;
    FrontMoments(s, front, run, |front|);
  }

  lemma AimStep(s: State, a: Action, age: int, w: Wid)
    requires Enabled(s, a) && Aimed(Next(s, a).ager, age, w)
    ensures Aimed(s.ager, age, w) ||
      (a.Age? && s.ager.AgeStamp? && s.ager.age == age && w in s.workers && s.workers[w].stamp <= age)
  {
    match a
    case Submit(i, hint, now) => SubmitAim(s, i, hint, now);
    case Work(v, now) => WorkShape(s, v, now);
    case Terminate(hint) => TerminateShape(s, hint);
    case _ =>
  }

  lemma {:induction false} AimedWasOld(lo: nat, hi: nat, sids: set<Sid>, run: seq<Action>, age: int, w: Wid)
    requires IsRun(Fresh(lo, hi, sids), run) && Aimed(Exec(Fresh(lo, hi, sids), run).ager, age, w)
    ensures exists n: nat :: FoundOld(Fresh(lo, hi, sids), run, n, age, w)
    decreases |run|
  {
    hide IsRun, Next, Enabled, LastClock, FoundOld, Aimed;
    var s := Fresh(lo, hi, sids);
    if run == [] {
      NotAimedAtInit(lo, hi, sids, age, w);
    } else {
      var front, a := run[..|run| - 1], run[|run| - 1];
      LastAction(s, run);
      assert OneMore(s, front, a, run);
      AimStep(Exec(s, front), a, age, w);
      if Aimed(Exec(s, front).ager, age, w) {
        AimedWasOld(lo, hi, sids, front, age, w);
        var n: nat :| FoundOld(s, front, n, age, w);
        FoundOldStays(s, front, a, run, n, age, w);
      } else {
        StampTracked(lo, hi, sids, front, w);
        FoundOldNow(s, front, a, run, age, w);
      }
    }
  }

  lemma NotAimedAtInit(lo: nat, hi: nat, sids: set<Sid>, age: int, w: Wid)
    requires IsRun(Fresh(lo, hi, sids), [])
    ensures !Aimed(Exec(Fresh(lo, hi, sids), []).ager, age, w)
  {
  }

  /** The clock does not go back for worker `w`. */
  ghost predicate Ascends(run: seq<Action>, w: Wid) {
    forall i, j :: 0 <= i < j < |run| && By(run[i], w) && By(run[j], w) ==> run[i].now <= run[j].now
  }

  /** Whom ageing tells and takes out: over every run from `Init`, a pass for `age` does so only with a worker whose
      last task, or creation, was not after `age` when the pass read its stamp.  So, with a clock that does not go
      back, a worker that had completed a task after `age` by then is spared; one that does so between the reading
      and the order is not (`RecentIsTold`). */
  lemma AgeingTellsOnlyOld(lo: nat, hi: nat, sids: set<Sid>, run: seq<Action>, age: int, w: Wid)
    requires InitPool(lo, hi, sids).Some? && IsRun(InitPool(lo, hi, sids).value, run)
    requires Aimed(Exec(InitPool(lo, hi, sids).value, run).ager, age, w)
    ensures exists n: nat ::
      && FoundOld(InitPool(lo, hi, sids).value, run, n, age, w)
      && (Ascends(run, w) ==>
            forall k: nat :: Completes(InitPool(lo, hi, sids).value, run, k, w) && run[k].now > age ==> n < k)
  {
    hide IsRun, Exec, FoundOld, Ascends, Pending;
    var s := Fresh(lo, hi, sids);
    AimedWasOld(lo, hi, sids, run, age, w);
    var n: nat :| FoundOld(s, run, n, age, w);
    if Ascends(run, w) {
      forall k: nat | Completes(s, run, k, w) && run[k].now > age ensures n < k {
        if k < n {
          CompletedBefore(s, run, n, k, age, w);
        }
        NotItself(s, run, n, age, w);
      }
    }
  }

  lemma NotItself(s: State, run: seq<Action>, n: nat, age: int, w: Wid)
    requires IsRun(s, run) && FoundOld(s, run, n, age, w)
    ensures !Completes(s, run, n, w)
  {
  }

  lemma CompletedBefore(s: State, run: seq<Action>, n: nat, k: nat, age: int, w: Wid)
    requires IsRun(s, run) && FoundOld(s, run, n, age, w) && Ascends(run, w)
    requires Completes(s, run, k, w) && k < n
    ensures run[k].now <= age
  {
    hide IsRun, Exec, Pending;
    var front := run[..n];
    FrontCompletes(s, front, run, k, w);
    var clock :| LastClock(s, front, w, clock) && clock <= age;
    var m: nat :| CompletesLast(s, front, m, w) && clock == front[m].now;
    assert front[m] == run[m] && front[k] == run[k];
  }

  /** And it is this reading that decides: in every reachable state in which a pass for `age` has found `w` idle and
      reads its stamp, it goes on to tell `w` if and only if the worker's last task, or its creation, was not after
      `age`. */
  lemma ReadingDecides(lo: nat, hi: nat, sids: set<Sid>, run: seq<Action>, age: int, w: Wid, clock: int)
    requires InitPool(lo, hi, sids).Some? && IsRun(InitPool(lo, hi, sids).value, run)
    requires
      var s := Exec(InitPool(lo, hi, sids).value, run);
      s.ager.AgeStamp? && s.ager.age == age && s.ager.wid == w && w in s.workers
    requires LastClock(InitPool(lo, hi, sids).value, run, w, clock)
    ensures
      var s := Exec(InitPool(lo, hi, sids).value, run);
      Aimed(AgeNext(s, None).ager, age, w) <==> clock <= age
  {
    StampTracked(lo, hi, sids, run, w);
    OneClock(Fresh(lo, hi, sids), run, w, clock, Exec(Fresh(lo, hi, sids), run).workers[w].stamp);
  }

  lemma OneClock(s: State, run: seq<Action>, w: Wid, c: int, d: int)
    requires IsRun(s, run) && LastClock(s, run, w, c) && LastClock(s, run, w, d)
    ensures c == d
  {
    hide IsRun, Completes;
    if w !in s.workers && forall k: nat :: !Completes(s, run, k, w) {
      var k: nat :| Creates(s, run, k, w) && c == run[k].now;
      var m: nat :| Creates(s, run, m, w) && d == run[m].now;
      if k < m {
        MadeOnce(s, run, k, m, w);
      } else if m < k {
        MadeOnce(s, run, m, k, w);
      }
    }
  }

  /** A worker is made once. */
  lemma {:induction false} MadeOnce(s: State, run: seq<Action>, k: nat, m: nat, w: Wid)
    requires IsRun(s, run) && k < m < |run| && Creates(s, run, k, w)
    ensures w in Before(s, run, m).workers
    decreases m
  {
    if k + 1 < m {
      MadeOnce(s, run, k, m - 1, w);
      StepBetween(s, run, m - 1);
      StaysMade(Before(s, run, m - 1), run[m - 1], w);
    }
  }

  lemma StepBetween(s: State, run: seq<Action>, k: nat)
    requires IsRun(s, run) && k < |run|
    ensures Enabled(Before(s, run, k), run[k]) && Before(s, run, k + 1) == Next(Before(s, run, k), run[k])
  {
    var front := run[..k + 1];
    PrefixRuns(s, run, k + 1);
    LastAction(s, front);
    assert front[..k] == run[..k];
  }

  /** The race is real: a worker that holds a task is found idle and old, then completes the task at clock 100, and
      is told to exit by the pass for 50 all the same. */
  lemma RecentIsTold(t: Task)
    ensures exists run ::
      && IsRun(Fresh(1, 1, {0}), run)
      && var s := Exec(Fresh(1, 1, {0}), run);
         && s.ager.AgeErase? && s.ager.age == 50 && s.ager.wid == 0
         && 0 in s.workers && s.workers[0].status == Stopping && s.workers[0].stamp == 100
  {
    hide IsRun, Exec;
    var s0 := Fresh(1, 1, {0});
    var run := OneQueued(t);
    var more := HoldsWhileAged(Exec(s0, run), t);
    run := Append(s0, run, more);
    more := ToldAfter(Exec(s0, run), t);
    run := Append(s0, run, more);
  }

  lemma OneQueued(t: Task) returns (run: seq<Action>)
    ensures IsRun(Fresh(1, 1, {0}), run)
    ensures
      var s := Exec(Fresh(1, 1, {0}), run);
      && s.term == NotCalled && s.tasks == [t] && s.pool == {0} && s.ager == Resting
      && s.workers == map[0 := Worker(LoopTest, Started, false, true, 0)]
  {
    hide IsRun, Exec;
    var s0 := Fresh(1, 1, {0});
    assert s0.pool == {0};
    run := SubmitReachesPush(s0, 0, 0, t);
    run := Add(s0, run, Submit(0, None, 0));
    var more := OverwriteStop(Exec(s0, run), 0);
    run := Append(s0, run, more);
  }

  lemma ToldAfter(s: State, t: Task) returns (run: seq<Action>)
    requires s.ager == AgeTell(50, 0, None) && !s.quickFree
    requires s.workers == map[0 := Worker(MarkBusy(t), Started, false, true, 0)]
    ensures IsRun(s, run)
    ensures
      var s' := Exec(s, run);
      && s'.ager == AgeErase(50, 0, None)
      && 0 in s'.workers && s'.workers[0].status == Stopping && s'.workers[0].stamp == 100
  {
    hide IsRun, Exec;
    run := CompletesAt(s, 0, t, 100);
    run := Add(s, run, Age(None));
  }

  lemma HoldsWhileAged(s: State, t: Task) returns (run: seq<Action>)
    requires s.term == NotCalled && s.tasks == [t] && s.pool == {0} && s.ager == Resting
    requires s.workers == map[0 := Worker(LoopTest, Started, false, true, 0)]
    ensures IsRun(s, run)
    ensures
      var s' := Exec(s, run);
      && s'.ager == AgeTell(50, 0, None) && !s'.quickFree
      && s'.workers == map[0 := Worker(MarkBusy(t), Started, false, true, 0)]
  {
    hide IsRun, Exec;
    run := Nothing(s);
    run := Add(s, run, Work(0, 0));
    run := Add(s, run, Work(0, 0));
    run := Add(s, run, StartTerminate(false));
    var more := ClearsFlag(Exec(s, run));
    run := Append(s, run, more);
    assert s.workers[0 := Worker(MarkBusy(t), Started, false, true, 0)]
        == map[0 := Worker(MarkBusy(t), Started, false, true, 0)];
    more := FindsOld(Exec(s, run));
    run := Append(s, run, more);
  }

  lemma FindsOld(s: State) returns (run: seq<Action>)
    requires s.pool == {0} && s.ager == Resting && s.minThreads == 0
    requires 0 in s.workers && !s.workers[0].busy && s.workers[0].stamp == 0
    ensures IsRun(s, run) && Exec(s, run) == s.(ager := AgeTell(50, 0, None), ageTrash := {})
  {
    hide IsRun, Exec;
    run := Nothing(s);
    run := Add(s, run, StartAgeing(50, Some(0)));
    assert |{0}| > 0;
    run := Add(s, run, Age(None));
    run := Add(s, run, Age(None));
    run := Add(s, run, Age(None));
  }

  lemma ClearsFlag(s: State) returns (run: seq<Action>)
    requires s.term == ClearEnable && s.tasks == []
    ensures IsRun(s, run) && Exec(s, run) == s.(term := ZeroMax, enable := false, minThreads := 0)
  {
    hide IsRun, Exec;
    run := Nothing(s);
    run := Add(s, run, Terminate(None));
    run := Add(s, run, Terminate(None));
    run := Add(s, run, Terminate(None));
  }

  lemma CompletesAt(s: State, w: Wid, t: Task, now: int) returns (run: seq<Action>)
    requires w in s.workers && s.workers[w].pc == MarkBusy(t) && !s.quickFree
    ensures IsRun(s, run)
    ensures
      var s' := Exec(s, run);
      && w in s'.workers && s'.workers[w] == s.workers[w].(pc := ClearBusy, busy := true, stamp := now)
      && s' == s.(workers := s.workers[w := s'.workers[w]], log := s'.log)
  {
    hide IsRun, Exec;
    var a := Work(w, now);
    run := RunsTask(s, w, t, now);
    run := Add(s, run, a);
    run := Add(s, run, a);
  }

  lemma RunsTask(s: State, w: Wid, t: Task, now: int) returns (run: seq<Action>)
    requires w in s.workers && s.workers[w].pc == MarkBusy(t) && !s.quickFree
    ensures IsRun(s, run)
    ensures
      var s' := Exec(s, run);
      && w in s'.workers && s'.workers[w] == s.workers[w].(pc := DeleteTask(t), busy := true)
      && s' == s.(workers := s.workers[w := s'.workers[w]], log := s'.log)
  {
    hide IsRun, Exec;
    var a := Work(w, now);
    run := Nothing(s);
    run := Add(s, run, a);
    run := Add(s, run, a);
    run := Add(s, run, a);
  }
}
