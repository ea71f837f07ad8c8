/** Runs that show why the premises of the shutdown theorems are needed.  */
module PoolWitness {
  import opened Options
  import opened PoolModel
  import opened PoolConservation
  import opened PoolShutdown
  import opened PoolExit
  import opened PoolReturn
  import opened PoolLate

  // ---------------------------------------------------------------- pieces of runs

  /** `Terminate` from clearing the flag up to the point where it starts telling the workers. */
  lemma DrainsAtOnce(s: State) returns (run: seq<Action>)
    requires s.term == ClearEnable && s.tasks == []
    ensures IsRun(s, run) && run != [] && run[0].Terminate?
    ensures Exec(s, run) == s.(term := Begin, enable := false, minThreads := 0, maxThreads := 0)
  {
    hide IsRun, Exec;
    var a := Terminate(None);
    run := Nothing(s);
    run := Add(s, run, a);
    run := Add(s, run, a);
    run := Add(s, run, a);
    run := Add(s, run, a);
  }

  /** Telling one worker, with `next` after it. */
  lemma Tells(s: State, w: Wid, next: Option<Wid>) returns (run: seq<Action>)
    requires s.term == TellLoop(Some(w)) && IsNext(s.pool, w, next) && w in s.workers
    ensures IsRun(s, run)
    ensures Exec(s, run) ==
      TellExit(s, w).(term := TellLoop(next), pool := s.pool - {w}, termTrash := s.termTrash + {w})
  {
    hide IsRun, Exec;
    run := Nothing(s);
    run := Add(s, run, Terminate(next));
    run := Add(s, run, Terminate(None));
    run := Add(s, run, Terminate(None));
  }

  /** Telling the only worker. */
  lemma TellsOne(s: State, w: Wid) returns (run: seq<Action>)
    requires s.term == Begin && s.pool == {w} && w in s.workers
    ensures IsRun(s, run)
    ensures Exec(s, run) == TellExit(s, w).(term := JoinAll, pool := {}, termTrash := {w})
  {
    hide IsRun, Exec;
    run := Nothing(s);
    run := Add(s, run, Terminate(Some(w)));
    var more := Tells(Exec(s, run), w, None);
    run := Append(s, run, more);
    assert s.pool - {w} == {} && {} + {w} == {w};
    run := Add(s, run, Terminate(None));
  }

  /** Telling both of two workers. */
  lemma TellsTwo(s: State) returns (run: seq<Action>)
    requires s.term == Begin && s.pool == {0, 1} && 0 in s.workers && 1 in s.workers
    ensures IsRun(s, run)
    ensures Exec(s, run) == TellExit(TellExit(s, 0), 1).(term := JoinAll, pool := {}, termTrash := {0, 1})
  {
    hide IsRun, Exec;
    run := Nothing(s);
    run := Add(s, run, Terminate(Some(0)));
    var more := Tells(Exec(s, run), 0, Some(1));
    run := Append(s, run, more);
    assert s.pool - {0} == {1} && {} + {0} == {0};
    more := Tells(Exec(s, run), 1, None);
    run := Append(s, run, more);
    assert {1} - {1} == {} && {0} + {1} == {0, 1};
    run := Add(s, run, Terminate(None));
  }

  /** A worker that has not started yet passes line 75 and takes the first task off the queue. */
  lemma StartsAndTakes(s: State, w: Wid) returns (run: seq<Action>)
    requires w in s.workers && s.workers[w].pc == InitHook && s.tasks != []
    ensures IsRun(s, run)
    ensures Exec(s, run) == s.(
      workers := s.workers[w := s.workers[w].(pc := MarkBusy(s.tasks[0]), status := Started)],
      tasks := s.tasks[1..], log := s.log + [Popped(w, s.tasks[0])])
  {
    hide IsRun, Exec;
    run := OverwriteStop(s, w);
    run := Add(s, run, Work(w, 0));
    run := Add(s, run, Work(w, 0));
  }

  /** One task queued, and the `Execute` of a second one about to set the run flag of a new worker. */
  function Two(t: Task): State {
    Fresh(1, 2, {0}).(
      submitters := map[0 := MarkRun(t, 1)],
      pool := {0, 1},
      workers := map[0 := Worker(InitHook, Initial, false, true, 0), 1 := Worker(InitHook, Initial, false, false, 0)],
      tasks := [-1], log := [Pushed(-1)], used := {-1, t})
  }

  lemma ReachesTwo(t: Task) returns (run: seq<Action>)
    requires t != -1
    ensures IsRun(Fresh(1, 2, {0}), run) && Exec(Fresh(1, 2, {0}), run) == Two(t)
  {
    hide IsRun, Exec;
    var s0 := Fresh(1, 2, {0});
    run := OneQueued();
    var more := SecondMade(Exec(s0, run), t);
    run := Append(s0, run, more);
  }

  lemma OneQueued() returns (run: seq<Action>)
    ensures IsRun(Fresh(1, 2, {0}), run)
    ensures Exec(Fresh(1, 2, {0}), run) == Fresh(1, 2, {0}).(
      submitters := map[0 := Outside], tasks := [-1], log := [Pushed(-1)], used := {-1})
  {
    hide IsRun, Exec;
    var s0 := Fresh(1, 2, {0});
    assert s0.pool == {0};
    run := SubmitReachesPush(s0, 0, 0, -1);
    var more := PushReturns(Exec(s0, run), 0, -1);
    run := Append(s0, run, more);
  }

  lemma SecondMade(s: State, t: Task) returns (run: seq<Action>)
    requires t != -1
    requires s == Fresh(1, 2, {0}).(
      submitters := map[0 := Outside], tasks := [-1], log := [Pushed(-1)], used := {-1})
    ensures IsRun(s, run) && Exec(s, run) == Two(t)
  {
    hide IsRun, Exec;
    assert s.pool == {0};
    run := SubmitReachesInsert(s, 0, 0, t);
    var more := InsertReachesMark(Exec(s, run), 0, t, 1);
    run := Append(s, run, more);
  }

  // ---------------------------------------------------------------- waiting for ever

  /** `Terminate` called at once after `Init` can wait for ever: the worker overwrites its stop order. */
  lemma TerminateCanHang()
    ensures exists run ::
      && IsRun(Fresh(1, 1, {}), run)
      && Exec(Fresh(1, 1, {}), run).term.JoinAll? && !MayReturn(Exec(Fresh(1, 1, {}), run))
  {
    hide IsRun, Exec, MayReturn;
    var s0 := Fresh(1, 1, {});
    assert s0.pool == {0};
    var run := Nothing(s0);
    run := Add(s0, run, StartTerminate(false));
    var more := DrainsAtOnce(Exec(s0, run));
    run := Append(s0, run, more);
    more := TellsOne(Exec(s0, run), 0);
    run := Append(s0, run, more);
    more := OverwriteStop(Exec(s0, run), 0);
    run := Append(s0, run, more);
    BlockedNeverReturns(Exec(s0, run), 0);
  }

  lemma BothStarted(s0: State, t: Task) returns (run: seq<Action>)
    requires s0 == Two(t)
    ensures IsRun(s0, run)
    ensures Exec(s0, run) == s0.(
      workers := map[0 := Worker(LoopTest, Started, false, true, 0), 1 := Worker(MarkBusy(-1), Started, false, false, 0)],
      tasks := [], log := [Pushed(-1), Popped(1, -1)])
  {
    hide IsRun, Exec;
    run := StartsAndTakes(s0, 1);
    var more := OverwriteStop(Exec(s0, run), 0);
    run := Append(s0, run, more);
  }

  lemma BothTold(s0: State, t: Task) returns (run: seq<Action>)
    requires s0 == Two(t)
    ensures IsRun(s0, run)
    ensures
      var s := Exec(s0, run);
      && s.term.JoinAll? && s.ager == Resting && s.submitters == map[0 := MarkRun(t, 1)]
      && s.pool == {} && s.termTrash == {0, 1} && s.workers.Keys == {0, 1} && Told(s, 0) && Told(s, 1)
      && s.workers[0].pc == LoopTest && s.workers[1].pc == MarkBusy(-1)
  {
    hide IsRun, Exec;
    run := BothStarted(s0, t);
    run := Add(s0, run, StartTerminate(false));
    var more := DrainsAtOnce(Exec(s0, run));
    run := Append(s0, run, more);
    more := TellsTwo(Exec(s0, run));
    run := Append(s0, run, more);
  }

  /** Both workers end, and only then is the run flag of the second one set. */
  lemma BothEnd(s: State, t: Task) returns (run: seq<Action>)
    requires s.term.JoinAll? && s.ager == Resting && s.submitters == map[0 := MarkRun(t, 1)]
    requires s.pool == {} && s.termTrash == {0, 1} && s.workers.Keys == {0, 1} && Told(s, 0) && Told(s, 1)
    requires s.workers[0].pc == LoopTest && s.workers[1].pc == MarkBusy(-1)
    ensures IsRun(s, run)
    ensures
      var s' := Exec(s, run);
      Blocked(s', 1) && AllGone(s') && forall w :: w in s'.workers ==> Told(s', w)
  {
    hide IsRun, Exec;
    run := ToldEnds(s, 0);
    var more := ToldEnds(Exec(s, run), 1);
    run := Append(s, run, more);
    run := Add(s, run, Submit(0, None, 0));
  }

  /** It can wait for ever even when every worker was told to exit past line 75 and every thread has ended: an
      `Execute` sets the run flag of its new worker after that worker has cleared it. */
  lemma LateFlagHangs(t: Task)
    requires t != -1
    ensures exists run ::
      && IsRun(Fresh(1, 2, {0}), run)
      && var s := Exec(Fresh(1, 2, {0}), run);
         s.term.JoinAll? && AllGone(s) && (forall w :: w in s.workers ==> Told(s, w)) && !MayReturn(s)
  {
    hide IsRun, Exec, MayReturn, Told, AllGone, Blocked;
    var s0 := Fresh(1, 2, {0});
    var run := ReachesTwo(t);
    var more := BothTold(Exec(s0, run), t);
    run := Append(s0, run, more);
    more := BothEnd(Exec(s0, run), t);
    run := Append(s0, run, more);
    BlockedNeverReturns(Exec(s0, run), 1);
    BlockedJoins(Exec(s0, run), 1);
  }

  // ---------------------------------------------------------------- tasks that outlive Terminate

  /** The ageing thread takes out the last worker of the set. */
  lemma AgesLast(s: State, w: Wid) returns (run: seq<Action>)
    requires s.ager == AgeLoop(0, Some(w)) && IsNext(s.pool, w, None) && w in s.workers && s.minThreads < |s.pool|
    requires !s.workers[w].busy && s.workers[w].stamp <= 0
    ensures IsRun(s, run)
    ensures Exec(s, run) ==
      TellExit(s, w).(ager := AgeLoop(0, None), pool := s.pool - {w}, ageTrash := s.ageTrash + {w})
  {
    hide IsRun, Exec;
    run := Nothing(s);
    run := Add(s, run, Age(None));
    run := Add(s, run, Age(None));
    run := Add(s, run, Age(None));
    run := Add(s, run, Age(None));
    run := Add(s, run, Age(None));
  }

  /** The pass of the ageing thread that takes out the only worker. */
  lemma AgesOnly(s: State, w: Wid) returns (run: seq<Action>)
    requires s.ager == Resting && s.pool == {w} && w in s.workers && s.minThreads == 0
    requires !s.workers[w].busy && s.workers[w].stamp <= 0
    ensures IsRun(s, run)
    ensures Exec(s, run) == TellExit(s, w).(ager := AgeLoop(0, None), pool := {}, ageTrash := {w})
  {
    hide IsRun, Exec;
    run := Nothing(s);
    run := Add(s, run, StartAgeing(0, Some(w)));
    var more := AgesLast(Exec(s, run), w);
    run := Append(s, run, more);
    assert s.pool - {w} == {} && {} + {w} == {w};
  }

  /** Why `ShutdownDrains` speaks of ageing passes in progress: an ageing pass that starts after the flag is
      cleared can take out a worker that has popped a task, and `Terminate` returns without waiting for it. */
  lemma AgeingTakesTask(t: Task)
    ensures exists before: seq<Action>, after: seq<Action> ::
      && IsRun(Fresh(1, 1, {0}), before)
      && var s1 := Exec(Fresh(1, 1, {0}), before);
         && s1.term.ClearEnable? && NoneInside(s1) && s1.orphans == {} && s1.ager == Resting
         && IsRun(s1, after) && after != [] && after[0].Terminate?
         && Exec(s1, after).term.Returned? && HeldBySome(Exec(s1, after), t)
  {
    hide IsRun, Exec, NoneInside, HeldBySome;
    var before := OnlyTakes(t);
    var s1 := Exec(Fresh(1, 1, {0}), before);
    var after := OutlivedByTask(s1, t);
  }

  lemma OnlyTakes(t: Task) returns (run: seq<Action>)
    ensures IsRun(Fresh(1, 1, {0}), run)
    ensures
      var s := Exec(Fresh(1, 1, {0}), run);
      && s.term.ClearEnable? && NoneInside(s) && s.orphans == {} && s.ager == Resting
      && s.tasks == [] && s.pool == {0} && s.workers == map[0 := Worker(MarkBusy(t), Started, false, true, 0)]
      && s.termTrash == {}
  {
    hide IsRun, Exec;
    var s0 := Fresh(1, 1, {0});
    assert s0.pool == {0};
    run := SubmitReachesPush(s0, 0, 0, t);
    var more := PushReturns(Exec(s0, run), 0, t);
    run := Append(s0, run, more);
    more := StartsAndTakes(Exec(s0, run), 0);
    run := Append(s0, run, more);
    run := Add(s0, run, StartTerminate(false));
  }

  lemma OutlivedByTask(s: State, t: Task) returns (run: seq<Action>)
    requires s.term.ClearEnable? && s.ager == Resting && s.tasks == [] && s.pool == {0} && s.termTrash == {}
    requires s.workers == map[0 := Worker(MarkBusy(t), Started, false, true, 0)]
    ensures IsRun(s, run) && run != [] && run[0].Terminate?
    ensures Exec(s, run).term.Returned? && HeldBySome(Exec(s, run), t)
  {
    hide IsRun, Exec;
    run := DrainsAtOnce(s);
    var more := AgesOnly(Exec(s, run), 0);
    run := Append(s, run, more);
    run := Add(s, run, Terminate(None));
    run := Add(s, run, Terminate(None));
    run := Add(s, run, Terminate(None));
    assert Held(Exec(s, run).workers[0].pc) == Some(t);
  }

  /** The ageing thread passes over a busy worker, takes out one whose `Start` is still under way, and joins
      it at once, because its run flag is not set yet. */
  lemma AgesStarting(s: State) returns (run: seq<Action>)
    requires s.ager == Resting && s.pool == {0, 1} && 0 in s.workers && 1 in s.workers && s.minThreads == 1
    requires s.workers[0].busy
    requires !s.workers[1].busy && s.workers[1].stamp <= 0 && !s.workers[1].alive && s.workers[1].pc != Gone
    ensures IsRun(s, run)
    ensures Exec(s, run) == TellExit(s, 1).(pool := {0}, ageTrash := {}, orphans := s.orphans + {1})
  {
    hide IsRun, Exec;
    run := AgesSecond(s);
    run := Add(s, run, Age(None));
    assert {1} - {1} == {};
    run := Add(s, run, Age(Some(1)));
    run := Add(s, run, Age(None));
  }

  lemma AgesSecond(s: State) returns (run: seq<Action>)
    requires s.ager == Resting && s.pool == {0, 1} && 0 in s.workers && 1 in s.workers && s.minThreads == 1
    requires s.workers[0].busy && !s.workers[1].busy && s.workers[1].stamp <= 0
    ensures IsRun(s, run)
    ensures Exec(s, run) == TellExit(s, 1).(ager := AgeLoop(0, None), pool := {0}, ageTrash := {1})
  {
    hide IsRun, Exec;
    run := Nothing(s);
    run := Add(s, run, StartAgeing(0, Some(0)));
    assert |s.pool| == 2;
    run := Add(s, run, Age(Some(1)));
    run := Add(s, run, Age(None));
    var more := AgesLast(Exec(s, run), 1);
    run := Append(s, run, more);
    assert s.pool - {1} == {0} && {} + {1} == {1};
  }

  lemma OrphanTakes(s0: State, t: Task) returns (run: seq<Action>)
    requires s0 == Two(t)
    ensures IsRun(s0, run)
    ensures
      var s := Exec(s0, run);
      && s.term.ClearEnable? && s.submitters == map[0 := Outside] && s.orphans == {1} && s.ager == Resting
      && s.tasks == [] && s.pool == {0} && s.workers.Keys == {0, 1} && s.termTrash == {}
      && s.workers[0].pc == TestQuick(-1) && s.workers[1].pc == MarkBusy(t)
  {
    hide IsRun, Exec;
    run := StartsAndTakes(s0, 0);
    run := Add(s0, run, Work(0, 0));
    var more := AgesStarting(Exec(s0, run));
    run := Append(s0, run, more);
    run := Add(s0, run, Submit(0, None, 0));
    more := PushReturns(Exec(s0, run), 0, t);
    run := Append(s0, run, more);
    more := StartsAndTakes(Exec(s0, run), 1);
    run := Append(s0, run, more);
    run := Add(s0, run, StartTerminate(false));
  }

  /** Why it speaks of orphans: a worker joined while its `Start` was still under way can pop a task and hold
      it when `Terminate` has returned and nothing else is going on. */
  lemma OrphanKeepsTask(t: Task)
    requires t != -1
    ensures exists before: seq<Action>, after: seq<Action> ::
      && IsRun(Fresh(1, 2, {0}), before)
      && var s1 := Exec(Fresh(1, 2, {0}), before);
         && s1.term.ClearEnable? && NoneInside(s1) && s1.ager == Resting
         && IsRun(s1, after) && after != [] && after[0].Terminate?
         && Exec(s1, after).term.Returned? && Exec(s1, after).ager == Resting && HeldBySome(Exec(s1, after), t)
  {
    hide IsRun, Exec, NoneInside, HeldBySome;
    var s0 := Fresh(1, 2, {0});
    var before := ReachesTwo(t);
    var more := OrphanTakes(Exec(s0, before), t);
    before := Append(s0, before, more);
    var s1 := Exec(s0, before);
    NoneInsideOne(s1);
    var after := OutlivedByOrphan(s1, t);
  }

  lemma NoneInsideOne(s: State)
    requires s.submitters == map[0 := Outside]
    ensures NoneInside(s)
  {
  }

  lemma OutlivedByOrphan(s: State, t: Task) returns (run: seq<Action>)
    requires s.term.ClearEnable? && s.ager == Resting && s.tasks == [] && s.pool == {0} && s.termTrash == {}
    requires s.workers.Keys == {0, 1} && s.workers[0].pc == TestQuick(-1) && s.workers[1].pc == MarkBusy(t)
    ensures IsRun(s, run) && run != [] && run[0].Terminate?
    ensures Exec(s, run).term.Returned? && Exec(s, run).ager == Resting && HeldBySome(Exec(s, run), t)
  {
    hide IsRun, Exec;
    run := DrainsAtOnce(s);
    var more := TellsOne(Exec(s, run), 0);
    run := Append(s, run, more);
    more := JoinsOnly(Exec(s, run), 0);
    run := Append(s, run, more);
    assert Held(Exec(s, run).workers[1].pc) == Some(t);
  }

  /** The only worker that `Terminate` waits for ends and is joined. */
  lemma JoinsOnly(s: State, w: Wid) returns (run: seq<Action>)
    requires s.term.JoinAll? && s.termTrash == {w} && Told(s, w) && s.workers[w].pc != Gone
    ensures IsRun(s, run)
    ensures
      var s' := Exec(s, run);
      && s'.term.Returned? && w in s'.workers && s'.workers[w].pc == Gone && s'.workers[w].status == Stopping
      && s' == s.(workers := s.workers[w := s'.workers[w]], tasks := s'.tasks, log := s'.log, term := Returned,
                  termTrash := {})
  {
    hide IsRun, Exec;
    run := ToldEnds(s, w);
    run := Add(s, run, Terminate(Some(w)));
    assert {w} - {w} == {};
    run := Add(s, run, Terminate(None));
  }

  /** Why it asks that no `Execute` be past its enable check: a submitter passes the check, `Terminate` returns
      with every thread ended, and the task is then pushed and stays queued in every continuation. */
  lemma LateSubmitStrands(t: Task)
    ensures exists run ::
      && IsRun(Fresh(1, 1, {0}), run)
      && var s := Exec(Fresh(1, 1, {0}), run);
         s.term.Returned? && AllGone(s) && QueuedForEver(s, t)
  {
    hide IsRun, Exec, QueuedForEver;
    var s0 := Fresh(1, 1, {0});
    assert s0.pool == {0};
    var run := SubmitReachesPush(s0, 0, 0, t);
    var more := OverwriteStop(Exec(s0, run), 0);
    run := Append(s0, run, more);
    more := LateTail(Exec(s0, run), t);
    run := Append(s0, run, more);
    StuckForEver(Exec(s0, run), t, |Exec(s0, run).tasks| - 1);
  }

  lemma LateTail(s: State, t: Task) returns (run: seq<Action>)
    requires s.term == NotCalled && s.tasks == [] && s.pool == {0} && s.submitters == map[0 := Push(t)]
    requires s.workers == map[0 := Worker(LoopTest, Started, false, true, 0)] && s.ager == Resting
    ensures IsRun(s, run)
    ensures
      var s' := Exec(s, run);
      AllGone(s') && s'.tasks != [] && StuckAt(s', t, |s'.tasks| - 1)
  {
    hide IsRun, Exec;
    run := Nothing(s);
    run := Add(s, run, StartTerminate(false));
    var more := DrainsAtOnce(Exec(s, run));
    run := Append(s, run, more);
    more := TellsOne(Exec(s, run), 0);
    run := Append(s, run, more);
    more := JoinsOnly(Exec(s, run), 0);
    run := Append(s, run, more);
    run := Add(s, run, Submit(0, None, 0));
    assert Takers(Exec(s, run)) == {};
  }
}
