/** Telling a worker to exit: what the worker still does, and when the order sticks.  */
module PoolExit {
  import opened Options
  import opened PoolModel
  import opened PoolConservation
  import opened PoolShutdown

  // ---------------------------------------------------------------- a worker that has been told

  /** The worker has executed `m_workerStatus = WORKER_STARTED`. */
  predicate PastStart(pc: WorkerPc) {
    pc != NotCreated && pc != InitHook && pc != MarkStarted
  }

  ghost predicate Told(s: State, w: Wid) {
    w in s.workers && PastStart(s.workers[w].pc) && s.workers[w].status == Stopping
  }

  /** A bound on the steps left to a worker that has been told to exit. */
  function StepsLeft(pc: WorkerPc): nat {
    match pc
    case Take => 11
    case MarkBusy(_) => 10
    case TestQuick(_) => 9
    case RunTask(_) => 8
    case DeleteTask(_) => 7
    case Stamp => 6
    case ClearBusy => 5
    case Wait => 5
    case Beat => 4
    case LoopTest => 3
    case ExitHook => 2
    case ClearRun => 1
    case _ => 0
  }

  /** How many tasks worker `w` has popped. */
  function PopsBy(log: seq<Event>, w: Wid): nat {
    if log == [] then 0
    else
      PopsBy(log[..|log| - 1], w) +
      (if log[|log| - 1].Popped? && log[|log| - 1].wid == w then 1 else 0)
  }

  function StepsOf(run: seq<Action>, w: Wid): nat {
    if run == [] then 0
    else (if run[0].Work? && run[0].wid == w then 1 else 0) + StepsOf(run[1..], w)
  }

  /** Pops a told worker can still make: one if it is already past the loop test. */
  function PopsLeft(pc: WorkerPc): nat {
    if pc == Take then 1 else 0
  }

  lemma PopsByAppend(log: seq<Event>, e: Event, w: Wid)
    ensures PopsBy(log + [e], w) == PopsBy(log, w) + if e.Popped? && e.wid == w then 1 else 0
  {
    assert (log + [e])[..|log + [e]| - 1] == log;
  }

  ghost function PopsNow(s: State, a: Action, w: Wid): nat
    requires Enabled(s, a)
  {
    if a.Work? && a.wid == w && s.workers[w].pc == Take && s.tasks != [] then 1 else 0
  }

  /** The event that a step writes, if any. */
  lemma StepEvent(s: State, a: Action) returns (e: Option<Event>)
    requires Enabled(s, a)
    ensures Next(s, a).log == s.log + if e == None then [] else [e.value]
    ensures e.Some? && e.value.Popped? <==> a.Work? && s.workers[a.wid].pc == Take && s.tasks != []
    ensures e.Some? && e.value.Popped? ==> e.value.wid == a.wid
  {
    match a
    case Work(v, now) => e := WorkerEvent(v, s.workers[v].pc, s.tasks, s.quickFree);
    case Submit(i, hint, now) => e := SubmitLog(s, i, hint, now);
    case _ => e := None;
  }

  lemma SubmitLog(s: State, i: Sid, hint: Option<Wid>, now: int) returns (e: Option<Event>)
    requires CanSubmit(s, i, hint)
    ensures SubmitNext(s, i, hint, now).log == s.log + if e == None then [] else [e.value]
    ensures e == None || !e.value.Popped?
  {
    var pc := s.submitters[i];
    e :=
      if pc.TestEnable? && !s.enable && pc.arg.Some? then Some(Rejected(pc.arg.value))
      else if pc.Insert? && hint == None then Some(Rejected(pc.task))
      else if pc.Push? then Some(Pushed(pc.task))
      else None;
  }

  /** Only a worker at `Take` pops. */
  lemma LogShape(s: State, a: Action, w: Wid)
    requires Enabled(s, a)
    ensures PopsBy(Next(s, a).log, w) == PopsBy(s.log, w) + PopsNow(s, a, w)
  {
    hide PopsBy, Next;
    var e := StepEvent(s, a);
    if e.Some? {
      PopsByAppend(s.log, e.value, w);
    } else {
      assert s.log + [] == s.log;
    }
  }

  lemma ToldStep(s: State, a: Action, w: Wid)
    requires Told(s, w) && Enabled(s, a)
    ensures Told(Next(s, a), w)
    ensures StepsLeft(Next(s, a).workers[w].pc) + (if a.Work? && a.wid == w then 1 else 0)
      <= StepsLeft(s.workers[w].pc)
    ensures PopsBy(Next(s, a).log, w) + PopsLeft(Next(s, a).workers[w].pc)
      <= PopsBy(s.log, w) + PopsLeft(s.workers[w].pc)
  {
    LogShape(s, a, w);
    if a.Work? && a.wid == w {
      ToldWork(s, w, a.now);
    } else {
      Elsewhere(s, a, w);
    }
  }

  lemma ToldWork(s: State, w: Wid, now: int)
    requires Told(s, w) && CanWork(s, w)
    ensures Told(WorkNext(s, w, now), w)
    ensures StepsLeft(WorkNext(s, w, now).workers[w].pc) + 1 <= StepsLeft(s.workers[w].pc)
    ensures WorkNext(s, w, now).workers[w].pc != Take
  {
  }

  lemma {:induction false} ToldRun(s: State, run: seq<Action>, w: Wid)
    requires Told(s, w) && IsRun(s, run)
    ensures Told(Exec(s, run), w)
    ensures StepsLeft(Exec(s, run).workers[w].pc) + StepsOf(run, w) <= StepsLeft(s.workers[w].pc)
    ensures PopsBy(Exec(s, run).log, w) <= PopsBy(s.log, w) + PopsLeft(s.workers[w].pc)
    ensures s.log <= Exec(s, run).log
    decreases |run|
  {
    if run != [] {
      ToldStep(s, run[0], w);
      var _ := StepEvent(s, run[0]);
      ToldRun(Next(s, run[0]), run[1..], w);
    }
  }

  lemma {:induction false} HistGrows(log: seq<Event>, more: seq<Event>, t: Task)
    requires log <= more
    ensures Hist(log, t) <= Hist(more, t)
    decreases |more|
  {
    if |log| < |more| {
      var front := more[..|more| - 1];
      assert log <= front;
      assert more == front + [more[|more| - 1]];
      HistGrows(log, front, t);
    } else {
      assert log == more;
    }
  }

  /** Exit protocol.  From any state in which a worker past line 75 has been told to exit, and over any
      continuation: the order stands; the worker makes at most eleven more steps of its own and is never
      blocked before its thread ends, so it ends once it has been given those steps; it pops at most one
      more task, and only if it was already past the loop test; and by the time it has ended, every task it
      ever popped, the one it held when told and the one it popped after that included, has been disposed of
      by it. */
  lemma ExitProtocol(s: State, run: seq<Action>, w: Wid, t: Task)
    requires Conserved(s) && Told(s, w) && IsRun(s, run)
    ensures
      var s' := Exec(s, run);
      && Told(s', w)
      && (s'.workers[w].pc == Gone || CanWork(s', w))
      && StepsOf(run, w) <= StepsLeft(s.workers[w].pc) <= 11
      && (StepsOf(run, w) == StepsLeft(s.workers[w].pc) ==> s'.workers[w].pc == Gone)
      && PopsBy(s'.log, w) <= PopsBy(s.log, w) + (if s.workers[w].pc == Take then 1 else 0)
      && (Held(s.workers[w].pc) == Some(t) ==> PoppedBy(s', t, w))
      && (s'.workers[w].pc == Gone && PoppedBy(s', t, w) ==> Disposed(Hist(s'.log, t), w, t, s'.quickFree))
  {
    hide Next, Enabled, PopsBy, Hist, Disposed;
    var s' := Exec(s, run);
    ToldRun(s, run, w);
    RunKeepsConserved(s, run);
    if Held(s.workers[w].pc) == Some(t) {
      HolderPopped(s, t, w);
      HistGrows(s.log, s'.log, t);
    }
    if PoppedBy(s', t, w) {
      OnlyPopper(s', t, w);
    }
  }

  /** `w` has popped `t`. */
  ghost predicate PoppedBy(s: State, t: Task, w: Wid) {
    |Hist(s.log, t)| >= 2 && Hist(s.log, t)[1] == Popped(w, t)
  }

  lemma HolderPopped(s: State, t: Task, w: Wid)
    requires Conserved(s) && w in s.workers && Held(s.workers[w].pc) == Some(t)
    ensures PoppedBy(s, t, w)
  {
    assert HeldInv(s, w);
  }

  /** Once `w` has popped `t`, only `w` can hold or have disposed of it. */
  lemma OnlyPopper(s: State, t: Task, w: Wid)
    requires Conserved(s) && w in s.workers && PoppedBy(s, t, w)
    ensures Held(s.workers[w].pc) == Some(t) || Disposed(Hist(s.log, t), w, t, s.quickFree)
  {
    assert Placed(s, t);
    var h := Hist(s.log, t);
    if HeldBySome(s, t) {
      var v :| v in s.workers && Held(s.workers[v].pc) == Some(t);
      assert HeldInv(s, v);
    } else {
      var v :| Disposed(h, v, t, s.quickFree);
      assert h[1] == h[..3][1];
    }
  }

  // ---------------------------------------------------------------- when the order sticks

  /** `TellExit` is final exactly when the worker is past line 75: otherwise some continuation, made of
      the worker's own start-up steps, overwrites the order with WORKER_STARTED. */
  lemma StopSticks(s: State, w: Wid)
    requires StartInv(s) && w in s.workers && s.workers[w].status == Stopping
    ensures PastStart(s.workers[w].pc) <==>
      forall run | IsRun(s, run) :: w in Exec(s, run).workers && Exec(s, run).workers[w].status == Stopping
  {
    if PastStart(s.workers[w].pc) {
      forall run | IsRun(s, run)
        ensures w in Exec(s, run).workers && Exec(s, run).workers[w].status == Stopping
      {
        ToldRun(s, run, w);
      }
    } else if s.workers[w].pc == NotCreated {
      var run := CreateAndOverwrite(s, w);
      assert Exec(s, run).workers[w].status != Stopping;
    } else {
      var run := OverwriteStop(s, w);
      assert Exec(s, run).workers[w].status != Stopping;
    }
  }

  lemma CreateAndOverwrite(s: State, w: Wid) returns (run: seq<Action>)
    requires StartInv(s) && w in s.workers && s.workers[w].pc == NotCreated
    ensures IsRun(s, run) && w in Exec(s, run).workers && Exec(s, run).workers[w].status == Started
  {
    assert Starting(s, w);
    var i :| i in s.submitters && Starts(s.submitters[i]) == Some(w);
    var a := Submit(i, None, 0);
    var more := OverwriteStop(Next(s, a), w);
    run := [a] + more;
    assert run[0] == a && run[1..] == more;
  }

  lemma OverwriteStop(s: State, w: Wid) returns (run: seq<Action>)
    requires w in s.workers && (s.workers[w].pc == InitHook || s.workers[w].pc == MarkStarted)
    ensures IsRun(s, run) && w in Exec(s, run).workers && Exec(s, run).workers[w].status == Started
    ensures Exec(s, run) == s.(workers := s.workers[w := s.workers[w].(pc := LoopTest, status := Started)])
  {
    var a := Work(w, 0);
    var s1 := Next(s, a);
    if s.workers[w].pc == MarkStarted {
      run := [a];
      assert run[1..] == [];
    } else {
      run := [a, a];
      assert run[1..] == [a] && run[1..][1..] == [];
      assert IsRun(s1, [a]);
      assert Exec(s1, [a]) == Next(s1, a);
    }
  }
}
