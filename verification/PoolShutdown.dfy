/** Joining and shutting down: when `Join` can be trusted, and what `Terminate` leaves behind.  */
module PoolShutdown {
  import opened Options
  import opened PoolModel
  import opened PoolConservation

  // ---------------------------------------------------------------- who owns a worker

  /** The worker a submitter has inserted but not finished starting. */
  function Starts(pc: SubmitPc): Option<Wid> {
    match pc
    case Create(_, w) => Some(w)
    case MarkRun(_, w) => Some(w)
    case _ => None
  }

  /** Some submitter is still inside `Start` of worker `w`. */
  ghost predicate Starting(s: State, w: Wid) {
    exists i :: i in s.submitters && Starts(s.submitters[i]) == Some(w)
  }

  ghost predicate StartInv(s: State) {
    && (forall i :: i in s.submitters && Starts(s.submitters[i]).Some? ==>
          var w := Starts(s.submitters[i]).value;
          && w in s.workers && !s.workers[w].alive
          && (s.submitters[i].Create? <==> s.workers[w].pc == NotCreated))
    && (forall i, j :: i in s.submitters && j in s.submitters && i != j && Starts(s.submitters[i]).Some? ==>
          Starts(s.submitters[i]) != Starts(s.submitters[j]))
    && (forall w :: w in s.workers && !s.workers[w].alive && s.workers[w].pc != Gone ==> Starting(s, w))
    && (forall w :: w in s.workers && s.workers[w].pc == NotCreated ==> !s.workers[w].alive)
  }

  /** Every thread that has not ended is reachable from a set that somebody will join, or is an orphan. */
  ghost predicate OwnInv(s: State) {
    && s.pool <= s.workers.Keys && s.ageTrash <= s.workers.Keys && s.termTrash <= s.workers.Keys
    && (forall w :: w in s.workers && s.workers[w].pc != Gone ==>
          w in s.pool || w in s.ageTrash || w in s.termTrash || w in s.orphans)
    && (s.ager == Resting ==> s.ageTrash == {})
    && (s.termTrash == {} || s.term.TellLoop? || s.term.Tell? || s.term.Erase? || s.term.JoinAll?)
  }

  ghost predicate Threads(s: State) {
    StartInv(s) && OwnInv(s)
  }

  /** Steps that start no worker and end none keep `StartInv`. */
  lemma StartFrame(s: State, s': State)
    requires StartInv(s)
    requires s'.submitters == s.submitters && s'.workers.Keys == s.workers.Keys
    requires forall w :: w in s.workers ==>
      && (s'.workers[w].alive == s.workers[w].alive || (s'.workers[w].pc == Gone && !s'.workers[w].alive))
      && (s'.workers[w].pc == NotCreated <==> s.workers[w].pc == NotCreated)
      && (s.workers[w].pc == Gone ==> s'.workers[w].pc == Gone)
    ensures StartInv(s')
  {
    forall w | w in s'.workers && !s'.workers[w].alive && s'.workers[w].pc != Gone
      ensures Starting(s', w)
    {
      assert Starting(s, w);
    }
  }

  /** A worker step changes that worker only. */
  lemma WorkShape(s: State, w: Wid, now: int)
    requires CanWork(s, w)
    ensures w in WorkNext(s, w, now).workers
    ensures
      var s' := WorkNext(s, w, now);
      && s' == s.(workers := s.workers[w := s'.workers[w]], tasks := s'.tasks, log := s'.log)
      && s'.workers[w].pc != NotCreated
      && (s'.workers[w].alive == s.workers[w].alive || (s'.workers[w].pc == Gone && !s'.workers[w].alive))
  {
  }

  lemma OneWorker(s: State, s': State, w: Wid)
    requires Threads(s) && CanWork(s, w) && w in s'.workers
    requires s' == s.(workers := s.workers[w := s'.workers[w]], tasks := s'.tasks, log := s'.log)
    requires s'.workers[w].pc != NotCreated
    requires s'.workers[w].alive == s.workers[w].alive || (s'.workers[w].pc == Gone && !s'.workers[w].alive)
    ensures Threads(s')
  {
    StartFrame(s, s');
  }

  lemma WorkKeepsThreads(s: State, w: Wid, now: int)
    requires Threads(s) && CanWork(s, w)
    ensures Threads(WorkNext(s, w, now))
  {
    WorkShape(s, w, now);
    OneWorker(s, WorkNext(s, w, now), w);
  }

  lemma AgeKeepsThreads(s: State, hint: Option<Wid>)
    requires Threads(s) && CanAge(s, hint)
    ensures Threads(AgeNext(s, hint))
  {
    AgeKeepsStart(s, hint);
    AgeKeepsOwn(s, hint);
  }

  lemma AgeKeepsStart(s: State, hint: Option<Wid>)
    requires StartInv(s) && CanAge(s, hint)
    ensures StartInv(AgeNext(s, hint))
  {
    StartFrame(s, AgeNext(s, hint));
  }

  lemma AgeKeepsOwn(s: State, hint: Option<Wid>)
    requires OwnInv(s) && CanAge(s, hint)
    ensures OwnInv(AgeNext(s, hint))
  {
  }

  lemma TerminateKeepsStart(s: State, hint: Option<Wid>)
    requires StartInv(s) && CanTerminate(s, hint)
    ensures StartInv(TerminateNext(s, hint))
  {
    StartFrame(s, TerminateNext(s, hint));
  }

  lemma TerminateKeepsOwn(s: State, hint: Option<Wid>)
    requires OwnInv(s) && CanTerminate(s, hint)
    ensures OwnInv(TerminateNext(s, hint))
  {
  }

  /** What a submitter step does to the workers being started. */
  lemma SubmitShape(s: State, i: Sid, hint: Option<Wid>, now: int)
    requires CanSubmit(s, i, hint)
    ensures
      var s', pc := SubmitNext(s, i, hint, now), s.submitters[i];
      && i in s'.submitters && s'.submitters == s.submitters[i := s'.submitters[i]]
      && (if pc.Insert? && hint.Some? then Starts(s'.submitters[i]) == hint && hint.value !in s.workers
          else if pc.Create? then s'.submitters[i] == MarkRun(pc.task, pc.wid)
          else Starts(s'.submitters[i]) == None)
  {
    match s.submitters[i]
    case Insert(_) =>
    case Create(_, _) =>
    case ScanBusy(_, _, _, _) =>
    case _ =>
  }

  lemma SubmitKeepsThreads(s: State, i: Sid, hint: Option<Wid>, now: int)
    requires Threads(s) && CanSubmit(s, i, hint)
    ensures Threads(SubmitNext(s, i, hint, now))
  {
    SubmitShape(s, i, hint, now);
    var s', pc := SubmitNext(s, i, hint, now), s.submitters[i];
    if pc.Insert? && hint.Some? {
      InsertKeepsThreads(s, s', i, hint.value, now);
    } else if Starts(pc).Some? {
      StartKeepsThreads(s, s', i);
    } else {
      assert s'.workers == s.workers && s'.pool == s.pool;
      SubmitFrame(s, s', i);
    }
  }

  lemma SubmitFrame(s: State, s': State, i: Sid)
    requires Threads(s) && i in s.submitters && i in s'.submitters
    requires Starts(s.submitters[i]) == None && Starts(s'.submitters[i]) == None
    requires s' == s.(submitters := s.submitters[i := s'.submitters[i]], tasks := s'.tasks, log := s'.log,
                      used := s'.used)
    ensures Threads(s')
  {
    forall w | w in s'.workers && !s'.workers[w].alive && s'.workers[w].pc != Gone
      ensures Starting(s', w)
    {
      var j :| j in s.submitters && Starts(s.submitters[j]) == Some(w);
      assert j in s'.submitters && Starts(s'.submitters[j]) == Some(w);
    }
  }

  lemma InsertKeepsThreads(s: State, s': State, i: Sid, w: Wid, now: int)
    requires Threads(s) && i in s.submitters && i in s'.submitters && w !in s.workers
    requires Starts(s.submitters[i]) == None && s'.submitters[i].Create? && s'.submitters[i].wid == w
    requires s' == s.(submitters := s.submitters[i := s'.submitters[i]], pool := s.pool + {w},
                      workers := s.workers[w := Worker(NotCreated, Initial, false, false, now)])
    ensures Threads(s')
  {
    forall v | v in s'.workers && !s'.workers[v].alive && s'.workers[v].pc != Gone
      ensures Starting(s', v)
    {
      if v == w {
        assert Starts(s'.submitters[i]) == Some(w);
      } else {
        var j :| j in s.submitters && Starts(s.submitters[j]) == Some(v);
        assert j in s'.submitters && Starts(s'.submitters[j]) == Some(v);
      }
    }
  }

  lemma StartKeepsThreads(s: State, s': State, i: Sid)
    requires Threads(s) && i in s.submitters && i in s'.submitters && Starts(s.submitters[i]).Some?
    requires Starts(s.submitters[i]).value in s.workers
    requires
      var w := Starts(s.submitters[i]).value;
      && w in s'.workers
      && s' == s.(submitters := s.submitters[i := s'.submitters[i]],
                  workers := s.workers[w := s'.workers[w]])
      && if s.submitters[i].Create?
         then s'.submitters[i].MarkRun? && Starts(s'.submitters[i]) == Some(w)
              && s'.workers[w] == s.workers[w].(pc := InitHook)
         else Starts(s'.submitters[i]) == None && s'.workers[w] == s.workers[w].(alive := true)
    ensures Threads(s')
  {
    var w := Starts(s.submitters[i]).value;
    forall v | v in s'.workers && !s'.workers[v].alive && s'.workers[v].pc != Gone
      ensures Starting(s', v)
    {
      if v == w {
        assert Starts(s'.submitters[i]) == Some(w);
      } else {
        var j :| j in s.submitters && Starts(s.submitters[j]) == Some(v);
        assert j in s'.submitters && Starts(s'.submitters[j]) == Some(v);
      }
    }
  }

  lemma CallKeepsThreads(s: State, i: Sid, arg: Option<Task>)
    requires Threads(s) && CanCall(s, i, arg)
    ensures Threads(CallNext(s, i, arg))
  {
    SubmitFrame(s, CallNext(s, i, arg), i);
  }

  lemma StepKeepsThreads(s: State, a: Action)
    requires Threads(s) && Enabled(s, a)
    ensures Threads(Next(s, a))
  {
    match a
    case Call(i, arg) => CallKeepsThreads(s, i, arg);
    case Submit(i, hint, now) => SubmitKeepsThreads(s, i, hint, now);
    case Work(w, now) => WorkKeepsThreads(s, w, now);
    case StartAgeing(age, hint) => StartFrame(s, Next(s, a));
    case Age(hint) => AgeKeepsThreads(s, hint);
    case StartTerminate(quick) => StartFrame(s, Next(s, a));
    case Terminate(hint) =>
      TerminateKeepsStart(s, hint);
      TerminateKeepsOwn(s, hint);
  }

  lemma {:induction false} RunKeepsThreads(s: State, run: seq<Action>)
    requires Threads(s) && IsRun(s, run)
    ensures Threads(Exec(s, run))
    decreases |run|
  {
    if run != [] {
      StepKeepsThreads(s, run[0]);
      RunKeepsThreads(Next(s, run[0]), run[1..]);
    }
  }

  /** When `Join` can be trusted.  In every reachable state, `Join` returns for a worker whose thread has
      not ended exactly when `m_bRun` is still false because some `Execute` is inside that worker's
      `Start`; so a join of a fully started worker is always a join of a finished thread. */
  lemma JoinTrusted(lo: nat, hi: nat, sids: set<Sid>, run: seq<Action>, w: Wid)
    requires InitPool(lo, hi, sids).Some? && IsRun(InitPool(lo, hi, sids).value, run)
    requires w in Exec(InitPool(lo, hi, sids).value, run).workers
    ensures
      var s := Exec(InitPool(lo, hi, sids).value, run);
      && (Starting(s, w) ==> !s.workers[w].alive)
      && (!s.workers[w].alive ==> s.workers[w].pc == Gone || Starting(s, w))
      && (s.workers[w].pc == Gone && s.workers[w].alive ==> !Starting(s, w))
  {
    RunKeepsThreads(Fresh(lo, hi, sids), run);
  }

  // ---------------------------------------------------------------- no orphans

  /** The ageing thread does not pick a worker that is still being started.  A caller gets this by
      ageing only workers idle for longer than an `Execute` takes. */
  ghost predicate Prompt(s: State, a: Action) {
    a.Age? && s.ager.AgeStamp? && s.ager.wid in s.workers && s.workers[s.ager.wid].stamp <= s.ager.age
    ==> !Starting(s, s.ager.wid)
  }

  ghost predicate IsPromptRun(s: State, run: seq<Action>)
    ensures IsPromptRun(s, run) ==> IsRun(s, run)
    decreases |run|
  {
    run == [] || (Enabled(s, run[0]) && Prompt(s, run[0]) && IsPromptRun(Next(s, run[0]), run[1..]))
  }

  /** No worker the ageing thread will join is still being started. */
  ghost predicate AgeSettled(s: State) {
    && (s.ager.AgeTell? || s.ager.AgeErase? ==> s.ager.wid in s.workers && !Starting(s, s.ager.wid))
    && (forall w :: w in s.ageTrash ==> w in s.workers && !Starting(s, w))
    && s.orphans == {}
  }

  /** Ageing steps leave the submitters and the set of worker objects alone. */
  lemma AgeShape(s: State, hint: Option<Wid>)
    requires CanAge(s, hint)
    ensures AgeNext(s, hint).submitters == s.submitters && AgeNext(s, hint).workers.Keys == s.workers.Keys
  {
  }

  /** And so do the steps of `Terminate`. */
  lemma TerminateShape(s: State, hint: Option<Wid>)
    requires CanTerminate(s, hint)
    ensures TerminateNext(s, hint).submitters == s.submitters
    ensures TerminateNext(s, hint).workers.Keys == s.workers.Keys
    ensures TerminateNext(s, hint).ager == s.ager && TerminateNext(s, hint).ageTrash == s.ageTrash
  {
  }

  lemma OtherShape(s: State, a: Action)
    requires Enabled(s, a) && !a.Submit? && !a.Call?
    ensures Next(s, a).submitters == s.submitters && Next(s, a).workers.Keys == s.workers.Keys
  {
    match a
    case Work(w, now) => WorkShape(s, w, now);
    case Age(hint) => AgeShape(s, hint);
    case Terminate(hint) => TerminateShape(s, hint);
    case StartAgeing(age, hint) =>
    case StartTerminate(quick) =>
  }

  lemma SubmitWorkers(s: State, i: Sid, hint: Option<Wid>, now: int)
    requires CanSubmit(s, i, hint)
    ensures s.workers.Keys <= SubmitNext(s, i, hint, now).workers.Keys
  {
  }

  /** A step of another thread leaves `w` where it is, and leaves a stop order standing. */
  lemma Elsewhere(s: State, a: Action, w: Wid)
    requires Enabled(s, a) && w in s.workers && s.workers[w].pc != NotCreated
    requires !(a.Work? && a.wid == w)
    ensures w in Next(s, a).workers && Next(s, a).workers[w].pc == s.workers[w].pc
    ensures Next(s, a).workers[w].status == s.workers[w].status || Next(s, a).workers[w].status == Stopping
  {
    match a
    case Work(v, now) => WorkShape(s, v, now);
    case Submit(i, hint, now) => SubmitElsewhere(s, i, hint, now, w);
    case Age(hint) =>
    case Terminate(hint) =>
    case _ =>
  }

  lemma SubmitElsewhere(s: State, i: Sid, hint: Option<Wid>, now: int, w: Wid)
    requires CanSubmit(s, i, hint) && w in s.workers && s.workers[w].pc != NotCreated
    ensures w in SubmitNext(s, i, hint, now).workers
    ensures SubmitNext(s, i, hint, now).workers[w].pc == s.workers[w].pc
    ensures SubmitNext(s, i, hint, now).workers[w].status == s.workers[w].status
  {
  }

  /** A thread that has ended stays ended. */
  lemma GoneStays(s: State, a: Action, w: Wid)
    requires Enabled(s, a) && w in s.workers && s.workers[w].pc == Gone
    ensures w in Next(s, a).workers && Next(s, a).workers[w].pc == Gone
  {
    Elsewhere(s, a, w);
  }

  lemma {:induction false} GoneForEver(s: State, run: seq<Action>, w: Wid)
    requires IsRun(s, run) && w in s.workers && s.workers[w].pc == Gone
    ensures w in Exec(s, run).workers && Exec(s, run).workers[w].pc == Gone
    decreases |run|
  {
    hide Next, Enabled;
    if run != [] {
      GoneStays(s, run[0], w);
      GoneForEver(Next(s, run[0]), run[1..], w);
    }
  }

  /** A worker that nobody is starting stays that way. */
  lemma StaysStarted(s: State, a: Action, w: Wid)
    requires Enabled(s, a) && w in s.workers && !Starting(s, w)
    ensures w in Next(s, a).workers && !Starting(Next(s, a), w)
  {
    var s' := Next(s, a);
    match a {
      case Submit(i, hint, now) =>
        SubmitShape(s, i, hint, now);
        SubmitWorkers(s, i, hint, now);
        assert Starts(s.submitters[i]) != Some(w);
        NotStarting(s, s', i, w);
      case Call(i, arg) => NotStarting(s, s', i, w);
      case _ =>
        OtherShape(s, a);
        NotStartingSame(s, s', w);
    }
  }

  lemma NotStarting(s: State, s': State, i: Sid, w: Wid)
    requires i in s'.submitters && s'.submitters == s.submitters[i := s'.submitters[i]]
    requires !Starting(s, w) && Starts(s'.submitters[i]) != Some(w)
    ensures !Starting(s', w)
  {
    forall j | j in s'.submitters ensures Starts(s'.submitters[j]) != Some(w) {
      if j != i {
        assert j in s.submitters;
      }
    }
  }

  lemma NotStartingSame(s: State, s': State, w: Wid)
    requires s'.submitters == s.submitters && !Starting(s, w)
    ensures !Starting(s', w)
  {
    forall j | j in s'.submitters ensures Starts(s'.submitters[j]) != Some(w) {
      assert j in s.submitters;
    }
  }

  /** Orphans are made only by joining. */
  lemma OrphanShape(s: State, a: Action)
    requires Enabled(s, a) && !(a.Age? && s.ager.AgeJoin?) && !(a.Terminate? && s.term.JoinAll?)
    ensures Next(s, a).orphans == s.orphans
  {
    match a
    case Submit(i, hint, now) => SubmitOrphans(s, i, hint, now);
    case Work(w, now) => WorkShape(s, w, now);
    case Age(hint) => AgeOrphans(s, hint);
    case Terminate(hint) => TerminateOrphans(s, hint);
    case _ =>
  }

  lemma SubmitOrphans(s: State, i: Sid, hint: Option<Wid>, now: int)
    requires CanSubmit(s, i, hint)
    ensures SubmitNext(s, i, hint, now).orphans == s.orphans
  {
  }

  lemma AgeOrphans(s: State, hint: Option<Wid>)
    requires CanAge(s, hint) && !s.ager.AgeJoin?
    ensures AgeNext(s, hint).orphans == s.orphans
  {
  }

  lemma TerminateOrphans(s: State, hint: Option<Wid>)
    requires CanTerminate(s, hint) && !s.term.JoinAll?
    ensures TerminateNext(s, hint).orphans == s.orphans
  {
  }

  ghost predicate Aims(ager: AgePc, w: Wid) {
    (ager.AgeTell? || ager.AgeErase?) && ager.wid == w
  }

  lemma AgeAim(s: State, hint: Option<Wid>, w: Wid)
    requires CanAge(s, hint)
    ensures w in AgeNext(s, hint).ageTrash ==> w in s.ageTrash || Aims(s.ager, w)
    ensures Aims(AgeNext(s, hint).ager, w) ==>
      || Aims(s.ager, w)
      || (s.ager.AgeStamp? && s.ager.wid == w && w in s.workers && s.workers[w].stamp <= s.ager.age)
  {
  }

  lemma SubmitAim(s: State, i: Sid, hint: Option<Wid>, now: int)
    requires CanSubmit(s, i, hint)
    ensures SubmitNext(s, i, hint, now).ager == s.ager && SubmitNext(s, i, hint, now).ageTrash == s.ageTrash
  {
  }

  /** What the ageing thread aims at was aimed at before, or was just found idle for long enough. */
  lemma AimShape(s: State, a: Action, w: Wid)
    requires Enabled(s, a)
    ensures w in Next(s, a).ageTrash ==> w in s.ageTrash || Aims(s.ager, w)
    ensures Aims(Next(s, a).ager, w) ==>
      || Aims(s.ager, w)
      || (a.Age? && s.ager.AgeStamp? && s.ager.wid == w && w in s.workers && s.workers[w].stamp <= s.ager.age)
  {
    match a
    case Age(hint) => AgeAim(s, hint, w);
    case Submit(i, hint, now) => SubmitAim(s, i, hint, now);
    case Work(v, now) => WorkShape(s, v, now);
    case Terminate(hint) => TerminateShape(s, hint);
    case _ =>
  }

  lemma StepKeepsSettled(s: State, a: Action)
    requires Threads(s) && AgeSettled(s) && Enabled(s, a) && Prompt(s, a) && BeforeDrain(s)
    ensures AgeSettled(Next(s, a))
  {
    var s' := Next(s, a);
    forall w | w in s'.ageTrash || Aims(s'.ager, w)
      ensures w in s'.workers && !Starting(s', w)
    {
      AimShape(s, a, w);
      StaysStarted(s, a, w);
    }
    if a.Age? && s.ager.AgeJoin? {
      assert s'.orphans == {};
    } else {
      OrphanShape(s, a);
    }
  }

  ghost predicate BeforeDrain(s: State) {
    s.term.NotCalled? || s.term.ClearEnable?
  }

  lemma {:induction false} PromptRunSettled(s: State, run: seq<Action>)
    requires Threads(s) && AgeSettled(s) && BeforeDrain(s) && IsPromptRun(s, run)
    requires BeforeDrain(Exec(s, run))
    ensures AgeSettled(Exec(s, run))
    decreases |run|
  {
    if run != [] {
      var s1 := Next(s, run[0]);
      if !BeforeDrain(s1) {
        NeverBack(s1, run[1..]);
      }
      StepKeepsThreads(s, run[0]);
      StepKeepsSettled(s, run[0]);
      PromptRunSettled(s1, run[1..]);
    }
  }

  lemma {:induction false} NeverBack(s: State, run: seq<Action>)
    requires !BeforeDrain(s) && IsRun(s, run)
    ensures !BeforeDrain(Exec(s, run))
    decreases |run|
  {
    if run != [] {
      NeverBack(Next(s, run[0]), run[1..]);
    }
  }

  /** A run from `Init` in which ageing picks no worker that is still being started has made no orphans by the
      time `Terminate` clears the flag. */
  lemma PromptMakesNoOrphans(lo: nat, hi: nat, sids: set<Sid>, run: seq<Action>)
    requires InitPool(lo, hi, sids).Some? && IsPromptRun(InitPool(lo, hi, sids).value, run)
    requires BeforeDrain(Exec(InitPool(lo, hi, sids).value, run))
    ensures Exec(InitPool(lo, hi, sids).value, run).orphans == {}
  {
    PromptRunSettled(Fresh(lo, hi, sids), run);
  }

  // ---------------------------------------------------------------- the drain

  /** Where a submitter can do no more harm once the flag is cleared: not yet at the enable check, or with no
      task left to push. */
  predicate Harmless(pc: SubmitPc) {
    pc.TestEnable? || Carried(pc) == None
  }

  /** Past the enable check with `t`. */
  predicate Carries(pc: SubmitPc, t: Task) {
    !pc.TestEnable? && Carried(pc) == Some(t)
  }

  ghost predicate NoneInside(s: State) {
    forall i :: i in s.submitters ==> Harmless(s.submitters[i])
  }

  /** What holds from clearing the flag on. */
  ghost predicate Draining(s: State) {
    && !s.enable && NoneInside(s)
    && match s.term
       case NotCalled => false
       case ClearEnable => false
       case Drain => true
       case ZeroMin => s.tasks == []
       case ZeroMax => s.tasks == []
       case Begin => s.tasks == []
       case TellLoop(itr) => s.tasks == [] && forall y :: y in s.pool ==> itr.Some? && itr.value <= y
       case Tell(w, itr) =>
         s.tasks == [] && forall y :: y in s.pool ==> y == w || (itr.Some? && itr.value <= y)
       case Erase(w, itr) =>
         s.tasks == [] && forall y :: y in s.pool ==> y == w || (itr.Some? && itr.value <= y)
       case JoinAll => s.tasks == [] && s.pool == {}
       case Returned => s.tasks == [] && s.pool == {}
  }

  lemma NoMember(pool: set<Wid>)
    requires forall y :: y in pool ==> false
    ensures pool == {}
  {
    assert forall y :: y !in pool;
  }

  lemma NoneStarting(s: State, w: Wid)
    requires NoneInside(s)
    ensures !Starting(s, w)
  {
  }

  lemma DrainTerminate(s: State, hint: Option<Wid>)
    requires Threads(s) && Draining(s) && CanTerminate(s, hint)
    ensures Draining(TerminateNext(s, hint)) && TerminateNext(s, hint).orphans == s.orphans
  {
    if s.term.TellLoop? && s.term.itr == None {
      NoMember(s.pool);
    }
    if s.term.JoinAll? && hint.Some? {
      NoneStarting(s, hint.value);
    }
  }

  /** Ageing may go on meanwhile: it only takes workers out. */
  lemma DrainAge(s: State, hint: Option<Wid>)
    requires Threads(s) && Draining(s) && CanAge(s, hint)
    ensures Draining(AgeNext(s, hint)) && AgeNext(s, hint).orphans == s.orphans
  {
    if s.ager.AgeJoin? && hint.Some? {
      NoneStarting(s, hint.value);
    }
    assert AgeNext(s, hint).pool <= s.pool;
  }

  lemma DrainSubmit(s: State, i: Sid, hint: Option<Wid>, now: int)
    requires Draining(s) && CanSubmit(s, i, hint)
    ensures Draining(SubmitNext(s, i, hint, now)) && SubmitNext(s, i, hint, now).orphans == s.orphans
  {
    assert Harmless(s.submitters[i]);
  }

  lemma DrainWork(s: State, w: Wid, now: int)
    requires Draining(s) && CanWork(s, w)
    ensures Draining(WorkNext(s, w, now)) && WorkNext(s, w, now).orphans == s.orphans
  {
    WorkShape(s, w, now);
    assert s.tasks == [] ==> WorkNext(s, w, now).tasks == [];
  }

  /** Every step of every thread, ageing included, keeps the drain going and orphans no worker. */
  lemma DrainStep(s: State, a: Action)
    requires Threads(s) && Draining(s) && Enabled(s, a)
    ensures Draining(Next(s, a)) && Next(s, a).orphans == s.orphans
  {
    match a
    case Call(i, arg) =>
    case Submit(i, hint, now) => DrainSubmit(s, i, hint, now);
    case Work(w, now) => DrainWork(s, w, now);
    case Terminate(hint) => DrainTerminate(s, hint);
    case Age(hint) => DrainAge(s, hint);
    case StartAgeing(age, hint) =>
    case StartTerminate(quick) =>
  }

  lemma {:induction false} DrainRun(s: State, run: seq<Action>)
    requires Threads(s) && Draining(s) && IsRun(s, run)
    ensures Draining(Exec(s, run)) && Exec(s, run).orphans == s.orphans
    decreases |run|
  {
    if run != [] {
      StepKeepsThreads(s, run[0]);
      DrainStep(s, run[0]);
      DrainRun(Next(s, run[0]), run[1..]);
    }
  }

  /** A worker that is in nobody's hands any more: the ageing thread has taken it out and not yet joined it,
      or it was orphaned before the flag was cleared. */
  ghost predicate TakenOut(s: State, orphans: set<Wid>, w: Wid) {
    w in s.ageTrash || w in orphans
  }

  /** Every worker orphaned so far has ended. */
  ghost predicate OrphansGone(s: State) {
    forall w :: w in s.orphans ==> w in s.workers && s.workers[w].pc == Gone
  }

  ghost predicate AllGone(s: State) {
    forall w :: w in s.workers ==> s.workers[w].pc == Gone
  }

  ghost predicate HeldOutside(s: State, orphans: set<Wid>, t: Task) {
    exists w :: w in s.workers && TakenOut(s, orphans, w) && Held(s.workers[w].pc) == Some(t)
  }

  /** A task that was pushed, popped, run and deleted once each, all by one worker. */
  ghost predicate Completed(s: State, t: Task) {
    exists w :: Hist(s.log, t) == [Pushed(t), Popped(w, t), Ran(w, t), Deleted(w, t)]
  }

  /** Shutdown drains.  Take any run from `Init` up to the moment `Terminate` clears the flag with no `Execute`
      between its enable check and its push, and any continuation after which `Terminate` has returned.  Then
      the queue and the worker set are empty, and nobody has been orphaned since.  A thread that has not ended
      was taken out by the ageing thread or orphaned before, and a pushed task is disposed of or held by such
      a thread.  With no ageing pass in progress at the end, and every worker orphaned before the clearing ended
      by then, every thread has ended; and when they have, every pushed task was popped and deleted once, and run
      once unless quick-free was asked for. */
  lemma ShutdownDrains(lo: nat, hi: nat, sids: set<Sid>, before: seq<Action>, after: seq<Action>, t: Task)
    requires InitPool(lo, hi, sids).Some? && IsRun(InitPool(lo, hi, sids).value, before)
    requires
      var s1 := Exec(InitPool(lo, hi, sids).value, before);
      && s1.term.ClearEnable? && NoneInside(s1)
      && IsRun(s1, after) && after != [] && after[0].Terminate?
      && Exec(s1, after).term.Returned?
    ensures
      var s1 := Exec(InitPool(lo, hi, sids).value, before);
      var s := Exec(s1, after);
      && s.tasks == [] && s.pool == {} && Pops(s.log) == Pushes(s.log) && s.orphans == s1.orphans
      && (forall w :: w in s.workers ==> s.workers[w].pc == Gone || TakenOut(s, s1.orphans, w))
      && (Pushed(t) in Hist(s.log, t) ==> DisposedBySome(s, t) || HeldOutside(s, s1.orphans, t))
      && (s.ager == Resting && OrphansGone(s1) ==> AllGone(s))
      && (AllGone(s) && Pushed(t) in Hist(s.log, t) ==> DisposedBySome(s, t))
      && (DisposedBySome(s, t) && !s.quickFree ==> Completed(s, t))
  {
    hide Next, Enabled, Threads, Conserved, Draining, NoneInside, Hist, Pops, Pushes;
    var s0 := Fresh(lo, hi, sids);
    var s1 := Exec(s0, before);
    InitConserved(lo, hi, sids);
    InitThreads(lo, hi, sids);
    RunKeepsThreads(s0, before);
    RunKeepsConserved(s0, before);
    StepKeepsThreads(s1, after[0]);
    StepKeepsConserved(s1, after[0]);
    DrainBegins(s1, after[0]);
    var s2 := Next(s1, after[0]);
    RunKeepsThreads(s2, after[1..]);
    RunKeepsConserved(s2, after[1..]);
    DrainRun(s2, after[1..]);
    var s := Exec(s2, after[1..]);
    if OrphansGone(s1) {
      forall w | w in s1.orphans ensures w in s.workers && s.workers[w].pc == Gone {
        GoneForEver(s1, after, w);
      }
    }
    WhoIsLeft(s, t);
    DrainedIsEmpty(s);
  }

  lemma InitThreads(lo: nat, hi: nat, sids: set<Sid>)
    ensures Threads(Fresh(lo, hi, sids))
  {
  }

  lemma DrainBegins(s: State, a: Action)
    requires Enabled(s, a) && s.term.ClearEnable? && a.Terminate? && NoneInside(s)
    ensures Draining(Next(s, a)) && Next(s, a).orphans == s.orphans
  {
  }

  lemma DrainedIsEmpty(s: State)
    requires Draining(s) && s.term.Returned?
    ensures s.tasks == [] && s.pool == {}
  {
  }

  lemma WhoIsLeft(s: State, t: Task)
    requires Threads(s) && Conserved(s) && Draining(s) && s.term.Returned?
    ensures Pops(s.log) == Pushes(s.log)
    ensures forall w :: w in s.workers ==> s.workers[w].pc == Gone || TakenOut(s, s.orphans, w)
    ensures Pushed(t) in Hist(s.log, t) ==> DisposedBySome(s, t) || HeldOutside(s, s.orphans, t)
    ensures s.ager == Resting && OrphansGone(s) ==> AllGone(s)
    ensures AllGone(s) ==> !HeldOutside(s, s.orphans, t)
    ensures DisposedBySome(s, t) && !s.quickFree ==> Completed(s, t)
  {
    hide Hist, Pops, Pushes;
    WhereTaskIs(s, t);
    var h := Hist(s.log, t);
    assert Pops(s.log) + [] == Pops(s.log);
    if HeldBySome(s, t) {
      var w :| w in s.workers && Held(s.workers[w].pc) == Some(t);
      assert TakenOut(s, s.orphans, w);
    }
    if DisposedBySome(s, t) && !s.quickFree {
      var w :| Disposed(h, w, t, s.quickFree);
      assert h == h[..3] + [h[3]];
      assert h == [Pushed(t), Popped(w, t), Ran(w, t), Deleted(w, t)];
    }
  }
}
