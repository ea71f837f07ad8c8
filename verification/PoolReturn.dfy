/** When `Terminate` can return: exactly when no worker it is waiting for is blocked.  */
module PoolReturn {
  import opened FiniteSets
  import opened Options
  import opened PoolModel
  import opened PoolConservation
  import opened PoolShutdown
  import opened PoolExit

  // ---------------------------------------------------------------- what holds in every reachable state

  /** How far `Terminate` has come. */
  function Stage(term: TermPc): nat {
    match term
    case NotCalled => 0
    case ClearEnable => 1
    case Drain => 2
    case ZeroMin => 3
    case ZeroMax => 4
    case Begin => 5
    case TellLoop(_) => 6
    case Tell(_, _) => 6
    case Erase(_, _) => 6
    case JoinAll => 7
    case Returned => 8
  }

  ghost predicate Phases(s: State) {
    && (Stage(s.term) >= 2 ==> !s.enable)
    && (Stage(s.term) >= 4 ==> s.minThreads == 0)
    && (Stage(s.term) >= 5 ==> s.maxThreads == 0)
  }

  /** A worker past line 75 has a status, one past its loop was told to leave it, and a busy one has a task or
      has just deleted it. */
  predicate StatusFits(me: Worker) {
    && (PastStart(me.pc) ==> me.status != Initial)
    && (me.pc == ExitHook || me.pc == ClearRun || me.pc == Gone ==> me.status == Stopping)
    && (me.busy <==> me.pc.TestQuick? || me.pc.RunTask? || me.pc.DeleteTask? || me.pc == Stamp || me.pc == ClearBusy)
  }

  ghost predicate Orders(s: State) {
    forall w :: w in s.workers ==> StatusFits(s.workers[w])
  }

  /** The iterator of a busy test is at a worker. */
  ghost predicate Scans(s: State) {
    forall i :: i in s.submitters && s.submitters[i].ScanBusy? && s.submitters[i].itr.Some? ==>
      s.submitters[i].itr.value in s.workers
  }

  ghost predicate Reached(s: State) {
    Threads(s) && Phases(s) && Orders(s) && Scans(s) && s.pool !! s.termTrash
  }

  lemma SubmitScans(s: State, i: Sid, hint: Option<Wid>, now: int)
    requires Scans(s) && s.pool <= s.workers.Keys && CanSubmit(s, i, hint)
    ensures Scans(SubmitNext(s, i, hint, now))
  {
    SubmitWorkers(s, i, hint, now);
    SubmitShape(s, i, hint, now);
    var pc := SubmitNext(s, i, hint, now).submitters[i];
    assert pc.ScanBusy? && pc.itr.Some? ==> pc.itr.value in s.pool;
  }

  lemma StepKeepsScans(s: State, a: Action)
    requires Threads(s) && Scans(s) && Enabled(s, a)
    ensures Scans(Next(s, a))
  {
    match a
    case Submit(i, hint, now) => SubmitScans(s, i, hint, now);
    case Call(i, arg) =>
    case _ => OtherShape(s, a);
  }

  lemma SubmitPhases(s: State, i: Sid, hint: Option<Wid>, now: int)
    requires Phases(s) && CanSubmit(s, i, hint)
    ensures Phases(SubmitNext(s, i, hint, now)) && SubmitNext(s, i, hint, now).term == s.term
  {
  }

  lemma StepKeepsPhases(s: State, a: Action)
    requires Phases(s) && Enabled(s, a)
    ensures Phases(Next(s, a)) && Stage(s.term) <= Stage(Next(s, a).term)
  {
    match a
    case Submit(i, hint, now) => SubmitPhases(s, i, hint, now);
    case Age(hint) =>
    case Work(w, now) => WorkShape(s, w, now);
    case Terminate(hint) =>
    case _ =>
  }

  lemma SubmitOrders(s: State, i: Sid, hint: Option<Wid>, now: int)
    requires Orders(s) && CanSubmit(s, i, hint)
    ensures Orders(SubmitNext(s, i, hint, now))
  {
  }

  lemma AgeOrders(s: State, hint: Option<Wid>)
    requires Orders(s) && CanAge(s, hint)
    ensures Orders(AgeNext(s, hint))
  {
  }

  lemma TerminateOrders(s: State, hint: Option<Wid>)
    requires Orders(s) && CanTerminate(s, hint)
    ensures Orders(TerminateNext(s, hint))
  {
  }

  lemma WorkOrders(s: State, w: Wid, now: int)
    requires Orders(s) && CanWork(s, w)
    ensures Orders(WorkNext(s, w, now))
  {
    var me := s.workers[w];
    assert StatusFits(me);
    assert StatusFits(WorkerNext(me, s.tasks, s.quickFree, now));
  }

  lemma StepKeepsOrders(s: State, a: Action)
    requires Orders(s) && Enabled(s, a)
    ensures Orders(Next(s, a))
  {
    match a
    case Submit(i, hint, now) => SubmitOrders(s, i, hint, now);
    case Age(hint) => AgeOrders(s, hint);
    case Work(w, now) => WorkOrders(s, w, now);
    case Terminate(hint) => TerminateOrders(s, hint);
    case _ =>
  }

  lemma SubmitSets(s: State, i: Sid, hint: Option<Wid>, now: int)
    requires CanSubmit(s, i, hint)
    ensures SubmitNext(s, i, hint, now).termTrash == s.termTrash && s.pool <= SubmitNext(s, i, hint, now).pool
    ensures forall w :: w in SubmitNext(s, i, hint, now).pool ==> w in s.pool || w !in s.workers
  {
  }

  lemma StepKeepsApart(s: State, a: Action)
    requires Threads(s) && s.pool !! s.termTrash && Enabled(s, a)
    ensures Next(s, a).pool !! Next(s, a).termTrash
  {
    match a
    case Submit(i, hint, now) => SubmitSets(s, i, hint, now);
    case Age(hint) =>
    case Work(w, now) => WorkShape(s, w, now);
    case Terminate(hint) =>
    case _ =>
  }

  lemma {:induction false} RunReached(s: State, run: seq<Action>)
    requires Reached(s) && IsRun(s, run)
    ensures Reached(Exec(s, run))
    decreases |run|
  {
    hide Next, Enabled, Threads, Phases, Orders, Scans;
    if run != [] {
      StepKeepsThreads(s, run[0]);
      StepKeepsPhases(s, run[0]);
      StepKeepsOrders(s, run[0]);
      StepKeepsScans(s, run[0]);
      StepKeepsApart(s, run[0]);
      RunReached(Next(s, run[0]), run[1..]);
    }
  }

  lemma InitReached(lo: nat, hi: nat, sids: set<Sid>)
    ensures Reached(Fresh(lo, hi, sids))
  {
  }

  // ---------------------------------------------------------------- a worker that blocks the join

  /** The ageing thread's cursor is not at `w`. */
  predicate NotAt(ager: AgePc, w: Wid) {
    match ager
    case Resting => true
    case AgeLoop(_, itr) => itr != Some(w)
    case AgeJoin => true
    case _ => ager.wid != w && ager.itr != Some(w)
  }

  /** `Terminate` is joining `w`, whose run flag is set and will stay so: its thread has ended already (the
      flag came late), or it has no stop order, or has one that line 75 will overwrite; and as it is in no set
      that anybody tells, no other order comes. */
  ghost predicate Blocked(s: State, w: Wid) {
    && s.term.JoinAll? && w in s.termTrash && w !in s.pool && w in s.workers && NotAt(s.ager, w)
    && s.workers[w].alive
    && match s.workers[w].pc
       case NotCreated => false
       case InitHook => true
       case MarkStarted => true
       case ExitHook => false
       case ClearRun => false
       case Gone => true
       case _ => s.workers[w].status == Started
  }

  lemma SubmitAlive(s: State, i: Sid, hint: Option<Wid>, now: int, w: Wid)
    requires CanSubmit(s, i, hint) && w in s.workers && s.workers[w].alive
    ensures w in SubmitNext(s, i, hint, now).workers && SubmitNext(s, i, hint, now).workers[w].alive
  {
  }

  lemma BlockedSubmit(s: State, i: Sid, hint: Option<Wid>, now: int, w: Wid)
    requires Blocked(s, w) && CanSubmit(s, i, hint)
    ensures Blocked(SubmitNext(s, i, hint, now), w)
  {
    hide CanSubmit, SubmitNext, NotAt;
    SubmitElsewhere(s, i, hint, now, w);
    SubmitAlive(s, i, hint, now, w);
    SubmitSets(s, i, hint, now);
    SubmitTerm(s, i, hint, now);
    SubmitAim(s, i, hint, now);
  }

  lemma BlockedAge(s: State, hint: Option<Wid>, w: Wid)
    requires Blocked(s, w) && CanAge(s, hint)
    ensures Blocked(AgeNext(s, hint), w)
  {
  }

  lemma BlockedStep(s: State, a: Action, w: Wid)
    requires Blocked(s, w) && Enabled(s, a)
    ensures Blocked(Next(s, a), w)
  {
    match a
    case Work(v, now) => WorkShape(s, v, now);
    case Submit(i, hint, now) => BlockedSubmit(s, i, hint, now, w);
    case Age(hint) => BlockedAge(s, hint, w);
    case Terminate(hint) =>
    case _ =>
  }

  /** A blocked worker keeps `Terminate` waiting over every continuation. */
  lemma {:induction false} BlockedForEver(s: State, run: seq<Action>, w: Wid)
    requires Blocked(s, w) && IsRun(s, run)
    ensures Blocked(Exec(s, run), w)
    decreases |run|
  {
    hide Next, Enabled, Blocked;
    if run != [] {
      BlockedStep(s, run[0], w);
      BlockedForEver(Next(s, run[0]), run[1..], w);
    }
  }

  // ---------------------------------------------------------------- the exact condition

  /** `Join` has returned for `w` or can still return: its run flag is clear, or it has been told past line 75
      and has still to clear it. */
  ghost predicate CanEnd(s: State, w: Wid) {
    w in s.workers && (!s.workers[w].alive || (Told(s, w) && s.workers[w].pc != Gone))
  }

  /** A told worker, left to run, ends and clears its run flag; nobody else is touched. */
  lemma {:induction false} ToldEnds(s: State, w: Wid) returns (run: seq<Action>)
    requires Told(s, w) && s.workers[w].pc != Gone
    ensures IsRun(s, run)
    ensures
      var s' := Exec(s, run);
      && w in s'.workers && s'.workers[w].pc == Gone && !s'.workers[w].alive && s'.workers[w].status == Stopping
      && s' == s.(workers := s.workers[w := s'.workers[w]], tasks := s'.tasks, log := s'.log)
    decreases StepsLeft(s.workers[w].pc)
  {
    var s1 := WorkNext(s, w, 0);
    WorkShape(s, w, 0);
    ToldWork(s, w, 0);
    Single(s, Work(w, 0));
    if s1.workers[w].pc == Gone {
      run := [Work(w, 0)];
    } else {
      var more := ToldEnds(s1, w);
      run := Append(s, [Work(w, 0)], more);
    }
  }

  /** The thread is in its loop and has no order to leave it. */
  predicate Going(me: Worker) {
    PastStart(me.pc) && me.status == Started && me.pc != ExitHook && me.pc != ClearRun && me.pc != Gone
  }

  /** The steps to the next look at the queue. */
  function ToTake(pc: WorkerPc): nat {
    match pc
    case LoopTest => 1
    case Beat => 2
    case ClearBusy => 3
    case Wait => 3
    case Stamp => 4
    case DeleteTask(_) => 5
    case RunTask(_) => 6
    case TestQuick(_) => 7
    case MarkBusy(_) => 8
    case _ => 0
  }

  /** Such a thread, left to run, empties the queue; nobody else is touched. */
  lemma {:induction false} WorkerDrains(s: State, w: Wid) returns (run: seq<Action>)
    requires w in s.workers && Going(s.workers[w])
    ensures IsRun(s, run)
    ensures
      var s' := Exec(s, run);
      && w in s'.workers && Going(s'.workers[w]) && s'.workers[w].alive == s.workers[w].alive
      && s' == s.(workers := s.workers[w := s'.workers[w]], tasks := [], log := s'.log)
    decreases |s.tasks|, ToTake(s.workers[w].pc)
  {
    if s.tasks == [] {
      run := Nothing(s);
      assert s.workers == s.workers[w := s.workers[w]];
    } else {
      var s1 := WorkNext(s, w, 0);
      WorkShape(s, w, 0);
      Single(s, Work(w, 0));
      var more := WorkerDrains(s1, w);
      run := Append(s, [Work(w, 0)], more);
    }
  }

  /** The threads that are past the loop test and about to look at the queue. */
  ghost function Takers(s: State): set<Wid> {
    set w | w in s.workers && s.workers[w].pc == Take
  }

  lemma SameTakers(s: State, s': State)
    requires forall w :: w in s.workers || w in s'.workers ==>
      ((w in s.workers && s.workers[w].pc == Take) <==> (w in s'.workers && s'.workers[w].pc == Take))
    ensures Takers(s') == Takers(s)
  {
    assert forall w :: w in Takers(s') <==> w in Takers(s);
  }

  /** They can take as many tasks as they are, and nobody else need move. */
  lemma {:induction false} TakersTake(s: State, n: nat) returns (run: seq<Action>)
    requires n <= |Takers(s)| && n <= |s.tasks|
    ensures IsRun(s, run)
    ensures
      var s' := Exec(s, run);
      && s'.workers.Keys == s.workers.Keys
      && s' == s.(workers := s'.workers, tasks := s.tasks[n..], log := s'.log)
      && forall w :: w in s.workers && w !in Takers(s) ==> s'.workers[w] == s.workers[w]
    decreases n
  {
    hide IsRun, Exec;
    if n == 0 {
      run := Nothing(s);
    } else {
      var w := Member(Takers(s));
      Single(s, Work(w, 0));
      WorkShape(s, w, 0);
      var s1 := WorkNext(s, w, 0);
      TakerTakes(s, w, 0);
      var more := TakersTake(s1, n - 1);
      run := Append(s, [Work(w, 0)], more);
      assert s.tasks[1..][n - 1..] == s.tasks[n..];
    }
  }

  lemma TakerTakes(s: State, w: Wid, now: int)
    requires CanWork(s, w) && w in Takers(s)
    ensures |Takers(WorkNext(s, w, now))| == |Takers(s)| - 1
    ensures Takers(WorkNext(s, w, now)) == Takers(s) - {w}
  {
    assert Takers(WorkNext(s, w, now)) == Takers(s) - {w};
  }

  ghost predicate Returnable(s: State) {
    forall w :: w in s.termTrash ==> CanEnd(s, w)
  }

  /** The joins, one after the other, each after letting its worker finish. */
  lemma {:induction false} AllJoined(s: State) returns (run: seq<Action>)
    requires s.term.JoinAll? && Returnable(s)
    ensures IsRun(s, run) && Exec(s, run).term.Returned? && Exec(s, run).submitters == s.submitters
    decreases |s.termTrash|
  {
    hide IsRun, Exec;
    if s.termTrash == {} {
      Single(s, Terminate(None));
      run := [Terminate(None)];
    } else {
      var w := Least(s.termTrash);
      run := LetEnd(s, w);
      run := Add(s, run, Terminate(Some(w)));
      var s2 := Exec(s, run);
      assert s2.termTrash == s.termTrash - {w};
      Smaller(s2.termTrash, s.termTrash, w);
      var more := AllJoined(s2);
      run := Append(s, run, more);
    }
  }

  lemma LetEnd(s: State, w: Wid) returns (run: seq<Action>)
    requires CanEnd(s, w)
    ensures IsRun(s, run)
    ensures
      var s' := Exec(s, run);
      && w in s'.workers && !s'.workers[w].alive
      && s' == s.(workers := s.workers[w := s'.workers[w]], tasks := s'.tasks, log := s'.log)
  {
    if s.workers[w].alive {
      run := ToldEnds(s, w);
    } else {
      run := Nothing(s);
      assert s.workers == s.workers[w := s.workers[w]];
    }
  }

  ghost predicate MayReturn(s: State) {
    exists run :: IsRun(s, run) && Exec(s, run).term.Returned?
  }

  lemma BlockedOrCanEnd(s: State, w: Wid)
    requires Reached(s) && s.term.JoinAll? && s.ager == Resting && w in s.termTrash
    ensures CanEnd(s, w) <==> !Blocked(s, w)
  {
    assert StatusFits(s.workers[w]);
  }

  lemma BlockedNeverReturns(s: State, w: Wid)
    requires Blocked(s, w)
    ensures !MayReturn(s)
  {
    forall run | IsRun(s, run) ensures !Exec(s, run).term.Returned? {
      BlockedForEver(s, run, w);
    }
  }

  /** In every reachable state in which `Terminate` is joining and no ageing pass is under way, `Terminate` can
      still return if and only if every worker it waits for has a clear run flag, or has been told to exit
      past line 75 and has not yet ended. */
  lemma TerminateReturnsIff(lo: nat, hi: nat, sids: set<Sid>, run: seq<Action>)
    requires InitPool(lo, hi, sids).Some? && IsRun(InitPool(lo, hi, sids).value, run)
    requires
      var s := Exec(InitPool(lo, hi, sids).value, run);
      s.term.JoinAll? && s.ager == Resting
    ensures
      var s := Exec(InitPool(lo, hi, sids).value, run);
      MayReturn(s) <==> forall w :: w in s.termTrash ==>
        w in s.workers && (!s.workers[w].alive || (Told(s, w) && s.workers[w].pc != Gone))
  {
    hide IsRun, Exec, Blocked, MayReturn;
    var s := Exec(Fresh(lo, hi, sids), run);
    InitReached(lo, hi, sids);
    RunReached(Fresh(lo, hi, sids), run);
    if Returnable(s) {
      JoinsReturn(s);
    } else {
      var w :| w in s.termTrash && !CanEnd(s, w);
      BlockedOrCanEnd(s, w);
      BlockedNeverReturns(s, w);
    }
  }

  lemma JoinsReturn(s: State)
    requires s.term.JoinAll? && Returnable(s)
    ensures MayReturn(s)
  {
    var _ := AllJoined(s);
  }

  // ---------------------------------------------------------------- when that cannot be lost again

  /** No worker that `Terminate` waits for is still inside its `Start`. */
  ghost predicate Settled(s: State) {
    forall w :: w in s.termTrash ==> !Starting(s, w)
  }

  lemma EndStaysSubmit(s: State, i: Sid, hint: Option<Wid>, now: int, w: Wid)
    requires CanSubmit(s, i, hint) && StartInv(s) && CanEnd(s, w) && !Starting(s, w)
    ensures CanEnd(SubmitNext(s, i, hint, now), w)
  {
    assert Starts(s.submitters[i]) != Some(w);
  }

  lemma EndStaysAge(s: State, hint: Option<Wid>, w: Wid)
    requires CanAge(s, hint) && CanEnd(s, w)
    ensures CanEnd(AgeNext(s, hint), w)
  {
  }

  lemma EndStaysTerminate(s: State, hint: Option<Wid>, w: Wid)
    requires CanTerminate(s, hint) && CanEnd(s, w)
    ensures CanEnd(TerminateNext(s, hint), w)
  {
  }

  lemma EndStaysWork(s: State, v: Wid, now: int, w: Wid)
    requires CanWork(s, v) && CanEnd(s, w)
    ensures CanEnd(WorkNext(s, v, now), w)
  {
    WorkShape(s, v, now);
  }

  lemma EndStays(s: State, a: Action, w: Wid)
    requires Enabled(s, a) && StartInv(s) && CanEnd(s, w) && !Starting(s, w)
    ensures CanEnd(Next(s, a), w) && !Starting(Next(s, a), w)
  {
    StaysStarted(s, a, w);
    match a
    case Submit(i, hint, now) => EndStaysSubmit(s, i, hint, now, w);
    case Age(hint) => EndStaysAge(s, hint, w);
    case Terminate(hint) => EndStaysTerminate(s, hint, w);
    case Work(v, now) => EndStaysWork(s, v, now, w);
    case _ =>
  }

  lemma JoinStep(s: State, a: Action)
    requires Enabled(s, a) && s.term.JoinAll?
    ensures Next(s, a).term.JoinAll? || Next(s, a).term.Returned?
    ensures Next(s, a).termTrash <= s.termTrash
  {
    match a
    case Submit(i, hint, now) => SubmitSets(s, i, hint, now);
      SubmitTerm(s, i, hint, now);
    case Work(v, now) => WorkShape(s, v, now);
    case _ =>
  }

  lemma SubmitTerm(s: State, i: Sid, hint: Option<Wid>, now: int)
    requires CanSubmit(s, i, hint)
    ensures SubmitNext(s, i, hint, now).term == s.term
  {
  }

  lemma {:induction false} SettledRun(s: State, run: seq<Action>)
    requires Threads(s) && s.term.JoinAll? && Returnable(s) && Settled(s) && IsRun(s, run)
    ensures Exec(s, run).term.Returned? || MayReturn(Exec(s, run))
    decreases |run|
  {
    hide Next, Enabled, MayReturn, CanEnd, StartInv, OwnInv;
    JoinsReturn(s);
    if run != [] {
      var s1 := Next(s, run[0]);
      StepKeepsThreads(s, run[0]);
      JoinStep(s, run[0]);
      forall w | w in s1.termTrash ensures CanEnd(s1, w) && !Starting(s1, w) {
        EndStays(s, run[0], w);
      }
      if s1.term.Returned? {
        ReturnedStays(s1, run[1..]);
      } else {
        SettledRun(s1, run[1..]);
      }
    }
  }

  lemma {:induction false} ReturnedStays(s: State, run: seq<Action>)
    requires s.term.Returned? && IsRun(s, run)
    ensures Exec(s, run).term.Returned?
    decreases |run|
  {
    hide Next, Enabled;
    if run != [] {
      ReturnedStep(s, run[0]);
      ReturnedStays(Next(s, run[0]), run[1..]);
    }
  }

  lemma ReturnedStep(s: State, a: Action)
    requires s.term.Returned? && Enabled(s, a)
    ensures Next(s, a).term.Returned?
  {
    match a
    case Submit(i, hint, now) => SubmitTerm(s, i, hint, now);
    case Work(v, now) => WorkShape(s, v, now);
    case _ =>
  }

  /** A worker whose `Start` is still under way can always be led past line 75 without a standing stop order,
      or to its end, before its run flag is set. */
  lemma LeadsAstray(s: State, i: Sid, w: Wid) returns (run: seq<Action>)
    requires StartInv(s) && w in s.workers && StatusFits(s.workers[w])
    requires i in s.submitters && Starts(s.submitters[i]) == Some(w)
    ensures IsRun(s, run)
    ensures
      var s' := Exec(s, run);
      && w in s'.workers && i in s'.submitters && s'.submitters[i].MarkRun? && s'.submitters[i].wid == w
      && Astray(s'.workers[w])
      && s' == s.(submitters := s'.submitters, workers := s'.workers, tasks := s'.tasks, log := s'.log)
  {
    if s.workers[w].pc == NotCreated {
      var a := Submit(i, None, 0);
      Single(s, a);
      var more := OverwriteStop(Next(s, a), w);
      run := Append(s, [a], more);
    } else if !PastStart(s.workers[w].pc) {
      run := OverwriteStop(s, w);
    } else if s.workers[w].status == Stopping && s.workers[w].pc != Gone {
      run := ToldEnds(s, w);
    } else {
      run := Nothing(s);
    }
  }

  /** The thread has ended, or is in its loop with no order to leave it. */
  predicate Astray(me: Worker) {
    me.pc == Gone || Going(me)
  }

  lemma LateFlagBlocks(s: State, w: Wid) returns (run: seq<Action>)
    requires Reached(s) && s.term.JoinAll? && s.ager == Resting && w in s.termTrash && Starting(s, w)
    ensures IsRun(s, run) && Blocked(Exec(s, run), w)
  {
    hide IsRun, Exec;
    var i :| i in s.submitters && Starts(s.submitters[i]) == Some(w);
    assert StatusFits(s.workers[w]);
    run := LeadsAstray(s, i, w);
    run := Add(s, run, Submit(i, None, 0));
  }

  /** `Terminate` has returned, or can return, after every continuation. */
  ghost predicate KeepsReturning(s: State) {
    forall more | IsRun(s, more) :: Exec(s, more).term.Returned? || MayReturn(Exec(s, more))
  }

  lemma NotKept(s: State, more: seq<Action>, w: Wid)
    requires IsRun(s, more) && Blocked(Exec(s, more), w)
    ensures !KeepsReturning(s)
  {
    hide MayReturn;
    BlockedNeverReturns(Exec(s, more), w);
  }

  /** And no continuation can take that away if and only if, besides, no worker that it waits for is still
      inside its `Start`. */
  lemma TerminateSafeIff(lo: nat, hi: nat, sids: set<Sid>, run: seq<Action>)
    requires InitPool(lo, hi, sids).Some? && IsRun(InitPool(lo, hi, sids).value, run)
    requires
      var s := Exec(InitPool(lo, hi, sids).value, run);
      s.term.JoinAll? && s.ager == Resting
    ensures
      var s := Exec(InitPool(lo, hi, sids).value, run);
      KeepsReturning(s) <==> Returnable(s) && Settled(s)
  {
    hide MayReturn, Blocked, Reached, CanEnd;
    var s := Exec(Fresh(lo, hi, sids), run);
    InitReached(lo, hi, sids);
    RunReached(Fresh(lo, hi, sids), run);
    if Returnable(s) && Settled(s) {
      forall more | IsRun(s, more) ensures Exec(s, more).term.Returned? || MayReturn(Exec(s, more)) {
        ReachedThreads(s);
        SettledRun(s, more);
      }
    } else if !Returnable(s) {
      var w :| w in s.termTrash && !CanEnd(s, w);
      BlockedOrCanEnd(s, w);
      var none := Nothing(s);
      NotKept(s, none, w);
    } else {
      var w :| w in s.termTrash && Starting(s, w);
      var more := LateFlagBlocks(s, w);
      NotKept(s, more, w);
    }
  }

  lemma ReachedThreads(s: State)
    requires Reached(s)
    ensures Threads(s)
  {
  }

  lemma BlockedJoins(s: State, w: Wid)
    requires Blocked(s, w)
    ensures s.term.JoinAll?
  {
  }
}
