/** What is already decided when `Terminate` has cleared the flag: whether it will leave the queue empty, and
    whether it can always return.  */
module PoolDrain {
  import opened FiniteSets
  import opened Options
  import opened PoolModel
  import opened PoolConservation
  import opened PoolShutdown
  import opened PoolExit
  import opened PoolReturn
  import opened PoolBounds

  // ---------------------------------------------------------------- nobody is told before the telling

  /** Before `Terminate` tells anybody, the only worker in the set with a stop order is the one that the ageing
      thread has just told and is about to take out. */
  ghost predicate NoOrders(s: State) {
    Stage(s.term) <= 5 ==> forall w :: w in s.pool && w in s.workers && s.workers[w].status == Stopping ==>
      s.ager.AgeErase? && s.ager.wid == w
  }

  lemma SubmitNoOrders(s: State, i: Sid, hint: Option<Wid>, now: int)
    requires NoOrders(s) && s.pool <= s.workers.Keys && CanSubmit(s, i, hint)
    ensures NoOrders(SubmitNext(s, i, hint, now))
  {
    SubmitTerm(s, i, hint, now);
  }

  lemma AgeNoOrders(s: State, hint: Option<Wid>)
    requires NoOrders(s) && CanAge(s, hint)
    ensures NoOrders(AgeNext(s, hint))
  {
  }

  lemma TerminateNoOrders(s: State, hint: Option<Wid>)
    requires NoOrders(s) && CanTerminate(s, hint)
    ensures NoOrders(TerminateNext(s, hint))
  {
  }

  lemma WorkNoOrders(s: State, w: Wid, now: int)
    requires NoOrders(s) && CanWork(s, w)
    ensures NoOrders(WorkNext(s, w, now))
  {
    WorkShape(s, w, now);
  }

  lemma StepKeepsNoOrders(s: State, a: Action)
    requires NoOrders(s) && OwnInv(s) && Enabled(s, a)
    ensures NoOrders(Next(s, a))
  {
    match a
    case Submit(i, hint, now) => SubmitNoOrders(s, i, hint, now);
    case Age(hint) => AgeNoOrders(s, hint);
    case Work(w, now) => WorkNoOrders(s, w, now);
    case Terminate(hint) => TerminateNoOrders(s, hint);
    case _ =>
  }

  /** What holds in every reachable state of a pool with minimum `floor`. */
  ghost predicate Ready(s: State, floor: nat) {
    Reached(s) && NoOrders(s) && Stocked(s, floor) && floor >= 1
  }

  lemma StepReady(s: State, a: Action, floor: nat)
    requires Ready(s, floor) && Enabled(s, a)
    ensures Ready(Next(s, a), floor)
  {
    hide Next, Enabled, StartInv, Phases, Orders, Scans, NoOrders, Stocked;
    StepKeepsThreads(s, a);
    StepKeepsPhases(s, a);
    StepKeepsOrders(s, a);
    StepKeepsScans(s, a);
    StepKeepsApart(s, a);
    StepKeepsNoOrders(s, a);
    StepKeepsStocked(s, a, floor);
  }

  lemma {:induction false} RunReady(s: State, run: seq<Action>, floor: nat)
    requires Ready(s, floor) && IsRun(s, run)
    ensures Ready(Exec(s, run), floor)
    decreases |run|
  {
    hide Next, Enabled, Ready;
    if run != [] {
      StepReady(s, run[0], floor);
      RunReady(Next(s, run[0]), run[1..], floor);
    }
  }

  lemma InitReady(lo: nat, hi: nat, sids: set<Sid>)
    requires lo >= 1
    ensures Ready(Fresh(lo, hi, sids), lo)
  {
    InitReached(lo, hi, sids);
  }

  // ---------------------------------------------------------------- Terminate on its own

  /** The workers that `Terminate` has its hands on. */
  ghost function Cursor(term: TermPc): set<Wid> {
    match term
    case TellLoop(itr) => At(itr)
    case Tell(w, itr) => {w} + At(itr)
    case Erase(w, itr) => {w} + At(itr)
    case _ => {}
  }

  function At(itr: Option<Wid>): set<Wid> {
    if itr == None then {} else {itr.value}
  }

  /** The workers from the iterator on. */
  ghost function Ahead(pool: set<Wid>, itr: Option<Wid>): nat {
    if itr == None then 0 else |set y | y in pool && itr.value < y| + 1
  }

  /** The steps left in the stage. */
  ghost function InStage(s: State): nat {
    match s.term
    case TellLoop(itr) => 3 * Ahead(s.pool, itr)
    case Tell(_, itr) => 3 * Ahead(s.pool, itr) + 2
    case Erase(_, itr) => 3 * Ahead(s.pool, itr) + 1
    case _ => 0
  }

  lemma AheadNext(pool: set<Wid>, w: Wid, next: Option<Wid>)
    requires IsNext(pool, w, next)
    ensures Ahead(pool, next) < Ahead(pool, Some(w))
  {
    if next.Some? {
      var above, after := set y | y in pool && w < y, set y | y in pool && next.value < y;
      assert next.value in above && after <= above;
      Smaller(after, above, next.value);
    }
  }

  lemma AheadFewer(pool: set<Wid>, less: set<Wid>, itr: Option<Wid>)
    requires less <= pool
    ensures Ahead(less, itr) <= Ahead(pool, itr)
  {
    if itr.Some? {
      Within(set y | y in less && itr.value < y, set y | y in pool && itr.value < y);
    }
  }

  /** `Terminate` has a next step, and gets on with it, from the drained queue to the joins. */
  lemma TerminateStep(s: State) returns (a: Action)
    requires 2 <= Stage(s.term) <= 6 && (s.term.Drain? ==> s.tasks == []) && Cursor(s.term) <= s.workers.Keys
    ensures a.Terminate? && Enabled(s, a)
    ensures
      var s' := Next(s, a);
      || Stage(s.term) < Stage(s'.term) <= 7
      || (Stage(s'.term) == Stage(s.term) && InStage(s') < InStage(s))
  {
    var hint: Option<Wid> := None;
    match s.term {
      case Begin =>
        if s.pool != {} {
          var x := Least(s.pool);
          hint := Some(x);
        }
      case TellLoop(Some(w)) =>
        assert w in Cursor(s.term);
        hint := NextOf(s.pool, w);
        AheadNext(s.pool, w, hint);
      case Tell(w, _) => assert w in Cursor(s.term);
      case Erase(w, itr) =>
        assert w in Cursor(s.term);
        AheadFewer(s.pool, s.pool - {w}, itr);
      case _ =>
    }
    a := Terminate(hint);
  }

  /** What a step of `Terminate` up to the joins leaves alone. */
  lemma TerminateFrame(s: State, hint: Option<Wid>)
    requires CanTerminate(s, hint) && 2 <= Stage(s.term) <= 6
    ensures
      var s' := TerminateNext(s, hint);
      && s'.submitters == s.submitters && s'.ager == s.ager && s'.tasks == s.tasks && s'.pool <= s.pool
      && s'.workers.Keys == s.workers.Keys && Cursor(s'.term) <= Cursor(s.term) + s.pool
      && s'.termTrash <= s.termTrash + Cursor(s.term)
      && forall w :: w in s.workers ==>
           && s'.workers[w].pc == s.workers[w].pc && s'.workers[w].alive == s.workers[w].alive
           && (s'.workers[w].status == s.workers[w].status || s'.workers[w].status == Stopping)
  {
  }

  // ---------------------------------------------------------------- it returns, if nobody is in its way

  /** Past line 75, and with a clear run flag if it has ended. */
  predicate Sound(me: Worker) {
    PastStart(me.pc) && (me.pc == Gone ==> !me.alive)
  }

  /** All the workers that `Terminate` has to do with are in `all`, and sound, and those in its trash told. */
  ghost predicate Fit(s: State, all: set<Wid>) {
    && 2 <= Stage(s.term) && all <= s.workers.Keys
    && s.pool <= all && s.termTrash <= all && Cursor(s.term) <= all
    && (forall w :: w in all ==> Sound(s.workers[w]))
    && (forall w :: w in s.termTrash ==> s.workers[w].status == Stopping)
    && (s.term.Erase? ==> s.workers[s.term.wid].status == Stopping)
  }

  lemma TerminateKeepsFit(s: State, hint: Option<Wid>, all: set<Wid>)
    requires Fit(s, all) && CanTerminate(s, hint)
    ensures Fit(TerminateNext(s, hint), all)
  {
  }

  lemma FitReturnable(s: State, all: set<Wid>)
    requires Fit(s, all) && s.term.JoinAll?
    ensures Returnable(s)
  {
    forall w | w in s.termTrash ensures CanEnd(s, w) {
      assert w in all;
    }
  }

  /** Somebody can empty the queue. */
  ghost predicate SomeGoing(s: State) {
    exists w :: w in s.workers && Going(s.workers[w])
  }

  lemma DrainKeepsFit(s: State, s': State, w: Wid, all: set<Wid>)
    requires Fit(s, all) && w in s.workers && w in s'.workers && Going(s.workers[w]) && Going(s'.workers[w])
    requires s.term.Drain? && s.termTrash == {}
    requires s' == s.(workers := s.workers[w := s'.workers[w]], tasks := [], log := s'.log)
    ensures Fit(s', all)
  {
  }

  /** Left to run, with workers that drain and end, it returns; no submitter moves. */
  lemma {:induction false} Finishes(s: State, all: set<Wid>) returns (run: seq<Action>)
    requires Fit(s, all) && (s.term.Drain? ==> s.termTrash == {} && (s.tasks == [] || SomeGoing(s)))
    ensures IsRun(s, run) && Exec(s, run).term.Returned? && Exec(s, run).submitters == s.submitters
    decreases 8 - Stage(s.term), |s.tasks|, InStage(s)
  {
    hide IsRun, Exec, Next, Enabled, Going, Sound;
    if s.term.Returned? {
      run := Nothing(s);
    } else if s.term.JoinAll? {
      FitReturnable(s, all);
      run := AllJoined(s);
    } else if s.term.Drain? && s.tasks != [] {
      var w :| w in s.workers && Going(s.workers[w]);
      run := WorkerDrains(s, w);
      DrainKeepsFit(s, Exec(s, run), w, all);
      var more := Finishes(Exec(s, run), all);
      run := Append(s, run, more);
    } else {
      var a := TerminateStep(s);
      Single(s, a);
      StepsOn(s, a, all);
      var more := Finishes(Next(s, a), all);
      run := Append(s, [a], more);
    }
  }

  lemma StepsOn(s: State, a: Action, all: set<Wid>)
    requires Fit(s, all) && a.Terminate? && Enabled(s, a) && Stage(s.term) <= 6 && (s.term.Drain? ==> s.tasks == [])
    ensures Fit(Next(s, a), all) && Next(s, a).submitters == s.submitters && !Next(s, a).term.Drain?
    ensures Next(s, a).tasks == s.tasks
  {
    TerminateKeepsFit(s, a.hint, all);
    TerminateFrame(s, a.hint);
  }

  // ---------------------------------------------------------------- a submitter goes on to its push

  /** The stages of `Execute` before the push, counted down. */
  function BeforePush(pc: SubmitPc): nat {
    match pc
    case TestNull(_) => 9
    case ReadQueue(_) => 8
    case ReadPool(_, _) => 7
    case BeginScan(_, _, _) => 6
    case ScanBusy(_, _, _, _) => 5
    case Compare(_, _) => 4
    case Insert(_) => 3
    case Create(_, _) => 2
    case MarkRun(_, _) => 1
    case _ => 0
  }

  ghost function InScan(pool: set<Wid>, pc: SubmitPc): nat {
    match pc
    case ScanBusy(_, _, _, itr) => Ahead(pool, itr)
    case _ => 0
  }

  lemma NewAddress(s: State) returns (w: Wid)
    ensures w !in s.workers
  {
    w := 0;
    if s.workers.Keys != {} {
      w := Least(s.workers.Keys);
      w := w - 1;
    }
  }

  lemma StepToPush(s: State, i: Sid, t: Task) returns (a: Action)
    requires Reached(s) && s.ager == Resting
    requires i in s.submitters && Carries(s.submitters[i], t) && !s.submitters[i].Push?
    ensures Enabled(s, a) && a.Submit? && a.sid == i
    ensures
      var s' := Next(s, a);
      && i in s'.submitters && Carries(s'.submitters[i], t)
      && (BeforePush(s'.submitters[i]) < BeforePush(s.submitters[i])
          || (BeforePush(s'.submitters[i]) == BeforePush(s.submitters[i])
              && InScan(s'.pool, s'.submitters[i]) < InScan(s.pool, s.submitters[i])))
  {
    hide Ahead, InScan, SubmitNext, Threads, Phases, Orders;
    var hint := HintToPush(s, i, t);
    a := Submit(i, hint, 0);
    NearerPush(s, i, hint, t);
  }

  lemma HintToPush(s: State, i: Sid, t: Task) returns (hint: Option<Wid>)
    requires Reached(s) && s.ager == Resting
    requires i in s.submitters && Carries(s.submitters[i], t) && !s.submitters[i].Push?
    ensures CanSubmit(s, i, hint) && (s.submitters[i].Insert? ==> hint.Some?)
  {
    hide Phases, Orders;
    hint := None;
    match s.submitters[i] {
      case BeginScan(_, _, _) =>
        if s.pool != {} {
          var x := Least(s.pool);
          hint := Some(x);
        }
      case ScanBusy(_, _, _, Some(w)) => hint := NextOf(s.pool, w);
      case Insert(_) =>
        var w := NewAddress(s);
        hint := Some(w);
      case _ =>
    }
  }

  lemma NearerPush(s: State, i: Sid, hint: Option<Wid>, t: Task)
    requires CanSubmit(s, i, hint) && (s.submitters[i].Insert? ==> hint.Some?)
    requires Carries(s.submitters[i], t) && !s.submitters[i].Push?
    ensures
      var s' := SubmitNext(s, i, hint, 0);
      && i in s'.submitters && Carries(s'.submitters[i], t)
      && (BeforePush(s'.submitters[i]) < BeforePush(s.submitters[i])
          || (BeforePush(s'.submitters[i]) == BeforePush(s.submitters[i])
              && InScan(s'.pool, s'.submitters[i]) < InScan(s.pool, s.submitters[i])))
  {
    hide Ahead, InScan;
    if s.submitters[i].ScanBusy? {
      ScansOn(s, i, hint, t);
    }
  }

  lemma ScansOn(s: State, i: Sid, hint: Option<Wid>, t: Task)
    requires CanSubmit(s, i, hint) && Carries(s.submitters[i], t) && s.submitters[i].ScanBusy?
    ensures
      var s' := SubmitNext(s, i, hint, 0);
      && i in s'.submitters && Carries(s'.submitters[i], t)
      && (BeforePush(s'.submitters[i]) < BeforePush(s.submitters[i])
          || (BeforePush(s'.submitters[i]) == BeforePush(s.submitters[i])
              && InScan(s'.pool, s'.submitters[i]) < InScan(s.pool, s.submitters[i])))
  {
    hide Ahead;
    if s.submitters[i].itr.Some? {
      AheadNext(s.pool, s.submitters[i].itr.value, hint);
    }
  }

  lemma {:induction false} GoesToPush(s: State, i: Sid, t: Task) returns (run: seq<Action>)
    requires Reached(s) && s.ager == Resting && i in s.submitters && Carries(s.submitters[i], t)
    ensures IsRun(s, run)
    ensures
      var s' := Exec(s, run);
      && Reached(s') && s'.ager == Resting && s'.term == s.term && i in s'.submitters && s'.submitters[i] == Push(t)
      && (OutsideTold(s) ==> OutsideTold(s'))
    decreases BeforePush(s.submitters[i]), InScan(s.pool, s.submitters[i])
  {
    hide IsRun, Exec, Next, Enabled, Reached, OutsideTold;
    if s.submitters[i].Push? {
      run := Nothing(s);
    } else {
      var a := StepToPush(s, i, t);
      Single(s, a);
      RunReached(s, [a]);
      SubmitStill(s, a);
      var more := GoesToPush(Next(s, a), i, t);
      run := Append(s, [a], more);
    }
  }

  /** Every thread that is not in the worker set has been told to exit past line 75. */
  ghost predicate OutsideTold(s: State) {
    forall w :: w in s.workers && w !in s.pool ==> Told(s, w)
  }

  lemma SubmitTells(s: State, i: Sid, hint: Option<Wid>, now: int)
    requires CanSubmit(s, i, hint) && OutsideTold(s)
    ensures OutsideTold(SubmitNext(s, i, hint, now))
  {
    var s' := SubmitNext(s, i, hint, now);
    SubmitPool(s, i, hint, now);
    forall w | w in s'.workers && w !in s'.pool ensures Told(s', w) {
      SubmitMakes(s, i, hint, now, w);
      SubmitElsewhere(s, i, hint, now, w);
    }
  }

  lemma SubmitMakes(s: State, i: Sid, hint: Option<Wid>, now: int, w: Wid)
    requires CanSubmit(s, i, hint) && w in SubmitNext(s, i, hint, now).workers
    ensures w in s.workers || w in SubmitNext(s, i, hint, now).pool
  {
  }

  lemma SubmitStill(s: State, a: Action)
    requires a.Submit? && Enabled(s, a)
    ensures Next(s, a).term == s.term && Next(s, a).ager == s.ager
    ensures OutsideTold(s) ==> OutsideTold(Next(s, a))
  {
    hide OutsideTold;
    SubmitLeaves(s, a.sid, a.hint, a.now);
    if OutsideTold(s) {
      SubmitTells(s, a.sid, a.hint, a.now);
    }
  }

  // ---------------------------------------------------------------- the workers pass line 75

  /** No `Execute` but those that create a thread has moved. */
  ghost predicate OnlyCreated(s: State, s': State) {
    && s'.submitters.Keys == s.submitters.Keys
    && forall i :: i in s.submitters ==>
         s'.submitters[i] == s.submitters[i] || (s.submitters[i].Create? && s'.submitters[i].MarkRun?)
  }

  /** One worker is started; only its maker, if it is still in `Start`, moves. */
  lemma StartsOne(s: State, w: Wid) returns (run: seq<Action>)
    requires Reached(s) && w in s.workers && !PastStart(s.workers[w].pc)
    ensures IsRun(s, run)
    ensures
      var s' := Exec(s, run);
      && w in s'.workers && s'.workers[w] == s.workers[w].(pc := LoopTest, status := Started)
      && s' == s.(submitters := s'.submitters, workers := s.workers[w := s'.workers[w]])
      && OnlyCreated(s, s')
  {
    if s.workers[w].pc == NotCreated {
      assert Starting(s, w);
      var j :| j in s.submitters && Starts(s.submitters[j]) == Some(w);
      run := CreatesOne(s, w, j);
    } else {
      run := OverwriteStop(s, w);
    }
  }

  lemma CreatesOne(s: State, w: Wid, j: Sid) returns (run: seq<Action>)
    requires w in s.workers && s.workers[w].pc == NotCreated
    requires j in s.submitters && s.submitters[j].Create? && s.submitters[j].wid == w
    ensures IsRun(s, run)
    ensures
      var s' := Exec(s, run);
      && w in s'.workers && s'.workers[w] == s.workers[w].(pc := LoopTest, status := Started)
      && s' == s.(submitters := s'.submitters, workers := s.workers[w := s'.workers[w]])
      && OnlyCreated(s, s')
  {
    hide IsRun, Exec;
    var a := Submit(j, None, 0);
    Single(s, a);
    var s1 := Next(s, a);
    assert s1 == SetPc(SetSub(s, j, MarkRun(s.submitters[j].task, w)), w, InitHook);
    var more := OverwriteStop(s1, w);
    run := Append(s, [a], more);
  }

  /** Line 75 is behind every worker of the set. */
  ghost predicate AllStarted(s: State) {
    forall w :: w in s.pool ==> w in s.workers && PastStart(s.workers[w].pc)
  }

  ghost function Unstarted(s: State): set<Wid> {
    set w | w in s.pool && w in s.workers && !PastStart(s.workers[w].pc)
  }

  lemma {:induction false} StartsAll(s: State, i: Sid, t: Task, floor: nat) returns (run: seq<Action>)
    requires Ready(s, floor) && s.ager == Resting && s.term.Drain? && i in s.submitters && s.submitters[i] == Push(t)
    ensures IsRun(s, run)
    ensures
      var s' := Exec(s, run);
      && Ready(s', floor) && s'.ager == Resting && s'.term.Drain? && i in s'.submitters && s'.submitters[i] == Push(t)
      && AllStarted(s')
    decreases |Unstarted(s)|
  {
    hide IsRun, Exec, NoOrders, Stocked;
    if Unstarted(s) == {} {
      assert forall w :: w in s.pool ==> w !in Unstarted(s);
      run := Nothing(s);
    } else {
      var w := Member(Unstarted(s));
      run := StartsOne(s, w);
      var s1 := Exec(s, run);
      RunReady(s, run, floor);
      assert w !in Unstarted(s1) && Unstarted(s1) <= Unstarted(s);
      Smaller(Unstarted(s1), Unstarted(s), w);
      var more := StartsAll(s1, i, t, floor);
      run := Append(s, run, more);
    }
  }

  lemma UntoldGoing(s: State, w: Wid)
    requires Reached(s) && NoOrders(s) && Stage(s.term) <= 5 && w in s.pool && PastStart(s.workers[w].pc)
    requires !(s.ager.AgeErase? && s.ager.wid == w)
    ensures Going(s.workers[w])
  {
    assert StatusFits(s.workers[w]);
  }

  /** With the workers of the set past line 75, and nobody ageing, it can return. */
  lemma StartedIsFit(s: State, floor: nat)
    requires Ready(s, floor) && s.term.Drain? && s.ager == Resting && AllStarted(s)
    ensures Fit(s, s.pool) && s.termTrash == {} && SomeGoing(s)
  {
    forall w | w in s.pool ensures Sound(s.workers[w]) && Going(s.workers[w]) {
      UntoldGoing(s, w);
    }
    assert s.pool != {};
    var w := Member(s.pool);
    assert Going(s.workers[w]);
  }

  // ---------------------------------------------------------------- the queue it leaves

  /** Whenever `Terminate` returns, the queue is empty. */
  ghost predicate EmptiesQueue(s: State) {
    forall more | IsRun(s, more) && Exec(s, more).term.Returned? :: Exec(s, more).tasks == []
  }

  lemma LeavesTask(s: State, i: Sid, t: Task, floor: nat)
    requires Ready(s, floor) && s.ager == Resting && s.term.Drain?
    requires i in s.submitters && Carries(s.submitters[i], t)
    ensures !EmptiesQueue(s)
  {
    hide IsRun, Exec, Next, Enabled, NoOrders, Stocked, Reached, Fit;
    var run := GoesToPush(s, i, t);
    RunReady(s, run, floor);
    var more := StartsAll(Exec(s, run), i, t, floor);
    run := Append(s, run, more);
    var s1 := Exec(s, run);
    StartedIsFit(s1, floor);
    more := Finishes(s1, s1.pool);
    run := Append(s, run, more);
    PushesAfter(Exec(s, run), i, t);
    run := Add(s, run, Submit(i, None, 0));
    assert IsRun(s, run) && Exec(s, run).term.Returned? && Exec(s, run).tasks != [];
  }

  lemma PushesAfter(s: State, i: Sid, t: Task)
    requires i in s.submitters && s.submitters[i] == Push(t)
    ensures
      var a := Submit(i, None, 0);
      Enabled(s, a) && Next(s, a).tasks != [] && Next(s, a).term == s.term
  {
  }

  /** In every reachable state in which `Terminate` has cleared the flag and waits for the queue, with no ageing
      pass under way: it leaves an empty queue, whenever it returns, if and only if no `Execute` is between its
      enable check and its push. */
  lemma EmptiesQueueIff(lo: nat, hi: nat, sids: set<Sid>, run: seq<Action>)
    requires InitPool(lo, hi, sids).Some? && IsRun(InitPool(lo, hi, sids).value, run)
    requires
      var s := Exec(InitPool(lo, hi, sids).value, run);
      s.term.Drain? && s.ager == Resting
    ensures
      var s := Exec(InitPool(lo, hi, sids).value, run);
      EmptiesQueue(s) <==> NoneInside(s)
  {
    hide IsRun, Exec, Ready, EmptiesQueue;
    var s := Exec(Fresh(lo, hi, sids), run);
    InitReady(lo, hi, sids);
    RunReady(Fresh(lo, hi, sids), run, lo);
    if NoneInside(s) {
      InsideNoneEmpties(s, lo);
    } else {
      var i :| i in s.submitters && !Harmless(s.submitters[i]);
      LeavesTask(s, i, Carried(s.submitters[i]).value, lo);
    }
  }

  lemma DrainReady(s: State, floor: nat)
    requires Ready(s, floor) && s.term.Drain? && NoneInside(s)
    ensures Threads(s) && Draining(s)
  {
  }

  lemma InsideNoneEmpties(s: State, floor: nat)
    requires Ready(s, floor) && s.term.Drain? && NoneInside(s)
    ensures EmptiesQueue(s)
  {
    hide Ready, Draining, Threads;
    DrainReady(s, floor);
    forall more | IsRun(s, more) && Exec(s, more).term.Returned? ensures Exec(s, more).tasks == [] {
      DrainRun(s, more);
      DrainedIsEmpty(Exec(s, more));
    }
  }

  // ---------------------------------------------------------------- whether it can always return

  /** A submitter with no task to push changes nothing but its own position. */
  lemma HarmlessStep(s: State, i: Sid, hint: Option<Wid>, now: int)
    requires CanSubmit(s, i, hint) && Harmless(s.submitters[i]) && !s.enable
    ensures
      var s' := SubmitNext(s, i, hint, now);
      s' == s.(submitters := s'.submitters, log := s'.log)
  {
  }

  lemma AgeKeepsFit(s: State, hint: Option<Wid>, all: set<Wid>)
    requires Fit(s, all) && CanAge(s, hint)
    ensures Fit(AgeNext(s, hint), all)
  {
  }

  lemma WorkKeepsFit(s: State, w: Wid, now: int, all: set<Wid>)
    requires Fit(s, all) && CanWork(s, w)
    ensures Fit(WorkNext(s, w, now), all)
  {
    WorkShape(s, w, now);
    assert w in all ==> Sound(WorkNext(s, w, now).workers[w]);
  }

  lemma StepKeepsFit(s: State, a: Action, all: set<Wid>)
    requires Fit(s, all) && Draining(s) && Enabled(s, a)
    ensures Fit(Next(s, a), all)
  {
    hide Sound;
    match a
    case Submit(i, hint, now) => HarmlessStep(s, i, hint, now);
    case Age(hint) => AgeKeepsFit(s, hint, all);
    case Work(w, now) => WorkKeepsFit(s, w, now, all);
    case Terminate(hint) => TerminateKeepsFit(s, hint, all);
    case _ =>
  }

  /** Before the telling, some worker of the set has no order, ageing or not. */
  lemma SomebodyGoes(s: State, all: set<Wid>, floor: nat)
    requires Ready(s, floor) && s.term.Drain? && Fit(s, all)
    ensures SomeGoing(s)
  {
    var w := Member(s.pool);
    if s.ager.AgeErase? && s.ager.wid == w {
      assert |s.pool - {w}| == |s.pool| - 1;
      w := Member(s.pool - {w});
    }
    UntoldGoing(s, w);
  }

  /** Tasks are queued, `w` is the only worker of the set and has not passed line 75, and the other threads have
      all been told to exit and can take no more than part of the queue. */
  ghost predicate OnlyOne(s: State, w: Wid) {
    && s.term.Drain? && s.pool == {w} && w in s.workers && !PastStart(s.workers[w].pc)
    && |Takers(s)| < |s.tasks|
    && forall v :: v in s.workers && v != w ==> Told(s, v)
  }

  lemma OnlyOneWork(s: State, v: Wid, now: int, w: Wid)
    requires OnlyOne(s, w) && CanWork(s, v) && v != w
    ensures OnlyOne(WorkNext(s, v, now), w)
  {
    WorkShape(s, v, now);
    ToldWork(s, v, now);
    if s.workers[v].pc == Take {
      TakerTakes(s, v, now);
    } else {
      assert Takers(WorkNext(s, v, now)) == Takers(s);
    }
  }

  lemma OnlyOneStarts(s: State, now: int, w: Wid)
    requires OnlyOne(s, w) && Threads(s) && CanWork(s, w)
    ensures OnlyOne(WorkNext(s, w, now), w) || Fit(WorkNext(s, w, now), {w})
  {
    WorkShape(s, w, now);
    SameTakers(s, WorkNext(s, w, now));
  }

  /** The ageing thread takes nobody out, as that would leave less than the minimum. */
  lemma OnlyOneAge(s: State, hint: Option<Wid>, w: Wid, floor: nat)
    requires OnlyOne(s, w) && Stocked(s, floor) && floor >= 1 && CanAge(s, hint)
    ensures OnlyOne(AgeNext(s, hint), w)
  {
    assert AgeNext(s, hint).workers == s.workers && AgeNext(s, hint).pool == s.pool;
    SameTakers(s, AgeNext(s, hint));
  }

  lemma OnlyOneStep(s: State, a: Action, w: Wid, floor: nat)
    requires OnlyOne(s, w) && Ready(s, floor) && Draining(s) && Enabled(s, a)
    ensures OnlyOne(Next(s, a), w) || Fit(Next(s, a), {w})
  {
    match a
    case Submit(i, hint, now) =>
      HarmlessStep(s, i, hint, now);
      SameTakers(s, Next(s, a));
    case Age(hint) => OnlyOneAge(s, hint, w, floor);
    case Work(v, now) =>
      if v == w {
        OnlyOneStarts(s, now, w);
      } else {
        OnlyOneWork(s, v, now, w);
      }
    case Terminate(hint) =>
    case Call(i, arg) => SameTakers(s, CallNext(s, i, arg));
    case StartAgeing(age, hint) => SameTakers(s, StartAgeingNext(s, age, hint));
    case StartTerminate(_) =>
  }

  /** From here on it can always return. */
  ghost predicate Secure(s: State, all: set<Wid>, floor: nat) {
    Ready(s, floor) && Draining(s) && (Fit(s, all) || exists w :: OnlyOne(s, w) && all == {w})
  }

  lemma StepKeepsSecure(s: State, a: Action, all: set<Wid>, floor: nat)
    requires Secure(s, all, floor) && Enabled(s, a)
    ensures Secure(Next(s, a), all, floor)
  {
    hide Next, Enabled, Fit, OnlyOne, Draining, NoOrders, Stocked, Phases, Orders, Scans;
    StepReady(s, a, floor);
    DrainStep(s, a);
    if Fit(s, all) {
      StepKeepsFit(s, a, all);
    } else {
      var w :| OnlyOne(s, w) && all == {w};
      OnlyOneStep(s, a, w, floor);
    }
  }

  lemma {:induction false} RunKeepsSecure(s: State, run: seq<Action>, all: set<Wid>, floor: nat)
    requires Secure(s, all, floor) && IsRun(s, run)
    ensures Secure(Exec(s, run), all, floor)
    decreases |run|
  {
    hide Next, Enabled, Secure;
    if run != [] {
      StepKeepsSecure(s, run[0], all, floor);
      RunKeepsSecure(Next(s, run[0]), run[1..], all, floor);
    }
  }

  lemma SecureReturns(s: State, all: set<Wid>, floor: nat)
    requires Secure(s, all, floor)
    ensures MayReturn(s)
  {
    hide IsRun, Exec, Fit, OnlyOne, NoOrders, Stocked, Phases, Orders, Scans, Draining;
    if Fit(s, all) {
      FitReturns(s, all, floor);
    } else {
      var w :| OnlyOne(s, w) && all == {w};
      var run := OnlyOneGoes(s, w, floor);
      RunKeepsSecure(s, run, all, floor);
      FitReturns(Exec(s, run), all, floor);
      var s1 := Exec(s, run);
      var more :| IsRun(s1, more) && Exec(s1, more).term.Returned?;
      run := Append(s, run, more);
    }
  }

  lemma FitReturns(s: State, all: set<Wid>, floor: nat)
    requires Ready(s, floor) && Fit(s, all)
    ensures MayReturn(s)
  {
    hide IsRun, Exec, Fit, NoOrders, Stocked, Phases, Orders, Scans;
    if s.term.Drain? {
      SomebodyGoes(s, all, floor);
    }
    var _ := Finishes(s, all);
  }

  lemma OnlyOneGoes(s: State, w: Wid, floor: nat) returns (run: seq<Action>)
    requires OnlyOne(s, w) && Ready(s, floor) && Draining(s)
    ensures IsRun(s, run) && Fit(Exec(s, run), {w})
  {
    NoneStarting(s, w);
    run := OverwriteStop(s, w);
  }

  /** `Terminate` tells, and waits for, a worker that the order does not reach. */
  lemma {:induction false} TellsInVain(s: State, w: Wid) returns (run: seq<Action>)
    requires Threads(s) && Draining(s) && s.tasks == [] && s.ager == Resting && Stage(s.term) <= 7
    requires Cursor(s.term) <= s.workers.Keys && w in s.pool + s.termTrash && s.pool !! s.termTrash
    requires w in s.workers && s.workers[w].alive && (s.workers[w].pc == InitHook || s.workers[w].pc == MarkStarted)
    ensures IsRun(s, run) && Blocked(Exec(s, run), w)
    decreases 8 - Stage(s.term), InStage(s)
  {
    hide IsRun, Exec, Enabled, Next, StartInv, OwnInv;
    if s.term.JoinAll? {
      run := Nothing(s);
    } else {
      var a := TerminateStep(s);
      Single(s, a);
      StepKeepsThreads(s, a);
      DrainStep(s, a);
      StepKeepsApart(s, a);
      TellsOn(s, a, w);
      var more := TellsInVain(Next(s, a), w);
      run := Append(s, [a], more);
    }
  }

  lemma TellsOn(s: State, a: Action, w: Wid)
    requires OwnInv(s) && a.Terminate? && Enabled(s, a) && 2 <= Stage(s.term) <= 6
    requires w in s.pool + s.termTrash && w in s.workers
    requires Cursor(s.term) <= s.workers.Keys
    ensures
      var s' := Next(s, a);
      && w in s'.pool + s'.termTrash && w in s'.workers && s'.ager == s.ager && s'.tasks == s.tasks
      && Cursor(s'.term) <= s'.workers.Keys
      && s'.workers[w].pc == s.workers[w].pc && s'.workers[w].alive == s.workers[w].alive
  {
    TerminateFrame(s, a.hint);
  }

  /** The queue can be emptied with `w` left where it is. */
  lemma OthersEmpty(s: State, w: Wid, floor: nat) returns (run: seq<Action>)
    requires Ready(s, floor) && NoneInside(s) && s.term.Drain? && s.ager == Resting
    requires w in s.pool && !PastStart(s.workers[w].pc) && !OnlyOne(s, w)
    ensures IsRun(s, run)
    ensures
      var s' := Exec(s, run);
      && w in s'.workers && s'.workers[w] == s.workers[w] && s'.workers.Keys == s.workers.Keys
      && s' == s.(workers := s'.workers, tasks := [], log := s'.log)
  {
    hide IsRun, Exec;
    if |Takers(s)| >= |s.tasks| {
      run := TakersTake(s, |s.tasks|);
    } else {
      var v := SomeUntold(s, w, floor);
      run := Drains(s, v);
    }
  }

  lemma SomeUntold(s: State, w: Wid, floor: nat) returns (v: Wid)
    requires Ready(s, floor) && s.term.Drain? && s.ager == Resting
    requires w in s.pool && !PastStart(s.workers[w].pc) && !OnlyOne(s, w) && |Takers(s)| < |s.tasks|
    ensures v in s.workers && v != w && !Told(s, v)
  {
    if s.pool - {w} != {} {
      v := Member(s.pool - {w});
    } else {
      assert s.pool == {w};
      v :| v in s.workers && v != w && !Told(s, v);
    }
  }

  /** A worker without an order that counts is started, if need be, and empties the queue. */
  lemma Drains(s: State, v: Wid) returns (run: seq<Action>)
    requires Reached(s) && NoneInside(s) && v in s.workers && !Told(s, v)
    ensures IsRun(s, run)
    ensures
      var s' := Exec(s, run);
      && v in s'.workers
      && s' == s.(workers := s.workers[v := s'.workers[v]], tasks := [], log := s'.log)
  {
    hide IsRun, Exec;
    assert StatusFits(s.workers[v]);
    NoneStarting(s, v);
    if PastStart(s.workers[v].pc) {
      run := WorkerDrains(s, v);
    } else {
      run := OverwriteStop(s, v);
      var more := WorkerDrains(Exec(s, run), v);
      run := Append(s, run, more);
    }
  }

  lemma NotSecure(s: State, w: Wid, floor: nat)
    requires Ready(s, floor) && NoneInside(s) && s.term.Drain? && s.ager == Resting
    requires w in s.pool && !PastStart(s.workers[w].pc) && !OnlyOne(s, w)
    ensures !KeepsReturning(s)
  {
    hide IsRun, Exec, NoOrders, Stocked, Orders, Scans, OnlyOne;
    var run := OthersEmpty(s, w, floor);
    RunReady(s, run, floor);
    NoneStarting(s, w);
    var more := TellsInVain(Exec(s, run), w);
    run := Append(s, run, more);
    NotKept(s, run, w);
  }

  lemma SecureKeeps(s: State, all: set<Wid>, floor: nat)
    requires Secure(s, all, floor)
    ensures KeepsReturning(s)
  {
    hide IsRun, Exec, Secure, MayReturn;
    forall more | IsRun(s, more) ensures MayReturn(Exec(s, more)) {
      RunKeepsSecure(s, more, all, floor);
      SecureReturns(Exec(s, more), all, floor);
    }
  }

  lemma StartedIsSecure(s: State, floor: nat)
    requires Ready(s, floor) && s.term.Drain? && s.ager == Resting && NoneInside(s) && AllStarted(s)
    ensures Secure(s, s.pool, floor)
  {
    hide Fit, NoOrders, Stocked, Threads, Orders, Scans;
    StartedIsFit(s, floor);
  }

  lemma OnlyOneIsSecure(s: State, w: Wid, floor: nat)
    requires Ready(s, floor) && NoneInside(s) && OnlyOne(s, w)
    ensures Secure(s, {w}, floor) && s.tasks != []
  {
    hide Fit, NoOrders, Stocked, Threads, Orders, Scans;
  }

  /** In every reachable state in which `Terminate` has cleared the flag and waits for the queue, with no ageing
      pass under way and no `Execute` between its enable check and its push: it is sure to be able to return,
      whatever happens, if and only if every worker of the set is past line 75, or the only worker of the set is
      not but is also the only one that can empty the queue.  With nothing queued there is no second case. */
  lemma SafeFromClearingIff(lo: nat, hi: nat, sids: set<Sid>, run: seq<Action>)
    requires InitPool(lo, hi, sids).Some? && IsRun(InitPool(lo, hi, sids).value, run)
    requires
      var s := Exec(InitPool(lo, hi, sids).value, run);
      s.term.Drain? && s.ager == Resting && NoneInside(s)
    ensures
      var s := Exec(InitPool(lo, hi, sids).value, run);
      && (KeepsReturning(s) <==> AllStarted(s) || exists w :: OnlyOne(s, w))
      && (s.tasks == [] ==> (KeepsReturning(s) <==> AllStarted(s)))
  {
    hide IsRun, Exec, Secure, KeepsReturning, OnlyOne, NoneInside, NoOrders, Stocked, Orders, Scans;
    var s := Exec(Fresh(lo, hi, sids), run);
    InitReady(lo, hi, sids);
    RunReady(Fresh(lo, hi, sids), run, lo);
    if w :| OnlyOne(s, w) {
      OnlyOneIsSecure(s, w, lo);
      SecureKeeps(s, {w}, lo);
    } else if AllStarted(s) {
      StartedIsSecure(s, lo);
      SecureKeeps(s, s.pool, lo);
    } else {
      var w :| w in s.pool && !PastStart(s.workers[w].pc);
      NotSecure(s, w, lo);
    }
  }
}
