/** Tasks that are pushed too late: which of them can stay queued for ever once `Terminate` has returned.  */
module PoolLate {
  import opened FiniteSets
  import opened Options
  import opened PoolModel
  import opened PoolConservation
  import opened PoolShutdown
  import opened PoolExit
  import opened PoolReturn
  import opened PoolBounds
  import opened PoolDrain

  /** Some `Execute` is past its enable check with `t`. */
  ghost predicate Late(s: State, t: Task) {
    exists i :: i in s.submitters && Carries(s.submitters[i], t)
  }

  ghost predicate QueuedForEver(s: State, t: Task) {
    forall run | IsRun(s, run) :: t in Exec(s, run).tasks
  }

  ghost predicate MayStrand(s: State, t: Task) {
    exists run :: IsRun(s, run) && QueuedForEver(Exec(s, run), t)
  }

  /** A reachable state after the return. */
  ghost predicate Over(s: State) {
    Reached(s) && s.term.Returned?
  }

  lemma RunOver(s: State, run: seq<Action>)
    requires Over(s) && IsRun(s, run)
    ensures Over(Exec(s, run))
  {
    hide Threads, Phases, Orders, Scans;
    RunReached(s, run);
    ReturnedStays(s, run);
  }

  ghost predicate AllTold(s: State) {
    forall w :: w in s.workers ==> Told(s, w)
  }

  ghost predicate NoInsert(s: State) {
    forall i :: i in s.submitters ==> !s.submitters[i].Insert?
  }

  // ---------------------------------------------------------------- nobody takes it

  /** The task at `k` is safe in the queue: every thread has been told to exit, no more will be made, and those
      that can still take one task each are no more than the tasks before it. */
  ghost predicate StuckAt(s: State, t: Task, k: nat) {
    && s.term.Returned? && !s.enable && s.maxThreads == 0
    && NoInsert(s) && AllTold(s)
    && k < |s.tasks| && s.tasks[k] == t && |Takers(s)| <= k
  }

  lemma StuckSubmit(s: State, i: Sid, hint: Option<Wid>, now: int, t: Task, k: nat)
    requires StuckAt(s, t, k) && CanSubmit(s, i, hint)
    ensures StuckAt(SubmitNext(s, i, hint, now), t, k)
  {
    hide Takers, SubmitNext;
    SubmitTakers(s, i, hint, now);
    SubmitMakesNone(s, i, hint, now);
    SubmitQueues(s, i, hint, now);
    SubmitTerm(s, i, hint, now);
    SubmitPool(s, i, hint, now);
    SubmitSize(s, i, hint, now, 0);
  }

  lemma SubmitMakesNone(s: State, i: Sid, hint: Option<Wid>, now: int)
    requires CanSubmit(s, i, hint) && !s.submitters[i].Insert? && !s.submitters[i].Create?
    ensures
      var s' := SubmitNext(s, i, hint, now);
      && s'.workers.Keys == s.workers.Keys
      && forall w :: w in s.workers ==>
           s'.workers[w].pc == s.workers[w].pc && s'.workers[w].status == s.workers[w].status
  {
  }

  lemma SubmitQueues(s: State, i: Sid, hint: Option<Wid>, now: int)
    requires CanSubmit(s, i, hint)
    ensures SubmitNext(s, i, hint, now).enable == s.enable && s.tasks <= SubmitNext(s, i, hint, now).tasks
  {
  }

  lemma SubmitTakers(s: State, i: Sid, hint: Option<Wid>, now: int)
    requires CanSubmit(s, i, hint)
    ensures Takers(SubmitNext(s, i, hint, now)) == Takers(s)
  {
    hide Takers;
    SameTakers(s, SubmitNext(s, i, hint, now));
  }

  lemma StuckAge(s: State, hint: Option<Wid>, t: Task, k: nat)
    requires StuckAt(s, t, k) && CanAge(s, hint)
    ensures StuckAt(AgeNext(s, hint), t, k)
  {
    hide Takers, AgeNext;
    AgeFrame(s, hint);
    SameTakers(s, AgeNext(s, hint));
  }

  /** Ageing moves no other thread; it may tell one. */
  lemma AgeFrame(s: State, hint: Option<Wid>)
    requires CanAge(s, hint)
    ensures
      var s' := AgeNext(s, hint);
      && s' == s.(ager := s'.ager, ageTrash := s'.ageTrash, pool := s'.pool, workers := s'.workers,
                  orphans := s'.orphans)
      && s'.workers.Keys == s.workers.Keys
      && forall w :: w in s.workers ==>
           && s'.workers[w].pc == s.workers[w].pc
           && (s'.workers[w].status == s.workers[w].status || s'.workers[w].status == Stopping)
  {
  }

  lemma StuckWork(s: State, w: Wid, now: int, t: Task, k: nat)
    requires StuckAt(s, t, k) && CanWork(s, w)
    ensures
      var s' := WorkNext(s, w, now);
      StuckAt(s', t, k) || (k > 0 && StuckAt(s', t, k - 1))
  {
    WorkShape(s, w, now);
    ToldWork(s, w, now);
    var s' := WorkNext(s, w, now);
    if s.workers[w].pc == Take {
      TakerTakes(s, w, now);
      assert w in Takers(s);
    } else {
      SameTakers(s, s');
    }
  }

  lemma StuckStep(s: State, a: Action, t: Task, k: nat) returns (k': nat)
    requires StuckAt(s, t, k) && Enabled(s, a)
    ensures StuckAt(Next(s, a), t, k')
  {
    k' := k;
    match a {
      case Submit(i, hint, now) => StuckSubmit(s, i, hint, now, t, k);
      case Age(hint) => StuckAge(s, hint, t, k);
      case Work(w, now) =>
        StuckWork(s, w, now, t, k);
        if !StuckAt(Next(s, a), t, k) {
          k' := k - 1;
        }
      case Call(i, arg) => SameTakers(s, CallNext(s, i, arg));
      case StartAgeing(age, hint) => SameTakers(s, StartAgeingNext(s, age, hint));
      case _ =>
    }
  }

  lemma {:induction false} StuckRun(s: State, run: seq<Action>, t: Task, k: nat)
    requires StuckAt(s, t, k) && IsRun(s, run)
    ensures t in Exec(s, run).tasks
    decreases |run|
  {
    hide Next, Enabled, StuckAt;
    if run != [] {
      var k' := StuckStep(s, run[0], t, k);
      StuckRun(Next(s, run[0]), run[1..], t, k');
    } else {
      StuckQueued(s, t, k);
    }
  }

  lemma StuckQueued(s: State, t: Task, k: nat)
    requires StuckAt(s, t, k)
    ensures t in s.tasks
  {
  }

  lemma StuckForEver(s: State, t: Task, k: nat)
    requires StuckAt(s, t, k)
    ensures QueuedForEver(s, t)
  {
    hide StuckAt;
    forall run | IsRun(s, run) ensures t in Exec(s, run).tasks {
      StuckRun(s, run, t, k);
    }
  }

  // ---------------------------------------------------------------- somebody can take it

  /** A thread that has not been told, or that line 75 will make forget it, can empty the queue. */
  lemma UntoldEmpties(s: State, v: Wid) returns (run: seq<Action>)
    requires Reached(s) && v in s.workers && !Told(s, v)
    ensures IsRun(s, run) && Exec(s, run).tasks == []
  {
    hide IsRun, Exec;
    assert StatusFits(s.workers[v]);
    if PastStart(s.workers[v].pc) {
      run := WorkerDrains(s, v);
    } else {
      run := StartsOne(s, v);
      var more := WorkerDrains(Exec(s, run), v);
      run := Append(s, run, more);
    }
  }

  /** So can one that is about to be made. */
  lemma InsertEmpties(s: State, i: Sid) returns (run: seq<Action>)
    requires Reached(s) && s.ager == Resting && i in s.submitters && s.submitters[i].Insert?
    ensures IsRun(s, run) && Exec(s, run).tasks == []
  {
    hide IsRun, Exec;
    var w := NewAddress(s);
    run := InsertReachesMark(s, i, s.submitters[i].task, w);
    RunReached(s, run);
    var more := UntoldEmpties(Exec(s, run), w);
    run := Append(s, run, more);
  }

  lemma NotForEver(s: State, run: seq<Action>, t: Task)
    requires IsRun(s, run) && t !in Exec(s, run).tasks
    ensures !QueuedForEver(s, t)
  {
  }

  /** With no ageing pass under way, a task at `k` of the queue stays queued in every continuation if and only if
      no `Execute` is about to insert a worker, every thread has been told to exit past line 75, and no more than
      `k` threads are about to look at the queue. */
  lemma StaysQueuedIff(lo: nat, hi: nat, sids: set<Sid>, run: seq<Action>, t: Task, k: nat)
    requires InitPool(lo, hi, sids).Some? && IsRun(InitPool(lo, hi, sids).value, run)
    requires
      var s := Exec(InitPool(lo, hi, sids).value, run);
      s.term.Returned? && s.ager == Resting && k < |s.tasks| && s.tasks[k] == t
    ensures
      var s := Exec(InitPool(lo, hi, sids).value, run);
      QueuedForEver(s, t) <==> NoInsert(s) && AllTold(s) && |Takers(s)| <= k
  {
    hide IsRun, Exec, Threads, Orders, Scans, QueuedForEver, Takers, Conserved;
    var s := Exec(Fresh(lo, hi, sids), run);
    InitReached(lo, hi, sids);
    RunReached(Fresh(lo, hi, sids), run);
    InitConserved(lo, hi, sids);
    RunKeepsConserved(Fresh(lo, hi, sids), run);
    if !NoInsert(s) {
      var i :| i in s.submitters && s.submitters[i].Insert?;
      var more := InsertEmpties(s, i);
      NotForEver(s, more, t);
    } else if !AllTold(s) {
      var v :| v in s.workers && !Told(s, v);
      var more := UntoldEmpties(s, v);
      NotForEver(s, more, t);
    } else if |Takers(s)| > k {
      TakersReach(s, t, k);
    } else {
      StuckForEver(s, t, k);
    }
  }

  lemma TakersReach(s: State, t: Task, k: nat)
    requires Conserved(s) && k < |s.tasks| && s.tasks[k] == t && |Takers(s)| > k
    ensures !QueuedForEver(s, t)
  {
    var run := TakersTake(s, k + 1);
    assert t !in s.tasks[k + 1..];
    NotForEver(s, run, t);
  }

  // ---------------------------------------------------------------- what can no longer be stranded

  /** A thread that nobody will tell any more, and that has not been told, or that line 75 will make forget it. */
  ghost predicate AtLarge(s: State, v: Wid) {
    s.term.Returned? && v in s.workers && v !in s.pool && NotAt(s.ager, v) && !Told(s, v)
  }

  lemma LargeSubmit(s: State, i: Sid, hint: Option<Wid>, now: int, v: Wid)
    requires AtLarge(s, v) && CanSubmit(s, i, hint)
    ensures AtLarge(SubmitNext(s, i, hint, now), v)
  {
    hide NotAt;
    SubmitSets(s, i, hint, now);
    SubmitAim(s, i, hint, now);
    SubmitTerm(s, i, hint, now);
    SubmitUntold(s, i, hint, now, v);
  }

  lemma SubmitUntold(s: State, i: Sid, hint: Option<Wid>, now: int, v: Wid)
    requires CanSubmit(s, i, hint) && v in s.workers && !Told(s, v)
    ensures v in SubmitNext(s, i, hint, now).workers && !Told(SubmitNext(s, i, hint, now), v)
  {
  }

  lemma LargeAge(s: State, hint: Option<Wid>, v: Wid)
    requires AtLarge(s, v) && CanAge(s, hint)
    ensures AtLarge(AgeNext(s, hint), v)
  {
  }

  lemma LargeStep(s: State, a: Action, v: Wid)
    requires AtLarge(s, v) && Enabled(s, a)
    ensures AtLarge(Next(s, a), v)
  {
    match a
    case Submit(i, hint, now) => LargeSubmit(s, i, hint, now, v);
    case Age(hint) => LargeAge(s, hint, v);
    case Work(w, now) => WorkShape(s, w, now);
    case _ =>
  }

  lemma {:induction false} LargeRun(s: State, run: seq<Action>, v: Wid)
    requires AtLarge(s, v) && IsRun(s, run)
    ensures AtLarge(Exec(s, run), v)
    decreases |run|
  {
    hide Next, Enabled, AtLarge;
    if run != [] {
      LargeStep(s, run[0], v);
      LargeRun(Next(s, run[0]), run[1..], v);
    }
  }

  lemma LargeNeverStrands(s: State, v: Wid, t: Task)
    requires Over(s) && AtLarge(s, v)
    ensures !MayStrand(s, t)
  {
    hide IsRun, Exec, Reached, QueuedForEver;
    forall run | IsRun(s, run) ensures !QueuedForEver(Exec(s, run), t) {
      LargeRun(s, run, v);
      RunReached(s, run);
      var more := UntoldEmpties(Exec(s, run), v);
      NotForEver(Exec(s, run), more, t);
    }
  }

  /** `t` is behind so few tasks that the threads about to look at the queue will reach it, if it is queued at all,
      and nobody will push it. */
  ghost predicate Doomed(s: State, t: Task) {
    && !s.enable && (forall i :: i in s.submitters ==> !Carries(s.submitters[i], t))
    && forall k :: 0 <= k < |s.tasks| && s.tasks[k] == t ==> k < |Takers(s)|
  }

  lemma DoomedSubmit(s: State, i: Sid, hint: Option<Wid>, now: int, t: Task)
    requires Doomed(s, t) && CanSubmit(s, i, hint)
    ensures Doomed(SubmitNext(s, i, hint, now), t)
  {
    hide Takers, SubmitNext, Carries;
    SubmitTakers(s, i, hint, now);
    SubmitShape(s, i, hint, now);
    SubmitOthers(s, i, hint, now, t);
  }

  lemma SubmitOthers(s: State, i: Sid, hint: Option<Wid>, now: int, t: Task)
    requires CanSubmit(s, i, hint) && i in s.submitters && !s.enable && !Carries(s.submitters[i], t)
    ensures
      var s' := SubmitNext(s, i, hint, now);
      && !s'.enable && i in s'.submitters && !Carries(s'.submitters[i], t)
      && (s'.tasks == s.tasks ||
          (|s'.tasks| == |s.tasks| + 1 && s'.tasks[..|s.tasks|] == s.tasks && s'.tasks[|s.tasks|] != t))
  {
  }

  lemma DoomedWork(s: State, w: Wid, now: int, t: Task)
    requires Doomed(s, t) && CanWork(s, w)
    ensures Doomed(WorkNext(s, w, now), t)
  {
    var s' := WorkNext(s, w, now);
    WorkShape(s, w, now);
    if s.workers[w].pc == Take {
      TakerTakes(s, w, now);
      forall k | 0 <= k < |s'.tasks| && s'.tasks[k] == t ensures k < |Takers(s')| {
        assert s.tasks[k + 1] == t;
      }
    } else {
      assert Takers(s) <= Takers(s');
      Within(Takers(s), Takers(s'));
    }
  }

  lemma DoomedStep(s: State, a: Action, t: Task)
    requires Doomed(s, t) && Enabled(s, a)
    ensures Doomed(Next(s, a), t)
  {
    hide Takers;
    match a
    case Submit(i, hint, now) => DoomedSubmit(s, i, hint, now, t);
    case Work(w, now) => DoomedWork(s, w, now, t);
    case Age(hint) => DoomedAge(s, hint, t);
    case Terminate(hint) => DoomedTerminate(s, hint, t);
    case _ => SameTakers(s, Next(s, a));
  }

  lemma DoomedAge(s: State, hint: Option<Wid>, t: Task)
    requires Doomed(s, t) && CanAge(s, hint)
    ensures Doomed(AgeNext(s, hint), t)
  {
    hide Takers, AgeNext;
    AgeFrame(s, hint);
    SameTakers(s, AgeNext(s, hint));
  }

  lemma DoomedTerminate(s: State, hint: Option<Wid>, t: Task)
    requires Doomed(s, t) && CanTerminate(s, hint)
    ensures Doomed(TerminateNext(s, hint), t)
  {
    hide Takers;
    SameTakers(s, TerminateNext(s, hint));
  }

  lemma {:induction false} DoomedRun(s: State, run: seq<Action>, t: Task)
    requires Doomed(s, t) && IsRun(s, run)
    ensures Doomed(Exec(s, run), t)
    decreases |run|
  {
    hide Next, Enabled, Doomed;
    if run != [] {
      DoomedStep(s, run[0], t);
      DoomedRun(Next(s, run[0]), run[1..], t);
    }
  }

  lemma DoomedNeverStrands(s: State, t: Task)
    requires Doomed(s, t) && Conserved(s)
    ensures !MayStrand(s, t)
  {
    hide IsRun, Exec, Conserved, QueuedForEver;
    forall run | IsRun(s, run) ensures !QueuedForEver(Exec(s, run), t) {
      DoomedRun(s, run, t);
      RunKeepsConserved(s, run);
      var s' := Exec(s, run);
      if k :| 0 <= k < |s'.tasks| && s'.tasks[k] == t {
        TakersReach(s', t, k);
      } else {
        var none := Nothing(s');
        NotForEver(s', none, t);
      }
    }
  }

  // ---------------------------------------------------------------- leading it there

  /** The allocation fails for every submitter in `who`. */
  lemma {:induction false} InsertsFail(s: State, who: set<Sid>) returns (run: seq<Action>)
    requires s.ager == Resting && forall i :: i in who ==> i in s.submitters && s.submitters[i].Insert?
    ensures IsRun(s, run)
    ensures
      var s' := Exec(s, run);
      && s' == s.(submitters := s'.submitters, log := s'.log) && s'.submitters.Keys == s.submitters.Keys
      && forall i :: i in s.submitters ==> s'.submitters[i] == if i in who then Outside else s.submitters[i]
    decreases |who|
  {
    hide IsRun, Exec;
    if who == {} {
      run := Nothing(s);
    } else {
      var i := Member(who);
      Smaller(who - {i}, who, i);
      Single(s, Submit(i, None, 0));
      var more := InsertsFail(SubmitNext(s, i, None, 0), who - {i});
      run := Append(s, [Submit(i, None, 0)], more);
    }
  }

  /** The order sticks, and the ageing thread does not pass the worker over as busy. */
  predicate Ripe(me: Worker) {
    PastStart(me.pc) && !me.busy
  }

  /** A busy worker is done with its task after a few steps. */
  lemma {:induction false} QuietsDown(s: State, w: Wid) returns (run: seq<Action>)
    requires w in s.workers && StatusFits(s.workers[w]) && s.workers[w].busy
    ensures IsRun(s, run)
    ensures
      var s' := Exec(s, run);
      && w in s'.workers && s'.workers[w].pc == Beat && !s'.workers[w].busy
      && s' == s.(workers := s.workers[w := s'.workers[w]], log := s'.log)
    decreases ToTake(s.workers[w].pc)
  {
    hide IsRun, Exec;
    Single(s, Work(w, 0));
    WorkShape(s, w, 0);
    var s1 := WorkNext(s, w, 0);
    run := [Work(w, 0)];
    if s1.workers[w].busy {
      var more := QuietsDown(s1, w);
      run := Append(s, run, more);
    }
  }

  lemma RipensOne(s: State, w: Wid) returns (run: seq<Action>)
    requires Reached(s) && w in s.workers && !Ripe(s.workers[w])
    ensures IsRun(s, run)
    ensures
      var s' := Exec(s, run);
      && w in s'.workers && Ripe(s'.workers[w]) && s'.workers[w].pc != Take && s.workers[w].pc != Take
      && s' == s.(submitters := s'.submitters, workers := s.workers[w := s'.workers[w]], log := s'.log)
      && OnlyCreated(s, s')
  {
    hide IsRun, Exec;
    assert StatusFits(s.workers[w]);
    if PastStart(s.workers[w].pc) {
      run := QuietsDown(s, w);
    } else {
      run := StartsOne(s, w);
    }
  }

  ghost function Unripe(s: State): set<Wid> {
    set w | w in s.pool && w in s.workers && !Ripe(s.workers[w])
  }

  lemma {:induction false} RipensAll(s: State) returns (run: seq<Action>)
    requires Reached(s)
    ensures IsRun(s, run)
    ensures
      var s' := Exec(s, run);
      && s' == s.(submitters := s'.submitters, workers := s'.workers, log := s'.log) && OnlyCreated(s, s')
      && Takers(s') == Takers(s) && Unripe(s') == {}
      && s'.workers.Keys == s.workers.Keys
      && forall w :: w in s.workers && w !in s.pool ==> s'.workers[w] == s.workers[w]
    decreases |Unripe(s)|
  {
    hide IsRun, Exec, Reached, Ripe, Takers;
    if Unripe(s) == {} {
      run := Nothing(s);
    } else {
      var w := Member(Unripe(s));
      run := RipensOne(s, w);
      RunReached(s, run);
      var s1 := Exec(s, run);
      SameTakers(s, s1);
      assert w !in Unripe(s1) && Unripe(s1) <= Unripe(s);
      Smaller(Unripe(s1), Unripe(s), w);
      var more := RipensAll(s1);
      run := Append(s, run, more);
    }
  }

  /** The set is put in the hands of an ageing pass that finds everybody idle and old enough. */
  lemma {:induction false} PassesOn(s: State, age: int) returns (run: seq<Action>)
    requires s.ager.AgeLoop? && s.ager.age == age && s.minThreads == 0
    requires forall w :: w in s.pool ==> w in s.workers && !s.workers[w].busy && s.workers[w].stamp <= age
    requires s.ager.itr.Some? ==> s.ager.itr.value in s.pool
    requires forall w :: w in s.pool ==> s.ager.itr.Some? && s.ager.itr.value <= w
    ensures IsRun(s, run)
    ensures
      var s' := Exec(s, run);
      && s' == s.(ager := s'.ager, ageTrash := s'.ageTrash, pool := {}, workers := s'.workers)
      && s'.workers.Keys == s.workers.Keys
      && forall w :: w in s.workers ==>
           s'.workers[w] == if w in s.pool then s.workers[w].(status := Stopping) else s.workers[w]
    decreases |s.pool|
  {
    hide IsRun, Exec;
    if s.ager.itr == None {
      run := Nothing(s);
      NoMember(s.pool);
    } else {
      var w := s.ager.itr.value;
      var next := NextOf(s.pool, w);
      run := TakesOut(s, age, w, next);
      Smaller(s.pool - {w}, s.pool, w);
      var more := PassesOn(Exec(s, run), age);
      run := Append(s, run, more);
    }
  }

  lemma TakesOut(s: State, age: int, w: Wid, next: Option<Wid>) returns (run: seq<Action>)
    requires s.ager == AgeLoop(age, Some(w)) && s.minThreads == 0 && w in s.pool && IsNext(s.pool, w, next)
    requires w in s.workers && !s.workers[w].busy && s.workers[w].stamp <= age
    ensures IsRun(s, run)
    ensures Exec(s, run) == s.(
      ager := AgeLoop(age, next), ageTrash := s.ageTrash + {w}, pool := s.pool - {w},
      workers := s.workers[w := s.workers[w].(status := Stopping)])
  {
    hide IsRun, Exec;
    run := Nothing(s);
    assert |s.pool| > 0;
    run := Add(s, run, Age(next));
    run := Add(s, run, Age(None));
    run := Add(s, run, Age(None));
    run := Add(s, run, Age(None));
    run := Add(s, run, Age(None));
  }

  lemma {:induction false} OldEnough(s: State, pool: set<Wid>) returns (age: int)
    requires pool <= s.workers.Keys
    ensures forall w :: w in pool ==> s.workers[w].stamp <= age
    decreases |pool|
  {
    age := 0;
    if pool != {} {
      var w := Member(pool);
      Smaller(pool - {w}, pool, w);
      age := OldEnough(s, pool - {w});
      age := if age < s.workers[w].stamp then s.workers[w].stamp else age;
    }
  }

  lemma PassTells(s: State) returns (run: seq<Action>)
    requires s.ager == Resting && s.minThreads == 0 && s.pool <= s.workers.Keys && Unripe(s) == {}
    ensures IsRun(s, run)
    ensures
      var s' := Exec(s, run);
      && s' == s.(ager := s'.ager, ageTrash := s'.ageTrash, pool := {}, workers := s'.workers)
      && s'.workers.Keys == s.workers.Keys
      && forall w :: w in s.workers ==>
           s'.workers[w] == if w in s.pool then s.workers[w].(status := Stopping) else s.workers[w]
  {
    hide IsRun, Exec;
    var age := OldEnough(s, s.pool);
    var first: Option<Wid> := None;
    if s.pool != {} {
      var x := Least(s.pool);
      first := Some(x);
    }
    forall w | w in s.pool ensures Ripe(s.workers[w]) {
      assert w !in Unripe(s);
    }
    Single(s, StartAgeing(age, first));
    var more := PassesOn(StartAgeingNext(s, age, first), age);
    run := Append(s, [StartAgeing(age, first)], more);
  }

  /** With no thread at large, everybody can be told before anybody takes another task. */
  lemma TellsEverybody(s: State) returns (run: seq<Action>)
    requires Over(s) && s.ager == Resting && OutsideTold(s)
    ensures IsRun(s, run)
    ensures
      var s' := Exec(s, run);
      && Over(s') && AllTold(s') && NoInsert(s') && s'.tasks == s.tasks && Takers(s') == Takers(s)
      && forall i :: i in s.submitters && s.submitters[i].Push? ==>
           i in s'.submitters && s'.submitters[i] == s.submitters[i]
  {
    hide IsRun, Exec, Threads, Orders, Scans, Takers, Ripe;
    run := InsertsFail(s, set i | i in s.submitters && s.submitters[i].Insert?);
    var s1 := Exec(s, run);
    SameTakers(s, s1);
    RunOver(s, run);
    var more := RipensAll(s1);
    RunOver(s1, more);
    var s2 := Exec(s1, more);
    run := Append(s, run, more);
    OverSets(s2);
    more := PassTells(s2);
    RunOver(s2, more);
    run := Append(s, run, more);
    var s3 := Exec(s2, more);
    SameTakers(s2, s3);
    PassToldAll(s, s2, s3);
  }

  lemma OverSets(s: State)
    requires Over(s)
    ensures s.pool <= s.workers.Keys && s.minThreads == 0 && s.maxThreads == 0 && !s.enable
  {
  }

  lemma PassToldAll(s: State, s2: State, s3: State)
    requires OutsideTold(s) && s2.pool == s.pool && Unripe(s2) == {}
    requires s2.workers.Keys == s.workers.Keys == s3.workers.Keys
    requires forall w :: w in s.workers && w !in s.pool ==> s2.workers[w] == s.workers[w]
    requires forall w :: w in s2.workers ==>
      s3.workers[w] == if w in s.pool then s2.workers[w].(status := Stopping) else s2.workers[w]
    ensures AllTold(s3)
  {
    forall w | w in s3.workers ensures Told(s3, w) {
      assert w !in Unripe(s2);
      if w !in s.pool {
        assert Told(s, w);
      }
    }
  }

  ghost function NotGone(s: State): set<Wid> {
    set w | w in s.workers && s.workers[w].pc != Gone
  }

  /** Then all can end. */
  lemma {:induction false} AllEnd(s: State) returns (run: seq<Action>)
    requires AllTold(s)
    ensures IsRun(s, run)
    ensures
      var s' := Exec(s, run);
      && s' == s.(workers := s'.workers, tasks := s'.tasks, log := s'.log)
      && AllTold(s') && Takers(s') == {}
    decreases |NotGone(s)|
  {
    hide IsRun, Exec;
    if NotGone(s) == {} {
      run := Nothing(s);
      assert forall w :: w in Takers(s) ==> w in NotGone(s);
    } else {
      var w := Member(NotGone(s));
      run := ToldEnds(s, w);
      var s1 := Exec(s, run);
      assert w !in NotGone(s1) && NotGone(s1) <= NotGone(s);
      Smaller(NotGone(s1), NotGone(s), w);
      var more := AllEnd(s1);
      run := Append(s, run, more);
    }
  }

  lemma QueuedStrands(s: State, t: Task, k: nat)
    requires Over(s) && s.ager == Resting && OutsideTold(s)
    requires k < |s.tasks| && s.tasks[k] == t && |Takers(s)| <= k
    ensures MayStrand(s, t)
  {
    hide IsRun, Exec, Reached, Takers, QueuedForEver, NoInsert, AllTold;
    var run := TellsEverybody(s);
    OverSets(Exec(s, run));
    StuckForEver(Exec(s, run), t, k);
  }

  lemma LateStrands(s: State, i: Sid, t: Task)
    requires Over(s) && s.ager == Resting && OutsideTold(s) && i in s.submitters && Carries(s.submitters[i], t)
    ensures MayStrand(s, t)
  {
    hide IsRun, Exec, Reached, Takers, QueuedForEver, AllTold, OutsideTold;
    var run := GoesToPush(s, i, t);
    RunOver(s, run);
    var more := TellsEverybody(Exec(s, run));
    run := Append(s, run, more);
    more := AllEnd(Exec(s, run));
    run := Append(s, run, more);
    RunOver(s, run);
    OverSets(Exec(s, run));
    PushSticks(Exec(s, run), i, t);
    run := Add(s, run, Submit(i, None, 0));
    StuckForEver(Exec(s, run), t, |Exec(s, run).tasks| - 1);
  }

  lemma PushSticks(s: State, i: Sid, t: Task)
    requires i in s.submitters && s.submitters[i] == Push(t) && AllTold(s) && NoInsert(s) && Takers(s) == {}
    requires s.term.Returned? && !s.enable && s.maxThreads == 0
    ensures StuckAt(SubmitNext(s, i, None, 0), t, |s.tasks|)
  {
    SubmitTakers(s, i, None, 0);
  }

  /** In every reachable state in which `Terminate` has returned and no ageing pass is under way, a task can come
      to stay queued for ever if and only if every thread that is not in the worker set has been told to exit past
      line 75, and some `Execute` is past its enable check with the task or it is queued behind at least as many
      tasks as there are threads about to look at the queue. */
  lemma StrandsIff(lo: nat, hi: nat, sids: set<Sid>, run: seq<Action>, t: Task)
    requires InitPool(lo, hi, sids).Some? && IsRun(InitPool(lo, hi, sids).value, run)
    requires
      var s := Exec(InitPool(lo, hi, sids).value, run);
      s.term.Returned? && s.ager == Resting
    ensures
      var s := Exec(InitPool(lo, hi, sids).value, run);
      MayStrand(s, t) <==>
        OutsideTold(s) && (Late(s, t) || exists k :: 0 <= k < |s.tasks| && s.tasks[k] == t && |Takers(s)| <= k)
  {
    hide IsRun, Exec, MayStrand, Threads, Orders, Scans, Takers, Conserved;
    var s := Exec(Fresh(lo, hi, sids), run);
    InitReached(lo, hi, sids);
    RunReached(Fresh(lo, hi, sids), run);
    InitConserved(lo, hi, sids);
    RunKeepsConserved(Fresh(lo, hi, sids), run);
    if v :| v in s.workers && v !in s.pool && !Told(s, v) {
      LargeNeverStrands(s, v, t);
    } else if i :| i in s.submitters && Carries(s.submitters[i], t) {
      LateStrands(s, i, t);
    } else if k :| 0 <= k < |s.tasks| && s.tasks[k] == t && |Takers(s)| <= k {
      QueuedStrands(s, t, k);
    } else {
      DoomedNeverStrands(s, t);
    }
  }
}
