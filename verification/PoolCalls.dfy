/** What one call does when nothing comes between its steps: the link between the interleaved steps of PoolModel
    and the methods of PoolObject, which promise the same predicates.  */
module PoolCalls {
  import opened Options
  import opened FiniteSets
  import opened PoolModel

  // ---------------------------------------------------------------- the contracts

  /** `Execute` makes a worker. */
  predicate Grows(size: nat, maxThreads: nat, allBusy: bool, tasks: seq<Task>) {
    size < maxThreads && (allBusy || tasks != [])
  }

  /** The effect of `Execute`: the argument, the enable flag, the limit, whether all workers are busy, the queue
      and the number of workers before, whether there is memory for a worker, and the queue, the number of workers
      and the result after.  A worker that is needed and cannot be allocated costs the task. */
  predicate Executed(arg: Option<Task>, enable: bool, maxThreads: nat, allBusy: bool, tasks: seq<Task>, size: nat,
                     memory: bool, tasks': seq<Task>, size': nat, ok: bool) {
    && ok == (enable && arg != None && (memory || !Grows(size, maxThreads, allBusy, tasks)))
    && tasks' == (if ok then tasks + [arg.value] else tasks)
    && size' == size + if ok && Grows(size, maxThreads, allBusy, tasks) then 1 else 0
  }

  /** The effect of `GetOneTask`. */
  predicate TookOne(tasks: seq<Task>, task: Option<Task>, tasks': seq<Task>) {
    (task == None <==> tasks == []) && tasks == (if task == None then [] else [task.value]) + tasks'
  }

  /** What `Aged` decides. */
  predicate IsAged(busy: bool, stamp: int, age: int) {
    !busy && stamp <= age
  }

  /** The effect of an ageing pass on a set of workers, of which `aged` are idle and old: those taken out are such, the
      set does not go below the minimum, and a pass that stops above it has left none of them. */
  ghost predicate Thinned<T>(before: set<T>, after: set<T>, minimum: nat, aged: set<T>) {
    && after <= before && before - after <= aged
    && (after == before || |after| >= minimum) && (|after| <= minimum || after !! aged)
  }

  // ---------------------------------------------------------------- Execute

  ghost predicate AllBusy(s: State) {
    forall w :: w in s.pool ==> w in s.workers && s.workers[w].busy
  }

  ghost predicate Growing(s: State) {
    Grows(|s.pool|, s.maxThreads, AllBusy(s), s.tasks)
  }

  /** Everything but submitter i's position, the workers, the queue and the log is as it was. */
  ghost predicate Framed(s: State, c: State, i: Sid) {
    && i in c.submitters
    && c == s.(submitters := s.submitters[i := c.submitters[i]], pool := c.pool, workers := c.workers,
               tasks := c.tasks, log := c.log)
  }

  ghost predicate Same(s: State, c: State) {
    c.pool == s.pool && c.workers == s.workers && c.tasks == s.tasks && c.log == s.log
  }

  /** The pool after `Execute` has made up its mind. */
  ghost predicate Sized(s: State, c: State) {
    if Growing(s) then exists w :: w !in s.pool && c.pool == s.pool + {w} else c.pool == s.pool
  }

  /** Where a call that began in `s` can stand. */
  ghost predicate Inside(s: State, c: State, i: Sid, arg: Option<Task>) {
    && Framed(s, c, i) && i in s.submitters
    && match c.submitters[i]
       case TestEnable(a) => a == arg && Same(s, c)
       case TestNull(a) => a == arg && Same(s, c) && s.enable
       case ReadQueue(t) => arg == Some(t) && Same(s, c) && s.enable
       case ReadPool(t, q) => arg == Some(t) && Same(s, c) && s.enable && q == |s.tasks|
       case BeginScan(t, q, n) => arg == Some(t) && Same(s, c) && s.enable && q == |s.tasks| && n == |s.pool|
       case ScanBusy(t, q, n, itr) =>
         && arg == Some(t) && Same(s, c) && s.enable && q == |s.tasks| && n == |s.pool|
         && (itr.Some? ==> itr.value in s.pool)
         && forall w :: w in s.pool && (itr == None || w < itr.value) ==> w in s.workers && s.workers[w].busy
       case Compare(t, n) =>
         arg == Some(t) && Same(s, c) && s.enable && n == |s.pool| && (AllBusy(s) || s.tasks != [])
       case Insert(t) => arg == Some(t) && Same(s, c) && s.enable && Growing(s)
       case Create(t, _) => Decided(s, c, arg, t) && Growing(s)
       case MarkRun(t, _) => Decided(s, c, arg, t) && Growing(s)
       case Push(t) => Decided(s, c, arg, t)
       case Notify => Effected(s, c, arg, true, true)
       case Outside => exists memory, ok :: Effected(s, c, arg, memory, ok)
  }

  /** Past the decision about a worker, with nothing pushed yet. */
  ghost predicate Decided(s: State, c: State, arg: Option<Task>, t: Task) {
    arg == Some(t) && s.enable && Sized(s, c) && c.tasks == s.tasks && c.log == s.log
  }

  /** The call is over, or as good as over. */
  ghost predicate Effected(s: State, c: State, arg: Option<Task>, memory: bool, ok: bool) {
    && Executed(arg, s.enable, s.maxThreads, AllBusy(s), s.tasks, |s.pool|, memory, c.tasks, |c.pool|, ok)
    && (if ok then Sized(s, c) else c.pool == s.pool)
    && Logged(s.log, arg, c.log, ok)
  }

  /** A task passed to `Execute` is pushed or rejected. */
  predicate Logged(log: seq<Event>, arg: Option<Task>, log': seq<Event>, ok: bool) {
    log' == log + if arg == None then [] else if ok then [Pushed(arg.value)] else [Rejected(arg.value)]
  }

  lemma SizedIs(s: State, c: State)
    requires Sized(s, c)
    ensures |c.pool| == |s.pool| + if Growing(s) then 1 else 0
  {
  }

  /** A step of the call that is not one of the last ones. */
  lemma EarlyStep(s: State, c: State, i: Sid, arg: Option<Task>, hint: Option<Wid>, now: int)
    requires Inside(s, c, i, arg) && CanSubmit(c, i, hint)
    requires ToOutcome(c.submitters[i])
    ensures Inside(s, SubmitNext(c, i, hint, now), i, arg)
  {
    var c' := SubmitNext(c, i, hint, now);
    assert c'.submitters == s.submitters[i := c'.submitters[i]];
    if c'.submitters[i] == Outside {
      assert Effected(s, c', arg, true, false);
    }
  }

  predicate ToOutcome(pc: SubmitPc) {
    pc.TestEnable? || pc.TestNull? || pc.ReadQueue? || pc.ReadPool? || pc.BeginScan? || pc.ScanBusy? || pc.Compare?
  }

  lemma InsertStep(s: State, c: State, i: Sid, arg: Option<Task>, hint: Option<Wid>, now: int)
    requires Inside(s, c, i, arg) && s.pool <= s.workers.Keys && CanSubmit(c, i, hint) && c.submitters[i].Insert?
    ensures Inside(s, SubmitNext(c, i, hint, now), i, arg)
  {
    hide Executed, Grows;
    var c' := SubmitNext(c, i, hint, now);
    assert c'.submitters == s.submitters[i := c'.submitters[i]];
    if hint.Some? {
      assert hint.value !in s.pool;
      assert Sized(s, c');
    } else {
      LeftOut(s, c', arg);
    }
  }

  lemma LeftOut(s: State, c: State, arg: Option<Task>)
    requires arg.Some? && s.enable && Growing(s)
    requires c.pool == s.pool && c.tasks == s.tasks && c.log == s.log + [Rejected(arg.value)]
    ensures Effected(s, c, arg, false, false)
  {
  }

  lemma StartStep(s: State, c: State, i: Sid, arg: Option<Task>, hint: Option<Wid>, now: int)
    requires Inside(s, c, i, arg) && CanSubmit(c, i, hint)
    requires c.submitters[i].Create? || c.submitters[i].MarkRun?
    ensures Inside(s, SubmitNext(c, i, hint, now), i, arg)
  {
    hide Sized, Executed, Grows;
    var c' := SubmitNext(c, i, hint, now);
    assert c'.submitters == s.submitters[i := c'.submitters[i]];
    SameSized(s, c, c');
  }

  lemma LateStep(s: State, c: State, i: Sid, arg: Option<Task>, hint: Option<Wid>, now: int)
    requires Inside(s, c, i, arg) && CanSubmit(c, i, hint)
    requires c.submitters[i].Push? || c.submitters[i].Notify?
    ensures Inside(s, SubmitNext(c, i, hint, now), i, arg)
  {
    hide Sized;
    var c' := SubmitNext(c, i, hint, now);
    assert c'.submitters == s.submitters[i := c'.submitters[i]];
    SameSized(s, c, c');
    if c.submitters[i].Push? {
      SizedIs(s, c);
    } else {
      assert Effected(s, c', arg, true, true);
    }
  }

  lemma SameSized(s: State, c: State, c': State)
    requires c'.pool == c.pool
    ensures Sized(s, c') <==> Sized(s, c)
  {
  }

  /** Only submitter `i` moves. */
  predicate OnlySubmits(run: seq<Action>, i: Sid) {
    forall a :: a in run ==> a.Submit? && a.sid == i
  }

  lemma {:induction false} StaysInside(s: State, c: State, i: Sid, arg: Option<Task>, run: seq<Action>)
    requires Inside(s, c, i, arg) && s.pool <= s.workers.Keys && IsRun(c, run) && OnlySubmits(run, i)
    ensures Inside(s, Exec(c, run), i, arg)
    decreases |run|
  {
    hide Inside;
    if run != [] {
      var a := run[0];
      assert a in run;
      if ToOutcome(c.submitters[i]) {
        EarlyStep(s, c, i, arg, a.hint, a.now);
      } else if c.submitters[i].Insert? {
        InsertStep(s, c, i, arg, a.hint, a.now);
      } else if c.submitters[i].Create? || c.submitters[i].MarkRun? {
        StartStep(s, c, i, arg, a.hint, a.now);
      } else {
        LateStep(s, c, i, arg, a.hint, a.now);
      }
      StaysInside(s, Next(c, a), i, arg, run[1..]);
    }
  }

  /** An uninterrupted call of `Execute`: from any state, and by any steps of its own that bring it to its end, it
      has exactly the effect that the method promises. */
  lemma ExecuteAlone(s: State, i: Sid, arg: Option<Task>, run: seq<Action>)
    requires CanCall(s, i, arg) && s.pool <= s.workers.Keys
    requires IsRun(CallNext(s, i, arg), run) && OnlySubmits(run, i)
    requires i in Exec(CallNext(s, i, arg), run).submitters
    requires Exec(CallNext(s, i, arg), run).submitters[i] == Outside
    ensures
      var c := Exec(CallNext(s, i, arg), run);
      exists memory, ok ::
        && Executed(arg, s.enable, s.maxThreads, AllBusy(s), s.tasks, |s.pool|, memory, c.tasks, |c.pool|, ok)
        && Logged(s.log, arg, c.log, ok)
  {
    var s1 := CallNext(s, i, arg);
    assert s1.submitters == s1.submitters[i := s1.submitters[i]];
    StaysInside(s1, s1, i, arg, run);
    var c := Exec(s1, run);
    var memory, ok :| Effected(s1, c, arg, memory, ok);
    assert AllBusy(s1) == AllBusy(s);
  }

  // ---------------------------------------------------------------- GetOneTask and Aged

  /** `Init` of an empty pool, as the method promises it: refused exactly for a zero minimum or a maximum below it,
      and otherwise with exactly the minimum of workers, started and with no order. */
  lemma InitIsInit(lo: nat, hi: nat, sids: set<Sid>)
    ensures InitPool(lo, hi, sids).Some? <==> 0 < lo <= hi
    ensures InitPool(lo, hi, sids).Some? ==>
      var s := InitPool(lo, hi, sids).value;
      && |s.pool| == lo && s.minThreads == lo && s.maxThreads == hi && s.enable && s.tasks == [] && !s.quickFree
      && s.workers.Keys == s.pool && s.ager == Resting && s.term == NotCalled
      && forall w :: w in s.workers ==> s.workers[w].status == Initial && !s.workers[w].busy && s.workers[w].alive
  {
  }

  /** A worker's look at the queue is `GetOneTask`, and it waits if that gives none. */
  lemma TakeIsGetOneTask(s: State, w: Wid, now: int)
    requires CanWork(s, w) && s.workers[w].pc == Take
    ensures
      var s' := WorkNext(s, w, now);
      && TookOne(s.tasks, if s'.workers[w].pc.MarkBusy? then Some(s'.workers[w].pc.task) else None, s'.tasks)
      && (s'.workers[w].pc == Wait || s'.workers[w].pc.MarkBusy?)
  {
  }

  /** The ageing thread's steps on a worker, uninterrupted, are `Aged`: it goes on to take the worker out, having
      told it to exit, if it is idle and old, and goes on to the next one with nothing changed if it is not. */
  lemma AgeingIsAged(s: State, age: int, w: Wid, itr: Option<Wid>, hint: Option<Wid>) returns (run: seq<Action>)
    requires s.ager == AgeBusy(age, w, itr) && w in s.workers
    ensures IsRun(s, run) && forall a :: a in run ==> a == Age(hint)
    ensures Exec(s, run) ==
      if IsAged(s.workers[w].busy, s.workers[w].stamp, age) then TellExit(s, w).(ager := AgeErase(age, w, itr))
      else s.(ager := AgeLoop(age, itr))
  {
    hide IsRun, Exec;
    run := Nothing(s);
    run := Add(s, run, Age(hint));
    if !s.workers[w].busy {
      run := Add(s, run, Age(hint));
      if s.workers[w].stamp <= age {
        run := Add(s, run, Age(hint));
      }
    }
  }

  // ---------------------------------------------------------------- an ageing pass

  ghost function AgedOnes(s: State, age: int): set<Wid> {
    set w | w in s.pool && w in s.workers && IsAged(s.workers[w].busy, s.workers[w].stamp, age)
  }

  /** Those taken out so far have been told, and nobody else, but for `also`. */
  ghost predicate OnlyTold(s: State, c: State, also: set<Wid>) {
    && c.workers.Keys == s.workers.Keys
    && forall w :: w in s.workers ==>
         c.workers[w] == if w in (s.pool - c.pool) + also then s.workers[w].(status := Stopping) else s.workers[w]
  }

  /** The workers before the iterator have been looked at. */
  ghost predicate Passed(s: State, c: State, age: int, itr: Option<Wid>) {
    && (itr.Some? ==> itr.value in c.pool)
    && forall w :: w in c.pool && (itr == None || w < itr.value) ==> w !in AgedOnes(s, age)
  }

  /** Where a pass that began in `s` can stand. */
  ghost predicate InPass(s: State, c: State, age: int) {
    && c == s.(ager := c.ager, ageTrash := c.ageTrash, pool := c.pool, workers := c.workers, orphans := c.orphans)
    && c.pool <= s.pool && s.pool - c.pool <= AgedOnes(s, age) && (c.pool == s.pool || |c.pool| >= s.minThreads)
    && match c.ager
       case Resting => OnlyTold(s, c, {}) && Thinned(s.pool, c.pool, s.minThreads, AgedOnes(s, age))
       case AgeJoin => OnlyTold(s, c, {}) && Thinned(s.pool, c.pool, s.minThreads, AgedOnes(s, age))
       case AgeLoop(a, itr) => a == age && OnlyTold(s, c, {}) && Passed(s, c, age, itr)
       case AgeBusy(a, w, itr) => a == age && OnlyTold(s, c, {}) && AtWorker(s, c, age, w, itr)
       case AgeStamp(a, w, itr) =>
         a == age && OnlyTold(s, c, {}) && AtWorker(s, c, age, w, itr) && !s.workers[w].busy
       case AgeTell(a, w, itr) =>
         a == age && OnlyTold(s, c, {}) && AtWorker(s, c, age, w, itr) && w in AgedOnes(s, age)
       case AgeErase(a, w, itr) =>
         a == age && OnlyTold(s, c, {w}) && AtWorker(s, c, age, w, itr) && w in AgedOnes(s, age)
  }

  /** The pass looks at `w`, and will go on to `next`. */
  ghost predicate AtWorker(s: State, c: State, age: int, w: Wid, next: Option<Wid>) {
    && w in c.pool && w in s.workers && |c.pool| > s.minThreads && IsNext(c.pool, w, next)
    && forall y :: y in c.pool && y < w ==> y !in AgedOnes(s, age)
  }

  lemma PassLoop(s: State, c: State, age: int, hint: Option<Wid>)
    requires InPass(s, c, age) && s.pool <= s.workers.Keys && CanAge(c, hint) && c.ager.AgeLoop?
    ensures InPass(s, AgeNext(c, hint), age)
  {
    hide AgedOnes, OnlyTold;
    var c' := AgeNext(c, hint);
    SameTold(s, c, c', {});
    if c.ager.itr == None {
      assert forall w :: w in c.pool ==> w !in AgedOnes(s, age);
      NoneShared(c.pool, AgedOnes(s, age));
    }
  }

  lemma NoneShared<T>(a: set<T>, b: set<T>)
    requires forall x :: x in a ==> x !in b
    ensures a !! b
  {
  }

  lemma SameTold(s: State, c: State, c': State, also: set<Wid>)
    requires OnlyTold(s, c, also) && c'.pool == c.pool && c'.workers == c.workers
    ensures OnlyTold(s, c', also)
  {
  }

  /** The worker looked at stays: it is not idle and old. */
  lemma PassKeepsOne(s: State, c: State, c': State, age: int, w: Wid, next: Option<Wid>)
    requires AtWorker(s, c, age, w, next) && w !in AgedOnes(s, age) && c'.pool == c.pool
    ensures Passed(s, c', age, next)
  {
    hide AgedOnes;
    forall y | y in c'.pool && (next == None || y < next.value) ensures y !in AgedOnes(s, age) {
      assert y <= w;
    }
  }

  lemma PassBusy(s: State, c: State, age: int, hint: Option<Wid>)
    requires InPass(s, c, age) && s.pool <= s.workers.Keys && CanAge(c, hint) && (c.ager.AgeBusy? || c.ager.AgeStamp?)
    ensures InPass(s, AgeNext(c, hint), age)
  {
    hide AgedOnes, OnlyTold;
    var c', w := AgeNext(c, hint), c.ager.wid;
    SameTold(s, c, c', {});
    NotYetTold(s, c, w);
    assert w in AgedOnes(s, age) <==> IsAged(s.workers[w].busy, s.workers[w].stamp, age) by {
      WhoIsAged(s, age, w);
    }
    if c'.ager.AgeLoop? {
      PassKeepsOne(s, c, c', age, w, c.ager.itr);
    }
  }

  lemma NotYetTold(s: State, c: State, w: Wid)
    requires OnlyTold(s, c, {}) && w in c.pool && w in s.workers
    ensures w in c.workers && c.workers[w] == s.workers[w]
  {
  }

  lemma WhoIsAged(s: State, age: int, w: Wid)
    requires w in s.pool && w in s.workers
    ensures w in AgedOnes(s, age) <==> IsAged(s.workers[w].busy, s.workers[w].stamp, age)
  {
  }

  lemma PassTell(s: State, c: State, age: int, hint: Option<Wid>)
    requires InPass(s, c, age) && s.pool <= s.workers.Keys && CanAge(c, hint) && c.ager.AgeTell?
    ensures InPass(s, AgeNext(c, hint), age)
  {
    hide AgedOnes;
  }

  lemma PassErase(s: State, c: State, age: int, hint: Option<Wid>)
    requires InPass(s, c, age) && s.pool <= s.workers.Keys && CanAge(c, hint) && c.ager.AgeErase?
    ensures InPass(s, AgeNext(c, hint), age)
  {
    hide AgedOnes;
    var c', w := AgeNext(c, hint), c.ager.wid;
    assert (s.pool - c'.pool) + {} == (s.pool - c.pool) + {w};
    assert |c'.pool| == |c.pool| - 1;
    forall y | y in c'.pool && (c.ager.itr == None || y < c.ager.itr.value) ensures y !in AgedOnes(s, age) {
      assert y <= w;
    }
  }

  lemma PassJoin(s: State, c: State, age: int, hint: Option<Wid>)
    requires InPass(s, c, age) && CanAge(c, hint) && c.ager.AgeJoin?
    ensures InPass(s, AgeNext(c, hint), age)
  {
    hide AgedOnes, Thinned;
    SameTold(s, c, AgeNext(c, hint), {});
  }

  lemma PassStep(s: State, c: State, age: int, hint: Option<Wid>)
    requires InPass(s, c, age) && s.pool <= s.workers.Keys && CanAge(c, hint)
    ensures InPass(s, AgeNext(c, hint), age)
  {
    hide InPass, AgeNext;
    match c.ager
    case AgeLoop(_, _) => PassLoop(s, c, age, hint);
    case AgeTell(_, _, _) => PassTell(s, c, age, hint);
    case AgeErase(_, _, _) => PassErase(s, c, age, hint);
    case AgeJoin => PassJoin(s, c, age, hint);
    case _ => PassBusy(s, c, age, hint);
  }

  lemma {:induction false} StaysInPass(s: State, c: State, age: int, run: seq<Action>)
    requires InPass(s, c, age) && s.pool <= s.workers.Keys && IsRun(c, run) && forall a :: a in run ==> a.Age?
    ensures InPass(s, Exec(c, run), age)
    decreases |run|
  {
    hide InPass, AgeNext;
    if run != [] {
      assert run[0] in run && forall a :: a in run[1..] ==> a in run;
      PassStep(s, c, age, run[0].hint);
      StaysInPass(s, Next(c, run[0]), age, run[1..]);
    }
  }

  lemma PassEnds(s: State, c: State, age: int)
    requires InPass(s, c, age) && (c.ager.AgeJoin? || c.ager.Resting?)
    ensures Thinned(s.pool, c.pool, s.minThreads, AgedOnes(s, age)) && c.workers.Keys == s.workers.Keys
    ensures forall w :: w in s.workers ==>
      c.workers[w] == if w in s.pool - c.pool then s.workers[w].(status := Stopping) else s.workers[w]
    ensures c == s.(ager := c.ager, ageTrash := c.ageTrash, pool := c.pool, workers := c.workers, orphans := c.orphans)
  {
    hide AgedOnes, Thinned;
  }

  lemma SameAged(s: State, age: int)
    requires s.pool <= s.workers.Keys
    ensures AgedOnes(s, age) == set w | w in s.pool && !s.workers[w].busy && s.workers[w].stamp <= age
  {
    var aged := set w | w in s.pool && !s.workers[w].busy && s.workers[w].stamp <= age;
    assert forall w :: w in aged <==> w in AgedOnes(s, age);
  }

  /** An uninterrupted ageing pass, once it has come to its joins or past them, has exactly the effect that the method
      promises: who is taken out, that those and no others have been told, and that it has touched nothing else. */
  lemma PassAlone(s: State, age: int, first: Option<Wid>, run: seq<Action>)
    requires CanStartAgeing(s, first) && s.pool <= s.workers.Keys
    requires IsRun(StartAgeingNext(s, age, first), run) && forall a :: a in run ==> a.Age?
    requires
      var c := Exec(StartAgeingNext(s, age, first), run);
      c.ager.AgeJoin? || c.ager.Resting?
    ensures
      var c := Exec(StartAgeingNext(s, age, first), run);
      && Thinned(s.pool, c.pool, s.minThreads,
                 set w | w in s.pool && !s.workers[w].busy && s.workers[w].stamp <= age)
      && c.workers.Keys == s.workers.Keys
      && (forall w :: w in s.workers ==>
            c.workers[w] == if w in s.pool - c.pool then s.workers[w].(status := Stopping) else s.workers[w])
      && c == s.(ager := c.ager, ageTrash := c.ageTrash, pool := c.pool, workers := c.workers, orphans := c.orphans)
  {
    hide Exec, IsRun;
    var s1 := StartAgeingNext(s, age, first);
    assert InPass(s, s1, age);
    StaysInPass(s, s1, age, run);
    SameAged(s, age);
    hide InPass, AgedOnes, Thinned;
    PassEnds(s, Exec(s1, run), age);
  }
}
