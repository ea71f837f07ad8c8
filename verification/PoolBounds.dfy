/** How large the worker set can get, and how small.  */
module PoolBounds {
  import opened FiniteSets
  import opened Options
  import opened PoolModel

  /** Submitter `pc` has taken its size snapshot below the limit and has not inserted yet. */
  predicate MayInsert(pc: SubmitPc, limit: nat) {
    match pc
    case BeginScan(_, _, n) => n < limit
    case ScanBusy(_, _, n, _) => n < limit
    case Compare(_, n) => n < limit
    case Insert(_) => true
    case _ => false
  }

  ghost function Inserting(s: State, limit: nat): set<Sid> {
    set i | i in s.submitters && MayInsert(s.submitters[i], limit)
  }

  /** With `k` submitters the snapshots in flight can overshoot the limit by `k - 1`. */
  ghost predicate Bounded(s: State, limit: nat) {
    && s.maxThreads <= limit
    && s.pool <= s.workers.Keys
    && |s.pool| + |Inserting(s, limit)| <= limit + (if |s.submitters| == 0 then 0 else |s.submitters| - 1)
  }

  /** What a submitter step does to the pool... */
  lemma SubmitPool(s: State, i: Sid, hint: Option<Wid>, now: int)
    requires CanSubmit(s, i, hint)
    ensures
      var s', pc := SubmitNext(s, i, hint, now), s.submitters[i];
      && s'.maxThreads == s.maxThreads
      && s.workers.Keys <= s'.workers.Keys
      && (if pc.Insert? && hint.Some? then
            s'.pool == s.pool + {hint.value} && hint.value !in s.workers && hint.value in s'.workers
          else s'.pool == s.pool)
  {
  }

  /** ... and to its own position. */
  lemma SubmitSize(s: State, i: Sid, hint: Option<Wid>, now: int, limit: nat)
    requires CanSubmit(s, i, hint) && s.maxThreads <= limit
    ensures
      var s', pc := SubmitNext(s, i, hint, now), s.submitters[i];
      && i in s'.submitters && s'.submitters == s.submitters[i := s'.submitters[i]]
      && (MayInsert(s'.submitters[i], limit) ==>
            !pc.Insert? && (MayInsert(pc, limit) || (pc.ReadPool? && |s.pool| < limit)))
  {
    match s.submitters[i]
    case Insert(_) =>
    case ScanBusy(_, _, _, _) =>
    case _ =>
  }

  lemma SubmitKeepsBounded(s: State, i: Sid, hint: Option<Wid>, now: int, limit: nat)
    requires Bounded(s, limit) && CanSubmit(s, i, hint)
    ensures Bounded(SubmitNext(s, i, hint, now), limit)
  {
    var s', pc := SubmitNext(s, i, hint, now), s.submitters[i];
    SubmitPool(s, i, hint, now);
    SubmitSize(s, i, hint, now, limit);
    assert s'.submitters.Keys == s.submitters.Keys;
    assert |s'.submitters.Keys| == |s.submitters.Keys|;
    var was, cur := Inserting(s, limit), Inserting(s', limit);
    if MayInsert(s'.submitters[i], limit) {
      assert cur == was + {i};
      if i !in was {
        Smaller(was, s.submitters.Keys, i);
      }
    } else {
      assert cur == was - {i};
    }
  }

  lemma OthersShrink(s: State, a: Action)
    requires Enabled(s, a) && !a.Submit? && !a.Call?
    requires s.pool <= s.workers.Keys
    ensures
      var s' := Next(s, a);
      && s'.submitters == s.submitters && s'.pool <= s.pool
      && s'.workers.Keys == s.workers.Keys && s'.maxThreads <= s.maxThreads
  {
    match a
    case Age(hint) =>
    case Terminate(hint) => TerminateShrinks(s, hint);
    case _ =>
  }

  lemma TerminateShrinks(s: State, hint: Option<Wid>)
    requires CanTerminate(s, hint)
    ensures
      var s' := TerminateNext(s, hint);
      && s'.submitters == s.submitters && s'.pool <= s.pool
      && s'.workers.Keys == s.workers.Keys && s'.maxThreads <= s.maxThreads
  {
  }

  lemma StepKeepsBounded(s: State, a: Action, limit: nat)
    requires Bounded(s, limit) && Enabled(s, a)
    ensures Bounded(Next(s, a), limit)
  {
    var s' := Next(s, a);
    match a {
      case Submit(i, hint, now) => SubmitKeepsBounded(s, i, hint, now, limit);
      case Call(i, arg) =>
        assert s'.submitters.Keys == s.submitters.Keys;
        assert |s'.submitters.Keys| == |s.submitters.Keys|;
        assert Inserting(s', limit) == Inserting(s, limit);
      case _ =>
        OthersShrink(s, a);
        Within(s'.pool, s.pool);
        assert Inserting(s', limit) == Inserting(s, limit);
    }
  }

  lemma {:induction false} RunKeepsBounded(s: State, run: seq<Action>, limit: nat)
    requires Bounded(s, limit) && IsRun(s, run)
    ensures Bounded(Exec(s, run), limit)
    decreases |run|
  {
    if run != [] {
      StepKeepsBounded(s, run[0], limit);
      RunKeepsBounded(Next(s, run[0]), run[1..], limit);
    }
  }

  /** Upper bound, over every run from `Init`: the worker set never exceeds the maximum by more than one
      less than the number of submitters; with one submitter it never exceeds the maximum. */
  lemma PoolNeverTooLarge(lo: nat, hi: nat, sids: set<Sid>, run: seq<Action>)
    requires InitPool(lo, hi, sids).Some? && IsRun(InitPool(lo, hi, sids).value, run)
    ensures
      var s := Exec(InitPool(lo, hi, sids).value, run);
      && (|sids| >= 1 ==> |s.pool| <= hi + |sids| - 1)
      && (|sids| <= 1 ==> |s.pool| <= hi)
  {
    var s := Fresh(lo, hi, sids);
    assert s.submitters.Keys == sids;
    assert |s.submitters.Keys| == |sids|;
    assert Inserting(s, hi) == {};
    RunKeepsBounded(s, run, hi);
    SubmittersKept(s, run);
    var s' := Exec(s, run);
    assert |s'.submitters.Keys| == |sids|;
  }

  lemma {:induction false} SubmittersKept(s: State, run: seq<Action>)
    requires IsRun(s, run) && s.pool <= s.workers.Keys
    ensures Exec(s, run).submitters.Keys == s.submitters.Keys
    decreases |run|
  {
    if run != [] {
      var a := run[0];
      if a.Submit? {
        SubmitPool(s, a.sid, a.hint, a.now);
        SubmitSize(s, a.sid, a.hint, a.now, s.maxThreads);
      } else if !a.Call? {
        OthersShrink(s, a);
      }
      SubmittersKept(Next(s, a), run[1..]);
    }
  }

  // ---------------------------------------------------------------- the upper bound is reached

  /** The pool has workers 0 to n-1, all idle; something is queued; and nobody is inside `Execute`. */
  ghost predicate Grown(s: State, n: nat, hi: nat, sids: set<Sid>) {
    && s.enable && s.ager == Resting && s.tasks != [] && s.maxThreads == hi
    && s.pool == Wids(n) && s.workers.Keys == Wids(n)
    && (forall w :: w in s.workers ==> !s.workers[w].busy)
    && s.submitters == (map i | i in sids :: Outside)
    && (forall u :: u in s.used ==> u < 0 <= u + n)
  }

  lemma FirstQueued(lo: nat, hi: nat, sids: set<Sid>) returns (run: seq<Action>)
    requires 1 <= lo && 0 in sids
    ensures IsRun(Fresh(lo, hi, sids), run) && Grown(Exec(Fresh(lo, hi, sids), run), lo, hi, sids)
  {
    hide IsRun, Exec;
    var s0 := Fresh(lo, hi, sids);
    assert IsBegin(s0.pool, Some(0));
    run := SubmitReachesPush(s0, 0, 0, -1);
    var more := PushReturns(Exec(s0, run), 0, -1);
    run := Append(s0, run, more);
    var s := Exec(s0, run);
    assert s.submitters == s0.submitters;
    assert s.workers.Keys == s0.workers.Keys;
  }

  /** One more `Execute` adds one more worker. */
  lemma GrowsByOne(s: State, n: nat, hi: nat, sids: set<Sid>) returns (run: seq<Action>)
    requires Grown(s, n, hi, sids) && 1 <= n < hi && 0 in sids
    ensures IsRun(s, run) && Grown(Exec(s, run), n + 1, hi, sids)
  {
    hide IsRun, Exec;
    var t: Task := -1 - n;
    assert IsBegin(s.pool, Some(0)) && 0 in s.workers;
    run := SubmitReachesInsert(s, 0, 0, t);
    var more := InsertReachesMark(Exec(s, run), 0, t, n);
    run := Append(s, run, more);
    run := Add(s, run, Submit(0, None, 0));
    more := PushReturns(Exec(s, run), 0, t);
    run := Append(s, run, more);
    var s' := Exec(s, run);
    assert s'.submitters == s.submitters;
    assert s'.workers.Keys == s.workers.Keys + {n};
  }

  lemma {:induction false} GrowsTo(s: State, n: nat, m: nat, hi: nat, sids: set<Sid>) returns (run: seq<Action>)
    requires Grown(s, n, hi, sids) && 1 <= n <= m < hi && 0 in sids
    ensures IsRun(s, run) && Grown(Exec(s, run), m, hi, sids)
    decreases m - n
  {
    hide IsRun, Exec, Grown;
    if n == m {
      run := Nothing(s);
    } else {
      run := GrowsByOne(s, n, hi, sids);
      var more := GrowsTo(Exec(s, run), n + 1, m, hi, sids);
      run := Append(s, run, more);
    }
  }

  /** Submitters 0 to n-1 all take their snapshot before any of them inserts. */
  lemma {:induction false} AllReachInsert(s: State, n: nat, w: Wid) returns (run: seq<Action>)
    requires s.enable && s.tasks != [] && IsBegin(s.pool, Some(w)) && w in s.workers && !s.workers[w].busy
    requires |s.pool| < s.maxThreads
    requires forall i :: 0 <= i < n ==> i in s.submitters && s.submitters[i] == Outside && i !in s.used
    ensures IsRun(s, run)
    ensures Exec(s, run) == s.(submitters := Exec(s, run).submitters, used := Exec(s, run).used)
    ensures Exec(s, run).submitters.Keys == s.submitters.Keys
    ensures forall i :: 0 <= i < n ==> Exec(s, run).submitters[i] == Insert(i)
    ensures forall i :: i in s.submitters && n <= i ==> Exec(s, run).submitters[i] == s.submitters[i]
    decreases n
  {
    hide IsRun, Exec, Next, Enabled;
    if n == 0 {
      run := Nothing(s);
    } else {
      run := SubmitReachesInsert(s, n - 1, w, n - 1);
      var more := AllReachInsert(Exec(s, run), n - 1, w);
      run := Append(s, run, more);
    }
  }

  /** Then they insert, one after the other, each a new worker. */
  lemma {:induction false} AllInsert(s: State, n: nat, base: Wid) returns (run: seq<Action>)
    requires s.ager == Resting && s.pool <= s.workers.Keys
    requires forall w :: w in s.workers ==> w < base
    requires forall i :: 0 <= i < n ==> i in s.submitters && s.submitters[i].Insert?
    ensures IsRun(s, run) && |Exec(s, run).pool| == |s.pool| + n
    decreases n
  {
    if n == 0 {
      run := [];
    } else {
      var a := Submit(n - 1, Some(base), 0);
      Single(s, a);
      var more := AllInsert(Next(s, a), n - 1, base + 1);
      run := Append(s, [a], more);
    }
  }

  /** The bound is reached: for every minimum below the maximum and any number `k` of submitters there is a
      run after which the worker set has exactly maxThreads + k - 1 members. */
  lemma BoundIsReached(lo: nat, hi: nat, k: nat)
    requires 1 <= lo < hi && k >= 1
    ensures |Wids(k)| == k
    ensures exists run ::
      IsRun(Fresh(lo, hi, Wids(k)), run) && |Exec(Fresh(lo, hi, Wids(k)), run).pool| == hi + k - 1
  {
    hide Next, Enabled, IsRun, Exec;
    var s0 := Fresh(lo, hi, Wids(k));
    var run := FirstQueued(lo, hi, Wids(k));
    var more := GrowsTo(Exec(s0, run), lo, hi - 1, hi, Wids(k));
    run := Append(s0, run, more);
    assert IsBegin(Exec(s0, run).pool, Some(0));
    more := AllReachInsert(Exec(s0, run), k, 0);
    run := Append(s0, run, more);
    more := AllInsert(Exec(s0, run), k, hi - 1);
    run := Append(s0, run, more);
  }

  // ---------------------------------------------------------------- the lower bound

  /** Until `Terminate` zeroes the minimum, ageing keeps it; strictly more while it is inside a removal. */
  ghost predicate Stocked(s: State, floor: nat) {
    && s.pool <= s.workers.Keys
    && (s.term.NotCalled? || s.term.ClearEnable? || s.term.Drain? || s.term.ZeroMin? ==>
          && s.minThreads == floor && floor <= |s.pool|
          && (s.ager.AgeBusy? || s.ager.AgeStamp? || s.ager.AgeTell? || s.ager.AgeErase? ==> floor < |s.pool|))
  }

  lemma AgeKeepsStocked(s: State, hint: Option<Wid>, floor: nat)
    requires Stocked(s, floor) && CanAge(s, hint)
    ensures Stocked(AgeNext(s, hint), floor)
  {
    if s.ager.AgeErase? {
      var w := s.ager.wid;
      if w !in s.pool {
        assert s.pool - {w} == s.pool;
      } else {
        assert |s.pool - {w}| == |s.pool| - 1;
      }
    }
  }

  lemma TerminateKeepsStocked(s: State, hint: Option<Wid>, floor: nat)
    requires Stocked(s, floor) && CanTerminate(s, hint)
    ensures Stocked(TerminateNext(s, hint), floor)
  {
  }

  lemma SubmitKeepsStocked(s: State, i: Sid, hint: Option<Wid>, now: int, floor: nat)
    requires Stocked(s, floor) && CanSubmit(s, i, hint)
    ensures Stocked(SubmitNext(s, i, hint, now), floor)
  {
    var s' := SubmitNext(s, i, hint, now);
    SubmitPool(s, i, hint, now);
    SubmitLeaves(s, i, hint, now);
    Within(s.pool, s'.pool);
  }

  lemma SubmitLeaves(s: State, i: Sid, hint: Option<Wid>, now: int)
    requires CanSubmit(s, i, hint)
    ensures
      var s' := SubmitNext(s, i, hint, now);
      s'.term == s.term && s'.minThreads == s.minThreads && s'.ager == s.ager
  {
  }

  lemma StepKeepsStocked(s: State, a: Action, floor: nat)
    requires Stocked(s, floor) && Enabled(s, a)
    ensures Stocked(Next(s, a), floor)
  {
    match a
    case Submit(i, hint, now) => SubmitKeepsStocked(s, i, hint, now, floor);
    case Age(hint) => AgeKeepsStocked(s, hint, floor);
    case Terminate(hint) => TerminateKeepsStocked(s, hint, floor);
    case _ =>
  }

  lemma {:induction false} RunKeepsStocked(s: State, run: seq<Action>, floor: nat)
    requires Stocked(s, floor) && IsRun(s, run)
    ensures Stocked(Exec(s, run), floor)
    decreases |run|
  {
    if run != [] {
      StepKeepsStocked(s, run[0], floor);
      RunKeepsStocked(Next(s, run[0]), run[1..], floor);
    }
  }

  /** Lower bound, over every run from `Init` in which `Terminate` has not yet zeroed the minimum: ageing
      never takes the worker set below the minimum. */
  lemma PoolNeverTooSmall(lo: nat, hi: nat, sids: set<Sid>, run: seq<Action>)
    requires InitPool(lo, hi, sids).Some? && IsRun(InitPool(lo, hi, sids).value, run)
    ensures
      var s := Exec(InitPool(lo, hi, sids).value, run);
      s.term.NotCalled? || s.term.ClearEnable? || s.term.Drain? || s.term.ZeroMin? ==> lo <= |s.pool|
  {
    RunKeepsStocked(Fresh(lo, hi, sids), run, lo);
  }

  // ---------------------------------------------------------------- the pool lock

  /** An ageing pass is under way through the whole run. */
  ghost predicate Ageing(s: State, run: seq<Action>)
    requires IsRun(s, run)
    decreases |run|
  {
    s.ager != Resting && (run == [] || Ageing(Next(s, run[0]), run[1..]))
  }

  lemma LockStep(s: State, a: Action)
    requires Enabled(s, a) && s.ager != Resting
    ensures Next(s, a).pool <= s.pool && Next(s, a).workers.Keys == s.workers.Keys
  {
    match a
    case Submit(i, hint, now) => SubmitLocked(s, i, hint, now);
    case Age(hint) => AgeShrinks(s, hint);
    case Terminate(hint) => TerminateShrinks(s, hint);
    case _ =>
  }

  lemma SubmitLocked(s: State, i: Sid, hint: Option<Wid>, now: int)
    requires CanSubmit(s, i, hint) && s.ager != Resting
    ensures SubmitNext(s, i, hint, now).pool == s.pool
    ensures SubmitNext(s, i, hint, now).workers.Keys == s.workers.Keys
  {
  }

  lemma AgeShrinks(s: State, hint: Option<Wid>)
    requires CanAge(s, hint)
    ensures AgeNext(s, hint).pool <= s.pool && AgeNext(s, hint).workers.Keys == s.workers.Keys
  {
  }

  /** While an ageing pass is under way, its joins included, no worker is made: whatever the other threads do, the
      worker set only shrinks. */
  lemma {:induction false} NobodyEntersWhileAgeing(s: State, run: seq<Action>)
    requires IsRun(s, run) && Ageing(s, run)
    ensures Exec(s, run).pool <= s.pool && Exec(s, run).workers.Keys == s.workers.Keys
    decreases |run|
  {
    hide Next, Enabled;
    if run != [] {
      LockStep(s, run[0]);
      NobodyEntersWhileAgeing(Next(s, run[0]), run[1..]);
    }
  }
}
