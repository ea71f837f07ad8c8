/** Over every run, every task is in exactly one place and is handled at most once, in order.  */
module PoolConservation {
  import opened Options
  import opened PoolModel

  // ---------------------------------------------------------------- reading the log

  /** The events of the log that concern task `t`. */
  function Hist(log: seq<Event>, t: Task): seq<Event> {
    if log == [] then []
    else
      var h := Hist(log[..|log| - 1], t);
      if log[|log| - 1].task == t then h + [log[|log| - 1]] else h
  }

  /** The tasks pushed so far, in order. */
  function Pushes(log: seq<Event>): seq<Task> {
    if log == [] then []
    else
      var p := Pushes(log[..|log| - 1]);
      if log[|log| - 1].Pushed? then p + [log[|log| - 1].task] else p
  }

  /** The tasks popped so far, in order. */
  function Pops(log: seq<Event>): seq<Task> {
    if log == [] then []
    else
      var p := Pops(log[..|log| - 1]);
      if log[|log| - 1].Popped? then p + [log[|log| - 1].task] else p
  }

  lemma LogAppend(log: seq<Event>, e: Event)
    ensures forall t :: Hist(log + [e], t) == if e.task == t then Hist(log, t) + [e] else Hist(log, t)
    ensures Pushes(log + [e]) == if e.Pushed? then Pushes(log) + [e.task] else Pushes(log)
    ensures Pops(log + [e]) == if e.Popped? then Pops(log) + [e.task] else Pops(log)
  {
    assert (log + [e])[..|log + [e]| - 1] == log;
  }

  // ---------------------------------------------------------------- the invariant

  /** The task in a worker's `pTask`. */
  function Held(pc: WorkerPc): Option<Task> {
    match pc
    case MarkBusy(t) => Some(t)
    case TestQuick(t) => Some(t)
    case RunTask(t) => Some(t)
    case DeleteTask(t) => Some(t)
    case _ => None
  }

  /** The task a submitter has not yet pushed or rejected. */
  function Carried(pc: SubmitPc): Option<Task> {
    match pc
    case Outside => None
    case TestEnable(arg) => arg
    case TestNull(arg) => arg
    case Notify => None
    case _ => Some(pc.task)
  }

  /** A task that was pushed once and popped once, by `w`. */
  predicate Taken(h: seq<Event>, w: Wid, t: Task) {
    h == [Pushed(t), Popped(w, t)]
  }

  /** ... and then run once by the same worker, or passed over because quick-free was set. */
  predicate Finished(h: seq<Event>, w: Wid, t: Task, quick: bool) {
    || h == [Pushed(t), Popped(w, t), Ran(w, t)]
    || (quick && h == [Pushed(t), Popped(w, t), Skipped(w, t)])
  }

  /** ... and then deleted once by the same worker. */
  predicate Disposed(h: seq<Event>, w: Wid, t: Task, quick: bool) {
    |h| == 4 && h[3] == Deleted(w, t) && Finished(h[..3], w, t, quick)
  }

  predicate HeldInv(s: State, w: Wid)
    requires w in s.workers
  {
    match s.workers[w].pc
    case DeleteTask(t) => Finished(Hist(s.log, t), w, t, s.quickFree)
    case pc => Held(pc).Some? ==> Taken(Hist(s.log, Held(pc).value), w, Held(pc).value)
  }

  ghost predicate HeldBySome(s: State, t: Task) {
    exists w :: w in s.workers && Held(s.workers[w].pc) == Some(t)
  }

  ghost predicate DisposedBySome(s: State, t: Task) {
    exists w :: Disposed(Hist(s.log, t), w, t, s.quickFree)
  }

  /** Everything that can be true of a task's history. */
  ghost predicate Placed(s: State, t: Task) {
    || Hist(s.log, t) == []
    || Hist(s.log, t) == [Rejected(t)]
    || t in s.tasks
    || HeldBySome(s, t)
    || DisposedBySome(s, t)
  }

  predicate NoDup<T(==)>(q: seq<T>) {
    forall i, j :: 0 <= i < j < |q| ==> q[i] != q[j]
  }

  ghost predicate QueueInv(s: State) {
    && Pushes(s.log) == Pops(s.log) + s.tasks
    && NoDup(s.tasks)
    && forall t :: t in s.tasks ==> Hist(s.log, t) == [Pushed(t)]
  }

  ghost predicate CarryInv(s: State) {
    && (forall i :: i in s.submitters && Carried(s.submitters[i]).Some? ==>
          var t := Carried(s.submitters[i]).value;
          t in s.used && Hist(s.log, t) == [])
    && (forall i, j :: i in s.submitters && j in s.submitters && i != j && Carried(s.submitters[i]).Some? ==>
          Carried(s.submitters[i]) != Carried(s.submitters[j]))
  }

  /** The invariant of every run. */
  ghost predicate Conserved(s: State) {
    && QueueInv(s)
    && CarryInv(s)
    && (forall w :: w in s.workers ==> HeldInv(s, w))
    && (forall t :: Placed(s, t))
    && (forall t :: t !in s.used ==> Hist(s.log, t) == [])
    && (!s.term.NotCalled? || !s.quickFree)
  }

  // ---------------------------------------------------------------- steps keep it

  /** A step that writes no event and leaves every task where it is. */
  ghost predicate Quiet(s: State, s': State) {
    && s'.log == s.log && s'.tasks == s.tasks && s'.used == s.used
    && (s.quickFree ==> s'.quickFree)
    && (s'.term.NotCalled? ==> s.term.NotCalled? && s'.quickFree == s.quickFree)
    && s.workers.Keys <= s'.workers.Keys
    && (forall w :: w in s.workers ==> SamePlace(s.workers[w].pc, s'.workers[w].pc))
    && (forall w :: w in s'.workers && w !in s.workers ==> Held(s'.workers[w].pc) == None)
    && s'.submitters.Keys == s.submitters.Keys
    && (forall i :: i in s.submitters ==>
          Carried(s'.submitters[i]) == Carried(s.submitters[i]) || Carried(s'.submitters[i]) == None)
  }

  lemma QuietStep(s: State, s': State)
    requires Conserved(s) && Quiet(s, s')
    ensures Conserved(s')
  {
    forall t ensures Placed(s', t) {
      assert Placed(s, t);
      if HeldBySome(s, t) {
        var w :| w in s.workers && Held(s.workers[w].pc) == Some(t);
        assert w in s'.workers && Held(s'.workers[w].pc) == Some(t);
      } else if DisposedBySome(s, t) {
        var w :| Disposed(Hist(s.log, t), w, t, s.quickFree);
        assert Disposed(Hist(s'.log, t), w, t, s'.quickFree);
      }
    }
    forall w | w in s'.workers ensures HeldInv(s', w) {
      if w in s.workers {
        assert HeldInv(s, w);
      }
    }
  }

  /** The held task and whether it has been finished are the same at both places. */
  predicate SamePlace(a: WorkerPc, b: WorkerPc) {
    Held(a) == Held(b) && a.DeleteTask? == b.DeleteTask?
  }

  lemma QuietWorker(s: State, w: Wid, me: Worker)
    requires Conserved(s) && w in s.workers && SamePlace(s.workers[w].pc, me.pc)
    ensures Conserved(s.(workers := s.workers[w := me]))
  {
    QuietStep(s, s.(workers := s.workers[w := me]));
  }

  lemma QuietSubmit(s: State, i: Sid, pc: SubmitPc)
    requires Conserved(s) && i in s.submitters
    requires Carried(pc) == Carried(s.submitters[i]) || Carried(pc) == None
    ensures Conserved(SetSub(s, i, pc))
  {
    QuietStep(s, SetSub(s, i, pc));
  }

  /** One event about `t`, written by worker `w`, which holds the task before, after, or both. */
  lemma EventStep(s: State, s': State, w: Wid, e: Event)
    requires Conserved(s)
    requires w in s.workers && w in s'.workers && Held(s.workers[w].pc) == Some(e.task)
    requires e.Ran? || e.Skipped? || e.Deleted?
    requires e.wid == w
    requires s' == SetPc(s, w, s'.workers[w].pc).(log := s.log + [e])
    requires e.Ran? || e.Skipped? ==> !s.workers[w].pc.DeleteTask? && s'.workers[w].pc == DeleteTask(e.task)
    requires e.Skipped? ==> s.quickFree
    requires e.Deleted? ==> s.workers[w].pc.DeleteTask? && Held(s'.workers[w].pc) == None
    ensures Conserved(s')
  {
    var t := e.task;
    hide Hist, Pushes, Pops;
    LogAppend(s.log, e);
    assert HeldInv(s, w);
    forall v | v in s'.workers ensures HeldInv(s', v) {
      if v != w {
        assert HeldInv(s, v);
      }
    }
    if e.Deleted? {
      var h := Hist(s.log, t);
      assert (h + [e])[..3] == h;
      assert Disposed(Hist(s'.log, t), w, t, s'.quickFree);
    } else {
      assert Held(s'.workers[w].pc) == Some(t);
    }
    forall u | u != t ensures Placed(s', u) {
      PlacedKept(s, s', w, u);
    }
  }

  /** A task whose history, holder and place in the queue stay keeps its place. */
  lemma PlacedKept(s: State, s': State, w: Wid, u: Task)
    requires Placed(s, u) && Hist(s'.log, u) == Hist(s.log, u) && s'.quickFree == s.quickFree
    requires u in s.tasks ==> u in s'.tasks
    requires w in s.workers && w in s'.workers && s'.workers == s.workers[w := s'.workers[w]]
    requires Held(s.workers[w].pc) != Some(u)
    ensures Placed(s', u)
  {
    hide Hist, Disposed;
    if HeldBySome(s, u) {
      var v :| v in s.workers && Held(s.workers[v].pc) == Some(u);
      assert Held(s'.workers[v].pc) == Some(u);
    } else if DisposedBySome(s, u) {
      var v :| Disposed(Hist(s.log, u), v, u, s.quickFree);
      assert Disposed(Hist(s'.log, u), v, u, s'.quickFree);
    }
  }

  lemma TakeStep(s: State, s': State, w: Wid)
    requires Conserved(s) && w in s.workers && s.workers[w].pc == Take && s.tasks != []
    requires s' == SetPc(s, w, MarkBusy(s.tasks[0])).(
                   tasks := s.tasks[1..], log := s.log + [Popped(w, s.tasks[0])])
    ensures Conserved(s')
  {
    hide Hist, Pushes, Pops, QueueInv, HeldInv;
    var t := s.tasks[0];
    var e := Popped(w, t);
    LogAppend(s.log, e);
    TakeQueue(s, s', t);
    forall v | v in s'.workers ensures HeldInv(s', v) {
      TakeHeld(s, s', w, v);
    }
    assert Held(s'.workers[w].pc) == Some(t);
    forall u | u != t ensures Placed(s', u) {
      PlacedKept(s, s', w, u);
    }
  }

  lemma TakeQueue(s: State, s': State, t: Task)
    requires QueueInv(s) && s.tasks != [] && t == s.tasks[0] && s'.tasks == s.tasks[1..]
    requires Pushes(s'.log) == Pushes(s.log) && Pops(s'.log) == Pops(s.log) + [t]
    requires forall u :: u != t ==> Hist(s'.log, u) == Hist(s.log, u)
    ensures QueueInv(s') && s.tasks == [t] + s'.tasks && Hist(s.log, t) == [Pushed(t)]
  {
    hide Hist, Pushes, Pops;
    assert Pops(s.log) + s.tasks == Pops(s.log) + [t] + s.tasks[1..];
  }

  lemma TakeHeld(s: State, s': State, w: Wid, v: Wid)
    requires Conserved(s) && w in s.workers && v in s'.workers && s.tasks != []
    requires s'.workers == s.workers[w := s.workers[w].(pc := MarkBusy(s.tasks[0]))] && s'.quickFree == s.quickFree
    requires forall u ::
      Hist(s'.log, u) == if u == s.tasks[0] then Hist(s.log, u) + [Popped(w, u)] else Hist(s.log, u)
    ensures HeldInv(s', v)
  {
    hide Hist, Pushes, Pops;
    assert v in s.workers && HeldInv(s, v);
    assert Hist(s.log, s.tasks[0]) == [Pushed(s.tasks[0])];
  }

  lemma WorkKeepsConserved(s: State, w: Wid, now: int)
    requires Conserved(s) && CanWork(s, w)
    ensures Conserved(WorkNext(s, w, now))
  {
    var s', me := WorkNext(s, w, now), s.workers[w];
    if me.pc == Take && s.tasks != [] {
      TakeStep(s, s', w);
    } else if me.pc.TestQuick? && s.quickFree {
      EventStep(s, s', w, Skipped(w, me.pc.task));
    } else if me.pc.RunTask? {
      EventStep(s, s', w, Ran(w, me.pc.task));
    } else if me.pc.DeleteTask? {
      EventStep(s, s', w, Deleted(w, me.pc.task));
    } else {
      QuietWorkShape(s, w, now);
      QuietWorker(s, w, s'.workers[w]);
    }
  }

  /** The worker steps that write no event change only that worker, and not the task it holds. */
  lemma QuietWorkShape(s: State, w: Wid, now: int)
    requires CanWork(s, w)
    requires s.workers[w].pc == Take ==> s.tasks == []
    requires s.workers[w].pc.TestQuick? ==> !s.quickFree
    requires !s.workers[w].pc.RunTask? && !s.workers[w].pc.DeleteTask?
    ensures WorkNext(s, w, now) == s.(workers := s.workers[w := WorkNext(s, w, now).workers[w]])
    ensures SamePlace(s.workers[w].pc, WorkNext(s, w, now).workers[w].pc)
  {
  }

  /** A submitter writes the first event of the task it carries. */
  lemma FirstEvent(s: State, s': State, i: Sid, e: Event)
    requires Conserved(s) && i in s.submitters && Carried(s.submitters[i]) == Some(e.task)
    requires e.Rejected? || e.Pushed?
    requires i in s'.submitters && Carried(s'.submitters[i]) == None
    requires s' == SetSub(s, i, s'.submitters[i]).(log := s.log + [e], tasks := s'.tasks)
    requires s'.tasks == if e.Pushed? then s.tasks + [e.task] else s.tasks
    ensures Conserved(s')
  {
    hide Hist, Pushes, Pops;
    LogAppend(s.log, e);
    var t := e.task;
    assert Pops(s.log) + s.tasks + [t] == Pops(s.log) + (s.tasks + [t]);
    forall v | v in s'.workers ensures HeldInv(s', v) {
      assert HeldInv(s, v);
    }
    forall u | u != t ensures Placed(s', u) {
      assert Placed(s, u);
      if HeldBySome(s, u) {
        var v :| v in s.workers && Held(s.workers[v].pc) == Some(u);
        assert Held(s'.workers[v].pc) == Some(u);
      } else if DisposedBySome(s, u) {
        var v :| Disposed(Hist(s.log, u), v, u, s.quickFree);
        assert Disposed(Hist(s'.log, u), v, u, s'.quickFree);
      }
    }
  }

  lemma SubmitKeepsConserved(s: State, i: Sid, hint: Option<Wid>, now: int)
    requires Conserved(s) && CanSubmit(s, i, hint)
    ensures Conserved(SubmitNext(s, i, hint, now))
  {
    hide Hist, Pushes, Pops, Conserved;
    var s', pc := SubmitNext(s, i, hint, now), s.submitters[i];
    if pc.TestEnable? && !s.enable && pc.arg.Some? {
      FirstEvent(s, s', i, Rejected(pc.arg.value));
    } else if pc.Push? {
      FirstEvent(s, s', i, Pushed(pc.task));
    } else if pc.Insert? || pc.Create? || pc.MarkRun? {
      StartKeepsConserved(s, i, hint, now);
    } else {
      QuietSubmit(s, i, s'.submitters[i]);
    }
  }

  /** The part of `Execute` that makes a worker. */
  lemma StartKeepsConserved(s: State, i: Sid, hint: Option<Wid>, now: int)
    requires Conserved(s) && CanSubmit(s, i, hint)
    requires s.submitters[i].Insert? || s.submitters[i].Create? || s.submitters[i].MarkRun?
    ensures Conserved(SubmitNext(s, i, hint, now))
  {
    hide Hist, Pushes, Pops, Conserved;
    var s', pc := SubmitNext(s, i, hint, now), s.submitters[i];
    if pc.Insert? && hint == None {
      FirstEvent(s, s', i, Rejected(pc.task));
    } else {
      QuietStep(s, s');
    }
  }

  lemma CallKeepsConserved(s: State, i: Sid, arg: Option<Task>)
    requires Conserved(s) && CanCall(s, i, arg)
    ensures Conserved(CallNext(s, i, arg))
  {
    var s' := CallNext(s, i, arg);
    forall w | w in s'.workers ensures HeldInv(s', w) {
      assert HeldInv(s, w);
    }
    forall t ensures Placed(s', t) {
      assert Placed(s, t);
      if HeldBySome(s, t) {
        var w :| w in s.workers && Held(s.workers[w].pc) == Some(t);
        assert w in s'.workers;
      } else if DisposedBySome(s, t) {
        var v :| Disposed(Hist(s.log, t), v, t, s.quickFree);
        assert Disposed(Hist(s'.log, t), v, t, s'.quickFree);
      }
    }
  }

  lemma AgeIsQuiet(s: State, hint: Option<Wid>)
    requires CanAge(s, hint)
    ensures Quiet(s, AgeNext(s, hint))
  {
  }

  lemma AgeKeepsConserved(s: State, hint: Option<Wid>)
    requires Conserved(s) && CanAge(s, hint)
    ensures Conserved(AgeNext(s, hint))
  {
    hide Conserved, Quiet;
    AgeIsQuiet(s, hint);
    QuietStep(s, AgeNext(s, hint));
  }

  lemma TerminateIsQuiet(s: State, hint: Option<Wid>)
    requires CanTerminate(s, hint)
    ensures Quiet(s, TerminateNext(s, hint))
  {
  }

  lemma TerminateKeepsConserved(s: State, hint: Option<Wid>)
    requires Conserved(s) && CanTerminate(s, hint)
    ensures Conserved(TerminateNext(s, hint))
  {
    hide Conserved, Quiet;
    TerminateIsQuiet(s, hint);
    QuietStep(s, TerminateNext(s, hint));
  }

  /** Every step of every thread keeps the invariant. */
  lemma StepKeepsConserved(s: State, a: Action)
    requires Conserved(s) && Enabled(s, a)
    ensures Conserved(Next(s, a))
  {
    match a
    case Call(i, arg) => CallKeepsConserved(s, i, arg);
    case Submit(i, hint, now) => SubmitKeepsConserved(s, i, hint, now);
    case Work(w, now) => WorkKeepsConserved(s, w, now);
    case StartAgeing(age, hint) => QuietStep(s, StartAgeingNext(s, age, hint));
    case Age(hint) => AgeKeepsConserved(s, hint);
    case StartTerminate(quick) => QuietStep(s, Next(s, a));
    case Terminate(hint) => TerminateKeepsConserved(s, hint);
  }

  lemma {:induction false} RunKeepsConserved(s: State, run: seq<Action>)
    requires Conserved(s) && IsRun(s, run)
    ensures Conserved(Exec(s, run))
    decreases |run|
  {
    if run != [] {
      StepKeepsConserved(s, run[0]);
      RunKeepsConserved(Next(s, run[0]), run[1..]);
    }
  }

  lemma InitConserved(lo: nat, hi: nat, sids: set<Sid>)
    ensures Conserved(Fresh(lo, hi, sids))
  {
    var s := Fresh(lo, hi, sids);
    forall t ensures Placed(s, t) {
      assert Hist(s.log, t) == [];
    }
  }

  // ---------------------------------------------------------------- what it means

  /** Whole-run conservation: after any run from `Init`, the pushed tasks are the popped ones followed by
      the queue, and each task ever pushed is in exactly one of three places, its history saying exactly
      what was done with it: still queued and untouched; held by exactly one worker; or deleted once by
      the worker that popped it, after being run once by that worker unless quick-free was set.  A
      rejected task has no other event. */
  lemma TasksConserved(lo: nat, hi: nat, sids: set<Sid>, run: seq<Action>, t: Task)
    requires InitPool(lo, hi, sids).Some? && IsRun(InitPool(lo, hi, sids).value, run)
    ensures
      var s := Exec(InitPool(lo, hi, sids).value, run);
      var h := Hist(s.log, t);
      && Pushes(s.log) == Pops(s.log) + s.tasks
      && (Rejected(t) in h ==> h == [Rejected(t)])
      && (t in s.tasks <==> h == [Pushed(t)])
      && (HeldBySome(s, t) <==>
            Pushed(t) in h && t !in s.tasks && !(exists w :: Deleted(w, t) in h))
      && (forall w :: w in s.workers && Held(s.workers[w].pc) == Some(t) ==> HeldInv(s, w))
      && (forall v, w :: v in s.workers && w in s.workers && v != w && Held(s.workers[v].pc) == Some(t)
            ==> Held(s.workers[w].pc) != Some(t))
      && ((exists w :: Deleted(w, t) in h) <==> DisposedBySome(s, t))
  {
    var s0 := Fresh(lo, hi, sids);
    InitConserved(lo, hi, sids);
    RunKeepsConserved(s0, run);
    var s := Exec(s0, run);
    WhereTaskIs(s, t);
  }

  lemma WhereTaskIs(s: State, t: Task)
    requires Conserved(s)
    ensures
      var h := Hist(s.log, t);
      && (Rejected(t) in h ==> h == [Rejected(t)])
      && (t in s.tasks <==> h == [Pushed(t)])
      && (HeldBySome(s, t) <==>
            Pushed(t) in h && t !in s.tasks && !(exists w :: Deleted(w, t) in h))
      && (forall w :: w in s.workers && Held(s.workers[w].pc) == Some(t) ==> HeldInv(s, w))
      && (forall v, w :: v in s.workers && w in s.workers && v != w && Held(s.workers[v].pc) == Some(t)
            ==> Held(s.workers[w].pc) != Some(t))
      && ((exists w :: Deleted(w, t) in h) <==> DisposedBySome(s, t))
  {
    hide Hist, Pushes, Pops;
    var h := Hist(s.log, t);
    assert Placed(s, t);
    forall w | w in s.workers && Held(s.workers[w].pc) == Some(t)
      ensures 2 <= |h| <= 3 && h[0] == Pushed(t) && h[1] == Popped(w, t)
      ensures |h| == 3 ==> h[2] == Ran(w, t) || h[2] == Skipped(w, t)
    {
      assert HeldInv(s, w);
    }
    if DisposedBySome(s, t) {
      var w :| Disposed(h, w, t, s.quickFree);
      assert h[0] == h[..3][0] && h[1] == h[..3][1] && h[2] == h[..3][2];
      assert h[3] == Deleted(w, t);
      assert Pushed(t) in h && Deleted(w, t) in h;
    }
  }
}
