/** The thread pool of netpool/src/CThreadPool.cpp as a transition system.

    Every thread that touches the pool has a program counter: the workers (`CWorker::Run` inside
    `CThread::StaticThreadFunc`), any number of submitters inside `Execute`, one ageing thread inside
    `aged_worker` and one thread inside `Terminate`.  A step is one locked section or one access to a
    shared field, so every interleaving of the source is a sequence of actions here.

    The POSIX branches of the source are the ones modelled.  A condition-variable wait is a step that
    may always return, so broadcasting has no effect of its own.  */
module PoolModel {
  import opened FiniteSets
  import opened Options

  type Task = int    // a Runnable's address
  type Wid = int     // the address of a CWorker; std::set<CWorker *> iterates in address order
  type Sid = int

  /** `m_workerStatus`; the source never assigns WORKER_STOPPED. */
  datatype Status = Initial | Started | Stopping

  /** Where a worker's thread is.  The four middle values carry the task held in `pTask`. */
  datatype WorkerPc =
    | NotCreated                    // `new CWorker` done, pthread_create not yet
    | InitHook
    | MarkStarted
    | LoopTest
    | Take
    | Wait
    | MarkBusy(task: Task)
    | TestQuick(task: Task)
    | RunTask(task: Task)
    | DeleteTask(task: Task)
    | Stamp
    | ClearBusy
    | Beat
    | ExitHook
    | ClearRun                      // SetExitFlag
    | Gone

  /** `alive` is `CThread::m_bRun`, the flag `Join` polls; `stamp` is `m_update_time`. */
  datatype Worker = Worker(pc: WorkerPc, status: Status, busy: bool, alive: bool, stamp: int)

  /** Where a submitter is inside `Execute`. */
  datatype SubmitPc =
    | Outside
    | TestEnable(arg: Option<Task>)
    | TestNull(arg: Option<Task>)
    | ReadQueue(task: Task)
    | ReadPool(task: Task, queued: nat)
    | BeginScan(task: Task, queued: nat, threads: nat)
    | ScanBusy(task: Task, queued: nat, threads: nat, itr: Option<Wid>)
    | Compare(task: Task, threads: nat)
    | Insert(task: Task)
    | Create(task: Task, wid: Wid)
    | MarkRun(task: Task, wid: Wid)
    | Push(task: Task)
    | Notify

  /** Where the ageing thread is inside `aged_worker`; outside `Resting` it holds the pool lock. */
  datatype AgePc =
    | Resting
    | AgeLoop(age: int, itr: Option<Wid>)
    | AgeBusy(age: int, wid: Wid, itr: Option<Wid>)
    | AgeStamp(age: int, wid: Wid, itr: Option<Wid>)
    | AgeTell(age: int, wid: Wid, itr: Option<Wid>)
    | AgeErase(age: int, wid: Wid, itr: Option<Wid>)
    | AgeJoin

  /** Where the terminating thread is inside `Terminate` and `TellAllWorkerExit`. */
  datatype TermPc =
    | NotCalled
    | ClearEnable
    | Drain
    | ZeroMin
    | ZeroMax
    | Begin
    | TellLoop(itr: Option<Wid>)
    | Tell(wid: Wid, itr: Option<Wid>)
    | Erase(wid: Wid, itr: Option<Wid>)
    | JoinAll
    | Returned

  /** What has happened to the tasks, in order. */
  datatype Event =
    | Rejected(task: Task)
    | Pushed(task: Task)
    | Popped(wid: Wid, task: Task)
    | Ran(wid: Wid, task: Task)
    | Skipped(wid: Wid, task: Task)
    | Deleted(wid: Wid, task: Task)

  /** The shared fields, the threads' positions, and three history variables: the event log, the tasks
      ever passed to `Execute`, and the workers whose object was deleted before their thread ended. */
  datatype State = State(
    tasks: seq<Task>,
    pool: set<Wid>,
    minThreads: nat,
    maxThreads: nat,
    quickFree: bool,
    enable: bool,
    workers: map<Wid, Worker>,
    submitters: map<Sid, SubmitPc>,
    ager: AgePc,
    ageTrash: set<Wid>,
    term: TermPc,
    termTrash: set<Wid>,
    log: seq<Event>,
    used: set<Task>,
    orphans: set<Wid>)

  /** One step of one thread.  `hint` names the set node an iterator moves to (None is `end()`), or the
      address `new` returns (None is a failed allocation); `now` is the clock. */
  datatype Action =
    | Call(sid: Sid, arg: Option<Task>)
    | Submit(sid: Sid, hint: Option<Wid>, now: int)
    | Work(wid: Wid, now: int)
    | StartAgeing(age: int, hint: Option<Wid>)
    | Age(hint: Option<Wid>)
    | StartTerminate(quick: bool)
    | Terminate(hint: Option<Wid>)

  // ---------------------------------------------------------------- std::set iterators

  /** `first` is `begin()` of the set. */
  ghost predicate IsBegin(pool: set<Wid>, first: Option<Wid>) {
    match first
    case None => pool == {}
    case Some(x) => x in pool && forall y :: y in pool ==> x <= y
  }

  /** `next` is where `itr++` moves from the node at `w`. */
  ghost predicate IsNext(pool: set<Wid>, w: Wid, next: Option<Wid>) {
    match next
    case None => forall y :: y in pool ==> y <= w
    case Some(x) => x in pool && w < x && forall y :: y in pool && w < y ==> x <= y
  }

  // ---------------------------------------------------------------- workers

  function SetPc(s: State, w: Wid, pc: WorkerPc): State
    requires w in s.workers
  {
    s.(workers := s.workers[w := s.workers[w].(pc := pc)])
  }

  ghost predicate CanWork(s: State, w: Wid) {
    w in s.workers && s.workers[w].pc != NotCreated && s.workers[w].pc != Gone
  }

  /** What a step of `CWorker::Run`, or of the thread function around it, does to its own worker. */
  function WorkerNext(me: Worker, tasks: seq<Task>, quickFree: bool, now: int): Worker {
    match me.pc
    case NotCreated => me
    case InitHook => me.(pc := MarkStarted)
    case MarkStarted => me.(pc := LoopTest, status := Started)
    case LoopTest => me.(pc := if me.status == Started then Take else ExitHook)
    case Take => me.(pc := if tasks == [] then Wait else MarkBusy(tasks[0]))
    case Wait => me.(pc := Beat)
    case MarkBusy(t) => me.(pc := TestQuick(t), busy := true)
    case TestQuick(t) => me.(pc := if quickFree then DeleteTask(t) else RunTask(t))
    case RunTask(t) => me.(pc := DeleteTask(t))
    case DeleteTask(t) => me.(pc := Stamp)
    case Stamp => me.(pc := ClearBusy, stamp := now)
    case ClearBusy => me.(pc := Beat, busy := false)
    case Beat => me.(pc := LoopTest)
    case ExitHook => me.(pc := ClearRun)
    case ClearRun => me.(pc := Gone, alive := false)
    case Gone => me
  }

  /** What the step does to a task, if anything: pop, pass over, run or delete it. */
  function WorkerEvent(w: Wid, pc: WorkerPc, tasks: seq<Task>, quickFree: bool): Option<Event> {
    match pc
    case Take => if tasks == [] then None else Some(Popped(w, tasks[0]))
    case TestQuick(t) => if quickFree then Some(Skipped(w, t)) else None
    case RunTask(t) => Some(Ran(w, t))
    case DeleteTask(t) => Some(Deleted(w, t))
    case _ => None
  }

  /** One step of worker `w`. */
  function WorkNext(s: State, w: Wid, now: int): State
    requires w in s.workers
  {
    var me := s.workers[w];
    var e := WorkerEvent(w, me.pc, s.tasks, s.quickFree);
    s.(workers := s.workers[w := WorkerNext(me, s.tasks, s.quickFree, now)],
       tasks := if me.pc == Take && s.tasks != [] then s.tasks[1..] else s.tasks,
       log := if e == None then s.log else s.log + [e.value])
  }

  // ---------------------------------------------------------------- submitters

  function SetSub(s: State, i: Sid, pc: SubmitPc): State {
    s.(submitters := s.submitters[i := pc])
  }

  /** Leaving `Execute` with `false`. */
  function Reject(s: State, i: Sid, arg: Option<Task>): State {
    var r := SetSub(s, i, Outside);
    match arg
    case None => r
    case Some(t) => r.(log := s.log + [Rejected(t)])
  }

  /** Tasks are distinct: no Runnable is passed to `Execute` twice. */
  ghost predicate CanCall(s: State, i: Sid, arg: Option<Task>) {
    && i in s.submitters && s.submitters[i] == Outside
    && (arg.Some? ==> arg.value !in s.used)
  }

  function CallNext(s: State, i: Sid, arg: Option<Task>): State {
    SetSub(s, i, TestEnable(arg)).(used := if arg.Some? then s.used + {arg.value} else s.used)
  }

  ghost predicate CanSubmit(s: State, i: Sid, hint: Option<Wid>) {
    && i in s.submitters
    && match s.submitters[i]
       case Outside => false
       case BeginScan(_, _, _) => IsBegin(s.pool, hint)
       case ScanBusy(_, _, _, Some(w)) => w in s.workers && IsNext(s.pool, w, hint)
       // The insertion is inside the pool lock, which the ageing thread holds while it works.
       case Insert(_) => s.ager == Resting && (hint.Some? ==> hint.value !in s.workers)
       case Create(_, w) => w in s.workers && s.workers[w].pc == NotCreated
       case MarkRun(_, w) => w in s.workers
       case _ => true
  }

  /** One step of `Execute`. */
  ghost function SubmitNext(s: State, i: Sid, hint: Option<Wid>, now: int): State
    requires CanSubmit(s, i, hint)
  {
    match s.submitters[i]
    case TestEnable(arg) => if s.enable then SetSub(s, i, TestNull(arg)) else Reject(s, i, arg)
    case TestNull(arg) => if arg == None then Reject(s, i, arg) else SetSub(s, i, ReadQueue(arg.value))
    case ReadQueue(t) => SetSub(s, i, ReadPool(t, |s.tasks|))
    case ReadPool(t, queued) => SetSub(s, i, BeginScan(t, queued, |s.pool|))
    case BeginScan(t, queued, threads) => SetSub(s, i, ScanBusy(t, queued, threads, hint))
    case ScanBusy(t, queued, threads, itr) =>
      if itr == None then
        SetSub(s, i, Compare(t, threads))               // IsAllWorkerBusy returned true
      else if s.workers[itr.value].busy then
        SetSub(s, i, ScanBusy(t, queued, threads, hint))
      else                                              // ... or false
        SetSub(s, i, if queued > 0 then Compare(t, threads) else Push(t))
    case Compare(t, threads) => SetSub(s, i, if threads < s.maxThreads then Insert(t) else Push(t))
    case Insert(t) =>
      (match hint
       case None => Reject(s, i, Some(t))
       case Some(w) =>
         SetSub(s, i, Create(t, w)).(
         pool := s.pool + {w},
         workers := s.workers[w := Worker(NotCreated, Initial, false, false, now)]))
    case Create(t, w) => SetPc(SetSub(s, i, MarkRun(t, w)), w, InitHook)
    case MarkRun(t, w) =>
      SetSub(s, i, Push(t)).(workers := s.workers[w := s.workers[w].(alive := true)])
    case Push(t) => SetSub(s, i, Notify).(tasks := s.tasks + [t], log := s.log + [Pushed(t)])
    case Notify => SetSub(s, i, Outside)
  }

  // ---------------------------------------------------------------- ageing

  function TellExit(s: State, w: Wid): State
    requires w in s.workers
  {
    s.(workers := s.workers[w := s.workers[w].(status := Stopping)])
  }

  /** Deleting a worker object after `Join` returned for it. */
  function Freed(s: State, w: Wid): set<Wid>
    requires w in s.workers
  {
    if s.workers[w].pc == Gone then s.orphans else s.orphans + {w}
  }

  ghost predicate CanStartAgeing(s: State, hint: Option<Wid>) {
    s.ager == Resting && IsBegin(s.pool, hint)
  }

  function StartAgeingNext(s: State, age: int, hint: Option<Wid>): State {
    s.(ager := AgeLoop(age, hint), ageTrash := {})
  }

  /** `Join` returns once it has read `m_bRun` false. */
  ghost predicate CanJoin(s: State, trash: set<Wid>, hint: Option<Wid>) {
    IsBegin(trash, hint) && (hint.Some? ==> hint.value in s.workers && !s.workers[hint.value].alive)
  }

  ghost predicate CanAge(s: State, hint: Option<Wid>) {
    match s.ager
    case Resting => false
    case AgeLoop(_, Some(w)) => IsNext(s.pool, w, hint)
    case AgeLoop(_, None) => true
    case AgeJoin => CanJoin(s, s.ageTrash, hint)
    case _ => s.ager.wid in s.workers
  }

  /** One step of `aged_worker` and `Aged`. */
  ghost function AgeNext(s: State, hint: Option<Wid>): State
    requires CanAge(s, hint)
  {
    match s.ager
    case AgeLoop(age, itr) =>
      if itr == None || |s.pool| <= s.minThreads then s.(ager := AgeJoin)
      else s.(ager := AgeBusy(age, itr.value, hint))
    case AgeBusy(age, w, itr) =>
      s.(ager := if s.workers[w].busy then AgeLoop(age, itr) else AgeStamp(age, w, itr))
    case AgeStamp(age, w, itr) =>
      s.(ager := if s.workers[w].stamp <= age then AgeTell(age, w, itr) else AgeLoop(age, itr))
    case AgeTell(age, w, itr) => TellExit(s, w).(ager := AgeErase(age, w, itr))
    case AgeErase(age, w, itr) =>
      s.(ager := AgeLoop(age, itr), pool := s.pool - {w}, ageTrash := s.ageTrash + {w})
    case AgeJoin =>
      match hint
      case None => s.(ager := Resting)
      case Some(w) => s.(ageTrash := s.ageTrash - {w}, orphans := Freed(s, w))
  }

  // ---------------------------------------------------------------- termination

  ghost predicate CanTerminate(s: State, hint: Option<Wid>) {
    match s.term
    case NotCalled => false
    case Begin => IsBegin(s.pool, hint)
    case TellLoop(Some(w)) => IsNext(s.pool, w, hint)
    case Tell(w, _) => w in s.workers
    case Erase(w, _) => w in s.workers
    case JoinAll => CanJoin(s, s.termTrash, hint)
    case Returned => false
    case _ => true
  }

  /** One step of `Terminate` and `TellAllWorkerExit`, which take no lock. */
  ghost function TerminateNext(s: State, hint: Option<Wid>): State
    requires CanTerminate(s, hint)
  {
    match s.term
    case ClearEnable => s.(term := Drain, enable := false)
    case Drain => if s.tasks == [] then s.(term := ZeroMin) else s
    case ZeroMin => s.(term := ZeroMax, minThreads := 0)
    case ZeroMax => s.(term := Begin, maxThreads := 0)
    case Begin => s.(term := TellLoop(hint), termTrash := {})
    case TellLoop(itr) => if itr == None then s.(term := JoinAll) else s.(term := Tell(itr.value, hint))
    case Tell(w, itr) => TellExit(s, w).(term := Erase(w, itr))
    case Erase(w, itr) =>
      s.(term := TellLoop(itr), pool := s.pool - {w}, termTrash := s.termTrash + {w})
    case JoinAll =>
      match hint
      case None => s.(term := Returned)
      case Some(w) => s.(termTrash := s.termTrash - {w}, orphans := Freed(s, w))
  }

  // ---------------------------------------------------------------- runs

  ghost predicate Enabled(s: State, a: Action) {
    match a
    case Call(i, arg) => CanCall(s, i, arg)
    case Submit(i, hint, _) => CanSubmit(s, i, hint)
    case Work(w, _) => CanWork(s, w)
    case StartAgeing(_, hint) => CanStartAgeing(s, hint)
    case Age(hint) => CanAge(s, hint)
    case StartTerminate(_) => s.term == NotCalled
    case Terminate(hint) => CanTerminate(s, hint)
  }

  ghost function Next(s: State, a: Action): State
    requires Enabled(s, a)
  {
    match a
    case Call(i, arg) => CallNext(s, i, arg)
    case Submit(i, hint, now) => SubmitNext(s, i, hint, now)
    case Work(w, now) => WorkNext(s, w, now)
    case StartAgeing(age, hint) => StartAgeingNext(s, age, hint)
    case Age(hint) => AgeNext(s, hint)
    case StartTerminate(quick) => s.(term := ClearEnable, quickFree := quick)
    case Terminate(hint) => TerminateNext(s, hint)
  }

  /** `run` can be executed from `s`, each action enabled in the state the earlier ones lead to. */
  ghost predicate IsRun(s: State, run: seq<Action>)
    decreases |run|
  {
    run == [] || (Enabled(s, run[0]) && IsRun(Next(s, run[0]), run[1..]))
  }

  ghost function Exec(s: State, run: seq<Action>): State
    requires IsRun(s, run)
    decreases |run|
  {
    if run == [] then s else Exec(Next(s, run[0]), run[1..])
  }

  lemma {:induction false} Then(s: State, r1: seq<Action>, r2: seq<Action>)
    requires IsRun(s, r1) && IsRun(Exec(s, r1), r2)
    ensures IsRun(s, r1 + r2) && Exec(s, r1 + r2) == Exec(Exec(s, r1), r2)
    decreases |r1|
  {
    if r1 == [] {
      assert r1 + r2 == r2;
    } else {
      Then(Next(s, r1[0]), r1[1..], r2);
      assert (r1 + r2)[1..] == r1[1..] + r2;
    }
  }

  lemma Single(s: State, a: Action)
    requires Enabled(s, a)
    ensures IsRun(s, [a]) && Exec(s, [a]) == Next(s, a)
  {
    assert [a][1..] == [];
    assert Exec(Next(s, a), []) == Next(s, a);
  }

  lemma Nothing(s: State) returns (run: seq<Action>)
    ensures run == [] && IsRun(s, run) && Exec(s, run) == s
  {
    run := [];
  }

  lemma Add(s: State, run: seq<Action>, a: Action) returns (run': seq<Action>)
    requires IsRun(s, run) && Enabled(Exec(s, run), a)
    ensures run' == run + [a] && IsRun(s, run') && Exec(s, run') == Next(Exec(s, run), a)
  {
    Single(Exec(s, run), a);
    Then(s, run, [a]);
    run' := run + [a];
  }

  lemma Append(s: State, run: seq<Action>, more: seq<Action>) returns (run': seq<Action>)
    requires IsRun(s, run) && IsRun(Exec(s, run), more)
    ensures run' == run + more && IsRun(s, run') && Exec(s, run') == Exec(Exec(s, run), more)
  {
    Then(s, run, more);
    run' := run + more;
  }

  lemma NextOf(pool: set<Wid>, w: Wid) returns (next: Option<Wid>)
    ensures IsNext(pool, w, next)
  {
    var above := set y | y in pool && w < y;
    assert forall y :: y in pool && w < y ==> y in above;
    if above == {} {
      next := None;
    } else {
      var x := Least(above);
      next := Some(x);
    }
  }

  /** `Execute` up to the busy test of the first worker. */
  lemma SubmitReachesScan(s: State, i: Sid, first: Wid, t: Task) returns (run: seq<Action>)
    requires CanCall(s, i, Some(t)) && s.enable && IsBegin(s.pool, Some(first))
    ensures IsRun(s, run)
    ensures Exec(s, run) ==
      s.(submitters := s.submitters[i := ScanBusy(t, |s.tasks|, |s.pool|, Some(first))], used := s.used + {t})
  {
    hide IsRun, Exec;
    var a := Submit(i, None, 0);
    run := Nothing(s);
    run := Add(s, run, Call(i, Some(t)));
    run := Add(s, run, a);
    run := Add(s, run, a);
    run := Add(s, run, a);
    run := Add(s, run, a);
    run := Add(s, run, Submit(i, Some(first), 0));
  }

  /** `Execute` up to just before the push, when the first worker is idle and the queue is empty. */
  lemma SubmitReachesPush(s: State, i: Sid, first: Wid, t: Task) returns (run: seq<Action>)
    requires CanCall(s, i, Some(t)) && s.enable && s.tasks == []
    requires IsBegin(s.pool, Some(first)) && first in s.workers && !s.workers[first].busy
    ensures IsRun(s, run)
    ensures Exec(s, run) == s.(submitters := s.submitters[i := Push(t)], used := s.used + {t})
  {
    hide IsRun, Exec;
    var next := NextOf(s.pool, first);
    run := SubmitReachesScan(s, i, first, t);
    run := Add(s, run, Submit(i, next, 0));
  }

  /** `Execute` up to just before the insertion, when a task is queued and there is room. */
  lemma SubmitReachesInsert(s: State, i: Sid, first: Wid, t: Task) returns (run: seq<Action>)
    requires CanCall(s, i, Some(t)) && s.enable && s.tasks != [] && |s.pool| < s.maxThreads
    requires IsBegin(s.pool, Some(first)) && first in s.workers && !s.workers[first].busy
    ensures IsRun(s, run)
    ensures Exec(s, run) == s.(submitters := s.submitters[i := Insert(t)], used := s.used + {t})
  {
    hide IsRun, Exec;
    var next := NextOf(s.pool, first);
    run := SubmitReachesScan(s, i, first, t);
    run := Add(s, run, Submit(i, next, 0));
    run := Add(s, run, Submit(i, None, 0));
  }

  /** ... and on to just before the new worker's run flag is set. */
  lemma InsertReachesMark(s: State, i: Sid, t: Task, w: Wid) returns (run: seq<Action>)
    requires i in s.submitters && s.submitters[i] == Insert(t) && s.ager == Resting && w !in s.workers
    ensures IsRun(s, run)
    ensures Exec(s, run) == s.(
      submitters := s.submitters[i := MarkRun(t, w)],
      pool := s.pool + {w},
      workers := s.workers[w := Worker(InitHook, Initial, false, false, 0)])
  {
    hide IsRun, Exec;
    run := Nothing(s);
    run := Add(s, run, Submit(i, Some(w), 0));
    run := Add(s, run, Submit(i, None, 0));
  }

  /** The rest of `Execute`, once it has made up its mind about a new worker. */
  lemma PushReturns(s: State, i: Sid, t: Task) returns (run: seq<Action>)
    requires i in s.submitters && s.submitters[i] == Push(t)
    ensures IsRun(s, run)
    ensures Exec(s, run) ==
      s.(submitters := s.submitters[i := Outside], tasks := s.tasks + [t], log := s.log + [Pushed(t)])
  {
    hide IsRun, Exec;
    run := Nothing(s);
    run := Add(s, run, Submit(i, None, 0));
    run := Add(s, run, Submit(i, None, 0));
  }

  /** `Init`: refuses a zero minimum and a maximum below the minimum; otherwise starts `minThreads`
      workers.  `sids` are the threads that may call `Execute`. */
  function InitPool(minThreads: nat, maxThreads: nat, sids: set<Sid>): Option<State> {
    if minThreads == 0 then None
    else if maxThreads < minThreads then None
    else Some(Fresh(minThreads, maxThreads, sids))
  }

  function Fresh(minThreads: nat, maxThreads: nat, sids: set<Sid>): State {
    State([], Wids(minThreads), minThreads, maxThreads, false, true,
          map w | w in Wids(minThreads) :: Worker(InitHook, Initial, false, true, 0),
          map i | i in sids :: Outside,
          Resting, {}, NotCalled, {}, [], {}, {})
  }

  /** The first `n` workers. */
  function Wids(n: nat): (r: set<Wid>)
    ensures forall w :: w in r <==> 0 <= w < n
    ensures |r| == n
  {
    if n == 0 then {} else Wids(n - 1) + {n - 1}
  }
}
