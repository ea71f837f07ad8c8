/** The thread pool of netpool/src/CThreadPool.cpp as an object: what each locked section or loop does to the
    pool's own fields when nothing comes between.  PoolModel gives the interleavings, and PoolCalls the predicates
    that both promise.  */
module PoolObject {
  import opened CoreRotation
  import opened Options
  import opened PoolCalls
  import opened PoolModel

  class CWorker {
    var status: Status
    var busy: bool
    var stamp: int      // m_update_time
    var core: Uint      // the core its thread is started on

    constructor (now: int)
      ensures status == Initial && !busy && stamp == now
    {
      status, busy, stamp, core := Initial, false, now, 0;
    }

    /** CWorker::Aged. */
    method Aged(age: int) returns (aged: bool)
      modifies this`status
      ensures aged <==> IsAged(busy, stamp, age)
      ensures status == (if aged then Stopping else old(status))
    {
      aged := false;
      if !busy {
        if stamp <= age {
          TellExit();
          aged := true;
        }
      }
    }

    method TellExit()
      modifies this`status
      ensures status == Stopping
    {
      status := Stopping;
    }
  }

  /** Workers not yet started, each on the core that its turn gives it. */
  ghost predicate OnCores(ws: seq<CWorker>, start: Uint, cnt: Uint)
    reads ws
  {
    forall i :: 0 <= i < |ws| ==> ws[i].status == Initial && !ws[i].busy && ws[i].core == Core(start, cnt, i)
  }

  function Set(ws: seq<CWorker>): set<CWorker> {
    set w | w in ws
  }

  lemma SetMore(ws: seq<CWorker>, w: CWorker)
    ensures Set(ws + [w]) == Set(ws) + {w}
  {
  }

  lemma NoneOnCores(start: Uint, cnt: Uint)
    ensures OnCores([], start, cnt) && Set([]) == {}
  {
  }

  lemma OneMoreOnCores(ws: seq<CWorker>, w: CWorker, start: Uint, cnt: Uint)
    requires OnCores(ws, start, cnt) && w.status == Initial && !w.busy && w.core == Core(start, cnt, |ws|)
    ensures OnCores(ws + [w], start, cnt)
  {
    hide Core;
  }

  /** How many workers are made: those that are missing, as far as memory goes. */
  function Missing(size: nat, minimum: nat, room: nat): nat {
    if minimum <= size then 0 else if minimum - size <= room then minimum - size else room
  }

  ghost predicate AllTold(trash: set<CWorker>)
    reads trash`status
  {
    forall w :: w in trash ==> w.status == Stopping
  }

  /** Idle, old and told to exit: why a worker may be taken out. */
  ghost predicate AgedOut(trash: set<CWorker>, age: int)
    reads trash
  {
    forall w :: w in trash ==> !w.busy && w.stamp <= age && w.status == Stopping
  }

  /** Busy or recently used: why a worker may be left in. */
  ghost predicate InUse(kept: set<CWorker>, age: int)
    reads kept`busy, kept`stamp
  {
    forall w :: w in kept ==> w.busy || w.stamp > age
  }

  /** Where the sets stand between two turns of the ageing loop. */
  ghost predicate Split(all: set<CWorker>, pool: set<CWorker>, trash: set<CWorker>, rest: set<CWorker>) {
    rest <= pool && trash <= all && pool == all - trash
  }

  lemma SplitStart(all: set<CWorker>)
    ensures Split(all, all, {}, all) && all - all == {}
  {
  }

  lemma NoneAged(age: int)
    ensures AgedOut({}, age) && InUse({}, age)
  {
  }

  lemma SplitDone(all: set<CWorker>, pool: set<CWorker>, trash: set<CWorker>, rest: set<CWorker>)
    requires Split(all, pool, trash, rest)
    ensures trash <= all && pool == all - trash
  {
  }

  lemma SplitHas(all: set<CWorker>, pool: set<CWorker>, trash: set<CWorker>, rest: set<CWorker>, w: CWorker)
    requires Split(all, pool, trash, rest) && w in rest
    ensures w in pool && w in all
  {
  }

  lemma SplitStep(all: set<CWorker>, pool: set<CWorker>, trash: set<CWorker>, rest: set<CWorker>, w: CWorker,
                  pool': set<CWorker>, trash': set<CWorker>)
    requires Split(all, pool, trash, rest) && w in rest
    requires (trash' == trash && pool' == pool) || (trash' == trash + {w} && pool' == pool - {w})
    ensures Split(all, pool', trash', rest - {w})
    ensures pool' - (rest - {w}) == (if trash' == trash then (pool - rest) + {w} else pool - rest)
  {
  }

  lemma IsThinned(all: set<CWorker>, pool: set<CWorker>, trash: set<CWorker>, minimum: nat, age: int)
    requires trash <= all && pool == all - trash && (trash == {} || |pool| >= minimum)
    requires AgedOut(trash, age) && (|pool| <= minimum || InUse(pool, age))
    ensures Thinned(all, pool, minimum, set w | w in all && !w.busy && w.stamp <= age)
  {
  }

  class CThreadPool {
    var tasks: seq<Task>
    var pool: set<CWorker>
    var minThreads: nat
    var maxThreads: nat
    var enable: bool
    var startCore: Uint
    var coreCnt: Uint
    var curCore: Uint
    ghost var dealt: nat     // the calls of get_new_core since Init

    constructor ()
      ensures tasks == [] && pool == {} && !enable && Valid()
    {
      tasks, pool, minThreads, maxThreads, enable := [], {}, 0, 0, false;
      startCore, coreCnt, curCore, dealt := 0, 0, 0, 0;
    }

    /** The core cursor stands where the calls since Init have left it. */
    ghost predicate Valid()
      reads this
    {
      curCore == Cursor(startCore, coreCnt, dealt)
    }

    /** get_new_core: the core whose turn it is. */
    method GetNewCore() returns (core: Uint)
      requires Valid()
      modifies this`curCore, this`dealt
      ensures Valid() && dealt == old(dealt) + 1
      ensures core == Core(startCore, coreCnt, old(dealt))
      ensures core == if coreCnt == 0 then 0xFFFF else (startCore + old(dealt) % coreCnt) % 0x1_0000_0000
    {
      hide Wrap, Slot;
      KthCore(startCore, coreCnt, dealt);
      SlotIs(startCore, coreCnt, dealt);
      dealt := dealt + 1;
      if coreCnt != 0 {
        curCore := Wrap(startCore + Slot(Wrap(curCore - startCore), coreCnt));
        core := curCore;
        curCore := Wrap(curCore + 1);
      } else {
        core := NO_SPEC_CORE;
      }
    }

    /** The creation of one worker, in Init and in Execute. */
    method AddWorker(now: int) returns (w: CWorker)
      requires Valid()
      modifies this`pool, this`curCore, this`dealt
      ensures Valid() && dealt == old(dealt) + 1
      ensures fresh(w) && pool == old(pool) + {w}
      ensures w.status == Initial && !w.busy && w.core == Core(startCore, coreCnt, old(dealt))
    {
      w := new CWorker(now);
      pool := pool + {w};
      w.core := GetNewCore();
    }

    /** Init: refuses a zero minimum and a maximum below it and changes nothing; otherwise fills the pool up to
        the minimum, each new worker on the next core, as far as memory goes: `room` workers can be allocated.
        If that is not enough it returns false with the pool enabled and partly filled. */
    method Init(minimum: nat, maximum: nat, start: Uint, cnt: Uint, now: int, room: nat)
      returns (ok: bool, ghost added: seq<CWorker>)
      modifies this
      ensures ok <==> 0 < minimum <= maximum && minimum <= |old(pool)| + room
      ensures !(0 < minimum <= maximum) ==> unchanged(this) && added == []
      ensures 0 < minimum <= maximum ==>
        && Valid() && enable && minThreads == minimum && maxThreads == maximum
        && startCore == start && coreCnt == cnt && tasks == old(tasks) && dealt == |added|
        && |added| == Missing(|old(pool)|, minimum, room)
        && |pool| == |old(pool)| + |added| && (ok && |old(pool)| <= minimum ==> |pool| == minimum)
        && old(pool) <= pool && fresh(pool - old(pool)) && pool - old(pool) == Set(added)
      ensures OnCores(added, start, cnt)
    {
      hide Core, OnCores, Set;
      added := [];
      NoneOnCores(start, cnt);
      if minimum == 0 {
        return false, added;
      }
      if maximum < minimum {
        return false, added;
      }
      enable := true;
      startCore := start;
      curCore := startCore;
      coreCnt := cnt;
      minThreads, maxThreads := minimum, maximum;
      dealt := 0;
      var i, left := |pool|, room;
      while i < minThreads
        invariant Valid() && enable && tasks == old(tasks) && startCore == start && coreCnt == cnt
        invariant minThreads == minimum && maxThreads == maximum
        invariant dealt == |added| && i == |old(pool)| + |added| && |pool| == i
        invariant |old(pool)| < minimum ==> i <= minimum
        invariant |old(pool)| >= minimum ==> |added| == 0
        invariant left >= 0 && left + |added| == room
        invariant old(pool) <= pool && fresh(pool - old(pool)) && pool - old(pool) == Set(added)
        invariant OnCores(added, start, cnt)
      {
        if left == 0 {
          return false, added;
        }
        var w := AddWorker(now);
        SetMore(added, w);
        OneMoreOnCores(added, w, start, cnt);
        added := added + [w];
        i, left := i + 1, left - 1;
      }
      ok := true;
    }

    /** IsAllWorkerBusy; true of an empty pool. */
    method IsAllWorkerBusy() returns (all: bool)
      ensures all <==> forall w :: w in pool ==> w.busy
    {
      var rest := pool;
      while rest != {}
        invariant rest <= pool && forall w :: w in pool && w !in rest ==> w.busy
        decreases |rest|
      {
        var work :| work in rest;
        if !work.busy {
          return false;
        }
        rest := rest - {work};
      }
      return true;
    }

    /** Execute, when no other thread comes between its steps.  One worker is needed exactly when every worker is
        busy or the queue was not empty, and the pool is below its maximum.  A task is taken exactly when the pool
        is enabled, it is not null and there is `memory` for a worker that is needed; it goes to the end of the
        queue. */
    method Execute(arg: Option<Task>, now: int, memory: bool) returns (ok: bool)
      requires Valid()
      modifies this`tasks, this`pool, this`curCore, this`dealt
      ensures Valid()
      ensures Executed(arg, enable, maxThreads, forall w :: w in old(pool) ==> w.busy, old(tasks), |old(pool)|,
                       memory, tasks, |pool|, ok)
      ensures
        var grows := ok && |old(pool)| < maxThreads && ((forall w :: w in old(pool) ==> w.busy) || old(tasks) != []);
        if grows
        then |pool| == |old(pool)| + 1 && dealt == old(dealt) + 1 && old(pool) <= pool
             && forall w :: w in pool - old(pool) ==> fresh(w) && w.core == Core(startCore, coreCnt, old(dealt))
        else pool == old(pool) && dealt == old(dealt)
    {
      if !enable {
        return false;
      }
      if arg == None {
        return false;
      }
      var taskCnt := |tasks|;
      var threadCnt := |pool|;
      var busy := IsAllWorkerBusy();
      if busy || taskCnt > 0 {
        if threadCnt < maxThreads {
          if !memory {
            return false;
          }
          var _ := AddWorker(now);
        }
      }
      tasks := tasks + [arg.value];
      return true;
    }

    /** GetOneTask: the oldest task, if there is one. */
    method GetOneTask() returns (task: Option<Task>)
      modifies this`tasks
      ensures TookOne(old(tasks), task, tasks)
    {
      task := None;
      if tasks != [] {
        task := Some(tasks[0]);
        tasks := tasks[1..];
      }
    }

    /** One turn of the ageing loop. */
    method AgeOne(ghost all: set<CWorker>, rest: set<CWorker>, trash: set<CWorker>, work: CWorker, age: int)
      returns (trash': set<CWorker>, rest': set<CWorker>)
      requires Split(all, pool, trash, rest) && work in rest
      requires AgedOut(trash, age) && InUse(pool - rest, age)
      modifies this`pool, work`status
      ensures Split(all, pool, trash', rest') && rest' == rest - {work} && pool <= old(pool)
      ensures AgedOut(trash', age) && InUse(pool - rest', age)
      ensures |pool| >= |old(pool)| - 1 && (trash' == {} || work !in pool || trash' == trash)
      ensures work in pool ==> work.status == old(work.status)
    {
      ghost var was := pool;
      rest' := rest - {work};
      trash' := trash;
      var aged := work.Aged(age);
      if aged {
        pool := pool - {work};
        trash' := trash + {work};
      }
      SplitStep(all, was, trash, rest, work, pool, trash');
    }

    /** The first loop of aged_worker: the workers told to exit and taken out are idle and old, the pool never
        goes below its minimum, and the loop stops early only at the minimum. */
    method AgeOut(age: int) returns (trash: set<CWorker>)
      modifies this`pool, pool`status
      ensures trash <= old(pool) && pool == old(pool) - trash
      ensures trash == {} || |pool| >= minThreads
      ensures |pool| <= minThreads || InUse(pool, age)
      ensures AgedOut(trash, age)
      ensures forall w :: w in pool ==> w.status == old(w.status)
      ensures Thinned(old(pool), pool, minThreads, set w | w in old(pool) && !w.busy && w.stamp <= age)
    {
      hide Split, InUse, AgedOut, Thinned;
      trash := {};
      var rest := pool;
      SplitStart(pool);
      NoneAged(age);
      while rest != {}
        invariant Split(old(pool), pool, trash, rest) && pool <= old(pool)
        invariant trash == {} || |pool| >= minThreads
        invariant InUse(pool - rest, age)
        invariant AgedOut(trash, age)
        invariant forall w :: w in pool ==> w.status == old(w.status)
        decreases |rest|
      {
        if |pool| <= minThreads {
          break;
        }
        var work :| work in rest;
        SplitHas(old(pool), pool, trash, rest, work);
        trash, rest := AgeOne(old(pool), rest, trash, work, age);
      }
      assert rest == {} ==> pool - rest == pool;
      SplitDone(old(pool), pool, trash, rest);
      IsThinned(old(pool), pool, trash, minThreads, age);
    }

    /** The first loop of TellAllWorkerExit: every worker is told to exit and taken out. */
    method TellAll() returns (trash: set<CWorker>)
      modifies this`pool, pool`status
      ensures pool == {} && trash == old(pool)
      ensures AllTold(trash)
    {
      trash := {};
      while pool != {}
        invariant pool + trash == old(pool) && pool !! trash
        invariant AllTold(trash)
        decreases |pool|
      {
        var work :| work in pool;
        work.TellExit();
        pool := pool - {work};
        trash := trash + {work};
      }
    }
  }
}
