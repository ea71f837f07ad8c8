/** The timer manager of netpool/src/CJobTime.cpp.

    A callback is foreign code; what matters here is that it may add timers while the list is being
    walked.  The k-th callback of a walk adds the timers that `script[k]` lists, each with the clock value
    `add_time_job` reads.  */
module TimerManager {
  import opened TimerRate

  /** The arguments of `add_time_job`, with the clock at that moment. */
  datatype Request = Request(func: int, param: int, value: nat, once: bool, clock: nat)

  /** CTimeJob */
  class TimeJob {
    const func: int
    const param: int
    const value: nat
    const once: bool
    var expire: nat

    constructor (r: Request)
      ensures Made(r)
    {
      func, param, value, once := r.func, r.param, r.value, r.once;
      expire := r.clock + r.value;
    }

    /** The job is the one `r` asks for. */
    predicate For(r: Request) {
      func == r.func && param == r.param && value == r.value && once == r.once
    }

    /** ... and has not fired yet. */
    ghost predicate Made(r: Request)
      reads this
    {
      For(r) && expire == r.clock + r.value
    }

    predicate IsExpired(now: nat)
      reads this
    {
      expire <= now
    }

    method UpdateExpiredTime(now: nat)
      modifies this
      ensures expire == now + value
    {
      expire := now + value;
    }

    predicate IsSelf(f: int, p: int) {
      func == f && param == p
    }
  }

  ghost predicate Distinct(jobs: seq<TimeJob>) {
    forall i, j :: 0 <= i < j < |jobs| ==> jobs[i] != jobs[j]
  }

  /** The same, said by counting. */
  ghost predicate Unique(jobs: seq<TimeJob>) {
    |set j | j in jobs| == |jobs|
  }

  lemma {:induction false} UniqueIsDistinct(jobs: seq<TimeJob>)
    ensures Unique(jobs) <==> Distinct(jobs)
    ensures |set j | j in jobs| <= |jobs|
  {
    if jobs != [] {
      var n := |jobs| - 1;
      var front, last := jobs[..n], jobs[n];
      UniqueIsDistinct(front);
      var a, b := set j | j in front, set j | j in jobs;
      assert jobs == front + [last];
      assert b == a + {last};
      if last in front {
        var i :| 0 <= i < n && front[i] == last;
        assert b == a && jobs[i] == jobs[n];
      } else {
        assert |b| == |a| + 1;
        assert Distinct(front) <==> Distinct(jobs) by {
          assert forall i, j :: 0 <= i < j < n ==> (jobs[i] != jobs[j] <==> front[i] != front[j]);
        }
      }
    }
  }

  /** The expired jobs among the first `n`, in order. */
  ghost function Due(jobs: seq<TimeJob>, n: nat, now: nat): seq<TimeJob>
    requires n <= |jobs|
    reads jobs
  {
    if n == 0 then []
    else Due(jobs, n - 1, now) + if jobs[n - 1].IsExpired(now) then [jobs[n - 1]] else []
  }

  /** The jobs a walk keeps of the first `n`: all but the expired one-shots. */
  ghost function Staying(jobs: seq<TimeJob>, n: nat, now: nat): seq<TimeJob>
    requires n <= |jobs|
    reads jobs
  {
    if n == 0 then []
    else
      var j := jobs[n - 1];
      Staying(jobs, n - 1, now) + if j.IsExpired(now) && j.once then [] else [j]
  }

  /** What the first `n` callbacks of a walk ask for. */
  function Asked(script: seq<seq<Request>>, n: nat): seq<Request> {
    if n == 0 then []
    else Asked(script, n - 1) + if n - 1 < |script| then script[n - 1] else []
  }

  ghost predicate AllMade(jobs: seq<TimeJob>, requests: seq<Request>)
    reads jobs
  {
    |jobs| == |requests| && forall i :: 0 <= i < |jobs| ==> jobs[i].Made(requests[i])
  }

  /** `std::list::remove`: drops every element equal to `x`. */
  function Remove(jobs: seq<TimeJob>, x: TimeJob): seq<TimeJob> {
    if jobs == [] then []
    else (if jobs[0] == x then [] else [jobs[0]]) + Remove(jobs[1..], x)
  }

  lemma {:induction false} RemoveAbsent(jobs: seq<TimeJob>, x: TimeJob)
    requires x !in jobs
    ensures Remove(jobs, x) == jobs
  {
    if jobs != [] {
      RemoveAbsent(jobs[1..], x);
    }
  }

  lemma {:induction false} RemoveMiddle(a: seq<TimeJob>, x: TimeJob, b: seq<TimeJob>)
    requires x !in a && x !in b
    ensures Remove(a + [x] + b, x) == a + b
  {
    var all := a + [x] + b;
    if a == [] {
      assert all[1..] == b;
      RemoveAbsent(b, x);
    } else {
      assert all[1..] == a[1..] + [x] + b;
      RemoveMiddle(a[1..], x, b);
    }
  }

  lemma RemoveAt(jobs: seq<TimeJob>, k: nat)
    requires Distinct(jobs) && k < |jobs|
    ensures
      var rest := Remove(jobs, jobs[k]);
      rest == jobs[..k] + jobs[k + 1..] && Distinct(rest) && forall x :: x in jobs && x != jobs[k] ==> x in rest
  {
    var a, x, b := jobs[..k], jobs[k], jobs[k + 1..];
    assert jobs == a + [x] + b;
    MiddleApart(a, x, b);
    RemoveMiddle(a, x, b);
    DistinctWithout(a, x, b);
  }

  /** The list node after the one holding `x`; null is `end()`. */
  function Successor(jobs: seq<TimeJob>, x: TimeJob): TimeJob? {
    if |jobs| < 2 then null
    else if jobs[0] == x then jobs[1]
    else Successor(jobs[1..], x)
  }

  lemma {:induction false} SuccessorAt(jobs: seq<TimeJob>, k: nat)
    requires Distinct(jobs) && k < |jobs|
    ensures Successor(jobs, jobs[k]) == if k + 1 < |jobs| then jobs[k + 1] else null
  {
    if k > 0 {
      assert jobs[0] != jobs[k];
      SuccessorAt(jobs[1..], k - 1);
    }
  }

  lemma MiddleApart(a: seq<TimeJob>, x: TimeJob, b: seq<TimeJob>)
    requires Distinct(a + [x] + b)
    ensures x !in a && x !in b
  {
    var all := a + [x] + b;
    assert all[|a|] == x;
    forall i | 0 <= i < |a| ensures a[i] != x {
      assert all[i] == a[i];
    }
    forall i | 0 <= i < |b| ensures b[i] != x {
      assert all[|a| + 1 + i] == b[i];
    }
  }

  lemma DistinctWithout(a: seq<TimeJob>, x: TimeJob, b: seq<TimeJob>)
    requires Distinct(a + [x] + b)
    ensures Distinct(a + b)
  {
    var all := a + [x] + b;
    forall i, j | 0 <= i < j < |a + b| ensures (a + b)[i] != (a + b)[j] {
      assert all[if i < |a| then i else i + 1] != all[if j < |a| then j else j + 1];
    }
  }

  /** A walk meets the list `all`: the original jobs and then everything added.  `base` gives the expiry
      time each has when it is reached; the job fires if that is not after `now`.  These are the jobs that
      fire in the first `c` turns ... */
  ghost function Hit(all: seq<TimeJob>, base: seq<nat>, c: nat, now: nat): seq<TimeJob>
    requires c <= |base| == |all|
  {
    if c == 0 then []
    else Hit(all, base, c - 1, now) + if base[c - 1] <= now then [all[c - 1]] else []
  }

  /** ... and these the visited jobs that stay. */
  ghost function Kept(all: seq<TimeJob>, base: seq<nat>, c: nat, now: nat): seq<TimeJob>
    requires c <= |base| == |all|
  {
    if c == 0 then []
    else Kept(all, base, c - 1, now) + if base[c - 1] <= now && all[c - 1].once then [] else [all[c - 1]]
  }

  lemma {:induction false} KeptFrame(all: seq<TimeJob>, base: seq<nat>, c: nat, now: nat,
                                     more: seq<TimeJob>, moreBase: seq<nat>)
    requires c <= |base| == |all| && |more| == |moreBase|
    ensures Kept(all + more, base + moreBase, c, now) == Kept(all, base, c, now)
    ensures Hit(all + more, base + moreBase, c, now) == Hit(all, base, c, now)
  {
    if c > 0 {
      KeptFrame(all, base, c - 1, now, more, moreBase);
    }
  }

  /** Past the originals nothing fires and everything stays. */
  lemma {:induction false} KeptTail(all: seq<TimeJob>, base: seq<nat>, n: nat, c: nat, now: nat)
    requires n <= c <= |base| == |all| && forall k :: n <= k < |base| ==> now < base[k]
    ensures Kept(all, base, c, now) + all[c..] == Kept(all, base, n, now) + all[n..]
    ensures Hit(all, base, c, now) == Hit(all, base, n, now)
    decreases c
  {
    if n < c {
      KeptTail(all, base, n, c - 1, now);
      assert all[c - 1..] == [all[c - 1]] + all[c..];
    }
  }

  /** On the list as it stood before the walk, this is what the walk's contract speaks of. */
  lemma {:induction false} KeptIsStaying(jobs: seq<TimeJob>, all: seq<TimeJob>, base: seq<nat>, n: nat, now: nat)
    requires n <= |jobs| && |all| == |base| && Extends(all, jobs)
    requires forall k :: 0 <= k < |jobs| ==> base[k] == jobs[k].expire
    ensures Kept(all, base, n, now) == Staying(jobs, n, now) && Hit(all, base, n, now) == Due(jobs, n, now)
  {
    if n > 0 {
      KeptIsStaying(jobs, all, base, n - 1, now);
    }
  }

  /** Of the first `n` jobs, the expired ones fire and all but the expired one-shots stay. */
  lemma {:induction false} WhoFires(jobs: seq<TimeJob>, n: nat, now: nat, j: TimeJob)
    requires n <= |jobs|
    ensures j in Due(jobs, n, now) <==> j in jobs[..n] && j.IsExpired(now)
    ensures j in Staying(jobs, n, now) <==> j in jobs[..n] && !(j.IsExpired(now) && j.once)
    ensures j in jobs[..|jobs|] <==> j in jobs
  {
    if n > 0 {
      WhoFires(jobs, n - 1, now, j);
      assert jobs[..n] == jobs[..n - 1] + [jobs[n - 1]];
    }
  }

  lemma {:induction false} StayingFrom(jobs: seq<TimeJob>, n: nat, now: nat)
    requires n <= |jobs|
    ensures forall x :: x in Staying(jobs, n, now) ==> x in jobs
  {
    if n > 0 {
      StayingFrom(jobs, n - 1, now);
    }
  }

  ghost predicate Extends<T>(longer: seq<T>, s: seq<T>) {
    |s| <= |longer| && forall k {:trigger s[k]} :: 0 <= k < |s| ==> longer[k] == s[k]
  }

  lemma ExtendsSplit<T>(longer: seq<T>, s: seq<T>)
    requires Extends(longer, s)
    ensures longer == s + longer[|s|..]
  {
  }

  lemma ExtendsTrans<T>(longest: seq<T>, longer: seq<T>, s: seq<T>)
    requires Extends(longest, longer) && Extends(longer, s)
    ensures Extends(longest, s)
  {
  }

  lemma ExtendsConcat<T>(s: seq<T>, more: seq<T>)
    ensures Extends(s + more, s)
  {
  }

  ghost function ExpiryTimes(jobs: seq<TimeJob>, n: nat): (base: seq<nat>)
    requires n <= |jobs|
    reads jobs
    ensures |base| == n && forall k :: 0 <= k < n ==> base[k] == jobs[k].expire
  {
    if n == 0 then [] else ExpiryTimes(jobs, n - 1) + [jobs[n - 1].expire]
  }

  /** The expiry times the requests ask for. */
  function DueTimes(asked: seq<Request>): (base: seq<nat>)
    ensures |base| == |asked| && forall i :: 0 <= i < |asked| ==> base[i] == asked[i].clock + asked[i].value
  {
    seq(|asked|, i requires 0 <= i < |asked| => asked[i].clock + asked[i].value)
  }

  /** The expiry times after `c` turns: visited jobs that fired are re-armed. */
  ghost predicate Rearmed(all: seq<TimeJob>, base: seq<nat>, c: nat, now: nat)
    requires |base| == |all|
    reads all
  {
    forall k {:trigger base[k]} :: 0 <= k < |base| ==>
      all[k].expire == if k < c && base[k] <= now then now + all[k].value else base[k]
  }

  /** The jobs from position `n` on are the ones asked for, due when they were asked to be. */
  ghost predicate Answers(all: seq<TimeJob>, base: seq<nat>, n: nat, asked: seq<Request>)
    requires |base| == |all|
  {
    && |all| == n + |asked|
    && forall i {:trigger asked[i]} :: 0 <= i < |asked| ==>
         all[n + i].For(asked[i]) && base[n + i] == asked[i].clock + asked[i].value
  }

  /** The walk after `c` turns, its heap aside. */
  ghost predicate Walking(jobs: seq<TimeJob>, all: seq<TimeJob>, base: seq<nat>, c: nat, now: nat, fired: seq<TimeJob>) {
    && c <= |all| == |base| && Unique(all) && Unique(jobs)
    && jobs == Kept(all, base, c, now) + all[c..] && fired == Hit(all, base, c, now)
  }

  /** The walk after `c` turns. */
  ghost predicate OnTrack(jobs: seq<TimeJob>, all: seq<TimeJob>, base: seq<nat>, n: nat, c: nat, now: nat,
                          script: seq<seq<Request>>, fired: seq<TimeJob>)
    reads all
  {
    && Walking(jobs, all, base, c, now, fired)
    && Answers(all, base, n, Asked(script, |fired|))
    && Rearmed(all, base, c, now)
  }

  /** The iterator: at `all[c]`, or at the end once the originals are done.  (An iterator that reached the
      end stays there even if a callback then appends.) */
  ghost predicate CursorAt(all: seq<TimeJob>, n: nat, c: nat, itr: TimeJob?) {
    if itr == null then c >= n else c < |all| && itr == all[c]
  }

  /** How a walk goes: how many jobs it visits, the expiry times it meets, and how many callbacks it makes. */
  datatype Course = Course(visited: nat, base: seq<nat>, count: nat)

  /** What the next callback of a walk asks for. */
  function NextAsked(script: seq<seq<Request>>, count: nat): seq<Request> {
    if count < |script| then script[count] else []
  }

  /** The course from turn `c` on, at a job, after `count` callbacks.  A job that a callback appends is visited in
      its turn, and fires if it is due by then; but the iterator is moved on before the callback, so what the
      last job's callback appends is not visited in this walk. */
  function CourseFrom(base: seq<nat>, c: nat, now: nat, script: seq<seq<Request>>, count: nat): (r: Course)
    requires c < |base|
    ensures |base| <= r.visited <= |r.base|
    decreases if count < |script| then |script| - count else 0, |base| - c
  {
    var base' := if base[c] <= now then base + DueTimes(NextAsked(script, count)) else base;
    var count' := if base[c] <= now then count + 1 else count;
    if c + 1 == |base| then Course(c + 1, base', count')
    else CourseFrom(base', c + 1, now, script, count')
  }

  lemma CourseStep(base: seq<nat>, c: nat, now: nat, script: seq<seq<Request>>, count: nat,
                   base': seq<nat>, count': nat)
    requires c < |base|
    requires base' == (if base[c] <= now then base + DueTimes(NextAsked(script, count)) else base)
    requires count' == count + if base[c] <= now then 1 else 0
    ensures |base| <= |base'|
    ensures c + 1 == |base| ==> CourseFrom(base, c, now, script, count) == Course(c + 1, base', count')
    ensures c + 1 < |base| ==>
      CourseFrom(base, c, now, script, count) == CourseFrom(base', c + 1, now, script, count')
  {
  }

  function CourseOf(base: seq<nat>, now: nat, script: seq<seq<Request>>): (r: Course)
    ensures |base| <= r.visited <= |r.base|
  {
    if base == [] then Course(0, [], 0) else CourseFrom(base, 0, now, script, 0)
  }

  /** How many of the first `c` jobs met are due. */
  function CountDue(base: seq<nat>, c: nat, now: nat): nat
    requires c <= |base|
  {
    if c == 0 then 0 else CountDue(base, c - 1, now) + if base[c - 1] <= now then 1 else 0
  }

  lemma {:induction false} CountDueFrame(base: seq<nat>, longer: seq<nat>, c: nat, now: nat)
    requires c <= |base| && Extends(longer, base)
    ensures CountDue(longer, c, now) == CountDue(base, c, now)
  {
    if c > 0 {
      CountDueFrame(base, longer, c - 1, now);
      assert longer[c - 1] == base[c - 1];
    }
  }

  /** Before turn `c` of a walk that started with the expiry times `orig`, `count` callbacks have been made, and the
      jobs of the list, counting the dropped ones, have the expiry times `base`. */
  ghost predicate OnCourse(orig: seq<nat>, base: seq<nat>, c: nat, now: nat, script: seq<seq<Request>>, count: nat) {
    c <= |base| && base == orig + DueTimes(Asked(script, count)) && count == CountDue(base, c, now)
  }

  lemma OnCourseStep(orig: seq<nat>, base: seq<nat>, c: nat, now: nat, script: seq<seq<Request>>, count: nat,
                     base': seq<nat>, count': nat)
    requires OnCourse(orig, base, c, now, script, count) && c < |base|
    requires base' == (if base[c] <= now then base + DueTimes(NextAsked(script, count)) else base)
    requires count' == count + if base[c] <= now then 1 else 0
    ensures OnCourse(orig, base', c + 1, now, script, count') && Extends(base', base)
  {
    hide DueTimes, Asked;
    AskedStep(script, count);
    DueTimesConcat(Asked(script, count), NextAsked(script, count));
    ExtendsSelf(base);
    ExtendsConcat(base, DueTimes(NextAsked(script, count)));
    CountDueFrame(base, base', c, now);
  }

  lemma DueTimesConcat(a: seq<Request>, b: seq<Request>)
    ensures DueTimes(a + b) == DueTimes(a) + DueTimes(b)
  {
  }

  /** The length of the list before turn `c`, counting the dropped jobs. */
  function Length(n: nat, base: seq<nat>, c: nat, now: nat, script: seq<seq<Request>>): nat
    requires c <= |base|
  {
    n + |Asked(script, CountDue(base, c, now))|
  }

  lemma LengthIs(orig: seq<nat>, base: seq<nat>, c: nat, now: nat, script: seq<seq<Request>>, count: nat,
                 longer: seq<nat>)
    requires OnCourse(orig, base, c, now, script, count) && Extends(longer, base)
    ensures Length(|orig|, longer, c, now, script) == |base|
  {
    CountDueFrame(base, longer, c, now);
  }

  /** The course of a walk, said without following it: it makes a callback for each job met that is due; meets the
      jobs of the list and then those asked for, in order; and ends with the first turn that begins at the last job
      of the list as it then is, so that what that turn's callback adds is not met. */
  lemma CourseIs(base: seq<nat>, now: nat, script: seq<seq<Request>>)
    ensures
      var r := CourseOf(base, now, script);
      && r.base == base + DueTimes(Asked(script, r.count)) && r.count == CountDue(r.base, r.visited, now)
      && (r.visited == 0 <==> base == [])
      && (base != [] ==> Length(|base|, r.base, r.visited - 1, now, script) == r.visited)
      && forall c :: 0 <= c < r.visited - 1 ==> Length(|base|, r.base, c, now, script) > c + 1
  {
    assert base == base + DueTimes(Asked(script, 0));
    if base != [] {
      CourseFromIs(base, base, 0, now, script, 0);
    }
  }

  lemma {:induction false} CourseFromIs(orig: seq<nat>, base: seq<nat>, c: nat, now: nat, script: seq<seq<Request>>,
                                        count: nat)
    requires OnCourse(orig, base, c, now, script, count) && c < |base|
    ensures
      var r := CourseFrom(base, c, now, script, count);
      && OnCourse(orig, r.base, r.visited, now, script, r.count) && Extends(r.base, base) && c < r.visited
      && Length(|orig|, r.base, r.visited - 1, now, script) == r.visited
      && forall d :: c <= d < r.visited - 1 ==> Length(|orig|, r.base, d, now, script) > d + 1
    decreases if count < |script| then |script| - count else 0, |base| - c
  {
    hide OnCourse, Length, CourseFrom, DueTimes, Extends;
    var base' := if base[c] <= now then base + DueTimes(NextAsked(script, count)) else base;
    var count' := count + if base[c] <= now then 1 else 0;
    CourseStep(base, c, now, script, count, base', count');
    OnCourseStep(orig, base, c, now, script, count, base', count');
    if c + 1 < |base| {
      CourseFromIs(orig, base', c + 1, now, script, count');
    }
    var r := CourseFrom(base, c, now, script, count);
    ExtendsSelf(base');
    ExtendsTrans(r.base, base', base);
    LengthIs(orig, base, c, now, script, count, r.base);
  }

  lemma ExtendsSelf(s: seq<nat>)
    ensures Extends(s, s)
  {
  }

  /** Which of the jobs met fire, and which stay. */
  lemma {:induction false} HitOf(all: seq<TimeJob>, base: seq<nat>, c: nat, now: nat, k: nat)
    requires c <= |all| == |base| && Distinct(all) && k < |all|
    ensures all[k] in Hit(all, base, c, now) <==> k < c && base[k] <= now
    ensures all[k] in Kept(all, base, c, now) <==> k < c && !(base[k] <= now && all[k].once)
  {
    if c > 0 {
      HitOf(all, base, c - 1, now, k);
    }
  }

  lemma {:induction false} KeptFrom(all: seq<TimeJob>, base: seq<nat>, c: nat, now: nat)
    requires c <= |all| == |base|
    ensures forall x :: x in Kept(all, base, c, now) ==> x in all
    ensures forall x :: x in Hit(all, base, c, now) ==> x in all
  {
    if c > 0 {
      KeptFrom(all, base, c - 1, now);
    }
  }

  /** No callback asks for a timer that is due at the walk's own time. */
  ghost predicate Timely(script: seq<seq<Request>>, now: nat) {
    forall k, i :: 0 <= k < |script| && 0 <= i < |script[k]| ==> Later(script[k][i], now)
  }

  lemma AskedStep(script: seq<seq<Request>>, n: nat)
    ensures Asked(script, n + 1) == Asked(script, n) + if n < |script| then script[n] else []
  {
  }

  lemma WalkStarts(jobs: seq<TimeJob>, base: seq<nat>, now: nat)
    requires Unique(jobs) && |base| == |jobs|
    ensures Walking(jobs, jobs, base, 0, now, []) && Answers(jobs, base, |base|, [])
  {
    assert jobs == [] + jobs[0..];
  }

  lemma TrackStarts(jobs: seq<TimeJob>, base: seq<nat>, now: nat, script: seq<seq<Request>>)
    requires Unique(jobs) && |base| == |jobs| && Rearmed(jobs, base, 0, now)
    ensures OnTrack(jobs, jobs, base, |base|, 0, now, script, [])
  {
    WalkStarts(jobs, base, now);
  }

  lemma CourseStarts(base: seq<nat>, now: nat, script: seq<seq<Request>>)
    ensures CourseOf(base, now, script) ==
      if base == [] then Course(0, base, 0) else CourseFrom(base, 0, now, script, 0)
  {
  }

  lemma AtCursor(all: seq<TimeJob>, base: seq<nat>, c: nat, now: nat)
    requires c < |all| == |base|
    ensures Kept(all, base, c, now) + all[c..] == Kept(all, base, c, now) + [all[c]] + all[c + 1..]
  {
    assert all[c..] == [all[c]] + all[c + 1..];
  }

  lemma RearmedMore(all: seq<TimeJob>, base: seq<nat>, c: nat, now: nat, made: seq<TimeJob>, more: seq<Request>)
    requires c <= |all| == |base| && Rearmed(all, base, c, now) && AllMade(made, more)
    ensures Rearmed(all + made, base + DueTimes(more), c, now)
  {
    var all', base' := all + made, base + DueTimes(more);
    forall k | 0 <= k < |base'|
      ensures all'[k].expire == if k < c && base'[k] <= now then now + all'[k].value else base'[k]
    {
      if k < |all| {
        var b := base[k];
        assert all'[k] == all[k];
      } else {
        assert all'[k] == made[k - |all|] && made[k - |all|].Made(more[k - |all|]);
      }
    }
  }

  lemma AnswersMore(all: seq<TimeJob>, base: seq<nat>, n: nat, asked: seq<Request>, made: seq<TimeJob>,
                    more: seq<Request>)
    requires |base| == |all| && Answers(all, base, n, asked) && |made| == |more|
    requires forall i :: 0 <= i < |more| ==> made[i].For(more[i])
    ensures Answers(all + made, base + DueTimes(more), n, asked + more)
  {
    var all', base', asked' := all + made, base + DueTimes(more), asked + more;
    forall i | 0 <= i < |asked'|
      ensures all'[n + i].For(asked'[i]) && base'[n + i] == asked'[i].clock + asked'[i].value
    {
      if i < |asked| {
        assert all'[n + i] == all[n + i] && base'[n + i] == base[n + i] && asked'[i] == asked[i];
      } else {
        var j := i - |asked|;
        assert all'[n + i] == made[j] && base'[n + i] == DueTimes(more)[j] && asked'[i] == more[j];
      }
    }
  }

  lemma NewAreMade(all: seq<TimeJob>, made: seq<TimeJob>)
    ensures forall k :: |all| <= k < |all + made| ==> (all + made)[k] in made
  {
  }

  /** A turn that does not fire. */
  lemma PassKeeps(jobs: seq<TimeJob>, all: seq<TimeJob>, base: seq<nat>, c: nat, now: nat, fired: seq<TimeJob>)
    requires Walking(jobs, all, base, c, now, fired) && c < |all| && now < base[c]
    ensures Walking(jobs, all, base, c + 1, now, fired)
  {
    assert all[c..] == [all[c]] + all[c + 1..];
  }

  /** A turn that fires. */
  lemma FireKeeps(jobs: seq<TimeJob>, jobs': seq<TimeJob>, all: seq<TimeJob>, base: seq<nat>, c: nat,
                  now: nat, fired: seq<TimeJob>, made: seq<TimeJob>, more: seq<nat>)
    requires Walking(jobs, all, base, c, now, fired) && c < |all| && base[c] <= now && |made| == |more|
    requires jobs' == Kept(all, base, c, now) + (if all[c].once then [] else [all[c]]) + all[c + 1..] + made
    requires Unique(jobs') && Unique(all + made)
    ensures Walking(jobs', all + made, base + more, c + 1, now, fired + [all[c]])
  {
    KeptFrame(all, base, c, now, made, more);
    Regroup(Kept(all, base, c, now) + if all[c].once then [] else [all[c]], all, c + 1, made);
  }

  lemma Regroup(left: seq<TimeJob>, all: seq<TimeJob>, c: nat, made: seq<TimeJob>)
    requires c <= |all|
    ensures left + all[c..] + made == left + (all + made)[c..]
  {
  }

  lemma AnswersLater(all: seq<TimeJob>, base: seq<nat>, n: nat, asked: seq<Request>, now: nat)
    requires |base| == |all| && Answers(all, base, n, asked) && forall r :: r in asked ==> Later(r, now)
    ensures forall k :: n <= k < |base| ==> now < base[k]
  {
    forall k | n <= k < |base| ensures now < base[k] {
      var r := asked[k - n];
      assert r in asked;
    }
  }

  lemma {:induction false} AskedLater(script: seq<seq<Request>>, count: nat, now: nat)
    requires Timely(script, now)
    ensures forall r :: r in Asked(script, count) ==> Later(r, now)
  {
    if count > 0 {
      AskedLater(script, count - 1, now);
      AskedStep(script, count - 1);
    }
  }

  lemma FireAnswers(all: seq<TimeJob>, base: seq<nat>, n: nat, script: seq<seq<Request>>, count: nat,
                    made: seq<TimeJob>, requests: seq<Request>)
    requires |base| == |all| && Answers(all, base, n, Asked(script, count))
    requires requests == (if count < |script| then script[count] else []) && AllMade(made, requests)
    ensures Answers(all + made, base + DueTimes(requests), n, Asked(script, count + 1))
  {
    AskedStep(script, count);
    AnswersMore(all, base, n, Asked(script, count), made, requests);
  }

  /** A turn that fires, all told. */
  lemma FireTrack(jobs: seq<TimeJob>, jobs': seq<TimeJob>, all: seq<TimeJob>, base: seq<nat>, n: nat, c: nat, now: nat,
                  script: seq<seq<Request>>, fired: seq<TimeJob>, made: seq<TimeJob>, requests: seq<Request>,
                  all': seq<TimeJob>, base': seq<nat>, fired': seq<TimeJob>, c': nat)
    requires Walking(jobs, all, base, c, now, fired) && c < |all| && base[c] <= now
    requires Answers(all, base, n, Asked(script, |fired|))
    requires jobs' == Kept(all, base, c, now) + (if all[c].once then [] else [all[c]]) + all[c + 1..] + made
    requires Unique(jobs') && Unique(all + made) && Rearmed(all, base, c + 1, now)
    requires requests == (if |fired| < |script| then script[|fired|] else []) && AllMade(made, requests)
    requires all' == all + made && base' == base + DueTimes(requests) && fired' == fired + [all[c]] && c' == c + 1
    ensures OnTrack(jobs', all', base', n, c', now, script, fired')
  {
    FireAnswers(all, base, n, script, |fired|, made, requests);
    FireKeeps(jobs, jobs', all, base, c, now, fired, made, DueTimes(requests));
    RearmedMore(all, base, c + 1, now, made, requests);
  }

  /** A turn that does not fire, all told. */
  lemma PassTrack(jobs: seq<TimeJob>, all: seq<TimeJob>, base: seq<nat>, n: nat, c: nat, now: nat,
                  script: seq<seq<Request>>, fired: seq<TimeJob>, c': nat)
    requires Walking(jobs, all, base, c, now, fired) && c < |all| && now < base[c] && c' == c + 1
    requires Answers(all, base, n, Asked(script, |fired|)) && Rearmed(all, base, c', now)
    ensures OnTrack(jobs, all, base, n, c', now, script, fired)
  {
    PassKeeps(jobs, all, base, c, now, fired);
  }

  lemma FireExtends(all: seq<TimeJob>, made: seq<TimeJob>, base: seq<nat>, more: seq<nat>)
    ensures Extends(all + made, all) && Extends(base + more, base)
    ensures forall k :: |all| <= k < |all + made| ==> (all + made)[k] in made
  {
    NewAreMade(all, made);
    ExtendsConcat(all, made);
    ExtendsConcat(base, more);
  }

  /** What the walk leaves, once the originals have all been visited. */
  lemma WalkEnds(jobs: seq<TimeJob>, orig: seq<TimeJob>, all: seq<TimeJob>, base0: seq<nat>, base: seq<nat>,
                 c: nat, now: nat, asked: seq<Request>, fired: seq<TimeJob>)
    requires Walking(jobs, all, base, c, now, fired) && Answers(all, base, |orig|, asked)
    requires forall r :: r in asked ==> Later(r, now)
    requires |base0| == |orig| <= c && Extends(all, orig) && Extends(base, base0)
    ensures jobs == Kept(orig, base0, |orig|, now) + all[|orig|..] && fired == Hit(orig, base0, |orig|, now)
  {
    AnswersLater(all, base, |orig|, asked, now);
    KeptTail(all, base, |orig|, c, now);
    ExtendsSplit(all, orig);
    ExtendsSplit(base, base0);
    KeptFrame(orig, base0, |orig|, now, all[|orig|..], base[|orig|..]);
  }

  lemma WalkEndsMade(n: nat, all: seq<TimeJob>, base: seq<nat>, c: nat, now: nat, asked: seq<Request>)
    requires |base| == |all| && Answers(all, base, n, asked) && Rearmed(all, base, c, now)
    requires forall r :: r in asked ==> Later(r, now)
    ensures AllMade(all[n..], asked)
  {
    AnswersLater(all, base, n, asked, now);
    forall i | 0 <= i < |asked| ensures all[n..][i].Made(asked[i]) {
      var r, b := asked[i], base[n + i];
      assert all[n..][i] == all[n + i];
    }
  }

  lemma WalkEndsRearmed(orig: seq<TimeJob>, all: seq<TimeJob>, base0: seq<nat>, base: seq<nat>, c: nat, now: nat)
    requires |base| == |all| && |base0| == |orig| <= c && Extends(all, orig) && Extends(base, base0)
    requires Rearmed(all, base, c, now)
    ensures forall k {:trigger base0[k]} :: 0 <= k < |base0| ==>
      orig[k].expire == if base0[k] <= now then now + orig[k].value else base0[k]
  {
    forall k | 0 <= k < |base0|
      ensures orig[k].expire == if base0[k] <= now then now + orig[k].value else base0[k]
    {
      assert orig[k] == all[k] && base0[k] == base[k];
    }
  }

  /** The course starts with the expiry times found. */
  lemma CourseBase(base: seq<nat>, now: nat, script: seq<seq<Request>>)
    ensures Extends(CourseOf(base, now, script).base, base)
  {
    if base != [] {
      CourseFromBase(base, 0, now, script, 0);
    }
  }

  lemma {:induction false} CourseFromBase(base: seq<nat>, c: nat, now: nat, script: seq<seq<Request>>, count: nat)
    requires c < |base|
    ensures Extends(CourseFrom(base, c, now, script, count).base, base)
    decreases if count < |script| then |script| - count else 0, |base| - c
  {
    if c + 1 < |base| {
      var base' := if base[c] <= now then base + DueTimes(NextAsked(script, count)) else base;
      CourseFromBase(base', c + 1, now, script, if base[c] <= now then count + 1 else count);
    }
  }

  /** What a walk does to one job. */
  lemma SeenBy(j: TimeJob, orig: seq<TimeJob>, added: seq<TimeJob>, base: seq<nat>, v: nat, now: nat,
               jobs: seq<TimeJob>, fired: seq<TimeJob>)
    requires Distinct(orig + added) && |orig| <= v <= |base| == |orig + added|
    requires fired == Hit(orig + added, base, v, now)
    requires jobs == Kept(orig + added, base, v, now) + (orig + added)[v..]
    requires j !in added
    ensures j !in orig ==> j !in fired && j !in jobs
    ensures forall k :: 0 <= k < |orig| && orig[k] == j ==>
      (j in fired <==> base[k] <= now) && (j in jobs <==> !(base[k] <= now && j.once))
  {
    var all := orig + added;
    KeptFrom(all, base, v, now);
    forall k | 0 <= k < |orig| && orig[k] == j
      ensures (j in fired <==> base[k] <= now) && (j in jobs <==> !(base[k] <= now && j.once))
    {
      assert all[k] == j;
      HitOf(all, base, v, now, k);
      assert j !in all[v..];
    }
  }

  /** The timer asked for is due only after `now`. */
  predicate Later(r: Request, now: nat) {
    now < r.clock + r.value
  }

  lemma DistinctConcat(a: seq<TimeJob>, b: seq<TimeJob>)
    requires Distinct(a) && Distinct(b) && forall x :: x in a ==> x !in b
    ensures Distinct(a + b)
  {
    forall i, j | 0 <= i < j < |a + b| ensures (a + b)[i] != (a + b)[j] {
      if i < |a| <= j {
        assert (a + b)[i] in a && (a + b)[j] in b;
      }
    }
  }

  /** The first job with this callback and first parameter is at `k`. */
  ghost predicate IsFirst(jobs: seq<TimeJob>, k: int, f: int, p: int) {
    && 0 <= k < |jobs| && jobs[k].func == f && jobs[k].param == p
    && forall i :: 0 <= i < k ==> jobs[i].func != f || jobs[i].param != p
  }

  const TWO32: nat := 0x1_0000_0000

  /** CTimeJobMgr */
  class TimeJobMgr {
    var jobs: seq<TimeJob>
    var latest: nat

    constructor ()
      ensures jobs == []
    {
      jobs, latest := [], 0;
    }

    method Begin(thread: nat, now: nat)
      modifies this`latest
      ensures latest == if thread == 0 then now else old(latest)
    {
      if thread != 0 {
        return;
      }
      latest := now;
    }

    /** add_time_job and add_time_node */
    method AddTimeJob(r: Request) returns (j: TimeJob)
      modifies this`jobs
      ensures fresh(j) && j.Made(r) && jobs == old(jobs) + [j]
      ensures j.func == r.func && j.param == r.param && j.value == r.value && j.once == r.once
      ensures j.expire == r.clock + r.value
    {
      j := new TimeJob(r);
      jobs := jobs + [j];
    }

    /** find_time_jobs: the first job with this callback and parameter, or null exactly if there is none. */
    method FindTimeJob(f: int, p: int) returns (j: TimeJob?)
      ensures j == null <==> forall x :: x in jobs ==> x.func != f || x.param != p
      ensures j != null ==> j.func == f && j.param == p
      ensures j != null ==> exists k ::
        0 <= k < |jobs| && jobs[k] == j && forall i :: 0 <= i < k ==> jobs[i].func != f || jobs[i].param != p
    {
      j := null;
      var i := 0;
      while i < |jobs|
        invariant 0 <= i <= |jobs|
        invariant forall k :: 0 <= k < i ==> jobs[k].func != f || jobs[k].param != p
      {
        if jobs[i].IsSelf(f, p) {
          return jobs[i];
        }
        i := i + 1;
      }
    }

    /** del_time_job: removes the first job with this callback and parameter, if there is one, and no other; so
        none with another parameter. */
    method DelTimeJob(f: int, p: int) returns (ok: bool)
      requires Distinct(jobs)
      modifies this`jobs
      ensures Distinct(jobs)
      ensures ok <==> exists x :: x in old(jobs) && x.func == f && x.param == p
      ensures !ok ==> jobs == old(jobs)
      ensures ok ==> exists k ::
        IsFirst(old(jobs), k, f, p) && jobs == old(jobs)[..k] + old(jobs)[k + 1..]
      ensures forall x :: x in old(jobs) && (x.func != f || x.param != p) ==> x in jobs
    {
      var j := FindTimeJob(f, p);
      if j == null {
        return false;
      }
      ghost var k :| 0 <= k < |jobs| && jobs[k] == j && IsFirst(jobs, k, f, p);
      RemoveAt(jobs, k);
      jobs := Remove(jobs, j);
      ok := true;
    }

    /** A callback: adds the timers it is scripted to add. */
    method Callback(requests: seq<Request>) returns (ghost made: seq<TimeJob>)
      modifies this`jobs
      ensures jobs == old(jobs) + made && AllMade(made, requests)
      ensures Distinct(made) && forall j :: j in made ==> fresh(j)
    {
      made := [];
      for k := 0 to |requests|
        invariant jobs == old(jobs) + made && AllMade(made, requests[..k])
        invariant Distinct(made) && forall j :: j in made ==> fresh(j)
      {
        var j := AddTimeJob(requests[k]);
        made := made + [j];
      }
    }

    /** The body of the walk for an expired job: re-arm it, call back, and drop it if it is a one-shot. */
    method Fire(job: TimeJob, now: nat, requests: seq<Request>, ghost pre: seq<TimeJob>, ghost post: seq<TimeJob>)
      returns (ghost made: seq<TimeJob>)
      requires jobs == pre + [job] + post && Distinct(jobs)
      modifies this`jobs, job
      ensures job.expire == now + job.value
      ensures jobs == pre + (if job.once then [] else [job]) + post + made && Distinct(jobs)
      ensures AllMade(made, requests) && Distinct(made) && forall j :: j in made ==> fresh(j)
    {
      ghost var was := jobs;
      MiddleApart(pre, job, post);
      job.UpdateExpiredTime(now);
      made := Callback(requests);
      assert forall j :: j in was ==> j !in made;
      DistinctConcat(was, made);
      assert jobs == pre + [job] + (post + made);
      MiddleApart(pre, job, post + made);
      if job.once {
        RemoveMiddle(pre, job, post + made);
        jobs := Remove(jobs, job);
        DistinctWithout(pre, job, post + made);
        assert jobs == pre + [] + post + made;
      }
    }

    /** One turn of the walk's loop: the iterator moves on before the job is looked at. */
    method Visit(job: TimeJob, now: nat, requests: seq<Request>, ghost pre: seq<TimeJob>, ghost post: seq<TimeJob>)
      returns (next: TimeJob?, hit: bool, ghost made: seq<TimeJob>)
      requires jobs == pre + [job] + post && Distinct(jobs)
      modifies this`jobs, job
      ensures next == if post == [] then null else post[0]
      ensures hit == old(job.IsExpired(now))
      ensures !hit ==> jobs == old(jobs) && job.expire == old(job.expire) && made == []
      ensures hit ==> job.expire == now + job.value && AllMade(made, requests)
      ensures hit ==> jobs == pre + (if job.once then [] else [job]) + post + made
      ensures Distinct(jobs) && Distinct(made) && forall j :: j in made ==> fresh(j)
    {
      assert jobs[|pre|] == job;
      SuccessorAt(jobs, |pre|);
      next := Successor(jobs, job);
      hit := job.IsExpired(now);
      made := [];
      if hit {
        made := Fire(job, now, requests, pre, post);
      }
    }

    /** The same turn, at position `c` of the walk. */
    method VisitAt(job: TimeJob, now: nat, requests: seq<Request>, ghost all: seq<TimeJob>, ghost base: seq<nat>,
                   ghost c: nat)
      returns (next: TimeJob?, hit: bool, ghost made: seq<TimeJob>)
      requires c < |all| == |base| && Unique(all) && Unique(jobs) && job == all[c]
      requires jobs == Kept(all, base, c, now) + all[c..] && Rearmed(all, base, c, now)
      modifies this`jobs, job
      ensures next == if c + 1 < |all| then all[c + 1] else null
      ensures hit == (base[c] <= now)
      ensures !hit ==> jobs == old(jobs) && made == []
      ensures hit ==> AllMade(made, requests)
      ensures hit ==> jobs == Kept(all, base, c, now) + (if job.once then [] else [job]) + all[c + 1..] + made
      ensures Unique(jobs) && Unique(all + made) && forall j :: j in made ==> fresh(j)
      ensures Rearmed(all, base, c + 1, now)
    {
      UniqueIsDistinct(jobs);
      UniqueIsDistinct(all);
      AtCursor(all, base, c, now);
      assert job.expire == base[c];
      next, hit, made := Visit(job, now, requests, Kept(all, base, c, now), all[c + 1..]);
      UniqueIsDistinct(jobs);
      assert forall x :: x in all ==> x !in made;
      DistinctConcat(all, made);
      UniqueIsDistinct(all + made);
    }

    /** The same turn, with the book-keeping of the whole walk. */
    method Turn(job: TimeJob, now: nat, script: seq<seq<Request>>, fired: seq<TimeJob>,
                ghost all: seq<TimeJob>, ghost base: seq<nat>, ghost n: nat, ghost c: nat)
      returns (next: TimeJob?, fired': seq<TimeJob>, ghost all': seq<TimeJob>, ghost base': seq<nat>, ghost c': nat)
      requires OnTrack(jobs, all, base, n, c, now, script, fired)
      requires n <= |all| && c < |all| && job == all[c]
      modifies this`jobs, job
      ensures c' == c + 1 && OnTrack(jobs, all', base', n, c', now, script, fired') && |all'| == |base'|
      ensures CursorAt(all', n, c', next)
      ensures base' == (if base[c] <= now then base + DueTimes(NextAsked(script, |fired|)) else base)
      ensures |fired'| == |fired| + if base[c] <= now then 1 else 0
      ensures next == null <==> c + 1 == |all|
      ensures Extends(all', all) && Extends(base', base)
      ensures forall k :: |all| <= k < |all'| ==> fresh(all'[k])
    {
      ghost var was := jobs;
      var requests := NextAsked(script, |fired|);
      var hit;
      ghost var made;
      next, hit, made := VisitAt(job, now, requests, all, base, c);
      c' := c + 1;
      if hit {
        all', base' := all + made, base + DueTimes(requests);
        FireExtends(all, made, base, DueTimes(requests));
        fired' := fired + [job];
        FireTrack(was, jobs, all, base, n, c, now, script, fired, made, requests, all', base', fired', c');
      } else {
        PassTrack(was, all, base, n, c, now, script, fired, c');
        fired', all', base' := fired, all, base;
      }
    }

    /** time_job_walk, for any callbacks.  The jobs met are those of the list it started with and then the added
        ones, in the order they were asked for; all of the first are visited, and of the others those that are
        in the list before the last callback (`CourseOf` says how many).  It fires exactly the visited jobs that
        are due when they are met, once each and in order; drops exactly the one-shots among them; sets each to
        the walk's time plus its value; and leaves the others alone.  When no added timer is due at the walk's
        own time (as with a clock that does not go back and values of at least one), it fires exactly the expired
        jobs of the list it started with, and none that a callback added. */
    method TimeJobWalk(now: nat, script: seq<seq<Request>>) returns (fired: seq<TimeJob>, ghost added: seq<TimeJob>)
      requires Distinct(jobs)
      modifies this`jobs, jobs
      ensures
        var all, w := old(jobs) + added, CourseOf(old(ExpiryTimes(jobs, |jobs|)), now, script);
        && |w.base| == |all| && Answers(all, w.base, |old(jobs)|, Asked(script, |fired|))
        && fired == Hit(all, w.base, w.visited, now) && |fired| == w.count
        && jobs == Kept(all, w.base, w.visited, now) + all[w.visited..]
        && Rearmed(all, w.base, w.visited, now)
      ensures Distinct(jobs) && Distinct(old(jobs) + added) && forall j :: j in added ==> fresh(j)
      ensures forall j :: j in old(jobs) ==>
        j.expire == if old(j.IsExpired(now)) then now + j.value else old(j.expire)
      ensures Timely(script, now) ==> fired == old(Due(jobs, |jobs|, now))
      ensures Timely(script, now) ==> jobs == old(Staying(jobs, |jobs|, now)) + added
      ensures Timely(script, now) ==> AllMade(added, Asked(script, |fired|))
    {
      ghost var orig, base0 := jobs, ExpiryTimes(jobs, |jobs|);
      KeptIsStaying(jobs, jobs, base0, |jobs|, now);
      UniqueIsDistinct(jobs);
      ghost var all, base, c;
      fired, all, base, c := WalkLoop(now, script, base0);
      added := all[|orig|..];
      ExtendsSplit(all, orig);
      UniqueIsDistinct(jobs);
      UniqueIsDistinct(all);
      WalkEndsRearmed(orig, all, base0, base, c, now);
      forall j | j in orig ensures j.expire == if old(j.IsExpired(now)) then now + j.value else old(j.expire) {
        var k :| 0 <= k < |orig| && orig[k] == j;
        var b := base0[k];
      }
      if Timely(script, now) {
        AskedLater(script, |fired|, now);
        WalkEnds(jobs, orig, all, base0, base, c, now, Asked(script, |fired|), fired);
        WalkEndsMade(|orig|, all, base, c, now, Asked(script, |fired|));
      }
    }

    /** run: only thread 0 walks, and only when the 32-bit difference between the clock and the start time
        (which no walk ever advances) is not zero. */
    method Run(thread: nat, now: nat, script: seq<seq<Request>>)
      returns (walked: bool, fired: seq<TimeJob>, ghost added: seq<TimeJob>)
      requires Distinct(jobs)
      modifies this`jobs, jobs
      ensures walked <==> thread == 0 && (now - latest) % 0x1_0000_0000 != 0
      ensures walked ==>
        var all, w := old(jobs) + added, CourseOf(old(ExpiryTimes(jobs, |jobs|)), now, script);
        && |w.base| == |all| && fired == Hit(all, w.base, w.visited, now)
        && jobs == Kept(all, w.base, w.visited, now) + all[w.visited..]
        && Rearmed(all, w.base, w.visited, now)
      ensures !walked ==> fired == [] && jobs == old(jobs)
      ensures !walked ==> forall j :: j in jobs ==> j.expire == old(j.expire)
    {
      walked, fired, added := false, [], [];
      if thread != 0 {
        return;
      }
      var elapsed := (now - latest) % TWO32;
      if elapsed >= 1 {
        fired, added := TimeJobWalk(now, script);
        walked := true;
      }
    }

    /** The loop itself. */
    method WalkLoop(now: nat, script: seq<seq<Request>>, ghost base0: seq<nat>)
      returns (fired: seq<TimeJob>, ghost all: seq<TimeJob>, ghost base: seq<nat>, ghost c: nat)
      requires Unique(jobs) && |base0| == |jobs| && Rearmed(jobs, base0, 0, now)
      modifies this`jobs, jobs
      ensures OnTrack(jobs, all, base, |base0|, c, now, script, fired)
      ensures Extends(all, old(jobs)) && Extends(base, base0) && |base0| <= c
      ensures CourseOf(base0, now, script) == Course(c, base, |fired|)
      ensures forall k :: |base0| <= k < |all| ==> fresh(all[k])
    {
      hide OnTrack, CourseOf, CourseFrom, DueTimes;
      ghost var orig := jobs;
      fired, all, base, c := [], jobs, base0, 0;
      TrackStarts(jobs, base0, now, script);
      CourseStarts(base0, now, script);
      var itr: TimeJob? := if jobs == [] then null else jobs[0];
      while itr != null
        invariant OnTrack(jobs, all, base, |base0|, c, now, script, fired)
        invariant |base0| <= |all| == |base| && c <= |all|
        invariant Extends(all, orig) && Extends(base, base0)
        invariant CursorAt(all, |base0|, c, itr)
        invariant itr != null ==> CourseFrom(base, c, now, script, |fired|) == CourseOf(base0, now, script)
        invariant itr == null ==> Course(c, base, |fired|) == CourseOf(base0, now, script)
        invariant forall k :: |base0| <= k < |all| ==> fresh(all[k])
        decreases if |fired| < |script| then |script| - |fired| else 0, |all| - c, itr != null
      {
        assert c < |base0| ==> orig[c] == itr;
        ghost var before, times, was := all, base, |fired|;
        itr, fired, all, base, c := Turn(itr, now, script, fired, all, base, |base0|, c);
        ExtendsTrans(all, before, orig);
        ExtendsTrans(base, times, base0);
        CourseStep(times, c - 1, now, script, was, base, |fired|);
        forall k | |base0| <= k < |all| ensures fresh(all[k]) {
          if k < |before| {
            assert all[k] == before[k];
          }
        }
      }
    }

    /** One walk, as job `j` sees it. */
    method WalkFor(j: TimeJob, now: nat, script: seq<seq<Request>>) returns (hit: bool)
      requires Distinct(jobs)
      modifies this`jobs, jobs
      ensures Distinct(jobs) && hit == old(j in jobs && j.IsExpired(now))
      ensures j in jobs <==> old(j in jobs) && !(hit && j.once)
      ensures old(j in jobs) ==> j.expire == if hit then now + j.value else old(j.expire)
      ensures forall i :: 0 <= i < |jobs| ==> jobs[i] in old(jobs) || fresh(jobs[i])
    {
      ghost var orig, w := jobs, CourseOf(ExpiryTimes(jobs, |jobs|), now, script);
      var fired, added := TimeJobWalk(now, script);
      hit := j in fired;
      ghost var all := orig + added;
      CourseBase(old(ExpiryTimes(jobs, |jobs|)), now, script);
      SeenBy(j, orig, added, w.base, w.visited, now, jobs, fired);
      KeptFrom(all, w.base, w.visited, now);
      forall i | 0 <= i < |jobs| ensures jobs[i] in old(jobs) || fresh(jobs[i]) {
        assert jobs[i] in all;
      }
    }

    /** Walking again and again, at the given times, whatever the callbacks add: job `j` fires at exactly
        the times that the arithmetic of re-arming gives. */
    method Walks(times: seq<nat>, scripts: seq<seq<seq<Request>>>, j: TimeJob) returns (fires: seq<nat>)
      requires Distinct(jobs) && j in jobs && |scripts| == |times|
      modifies this`jobs, jobs
      ensures fires == Firings(old(j.expire), j.value, j.once, times)
    {
      fires := [];
      ghost var all := Firings(j.expire, j.value, j.once, times);
      assert times[0..] == times;
      for k := 0 to |times|
        invariant Distinct(jobs)
        invariant forall i :: 0 <= i < |jobs| ==> jobs[i] in old(jobs) || fresh(jobs[i])
        invariant j in jobs ==> fires + Firings(j.expire, j.value, j.once, times[k..]) == all
        invariant j !in jobs ==> j.once && fires == all
      {
        ghost var was := fires;
        FiringsStep(j.expire, j.value, j.once, times, k);
        var hit := WalkFor(j, times[k], scripts[k]);
        if hit {
          fires := fires + [times[k]];
          assert was + ([times[k]] + Firings(j.expire, j.value, j.once, times[k + 1..]))
              == fires + Firings(j.expire, j.value, j.once, times[k + 1..]);
        }
      }
      assert times[|times|..] == [];
    }

    /** A timer that is added fires, over any walks and whatever the callbacks add, as one that is first due its
        value after the clock at which it was added. */
    method AddThenWalk(r: Request, times: seq<nat>, scripts: seq<seq<seq<Request>>>) returns (fires: seq<nat>)
      requires Distinct(jobs) && |scripts| == |times|
      modifies this`jobs, jobs
      ensures fires == Firings(r.clock + r.value, r.value, r.once, times)
    {
      ghost var before := jobs;
      var j := AddTimeJob(r);
      DistinctConcat(before, [j]);
      fires := Walks(times, scripts, j);
    }
  }
}
