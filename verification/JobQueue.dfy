/**
The job queue of the Lab 7 web crawler: any number of workers and of threads adding jobs, one
mutex and one condition variable.  Every step of a thread between two synchronisation points is
one step of the machine; the notification of add_job is a step of its own, after the unlock.
*/
module JobQueue {
  import opened Octets
  import opened Sequences
  import opened Runs

  const MAX_ATTEMPTS: nat := 16

  /** The memory the mutex protects. */
  datatype Shared = Shared(jobs: seq<string>, jcount: nat, status: seq<string>)

  function PushJob(m: Shared, s: string): Shared {
    m.(jobs := m.jobs + [s], jcount := m.jcount + 1)
  }

  function PopJob(m: Shared): Shared
    requires m.jobs != []
  {
    m.(jobs := m.jobs[1..])
  }

  function SetStatus(m: Shared, id: nat, msg: string): Shared {
    if id < |m.status| then m.(status := m.status[id := msg]) else m
  }

  /** Where a worker is.  signalled tells whether a notification woke it and it has not looked
      at the list since. */
  datatype Worker =
    | Working
    | Checking(signalled: bool)
    | Asleep
    | Woken(signalled: bool)
    | Holding(job: string)
    | Reporting(msg: string)
    | Exited

  datatype Adder =
    | Idle
    | Adding(job: string)
    | Pushed
    | Owing

  datatype Thread = WorkerThread(w: nat) | AdderThread(a: nat)

  /** taken lists the jobs in the order they left the queue, pushed in the order they came. */
  datatype State = State(workers: seq<Worker>, adders: seq<Adder>, lock: Option<Thread>, mem: Shared,
                         exited: bool, pushed: seq<string>, taken: seq<string>)

  datatype Step =
    | Lock(w: nat)
    | Relock(w: nat)
    | Take(w: nat)
    | Sleep(w: nat)
    | Unlock(w: nat)
    | SpuriousWakeup(w: nat)
    | LockStatus(w: nat, msg: string)
    | UnlockStatus(w: nat)
    | BeginAdd(a: nat, job: string)
    | Push(a: nat)
    | EndAdd(a: nat)
    | Notify(a: nat, target: Option<nat>)

  predicate Enabled(s: State, step: Step) {
    !s.exited &&
    match step
    case Lock(w) => w < |s.workers| && s.workers[w] == Working && s.lock == None
    case Relock(w) => w < |s.workers| && s.workers[w].Woken? && s.lock == None
    case Take(w) => w < |s.workers| && s.workers[w].Checking? && s.mem.jobs != []
    case Sleep(w) => w < |s.workers| && s.workers[w].Checking? && s.mem.jobs == []
    case Unlock(w) => w < |s.workers| && s.workers[w].Holding?
    case SpuriousWakeup(w) => w < |s.workers| && s.workers[w] == Asleep
    case LockStatus(w, _) => w < |s.workers| && s.workers[w] == Working && s.lock == None
    case UnlockStatus(w) => w < |s.workers| && s.workers[w].Reporting?
    case BeginAdd(a, _) => a < |s.adders| && s.adders[a] == Idle && s.lock == None
    case Push(a) => a < |s.adders| && s.adders[a].Adding?
    case EndAdd(a) => a < |s.adders| && s.adders[a] == Pushed
    case Notify(a, target) =>
      && a < |s.adders| && s.adders[a] == Owing
      && (target.Some? ==> target.value < |s.workers| && s.workers[target.value] == Asleep)
      && (target.None? ==> Asleep !in s.workers)
  }

  function Apply(s: State, step: Step): State
    requires Enabled(s, step)
  {
    match step
    case Lock(w) => s.(workers := s.workers[w := Checking(false)], lock := Some(WorkerThread(w)))
    case Relock(w) =>
      s.(workers := s.workers[w := Checking(s.workers[w].signalled)], lock := Some(WorkerThread(w)))
    case Take(w) =>
      s.(workers := s.workers[w := Holding(s.mem.jobs[0])], mem := PopJob(s.mem), taken := s.taken + [s.mem.jobs[0]])
    case Sleep(w) => s.(workers := s.workers[w := Asleep], lock := None)
    case Unlock(w) =>
      s.(workers := s.workers[w := if s.workers[w].job == "" then Exited else Working], lock := None)
    case SpuriousWakeup(w) => s.(workers := s.workers[w := Woken(false)])
    case LockStatus(w, msg) => s.(workers := s.workers[w := Reporting(msg)], lock := Some(WorkerThread(w)))
    case UnlockStatus(w) =>
      s.(workers := s.workers[w := Working], lock := None, mem := SetStatus(s.mem, w, s.workers[w].msg))
    case BeginAdd(a, job) => s.(adders := s.adders[a := Adding(job)], lock := Some(AdderThread(a)))
    case Push(a) =>
      var job := s.adders[a].job;
      s.(adders := s.adders[a := Pushed], mem := PushJob(s.mem, job), pushed := s.pushed + [job],
      exited := s.mem.jcount + 1 > MAX_ATTEMPTS)
    case EndAdd(a) => s.(adders := s.adders[a := Owing], lock := None)
    case Notify(a, target) =>
      s.(adders := s.adders[a := Idle],
      workers := if target.Some? then s.workers[target.value := Woken(true)] else s.workers)
  }

  ghost function Next(): (State, Step, State) -> bool {
    (s, step, t) => Enabled(s, step) && t == Apply(s, step)
  }

  ghost predicate Initial(s: State) {
    && (forall w :: 0 <= w < |s.workers| ==> s.workers[w] == Working)
    && (forall a :: 0 <= a < |s.adders| ==> s.adders[a] == Idle)
    && s.lock == None && !s.exited && s.mem.jobs == s.pushed == s.taken == [] && s.mem.jcount == 0
  }

  // ---------------------------------------------------------------------------------------
  // Mutual exclusion
  // ---------------------------------------------------------------------------------------

  predicate HoldsLock(s: State, t: Thread) {
    match t
    case WorkerThread(w) =>
      w < |s.workers| && (s.workers[w].Checking? || s.workers[w].Holding? || s.workers[w].Reporting?)
    case AdderThread(a) => a < |s.adders| && (s.adders[a].Adding? || s.adders[a].Pushed?)
  }

  ghost predicate Exclusive(s: State) {
    forall t :: HoldsLock(s, t) <==> s.lock == Some(t)
  }

  lemma ExclusiveKept(s: State, step: Step)
    requires Exclusive(s) && Enabled(s, step)
    ensures Exclusive(Apply(s, step))
  {
    var s' := Apply(s, step);
    forall t
      ensures HoldsLock(s', t) <==> s'.lock == Some(t)
    {
      assert HoldsLock(s, t) <==> s.lock == Some(t);
      match step {
        case Sleep(w) => assert HoldsLock(s, WorkerThread(w));
        case Unlock(w) => assert HoldsLock(s, WorkerThread(w));
        case UnlockStatus(w) => assert HoldsLock(s, WorkerThread(w));
        case EndAdd(a) => assert HoldsLock(s, AdderThread(a));
        case _ =>
      }
    }
  }

  // ---------------------------------------------------------------------------------------
  // No lost wakeup
  // ---------------------------------------------------------------------------------------

  predicate IsSignalled(w: Worker) {
    (w.Woken? && w.signalled) || (w.Checking? && w.signalled)
  }

  predicate OwesNotify(a: Adder) {
    a == Pushed || a == Owing
  }

  function Count<T>(xs: seq<T>, p: T -> bool): nat {
    if xs == [] then 0 else (if p(xs[0]) then 1 else 0) + Count(xs[1..], p)
  }

  lemma {:induction false} CountUpdate<T>(xs: seq<T>, p: T -> bool, i: nat, x: T)
    requires i < |xs|
    ensures Count(xs[i := x], p) + (if p(xs[i]) then 1 else 0) == Count(xs, p) + if p(x) then 1 else 0
  {
    if i > 0 {
      assert xs[i := x][1..] == xs[1..][i - 1 := x];
      CountUpdate(xs[1..], p, i - 1, x);
    } else {
      assert xs[i := x][1..] == xs[1..];
    }
  }

  lemma {:induction false} CountNone<T>(xs: seq<T>, p: T -> bool)
    requires forall x :: x in xs ==> !p(x)
    ensures Count(xs, p) == 0
  {
    if xs != [] {
      CountNone(xs[1..], p);
    }
  }

  lemma {:induction false} CountSome<T>(xs: seq<T>, p: T -> bool)
    requires Count(xs, p) > 0
    ensures exists i :: 0 <= i < |xs| && p(xs[i])
  {
    if !p(xs[0]) {
      CountSome(xs[1..], p);
      var i :| 0 <= i < |xs[1..]| && p(xs[1..][i]);
      assert p(xs[i + 1]);
    }
  }

  function Signalled(s: State): nat {
    Count(s.workers, IsSignalled)
  }

  function Owed(s: State): nat {
    Count(s.adders, OwesNotify)
  }

  /** While some worker sleeps, every queued job has a wakeup under way. */
  ghost predicate Covered(s: State) {
    Asleep in s.workers ==> |s.mem.jobs| <= Signalled(s) + Owed(s)
  }

  lemma CoveredKept(s: State, step: Step)
    requires Covered(s) && Enabled(s, step)
    ensures Covered(Apply(s, step))
  {
    var s' := Apply(s, step);
    if step.BeginAdd? || step.Push? || step.EndAdd? || step.Notify? {
      CountUpdate(s.adders, OwesNotify, step.a, s'.adders[step.a]);
      if step.Notify? && step.target.Some? {
        CountUpdate(s.workers, IsSignalled, step.target.value, Woken(true));
        assert s.workers[step.target.value] in s.workers;
      }
    } else {
      CountUpdate(s.workers, IsSignalled, step.w, s'.workers[step.w]);
      if Asleep in s'.workers && !step.Sleep? {
        var v :| 0 <= v < |s'.workers| && s'.workers[v] == Asleep;
        assert s.workers[v] == Asleep;
      }
    }
  }

  // ---------------------------------------------------------------------------------------
  // Every job exactly once, in order
  // ---------------------------------------------------------------------------------------

  /** What was pushed is what was taken followed by what is queued; the process ends itself with
      the seventeenth job. */
  ghost predicate Conserved(s: State) {
    && s.pushed == s.taken + s.mem.jobs
    && s.mem.jcount == |s.pushed|
    && (s.exited <==> s.mem.jcount > MAX_ATTEMPTS)
  }

  lemma ConservedKept(s: State, step: Step)
    requires Conserved(s) && Enabled(s, step)
    ensures Conserved(Apply(s, step))
  {
    match step
    case Take(w) => assert s.mem.jobs == [s.mem.jobs[0]] + s.mem.jobs[1..];
    case _ =>
  }

  ghost predicate Invariant(s: State) {
    Exclusive(s) && Covered(s) && Conserved(s)
  }

  lemma InvariantKept(s: State, step: Step)
    requires Invariant(s) && Enabled(s, step)
    ensures Invariant(Apply(s, step))
  {
    ExclusiveKept(s, step);
    CoveredKept(s, step);
    ConservedKept(s, step);
  }

  lemma InvariantIsPreserved()
    ensures Preserves(Next(), Invariant)
  {
    forall s, step, t | Invariant(s) && Next()(s, step, t)
      ensures Invariant(t)
    {
      InvariantKept(s, step);
    }
  }

  lemma InvariantAlong(r: Run<State, Step>)
    requires IsRun(Next(), r) && Initial(r.states[0])
    ensures Invariant(Last(r))
  {
    InvariantIsPreserved();
    HoldsAlong(Next(), Invariant, r, 0, |r.steps|);
  }

  /** No lost wakeup: in every reachable state, if some worker is asleep then there are at most
      as many queued jobs as signalled workers and notifications still owed. */
  lemma NoLostWakeup(r: Run<State, Step>)
    requires IsRun(Next(), r) && Initial(r.states[0])
    ensures var s := Last(r);
            Asleep in s.workers ==> |s.mem.jobs| <= Signalled(s) + Owed(s)
  {
    InvariantAlong(r);
  }

  /** The job thread a last came to add in the first n steps. */
  function Brought(steps: seq<Step>, a: nat, n: nat): string
    requires n <= |steps|
  {
    if n == 0 then ""
    else if steps[n - 1].BeginAdd? && steps[n - 1].a == a then steps[n - 1].job
    else Brought(steps, a, n - 1)
  }

  /** The jobs brought, in the order they were pushed in the first n steps. */
  function Offered(steps: seq<Step>, n: nat): seq<string>
    requires n <= |steps|
  {
    if n == 0 then []
    else Offered(steps, n - 1) + if steps[n - 1].Push? then [Brought(steps, steps[n - 1].a, n - 1)] else []
  }

  function HeldBy(s: State, w: nat): seq<string> {
    if w < |s.workers| && s.workers[w].Holding? then [s.workers[w].job] else []
  }

  /** The jobs workers hold right after they took one, in this order. */
  function Got(r: Run<State, Step>, n: nat): seq<string>
    requires n <= |r.steps| && n < |r.states|
  {
    if n == 0 then []
    else Got(r, n - 1) + if r.steps[n - 1].Take? then HeldBy(r.states[n], r.steps[n - 1].w) else []
  }

  ghost predicate AddsWhatItBrought(s: State, steps: seq<Step>, n: nat)
    requires n <= |steps|
  {
    forall a :: 0 <= a < |s.adders| && s.adders[a].Adding? ==> s.adders[a].job == Brought(steps, a, n)
  }

  lemma StepOfRun(r: Run<State, Step>, i: nat)
    requires IsRun(Next(), r) && i < |r.steps|
    ensures Enabled(r.states[i], r.steps[i]) && r.states[i + 1] == Apply(r.states[i], r.steps[i])
  {
    assert Next()(r.states[i], r.steps[i], r.states[i + 1]);
  }

  lemma {:induction false} BroughtAlong(r: Run<State, Step>, n: nat)
    requires IsRun(Next(), r) && Initial(r.states[0]) && n < |r.states|
    ensures AddsWhatItBrought(r.states[n], r.steps, n)
  {
    if n > 0 {
      BroughtAlong(r, n - 1);
      StepOfRun(r, n - 1);
    }
  }

  lemma TakenInStep(s: State, step: Step)
    requires Enabled(s, step)
    ensures var s' := Apply(s, step);
            (if step.Take? then HeldBy(s', step.w) else []) + s'.mem.jobs
            == s.mem.jobs + if step.Push? then [s.adders[step.a].job] else []
    ensures Apply(s, step).taken == s.taken + if step.Take? then HeldBy(Apply(s, step), step.w) else []
    ensures Apply(s, step).mem.jcount == s.mem.jcount + if step.Push? then 1 else 0
    ensures Apply(s, step).exited <==> Apply(s, step).mem.jcount > 16 && (step.Push? || s.exited)
  {
    assert step.Take? ==> s.mem.jobs == [s.mem.jobs[0]] + s.mem.jobs[1..];
  }

  lemma Shift(got: seq<string>, jobs: seq<string>, offered: seq<string>, taken: seq<string>, left: seq<string>, new_: seq<string>)
    requires got + jobs == offered && taken + left == jobs + new_
    ensures (got + taken) + left == offered + new_
  {
    Assoc(got, taken, left);
    Assoc(got, jobs, new_);
  }

  lemma JobsInStep(r: Run<State, Step>, i: nat)
    requires IsRun(Next(), r) && Initial(r.states[0]) && i < |r.steps|
    requires Got(r, i) + r.states[i].mem.jobs == Offered(r.steps, i) && r.states[i].taken == Got(r, i)
    ensures Got(r, i + 1) + r.states[i + 1].mem.jobs == Offered(r.steps, i + 1) && r.states[i + 1].taken == Got(r, i + 1)
  {
    BroughtAlong(r, i);
    StepOfRun(r, i);
    var s, step := r.states[i], r.steps[i];
    TakenInStep(s, step);
    Shift(Got(r, i), s.mem.jobs, Offered(r.steps, i),
          if step.Take? then HeldBy(r.states[i + 1], step.w) else [], r.states[i + 1].mem.jobs,
          if step.Push? then [s.adders[step.a].job] else []);
  }

  lemma CountInStep(r: Run<State, Step>, i: nat)
    requires IsRun(Next(), r) && i < |r.steps|
    requires r.states[i].mem.jcount == |Offered(r.steps, i)| && (r.states[i].exited <==> |Offered(r.steps, i)| > 16)
    ensures r.states[i + 1].mem.jcount == |Offered(r.steps, i + 1)|
    ensures r.states[i + 1].exited <==> |Offered(r.steps, i + 1)| > 16
    ensures |Offered(r.steps, i + 1)| <= 17
  {
    StepOfRun(r, i);
    TakenInStep(r.states[i], r.steps[i]);
  }

  /** What workers get, followed by what is queued, is what was brought. */
  lemma {:induction false} JobsAlong(r: Run<State, Step>, n: nat)
    requires IsRun(Next(), r) && Initial(r.states[0]) && n < |r.states|
    ensures Got(r, n) + r.states[n].mem.jobs == Offered(r.steps, n) && r.states[n].taken == Got(r, n)
    ensures r.states[n].mem.jcount == |Offered(r.steps, n)| <= 17
    ensures r.states[n].exited <==> |Offered(r.steps, n)| > 16
  {
    if n > 0 {
      JobsAlong(r, n - 1);
      JobsInStep(r, n - 1);
      CountInStep(r, n - 1);
    }
  }

  /** Workers get the jobs in the order they were pushed, each exactly once, and every job pushed
      and not yet got is in the list; the process ends itself with the seventeenth. */
  lemma FirstInFirstOut(r: Run<State, Step>)
    requires IsRun(Next(), r) && Initial(r.states[0])
    ensures var s, n := Last(r), |r.steps|;
            && Got(r, n) <= Offered(r.steps, n) && s.mem.jobs == Offered(r.steps, n)[|Got(r, n)|..]
            && (s.exited <==> |Offered(r.steps, n)| > 16) && |Offered(r.steps, n)| <= 17
    ensures Last(r).taken == Got(r, |r.steps|) && Last(r).pushed == Offered(r.steps, |r.steps|)
  {
    InvariantAlong(r);
    JobsAlong(r, |r.steps|);
  }

  ghost predicate LetsGoOfNothing(s: State, step: Step, w: nat) {
    step == Unlock(w) && w < |s.workers| && s.workers[w] == Holding("")
  }

  /** In the first n steps worker w let go of the mutex with an empty job. */
  ghost predicate HasLeft(r: Run<State, Step>, w: nat, n: nat)
    requires n <= |r.steps| <= |r.states|
  {
    exists i :: 0 <= i < n && LetsGoOfNothing(r.states[i], r.steps[i], w)
  }

  lemma HasLeftMore(r: Run<State, Step>, w: nat, i: nat)
    requires i < |r.steps| <= |r.states|
    ensures HasLeft(r, w, i + 1) <==> HasLeft(r, w, i) || LetsGoOfNothing(r.states[i], r.steps[i], w)
  {
  }

  lemma LeftInStep(s: State, step: Step, w: nat)
    requires Enabled(s, step) && w < |s.workers|
    ensures |Apply(s, step).workers| == |s.workers|
    ensures Apply(s, step).workers[w] == Exited <==> s.workers[w] == Exited || LetsGoOfNothing(s, step, w)
  {
  }

  /** A worker has left exactly when it has got an empty job and let go of the mutex. */
  lemma {:induction false} LeavesOnEmptyJob(r: Run<State, Step>, w: nat, n: nat)
    requires IsRun(Next(), r) && Initial(r.states[0]) && n < |r.states| && w < |r.states[0].workers|
    ensures |r.states[n].workers| == |r.states[0].workers|
    ensures r.states[n].workers[w] == Exited <==> HasLeft(r, w, n)
  {
    if n > 0 {
      LeavesOnEmptyJob(r, w, n - 1);
      StepOfRun(r, n - 1);
      LeftInStep(r.states[n - 1], r.steps[n - 1], w);
      HasLeftMore(r, w, n - 1);
    }
  }

  /** What worker w came to report last, and what it has reported. */
  function Reports(steps: seq<Step>, w: nat, n: nat): (string, string)
    requires n <= |steps|
  {
    if n == 0 then ("", "")
    else
      var before := Reports(steps, w, n - 1);
      match steps[n - 1]
      case LockStatus(v, msg) => if v == w then (msg, before.1) else before
      case UnlockStatus(v) => if v == w then (before.0, before.0) else before
      case _ => before
  }

  ghost predicate HasReported(s: State, w: nat, reports: (string, string)) {
    && w < |s.workers| && w < |s.mem.status| && s.mem.status[w] == reports.1
    && (s.workers[w].Reporting? ==> s.workers[w].msg == reports.0)
  }

  lemma ReportedInStep(s: State, step: Step, w: nat, reports: (string, string))
    requires Enabled(s, step) && HasReported(s, w, reports)
    ensures HasReported(Apply(s, step), w, match step
                                           case LockStatus(v, msg) => if v == w then (msg, reports.1) else reports
                                           case UnlockStatus(v) => if v == w then (reports.0, reports.0) else reports
                                           case _ => reports)
  {
  }

  /** Its status is the last message it has reported. */
  lemma {:induction false} StatusIsLastReport(r: Run<State, Step>, w: nat, n: nat)
    requires IsRun(Next(), r) && Initial(r.states[0]) && n < |r.states|
    requires w < |r.states[0].workers| && w < |r.states[0].mem.status| && r.states[0].mem.status[w] == ""
    ensures w < |r.states[n].mem.status| && r.states[n].mem.status[w] == Reports(r.steps, w, n).1
    ensures HasReported(r.states[n], w, Reports(r.steps, w, n))
  {
    if n > 0 {
      StatusIsLastReport(r, w, n - 1);
      StepOfRun(r, n - 1);
      ReportedInStep(r.states[n - 1], r.steps[n - 1], w, Reports(r.steps, w, n - 1));
    }
  }

  lemma AtMostOneInside(r: Run<State, Step>, t: Thread, u: Thread)
    requires IsRun(Next(), r) && Initial(r.states[0])
    requires HoldsLock(Last(r), t) && HoldsLock(Last(r), u)
    ensures t == u
  {
    InvariantAlong(r);
  }

  // ---------------------------------------------------------------------------------------
  // No stall
  // ---------------------------------------------------------------------------------------

  /** A step the system takes by itself: no new job, no wakeup without a notification. */
  predicate IsInternal(step: Step) {
    !step.BeginAdd? && !step.SpuriousWakeup?
  }

  ghost function NextInternal(): (State, Step, State) -> bool {
    (s, step, t) => Enabled(s, step) && t == Apply(s, step) && IsInternal(step)
  }

  /** The queue never stalls: when no thread can take a step by itself, either the list is
      empty or the workers have all left. */
  lemma BlockedMeansEmpty(r: Run<State, Step>)
    requires IsRun(Next(), r) && Initial(r.states[0]) && !Last(r).exited
    requires forall step :: Enabled(Last(r), step) ==> !IsInternal(step)
    ensures Last(r).mem.jobs == [] || forall w :: w in Last(r).workers ==> w == Exited
  {
    var s := Last(r);
    InvariantAlong(r);
    Unblocked(s);
    if Asleep in s.workers {
      CountNone(s.workers, IsSignalled);
      CountNone(s.adders, OwesNotify);
    }
  }

  /** Where everyone is when nothing internal is enabled. */
  lemma Unblocked(s: State)
    requires Invariant(s) && !s.exited
    requires forall step :: Enabled(s, step) ==> !IsInternal(step)
    ensures forall w :: w in s.workers ==> w == Asleep || w == Exited
    ensures forall a :: a in s.adders ==> a == Idle
  {
    if s.lock.Some? {
      assert HoldsLock(s, s.lock.value);
      match s.lock.value
      case WorkerThread(w) =>
        assert Enabled(s, Take(w)) || Enabled(s, Sleep(w)) || Enabled(s, Unlock(w)) || Enabled(s, UnlockStatus(w));
      case AdderThread(a) =>
        assert Enabled(s, Push(a)) || Enabled(s, EndAdd(a));
    }
    forall w: nat | w < |s.workers|
      ensures s.workers[w] == Asleep || s.workers[w] == Exited
    {
      assert !HoldsLock(s, WorkerThread(w));
      assert !Enabled(s, Lock(w)) && !Enabled(s, Relock(w));
    }
    forall a: nat | a < |s.adders|
      ensures s.adders[a] == Idle
    {
      assert !HoldsLock(s, AdderThread(a));
      if Asleep in s.workers {
        var w: nat :| w < |s.workers| && s.workers[w] == Asleep;
        assert !Enabled(s, Notify(a, Some(w)));
      } else {
        assert !Enabled(s, Notify(a, None));
      }
    }
  }

  // ---------------------------------------------------------------------------------------
  // Every queued job can be served
  // ---------------------------------------------------------------------------------------

  /** No thread adds an empty job, so no worker has reason to leave. */
  ghost predicate NoEmptyJobs(s: State) {
    && "" !in s.mem.jobs
    && Adding("") !in s.adders
    && Holding("") !in s.workers && Exited !in s.workers
  }

  lemma NoEmptyJobsKept(s: State, step: Step)
    requires NoEmptyJobs(s) && Enabled(s, step) && (step.BeginAdd? ==> step.job != "")
    ensures NoEmptyJobs(Apply(s, step))
  {
    var s' := Apply(s, step);
    forall w | w in s'.workers
      ensures w != Holding("") && w != Exited
    {
      if w !in s.workers {
        assert step.Take? ==> s.mem.jobs[0] in s.mem.jobs;
        assert step.Unlock? ==> s.workers[step.w] in s.workers;
      }
    }
    if step.Push? {
      assert s.adders[step.a] in s.adders;
    }
  }

  /** s can go on by itself to a state t with the same next job, or one that has taken it. */
  ghost predicate LeadsTo(s: State, t: State) {
    && Reaches(NextInternal(), s, t)
    && Invariant(t) && NoEmptyJobs(t) && |t.workers| == |s.workers|
  }

  lemma Go(s: State, step: Step) returns (t: State)
    requires Invariant(s) && NoEmptyJobs(s) && Enabled(s, step) && IsInternal(step)
    ensures t == Apply(s, step) && LeadsTo(s, t)
  {
    t := Apply(s, step);
    InvariantKept(s, step);
    NoEmptyJobsKept(s, step);
    OneStep(NextInternal(), s, step, t);
  }

  lemma Chain(s: State, t: State, u: State)
    requires LeadsTo(s, t) && LeadsTo(t, u)
    ensures LeadsTo(s, u)
  {
    Compose(NextInternal(), s, t, u);
  }

  ghost predicate Waiting(s: State) {
    Invariant(s) && NoEmptyJobs(s) && |s.workers| > 0 && !s.exited && s.mem.jobs != []
  }

  ghost predicate Serves(s: State, t: State)
    requires s.mem.jobs != []
  {
    t.exited || t.taken == s.taken + [s.mem.jobs[0]]
  }

  ghost predicate SameNextJob(s: State, t: State)
    requires s.mem.jobs != []
  {
    t.taken == s.taken && s.mem.jobs <= t.mem.jobs && !t.exited
  }

  /** Whoever holds the mutex lets go of it, or takes the job. */
  lemma FreeTheLock(s: State) returns (t: State)
    requires Waiting(s)
    ensures LeadsTo(s, t)
    ensures Serves(s, t) || (SameNextJob(s, t) && t.lock == None)
  {
    t := s;
    StayPut(NextInternal(), s);
    if s.lock.Some? {
      assert HoldsLock(s, s.lock.value);
      match s.lock.value {
        case WorkerThread(w) =>
          t := Go(s, if s.workers[w].Checking? then Take(w) else if s.workers[w].Holding? then Unlock(w) else UnlockStatus(w));
        case AdderThread(a) =>
          if s.adders[a].Adding? {
            t := Go(s, Push(a));
          }
          if !t.exited {
            var u := Go(t, EndAdd(a));
            Chain(s, t, u);
            t := u;
          }
      }
    }
  }

  /** With the mutex free some worker is ready to compete for it, if need be after a notification. */
  lemma WakeOne(s: State) returns (t: State, w: nat)
    requires Waiting(s) && s.lock == None
    ensures LeadsTo(s, t) && SameNextJob(s, t) && t.lock == None
    ensures w < |t.workers| && (t.workers[w] == Working || t.workers[w].Woken?)
  {
    t := s;
    StayPut(NextInternal(), s);
    if v: nat :| v < |s.workers| && (s.workers[v] == Working || s.workers[v].Woken?) {
      w := v;
    } else {
      forall v: nat | v < |s.workers|
        ensures s.workers[v] == Asleep
      {
        assert !HoldsLock(s, WorkerThread(v)) && s.workers[v] in s.workers;
      }
      w := 0;
      assert s.workers[0] in s.workers;
      CountNone(s.workers, IsSignalled);
      CountSome(s.adders, OwesNotify);
      var a: nat :| a < |s.adders| && OwesNotify(s.adders[a]);
      assert !HoldsLock(s, AdderThread(a));
      t := Go(s, Notify(a, Some(0)));
    }
  }

  /** From every reachable state with a queued job, the system can by itself go on to take the
      next job (or the process ends itself over the limit of attempts). */
  lemma NextJobCanBeServed(s: State) returns (t: State)
    requires Waiting(s)
    ensures Reaches(NextInternal(), s, t) && Serves(s, t)
  {
    t := FreeTheLock(s);
    if !Serves(s, t) {
      var woken, w := WakeOne(t);
      Chain(s, t, woken);
      var locked := Go(woken, if woken.workers[w] == Working then Lock(w) else Relock(w));
      Chain(s, woken, locked);
      t := Go(locked, Take(w));
      Chain(s, locked, t);
    }
  }

  // ---------------------------------------------------------------------------------------
  // The bodies of the critical sections, on the shared variables themselves
  // ---------------------------------------------------------------------------------------

  class Crawler {
    var jobs: seq<string>
    var jcount: nat
    var status: array<string>

    function View(): Shared
      reads this, status
    {
      Shared(jobs, jcount, status[..])
    }

    constructor ()
      ensures View() == Shared([], 0, ["", ""]) && fresh(status)
    {
      jobs, jcount := [], 0;
      status := new string[2](i => "");
      new;
      assert status[..] == ["", ""];
    }

    /** The worker's look at the list. */
    method TakeFront() returns (s: string, hasJob: bool)
      modifies this`jobs
      ensures hasJob <==> old(jobs) != []
      ensures if hasJob then s == old(jobs)[0] && View() == PopJob(old(View())) else s == "" && View() == old(View())
    {
      s, hasJob := "", false;
      if |jobs| > 0 {
        s := jobs[0];
        jobs := jobs[1..];
        hasJob := true;
      }
    }

    /** The locked part of add_job; exits tells that the process ends itself. */
    method AddJob(s: string) returns (exits: bool)
      modifies this`jobs, this`jcount
      ensures View() == PushJob(old(View()), s)
      ensures exits <==> old(jcount) >= MAX_ATTEMPTS
    {
      jobs := jobs + [s];
      jcount := jcount + 1;
      exits := jcount > MAX_ATTEMPTS;
    }
  }
}
