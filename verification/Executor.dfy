/**
 The bounded worker pool as atomic steps: transport/zenoh_transport.cpp, lines 81-148.
 Each step is one critical section of the mutex, one task body, or one wake-up.
 */
module Executor {
  import opened Common

  // Awake: about to take the mutex and test the wait predicate.
  // Parked: blocked on the condition variable.
  datatype Worker<T> = Awake | Parked | Running(task: T) | Exited

  // notified: the stopping thread has done its notify_all.
  // accepted, started and finished are the tasks so far, each in order of the event.
  datatype State<T> = State(
    capacity: nat,
    tasks: seq<T>,
    stopping: bool,
    notified: bool,
    workers: seq<Worker<T>>,
    accepted: seq<T>,
    started: seq<T>,
    finished: seq<T>)

  datatype Step<T> =
    | Submit(task: T, woken: Option<nat>)  // TrySubmit, with the worker notify_one picked
    | Enter(worker: nat)                   // one pass of Run through its critical section
    | Finish(worker: nat)                  // the task returns or throws
    | Spurious(worker: nat)                // the condition variable wakes for no reason
    | BeginStop                            // Stop's critical section
    | NotifyAll                            // Stop's notify_all, outside the mutex

  function Init<T>(threadCount: nat, capacity: nat): State<T> {
    State(Max(1, capacity), [], false, false, seq(Max(1, threadCount), _ => Awake), [], [], [])
  }

  predicate Rejects<T>(s: State<T>) {
    s.stopping || |s.tasks| >= s.capacity
  }

  predicate NoneParked<T>(workers: seq<Worker<T>>) {
    forall w :: 0 <= w < |workers| ==> !workers[w].Parked?
  }

  predicate AllExited<T>(s: State<T>) {
    forall w :: 0 <= w < |s.workers| ==> s.workers[w].Exited?
  }

  predicate Enabled<T>(s: State<T>, step: Step<T>) {
    match step
    case Submit(_, woken) =>
      Rejects(s) ||
      (match woken
       case None => NoneParked(s.workers)
       case Some(w) => w < |s.workers| && s.workers[w].Parked?)
    case Enter(w) => w < |s.workers| && s.workers[w].Awake?
    case Finish(w) => w < |s.workers| && s.workers[w].Running?
    case Spurious(w) => w < |s.workers| && s.workers[w].Parked?
    case BeginStop => true
    case NotifyAll => s.stopping && !s.notified
  }

  function Wake<T>(workers: seq<Worker<T>>, woken: Option<nat>): seq<Worker<T>>
    requires woken.Some? ==> woken.value < |workers|
  {
    if woken.Some? then workers[woken.value := Awake] else workers
  }

  function WakeAll<T>(workers: seq<Worker<T>>): (woken: seq<Worker<T>>)
    ensures |woken| == |workers|
  {
    seq(|workers|, w requires 0 <= w < |workers| => if workers[w].Parked? then Awake else workers[w])
  }

  function Apply<T>(s: State<T>, step: Step<T>): State<T>
    requires Enabled(s, step)
  {
    match step
    case Submit(task, woken) =>
      if Rejects(s) then s
      else s.(tasks := s.tasks + [task], accepted := s.accepted + [task], workers := Wake(s.workers, woken))
    case Enter(w) =>
      if s.stopping && s.tasks == [] then s.(workers := s.workers[w := Exited])
      else if s.tasks == [] then s.(workers := s.workers[w := Parked])
      else s.(tasks := s.tasks[1..], started := s.started + [s.tasks[0]],
              workers := s.workers[w := Running(s.tasks[0])])
    case Finish(w) =>
      s.(finished := s.finished + [s.workers[w].task], workers := s.workers[w := Awake])
    case Spurious(w) => s.(workers := s.workers[w := Awake])
    case BeginStop => s.(stopping := true)
    case NotifyAll => s.(notified := true, workers := WakeAll(s.workers))
  }

  // ----- Counting workers -----

  function AwakeCount<T>(workers: seq<Worker<T>>): nat {
    if workers == [] then 0 else AwakeCount(DropLast(workers)) + if Last(workers).Awake? then 1 else 0
  }

  function TaskOf<T>(w: Worker<T>): multiset<T> {
    if w.Running? then multiset{w.task} else multiset{}
  }

  function RunningTasks<T>(workers: seq<Worker<T>>): multiset<T> {
    if workers == [] then multiset{} else RunningTasks(DropLast(workers)) + TaskOf(Last(workers))
  }

  lemma {:induction false} AwakeUpdate<T>(workers: seq<Worker<T>>, i: nat, w: Worker<T>)
    requires i < |workers|
    ensures AwakeCount(workers[i := w]) + (if workers[i].Awake? then 1 else 0)
         == AwakeCount(workers) + (if w.Awake? then 1 else 0)
  {
    var next := workers[i := w];
    if i < |workers| - 1 {
      AwakeUpdate(DropLast(workers), i, w);
      assert DropLast(next) == DropLast(workers)[i := w];
    } else {
      assert DropLast(next) == DropLast(workers);
    }
  }

  lemma {:induction false} RunningUpdate<T>(workers: seq<Worker<T>>, i: nat, w: Worker<T>)
    requires i < |workers|
    ensures RunningTasks(workers[i := w]) + TaskOf(workers[i]) == RunningTasks(workers) + TaskOf(w)
  {
    var next := workers[i := w];
    if i < |workers| - 1 {
      RunningUpdate(DropLast(workers), i, w);
      assert DropLast(next) == DropLast(workers)[i := w];
      AddBoth(RunningTasks(DropLast(next)), TaskOf(workers[i]), RunningTasks(DropLast(workers)), TaskOf(w),
              TaskOf(Last(workers)));
    } else {
      assert DropLast(next) == DropLast(workers);
    }
  }

  lemma AddBoth<T>(a: multiset<T>, b: multiset<T>, c: multiset<T>, d: multiset<T>, e: multiset<T>)
    requires a + b == c + d
    ensures (a + e) + b == (c + e) + d
  {
    assert (a + e) + b == (a + b) + e;
    assert (c + e) + d == (c + d) + e;
  }

  // Replacing a worker that runs nothing by one that runs nothing
  lemma RunningSame<T>(workers: seq<Worker<T>>, i: nat, w: Worker<T>)
    requires i < |workers| && !workers[i].Running? && !w.Running?
    ensures RunningTasks(workers[i := w]) == RunningTasks(workers)
  {
    RunningUpdate(workers, i, w);
    assert RunningTasks(workers[i := w]) + multiset{} == RunningTasks(workers[i := w]);
    assert RunningTasks(workers) + multiset{} == RunningTasks(workers);
  }

  lemma {:induction false} RunningWakeAll<T>(workers: seq<Worker<T>>)
    ensures RunningTasks(WakeAll(workers)) == RunningTasks(workers)
  {
    if workers != [] {
      RunningWakeAll(DropLast(workers));
      assert DropLast(WakeAll(workers)) == WakeAll(DropLast(workers));
      assert TaskOf(Last(WakeAll(workers))) == TaskOf(Last(workers));
    }
  }

  lemma {:induction false} NothingRuns<T>(workers: seq<Worker<T>>)
    requires forall w :: 0 <= w < |workers| ==> !workers[w].Running?
    ensures RunningTasks(workers) == multiset{}
  {
    if workers != [] {
      NothingRuns(DropLast(workers));
    }
  }

  lemma {:induction false} SomeAwake<T>(workers: seq<Worker<T>>)
    requires AwakeCount(workers) > 0
    ensures exists w :: 0 <= w < |workers| && workers[w].Awake?
  {
    if Last(workers).Awake? {
      assert workers[|workers| - 1].Awake?;
    } else {
      SomeAwake(DropLast(workers));
      var w :| 0 <= w < |workers| - 1 && DropLast(workers)[w].Awake?;
      assert workers[w].Awake?;
    }
  }

  // ----- The invariant -----

  ghost predicate Inv<T>(s: State<T>) {
    && 1 <= s.capacity && 1 <= |s.workers| && |s.tasks| <= s.capacity
    && (s.notified ==> s.stopping)
    && NoLostWakeUp(s) && Stopped(s) && Conserved(s)
  }

  // While a worker is parked, the awake workers suffice for the queued tasks; after the
  // stopping notification none is parked.
  ghost predicate NoLostWakeUp<T>(s: State<T>) {
    && (!NoneParked(s.workers) ==> |s.tasks| <= AwakeCount(s.workers))
    && (s.notified ==> NoneParked(s.workers))
  }

  // A worker exits only when stopping with an empty queue.
  ghost predicate Stopped<T>(s: State<T>) {
    forall w :: 0 <= w < |s.workers| && s.workers[w].Exited? ==> s.stopping && s.tasks == []
  }

  // Tasks start once each, in submission order; those started are finished or running.
  ghost predicate Conserved<T>(s: State<T>) {
    && s.accepted == s.started + s.tasks
    && multiset(s.started) == multiset(s.finished) + RunningTasks(s.workers)
  }

  lemma {:induction false} AllAwake<T>(n: nat)
    ensures RunningTasks(seq<Worker<T>>(n, _ => Awake)) == multiset{}
  {
    NothingRuns(seq<Worker<T>>(n, _ => Awake));
  }

  lemma InitInv<T>(threadCount: nat, capacity: nat)
    ensures Inv(Init<T>(threadCount, capacity))
  {
    AllAwake<T>(Max(1, threadCount));
  }

  lemma StepWakeUp<T>(s: State<T>, step: Step<T>)
    requires Inv(s) && Enabled(s, step)
    ensures NoLostWakeUp(Apply(s, step))
  {
    var next := Apply(s, step);
    match step
    case Submit(_, woken) =>
      if woken.Some? && !Rejects(s) {
        AwakeUpdate(s.workers, woken.value, Awake);
      }
    case Enter(w) =>
      AwakeUpdate(s.workers, w, next.workers[w]);
      if s.tasks != [] && !NoneParked(next.workers) {
        var p :| 0 <= p < |next.workers| && next.workers[p].Parked?;
        assert s.workers[p].Parked?;
      }
    case Finish(w) =>
      AwakeUpdate(s.workers, w, Awake);
      if !NoneParked(next.workers) {
        var p :| 0 <= p < |next.workers| && next.workers[p].Parked?;
        assert s.workers[p].Parked?;
      }
    case Spurious(w) =>
      AwakeUpdate(s.workers, w, Awake);
    case BeginStop =>
    case NotifyAll =>
  }

  lemma StartSum<T>(s: multiset<T>, f: multiset<T>, r: multiset<T>, r': multiset<T>, task: T)
    requires s == f + r && r' + multiset{} == r + multiset{task}
    ensures s + multiset{task} == f + r'
  {
    assert r' == r + multiset{task} by {
      assert r' + multiset{} == r';
    }
  }

  lemma FinishSum<T>(s: multiset<T>, f: multiset<T>, r: multiset<T>, r': multiset<T>, task: T)
    requires s == f + r && r' + multiset{task} == r + multiset{}
    ensures s == (f + multiset{task}) + r'
  {
    assert r == r' + multiset{task} by {
      assert r + multiset{} == r;
    }
  }

  lemma StartConserved<T>(s: State<T>, w: nat)
    requires Inv(s) && Enabled(s, Enter(w)) && s.tasks != []
    ensures Conserved(Apply(s, Enter(w)))
  {
    var task := s.tasks[0];
    var next := s.workers[w := Running(task)];
    assert s.tasks == [task] + s.tasks[1..];
    Assoc(s.started, [task], s.tasks[1..]);
    RunningUpdate(s.workers, w, Running(task));
    StartSum(multiset(s.started), multiset(s.finished), RunningTasks(s.workers), RunningTasks(next), task);
    MultisetSnoc(s.started, task);
  }

  lemma FinishConserved<T>(s: State<T>, w: nat)
    requires Inv(s) && Enabled(s, Finish(w))
    ensures Conserved(Apply(s, Finish(w)))
  {
    var task := s.workers[w].task;
    var next := s.workers[w := Awake];
    RunningUpdate(s.workers, w, Awake);
    FinishSum(multiset(s.started), multiset(s.finished), RunningTasks(s.workers), RunningTasks(next), task);
    MultisetSnoc(s.finished, task);
  }

  lemma StepConserved<T>(s: State<T>, step: Step<T>)
    requires Inv(s) && Enabled(s, step)
    ensures Conserved(Apply(s, step))
  {
    match step
    case Submit(task, woken) =>
      Assoc(s.started, s.tasks, [task]);
      if woken.Some? && !Rejects(s) {
        RunningSame(s.workers, woken.value, Awake);
      }
    case Enter(w) =>
      if s.tasks == [] {
        RunningSame(s.workers, w, if s.stopping then Exited else Parked);
      } else {
        StartConserved(s, w);
      }
    case Finish(w) =>
      FinishConserved(s, w);
    case Spurious(w) =>
      RunningSame(s.workers, w, Awake);
    case BeginStop =>
    case NotifyAll =>
      RunningWakeAll(s.workers);
  }

  lemma StepStopped<T>(s: State<T>, step: Step<T>)
    requires Inv(s) && Enabled(s, step)
    ensures Stopped(Apply(s, step))
  {
    var next := Apply(s, step);
    forall w | 0 <= w < |next.workers| && next.workers[w].Exited?
      ensures next.stopping && next.tasks == []
    {
      if !s.workers[w].Exited? {
        assert step == Enter(w);
      }
    }
  }

  lemma StepInv<T>(s: State<T>, step: Step<T>)
    requires Inv(s) && Enabled(s, step)
    ensures Inv(Apply(s, step))
  {
    StepWakeUp(s, step);
    StepConserved(s, step);
    StepStopped(s, step);
  }

  // ----- Runs -----

  ghost predicate IsRun<T>(states: seq<State<T>>, steps: seq<Step<T>>) {
    && |states| == |steps| + 1
    && (exists threadCount, capacity :: states[0] == Init<T>(threadCount, capacity))
    && forall i :: 0 <= i < |steps| ==> Enabled(states[i], steps[i]) && states[i + 1] == Apply(states[i], steps[i])
  }

  lemma {:induction false} RunInv<T>(states: seq<State<T>>, steps: seq<Step<T>>, i: nat)
    requires IsRun(states, steps) && i < |states|
    ensures Inv(states[i])
  {
    if i == 0 {
      var threadCount, capacity :| states[0] == Init<T>(threadCount, capacity);
      InitInv<T>(threadCount, capacity);
    } else {
      RunInv(states, steps, i - 1);
      StepInv(states[i - 1], steps[i - 1]);
    }
  }

  lemma {:induction false} CapacityKept<T>(states: seq<State<T>>, steps: seq<Step<T>>, i: nat)
    requires IsRun(states, steps) && i < |states|
    ensures states[i].capacity == states[0].capacity >= 1
  {
    if i == 0 {
      RunInv(states, steps, 0);
    } else {
      CapacityKept(states, steps, i - 1);
    }
  }

  // In any reachable state a submission is accepted exactly when the pool is not stopping and
  // fewer tasks wait than the capacity it was made with.
  lemma AcceptsExactlyWhen<T>(states: seq<State<T>>, steps: seq<Step<T>>, i: nat, task: T, woken: Option<nat>)
    requires IsRun(states, steps) && i < |states| && Enabled(states[i], Submit(task, woken))
    ensures var next := Apply(states[i], Submit(task, woken));
            if !states[i].stopping && |states[i].tasks| < states[0].capacity then
              next.accepted == states[i].accepted + [task] && next.tasks == states[i].tasks + [task]
            else next == states[i]
  {
    CapacityKept(states, steps, i);
  }

  // Any tasks up to the capacity can be submitted, and all wait, before a worker takes one.
  lemma {:induction false} FillsToCapacity<T>(threadCount: nat, capacity: nat, tasks: seq<T>)
    returns (states: seq<State<T>>, steps: seq<Step<T>>)
    requires |tasks| <= if capacity == 0 then 1 else capacity
    ensures IsRun(states, steps) && states[0] == Init(threadCount, capacity) && |steps| == |tasks|
    ensures forall i :: 0 <= i < |steps| ==> steps[i] == Submit(tasks[i], None)
    ensures Last(states).tasks == tasks && Last(states).accepted == tasks
    ensures !Last(states).stopping && Last(states).workers == states[0].workers
    ensures states[0].capacity == if capacity == 0 then 1 else capacity
  {
    if tasks == [] {
      states, steps := [Init(threadCount, capacity)], [];
    } else {
      states, steps := FillsToCapacity(threadCount, capacity, DropLast(tasks));
      CapacityKept(states, steps, |states| - 1);
      Rejoin(tasks);
      states, steps := OneTaskMore(states, steps, Last(tasks));
    }
  }

  lemma OneTaskMore<T>(states: seq<State<T>>, steps: seq<Step<T>>, task: T)
    returns (states': seq<State<T>>, steps': seq<Step<T>>)
    requires IsRun(states, steps) && NoneParked(Last(states).workers)
    requires !Last(states).stopping && |Last(states).tasks| < Last(states).capacity
    ensures IsRun(states', steps') && steps' == steps + [Submit(task, None)] && states'[0] == states[0]
    ensures Last(states') == Last(states).(tasks := Last(states).tasks + [task],
                                           accepted := Last(states).accepted + [task])
  {
    var step := Submit(task, None);
    OneStepMore(states, steps, step);
    states', steps' := states + [Apply(Last(states), step)], steps + [step];
  }

  lemma OneStepMore<T>(states: seq<State<T>>, steps: seq<Step<T>>, step: Step<T>)
    requires IsRun(states, steps) && Enabled(Last(states), step)
    ensures IsRun(states + [Apply(Last(states), step)], steps + [step])
  {
    var more := states + [Apply(Last(states), step)];
    assert forall i :: 0 <= i < |states| ==> more[i] == states[i];
  }

  // Once Stop has begun nothing more is accepted.
  lemma {:induction false} NoneAcceptedAfterStop<T>(states: seq<State<T>>, steps: seq<Step<T>>, i: nat, j: nat)
    requires IsRun(states, steps) && i <= j < |states| && states[i].stopping
    ensures states[j].stopping && states[j].accepted == states[i].accepted
  {
    if i < j {
      NoneAcceptedAfterStop(states, steps, i, j - 1);
    }
  }

  // In every reachable state: no wake-up is lost, the queue keeps its bound, and every
  // accepted task has been started exactly once in submission order or still waits.
  lemma ReachableGuarantees<T>(states: seq<State<T>>, steps: seq<Step<T>>, i: nat)
    requires IsRun(states, steps) && i < |states|
    ensures |states[i].tasks| <= states[i].capacity
    ensures !NoneParked(states[i].workers) ==> |states[i].tasks| <= AwakeCount(states[i].workers)
    ensures states[i].notified ==> NoneParked(states[i].workers)
    ensures states[i].accepted == states[i].started + states[i].tasks
    ensures multiset(states[i].started) == multiset(states[i].finished) + RunningTasks(states[i].workers)
  {
    RunInv(states, steps, i);
  }

  // The first Stop call returns once every worker has been joined: by then every task ever
  // accepted has finished. An overlapping later call finds the flag set and returns at once,
  // so only the call for which BeginStopping reports first carries this guarantee.
  lemma DrainedWhenJoined<T>(states: seq<State<T>>, steps: seq<Step<T>>, i: nat)
    requires IsRun(states, steps) && i < |states| && AllExited(states[i])
    ensures states[i].stopping && states[i].tasks == []
    ensures states[i].started == states[i].accepted
    ensures multiset(states[i].finished) == multiset(states[i].accepted)
  {
    RunInv(states, steps, i);
    JoinedDrained(states[i]);
  }

  // At any time, everything accepted has finished exactly when no task waits and none runs.
  lemma FinishedExactlyWhen<T>(states: seq<State<T>>, steps: seq<Step<T>>, i: nat)
    requires IsRun(states, steps) && i < |states|
    ensures multiset(states[i].finished) == multiset(states[i].accepted)
       <==> (states[i].tasks == [] && forall w :: 0 <= w < |states[i].workers| ==> !states[i].workers[w].Running?)
  {
    var s := states[i];
    RunInv(states, steps, i);
    assert |multiset(s.accepted)| == |multiset(s.finished)| + |RunningTasks(s.workers)| + |s.tasks|;
    if s.tasks == [] {
      if forall w :: 0 <= w < |s.workers| ==> !s.workers[w].Running? {
        NothingRuns(s.workers);
      } else {
        var w :| 0 <= w < |s.workers| && s.workers[w].Running?;
        SomethingRuns(s.workers, w);
      }
    }
  }

  lemma {:induction false} SomethingRuns<T>(workers: seq<Worker<T>>, w: nat)
    requires w < |workers| && workers[w].Running?
    ensures |RunningTasks(workers)| > 0
  {
    if w < |workers| - 1 {
      SomethingRuns(DropLast(workers), w);
    }
  }

  // A pool that is stopping already, so that another Stop would return at once, can have a task
  // running and none finished.
  lemma StopMidway<T>(task: T) returns (states: seq<State<T>>, steps: seq<Step<T>>)
    ensures IsRun(states, steps)
    ensures var s := Last(states);
            && s.stopping && Apply(s, BeginStop) == s
            && s.workers == [Running(task)] && s.accepted == [task] && s.finished == []
  {
    var awake: Worker<T> := Awake;
    var s0 := Init<T>(1, 1);
    assert s0 == State(1, [], false, false, [awake], [], [], []);
    var s1 := State(1, [task], false, false, [awake], [task], [], []);
    var s2 := State(1, [], false, false, [Running(task)], [task], [task], []);
    assert s0.workers[0].Awake? && Apply(s0, Submit(task, None)) == s1;
    assert [awake][0 := Running(task)] == [Running(task)];
    assert Apply(s1, Enter(0)) == s2;
    states, steps := [s0, s1, s2, s2.(stopping := true)], [Submit(task, None), Enter(0), BeginStop];
  }

  lemma JoinedDrained<T>(s: State<T>)
    requires Inv(s) && AllExited(s)
    ensures s.stopping && s.tasks == [] && s.started == s.accepted
    ensures RunningTasks(s.workers) == multiset{}
    ensures multiset(s.finished) == multiset(s.accepted)
  {
    assert s.workers[0].Exited?;
    NothingRuns(s.workers);
  }

  // ----- Progress -----

  predicate WorkerStep<T>(step: Step<T>) {
    step.Enter? || step.Finish?
  }

  // A queued task, or a notified stop that is not over, always leaves some worker able to move.
  lemma NeverStuck<T>(s: State<T>)
    requires Inv(s)
    requires s.tasks != [] || (s.notified && !AllExited(s))
    ensures exists step :: WorkerStep(step) && Enabled(s, step)
  {
    // There is a worker, and had it exited no task would wait.
    assert s.workers[0].Exited? ==> s.stopping && s.tasks == [];
    if w :| 0 <= w < |s.workers| && s.workers[w].Awake? {
      assert WorkerStep<T>(Enter(w)) && Enabled(s, Enter(w));
    } else if w :| 0 <= w < |s.workers| && s.workers[w].Running? {
      assert WorkerStep<T>(Finish(w)) && Enabled(s, Finish(w));
    } else {
      if AwakeCount(s.workers) > 0 {
        SomeAwake(s.workers);
      }
    }
  }

  function RunningCount<T>(workers: seq<Worker<T>>): nat {
    if workers == [] then 0 else RunningCount(DropLast(workers)) + if Last(workers).Running? then 1 else 0
  }

  lemma {:induction false} RunningCountUpdate<T>(workers: seq<Worker<T>>, i: nat, w: Worker<T>)
    requires i < |workers|
    ensures RunningCount(workers[i := w]) + (if workers[i].Running? then 1 else 0)
         == RunningCount(workers) + (if w.Running? then 1 else 0)
  {
    var next := workers[i := w];
    if i < |workers| - 1 {
      RunningCountUpdate(DropLast(workers), i, w);
      assert DropLast(next) == DropLast(workers)[i := w];
    } else {
      assert DropLast(next) == DropLast(workers);
    }
  }

  // Worker steps still to come once Stop has notified
  function Remaining<T>(s: State<T>): nat {
    2 * |s.tasks| + AwakeCount(s.workers) + 2 * RunningCount(s.workers)
  }

  // After the notification every worker step brings the join closer and no other step
  // moves it away, so joining terminates when the tasks do.
  lemma StopTerminates<T>(s: State<T>, step: Step<T>)
    requires Inv(s) && s.notified && Enabled(s, step)
    ensures Apply(s, step).notified
    ensures WorkerStep(step) ==> Remaining(Apply(s, step)) < Remaining(s)
    ensures !WorkerStep(step) ==> Apply(s, step) == s
    ensures Remaining(s) == 0 ==> AllExited(s)
  {
    var next := Apply(s, step);
    match step
    case Enter(w) =>
      AwakeUpdate(s.workers, w, next.workers[w]);
      RunningCountUpdate(s.workers, w, next.workers[w]);
    case Finish(w) =>
      AwakeUpdate(s.workers, w, next.workers[w]);
      RunningCountUpdate(s.workers, w, next.workers[w]);
    case _ =>
    if Remaining(s) == 0 {
      ZeroCounts(s.workers);
    }
  }

  lemma {:induction false} ZeroCounts<T>(workers: seq<Worker<T>>)
    requires AwakeCount(workers) == 0 && RunningCount(workers) == 0
    ensures forall w :: 0 <= w < |workers| ==> workers[w].Parked? || workers[w].Exited?
  {
    if workers != [] {
      ZeroCounts(DropLast(workers));
      forall w | 0 <= w < |workers|
        ensures workers[w].Parked? || workers[w].Exited?
      {
        if w < |workers| - 1 {
          assert workers[w] == DropLast(workers)[w];
        }
      }
    }
  }

  // ----- The object -----

  class BoundedExecutor<T> {
    const capacity: nat
    var tasks: seq<T>
    var stopping: bool
    var workers: seq<Worker<T>>
    ghost var notified: bool
    ghost var accepted: seq<T>
    ghost var started: seq<T>
    ghost var finished: seq<T>

    ghost function View(): State<T>
      reads this
    {
      State(capacity, tasks, stopping, notified, workers, accepted, started, finished)
    }

    constructor (threadCount: nat, queueCapacity: nat)
      ensures View() == Init(threadCount, queueCapacity) && Inv(View())
      ensures capacity == (if queueCapacity == 0 then 1 else queueCapacity) && tasks == [] && !stopping
      ensures |workers| == if threadCount == 0 then 1 else threadCount
    {
      capacity := Max(1, queueCapacity);
      tasks, stopping := [], false;
      workers := seq(Max(1, threadCount), _ => Awake);
      notified, accepted, started, finished := false, [], [], [];
      new;
      InitInv<T>(threadCount, queueCapacity);
    }

    method TrySubmit(task: T) returns (ok: bool, ghost woken: Option<nat>)
      requires Inv(View())
      modifies this
      ensures ok <==> !old(stopping) && |old(tasks)| < capacity
      ensures tasks == if ok then old(tasks) + [task] else old(tasks)
      ensures accepted == if ok then old(accepted) + [task] else old(accepted)
      ensures Enabled(old(View()), Submit(task, woken))
      ensures View() == Apply(old(View()), Submit(task, woken)) && Inv(View())
    {
      ghost var before := View();
      woken := None;
      if stopping || |tasks| >= capacity {
        return false, woken;
      }
      tasks := tasks + [task];
      accepted := accepted + [task];
      if w :| 0 <= w < |workers| && workers[w].Parked? {
        workers := workers[w := Awake];
        woken := Some(w);
      }
      ok := true;
      StepInv(before, Submit(task, woken));
    }

    // The critical section of Run; done reports that the worker's thread returns.
    method EnterRun(w: nat) returns (task: Option<T>, done: bool)
      requires Inv(View()) && Enabled(View(), Enter(w))
      modifies this
      ensures View() == Apply(old(View()), Enter(w)) && Inv(View())
      ensures done <==> old(stopping) && old(tasks) == []
      ensures task == if old(tasks) == [] then None else Some(old(tasks)[0])
      ensures task.Some? ==> tasks == old(tasks)[1..] && workers == old(workers)[w := Running(task.value)]
      ensures task.None? ==> tasks == [] && workers == old(workers)[w := if done then Exited else Parked]
    {
      ghost var before := View();
      task, done := None, false;
      if stopping && |tasks| == 0 {
        workers := workers[w := Exited];
        done := true;
      } else if |tasks| == 0 {
        workers := workers[w := Parked];
      } else {
        task := Some(tasks[0]);
        started := started + [tasks[0]];
        workers := workers[w := Running(tasks[0])];
        tasks := tasks[1..];
      }
      StepInv(before, Enter(w));
    }

    method FinishTask(w: nat)
      requires Inv(View()) && Enabled(View(), Finish(w))
      modifies this
      ensures View() == Apply(old(View()), Finish(w)) && Inv(View())
      ensures workers == old(workers)[w := Awake] && finished == old(finished) + [old(workers)[w].task]
    {
      ghost var before := View();
      finished := finished + [workers[w].task];
      workers := workers[w := Awake];
      StepInv(before, Finish(w));
    }

    // Whether this call is the one that goes on to notify and join; any other returns here.
    method BeginStopping() returns (first: bool)
      requires Inv(View())
      modifies this
      ensures View() == Apply(old(View()), BeginStop) && Inv(View())
      ensures first <==> !old(stopping)
      ensures stopping && tasks == old(tasks) && workers == old(workers)
    {
      ghost var before := View();
      first := !stopping;
      stopping := true;
      StepInv(before, BeginStop);
    }

    method NotifyStopped()
      requires Inv(View()) && Enabled(View(), NotifyAll)
      modifies this
      ensures View() == Apply(old(View()), NotifyAll) && Inv(View())
      ensures notified && |workers| == |old(workers)|
      ensures forall w :: 0 <= w < |workers| ==>
                workers[w] == if old(workers)[w].Parked? then Awake else old(workers)[w]
    {
      ghost var before := View();
      notified := true;
      workers := WakeAll(workers);
      StepInv(before, NotifyAll);
    }
  }
}
