/**
 Replies to remote service queries, and closing the session:
 transport/zenoh_transport.cpp, lines 212-231 and 430-484.
 */
module ServiceQueue {
  import opened Common
  import opened Executor
  import E = Envelope

  datatype Query = Query(id: nat, payload: Option<seq<Byte>>)

  // How the handler ends: with a response, a refusal, a std::exception, or something else
  // thrown. sent: the reply or error sent for it goes out; if it does not, sending throws a
  // std::exception. rescued: the error sent from the catch clause goes out.
  datatype Outcome =
    | Responds(response: E.Envelope, sent: bool, rescued: bool)
    | Refuses(sent: bool, rescued: bool)
    | ThrowsStandard(rescued: bool)
    | ThrowsOther

  // An exception leaves the task body, for the worker's catch-all to swallow.
  predicate Escapes(outcome: Outcome) {
    match outcome
    case Responds(_, sent, rescued) => !sent && !rescued
    case Refuses(sent, rescued) => !sent && !rescued
    case ThrowsStandard(rescued) => !rescued
    case ThrowsOther => true
  }

  // immediate: queries refused in the callback itself; answered, refused and silent: queries
  // replied to, replied to with an error, and finished without any reply
  datatype Service = Service(
    pool: State<nat>,
    sessionOpen: bool,
    arrived: seq<nat>,
    immediate: seq<nat>,
    answered: seq<nat>,
    refused: seq<nat>,
    silent: seq<nat>,
    decodeErrors: nat,
    queueDrops: nat)

  datatype ServiceStep =
    | Arrive(query: Query, woken: Option<nat>, sent: bool)  // sent: an immediate error goes out
    | Complete(worker: nat, outcome: Outcome)
    | Pool(step: Step<nat>)
    | CloseSession

  function Open(threadCount: nat, capacity: nat): Service {
    Service(Init(threadCount, capacity), true, [], [], [], [], [], 0, 0)
  }

  ghost predicate WellFormed(q: Query) {
    q.payload.Some? && E.Accepts(q.payload.value)
  }

  ghost predicate Admits(s: Service, q: Query) {
    WellFormed(q) && !Rejects(s.pool)
  }

  // The session closes only after the pool has been stopped and joined.
  ghost predicate Enabled(s: Service, step: ServiceStep) {
    match step
    case Arrive(q, woken, _) => s.sessionOpen && (Admits(s, q) ==> Executor.Enabled(s.pool, Submit(q.id, woken)))
    case Complete(w, _) => Executor.Enabled(s.pool, Finish(w))
    case Pool(p) => (p.Enter? || p.Spurious? || p.BeginStop? || p.NotifyAll?) && Executor.Enabled(s.pool, p)
    case CloseSession => AllExited(s.pool)
  }

  function Reply(s: Service, id: nat, outcome: Outcome): Service {
    if Escapes(outcome) then s.(silent := s.silent + [id])
    else if outcome.Responds? && outcome.sent && E.Encodable(outcome.response) then
      s.(answered := s.answered + [id])
    else s.(refused := s.refused + [id])
  }

  ghost function Apply(s: Service, step: ServiceStep): Service
    requires Enabled(s, step)
  {
    match step
    case Arrive(q, woken, sent) =>
      var seen := s.(arrived := s.arrived + [q.id]);
      if Admits(s, q) then
        seen.(pool := Executor.Apply(s.pool, Submit(q.id, woken)))
      else
        var settled := if sent then seen.(refused := s.refused + [q.id]) else seen.(silent := s.silent + [q.id]);
        settled.(immediate := s.immediate + [q.id],
                 decodeErrors := s.decodeErrors + if q.payload.Some? && !WellFormed(q) then 1 else 0,
                 queueDrops := s.queueDrops + if WellFormed(q) then 1 else 0)
    case Complete(w, outcome) =>
      Reply(s.(pool := Executor.Apply(s.pool, Finish(w))), s.pool.workers[w].task, outcome)
    case Pool(p) => s.(pool := Executor.Apply(s.pool, p))
    case CloseSession => s.(sessionOpen := false)
  }

  // Queries over and done with
  ghost function Settled(s: Service): multiset<nat> {
    multiset(s.answered) + multiset(s.refused) + multiset(s.silent)
  }

  ghost predicate Inv(s: Service) {
    && Executor.Inv(s.pool)
    && multiset(s.arrived) == multiset(s.immediate) + multiset(s.pool.accepted)
    && Settled(s) == multiset(s.immediate) + multiset(s.pool.finished)
    && (!s.sessionOpen ==> AllExited(s.pool))
  }

  lemma OpenInv(threadCount: nat, capacity: nat)
    ensures Inv(Open(threadCount, capacity))
  {
    InitInv<nat>(threadCount, capacity);
  }

  lemma AddOne(a: multiset<nat>, b: multiset<nat>, c: multiset<nat>, x: nat)
    requires a == b + c
    ensures a + multiset{x} == b + (c + multiset{x})
    ensures a + multiset{x} == (b + multiset{x}) + c
  {
  }

  lemma SettledOneMore(s: Service, id: nat)
    ensures Settled(s.(answered := s.answered + [id])) == Settled(s) + multiset{id}
    ensures Settled(s.(refused := s.refused + [id])) == Settled(s) + multiset{id}
    ensures Settled(s.(silent := s.silent + [id])) == Settled(s) + multiset{id}
  {
    MultisetSnoc(s.answered, id);
    MultisetSnoc(s.refused, id);
    MultisetSnoc(s.silent, id);
    SumOneMore(multiset(s.answered), multiset(s.refused), multiset(s.silent), id);
  }

  lemma SumOneMore(a: multiset<nat>, b: multiset<nat>, c: multiset<nat>, x: nat)
    ensures (a + multiset{x}) + b + c == a + b + c + multiset{x}
    ensures a + (b + multiset{x}) + c == a + b + c + multiset{x}
    ensures a + b + (c + multiset{x}) == a + b + c + multiset{x}
  {
  }

  lemma ArriveInv(s: Service, q: Query, woken: Option<nat>, sent: bool)
    requires Inv(s) && Enabled(s, Arrive(q, woken, sent))
    ensures Inv(Apply(s, Arrive(q, woken, sent)))
  {
    MultisetSnoc(s.arrived, q.id);
    AddOne(multiset(s.arrived), multiset(s.immediate), multiset(s.pool.accepted), q.id);
    if Admits(s, q) {
      StepInv(s.pool, Submit(q.id, woken));
      MultisetSnoc(s.pool.accepted, q.id);
    } else {
      MultisetSnoc(s.immediate, q.id);
      SettledOneMore(s, q.id);
      AddOne(Settled(s), multiset(s.immediate), multiset(s.pool.finished), q.id);
    }
  }

  lemma ReplySettles(s: Service, id: nat, outcome: Outcome)
    ensures Settled(Reply(s, id, outcome)) == Settled(s) + multiset{id}
  {
    SettledOneMore(s, id);
  }

  lemma CompleteInv(s: Service, w: nat, outcome: Outcome)
    requires Inv(s) && Enabled(s, Complete(w, outcome))
    ensures Inv(Apply(s, Complete(w, outcome)))
  {
    var id := s.pool.workers[w].task;
    var pool := Executor.Apply(s.pool, Finish(w));
    assert Executor.Inv(pool) && pool.accepted == s.pool.accepted && !AllExited(s.pool) by {
      StepInv(s.pool, Finish(w));
    }
    MultisetSnoc(s.pool.finished, id);
    assert multiset(pool.finished) == multiset(s.pool.finished) + multiset{id};
    AddOne(Settled(s), multiset(s.immediate), multiset(s.pool.finished), id);
    ReplySettles(s.(pool := pool), id, outcome);
    ReplyKeeps(s.(pool := pool), id, outcome);
  }

  lemma ReplyKeeps(s: Service, id: nat, outcome: Outcome)
    ensures var r := Reply(s, id, outcome);
            r.pool == s.pool && r.sessionOpen == s.sessionOpen && r.arrived == s.arrived && r.immediate == s.immediate
  {
  }

  lemma PoolInv(s: Service, p: Step<nat>)
    requires Inv(s) && Enabled(s, Pool(p))
    ensures Inv(Apply(s, Pool(p)))
  {
    StepInv(s.pool, p);
    PoolKeeps(s.pool, p);
  }

  lemma PoolKeeps(pool: State<nat>, p: Step<nat>)
    requires Executor.Enabled(pool, p) && !p.Submit? && !p.Finish?
    ensures var next := Executor.Apply(pool, p);
            next.accepted == pool.accepted && next.finished == pool.finished && (AllExited(pool) ==> AllExited(next))
  {
  }

  lemma StepInvariant(s: Service, step: ServiceStep)
    requires Inv(s) && Enabled(s, step)
    ensures Inv(Apply(s, step))
  {
    match step
    case Arrive(q, woken, sent) => ArriveInv(s, q, woken, sent);
    case Complete(w, outcome) => CompleteInv(s, w, outcome);
    case Pool(p) => PoolInv(s, p);
    case CloseSession =>
  }

  ghost predicate IsRun(states: seq<Service>, steps: seq<ServiceStep>) {
    && |states| == |steps| + 1
    && (exists threadCount, capacity :: states[0] == Open(threadCount, capacity))
    && forall i :: 0 <= i < |steps| ==> Enabled(states[i], steps[i]) && states[i + 1] == Apply(states[i], steps[i])
  }

  lemma {:induction false} RunInv(states: seq<Service>, steps: seq<ServiceStep>, i: nat)
    requires IsRun(states, steps) && i < |states|
    ensures Inv(states[i])
  {
    if i == 0 {
      var threadCount, capacity :| states[0] == Open(threadCount, capacity);
      OpenInv(threadCount, capacity);
    } else {
      RunInv(states, steps, i - 1);
      StepInvariant(states[i - 1], steps[i - 1]);
    }
  }

  ghost predicate DistinctIds(ids: seq<nat>) {
    forall i, j :: 0 <= i < j < |ids| ==> ids[i] != ids[j]
  }

  lemma {:induction false} DistinctCount(ids: seq<nat>, id: nat)
    requires DistinctIds(ids)
    ensures multiset(ids)[id] == if id in ids then 1 else 0
  {
    if ids != [] {
      DistinctCount(DropLast(ids), id);
      Rejoin(ids);
      MultisetSnoc(DropLast(ids), Last(ids));
    }
  }

  // Replies of either kind to the query
  ghost function ReplyCount(s: Service, id: nat): nat {
    multiset(s.answered)[id] + multiset(s.refused)[id]
  }

  // No query is ever replied to twice.
  lemma NeverTwoReplies(states: seq<Service>, steps: seq<ServiceStep>, i: nat, id: nat)
    requires IsRun(states, steps) && i < |states| && DistinctIds(states[i].arrived)
    ensures ReplyCount(states[i], id) <= 1
    ensures id !in states[i].arrived ==> ReplyCount(states[i], id) == 0
  {
    var s := states[i];
    RunInv(states, steps, i);
    DistinctCount(s.arrived, id);
    FinishedWithinAccepted(s.pool, id);
    assert Settled(s)[id] <= multiset(s.arrived)[id];
  }

  lemma FinishedWithinAccepted(p: State<nat>, id: nat)
    requires Executor.Inv(p)
    ensures multiset(p.finished)[id] <= multiset(p.accepted)[id]
  {
    assert multiset(p.accepted) == multiset(p.started) + multiset(p.tasks);
    assert multiset(p.started)[id] == multiset(p.finished)[id] + RunningTasks(p.workers)[id];
  }

  // This step leaves the query without a reply for good: an exception escapes its task, or the
  // error for a query refused at once does not go out.
  ghost predicate Abandons(s: Service, step: ServiceStep, id: nat) {
    match step
    case Complete(w, outcome) => Escapes(outcome) && w < |s.pool.workers| && s.pool.workers[w] == Running(id)
    case Arrive(q, _, sent) => !Admits(s, q) && !sent && q.id == id
    case _ => false
  }

  // One of the first i steps of the run does.
  ghost predicate Abandoned(states: seq<Service>, steps: seq<ServiceStep>, i: nat, id: nat)
    requires i <= |steps| && i <= |states|
  {
    exists j :: 0 <= j < i && Abandons(states[j], steps[j], id)
  }

  lemma SilentStep(s: Service, step: ServiceStep, id: nat)
    requires Enabled(s, step)
    ensures id in Apply(s, step).silent <==> id in s.silent || Abandons(s, step, id)
  {
    match step
    case Complete(w, outcome) =>
      var task := s.pool.workers[w].task;
      assert id in s.silent + [task] <==> id in s.silent || id == task;
    case Arrive(q, _, _) =>
      assert id in s.silent + [q.id] <==> id in s.silent || id == q.id;
    case _ =>
  }

  // A query is finished without a reply exactly when a step of the run abandoned it.
  lemma {:induction false} SilentOnlyIfAbandoned(states: seq<Service>, steps: seq<ServiceStep>, i: nat, id: nat)
    requires IsRun(states, steps) && i < |states|
    ensures id in states[i].silent <==> Abandoned(states, steps, i, id)
  {
    if i > 0 {
      SilentOnlyIfAbandoned(states, steps, i - 1, id);
      SilentStep(states[i - 1], steps[i - 1], id);
    }
  }

  // When the session may close, every query that arrived has had exactly one reply or error,
  // unless a step of the run abandoned it: then it has had none.
  lemma OneReplyBeforeClose(states: seq<Service>, steps: seq<ServiceStep>, i: nat, id: nat)
    requires IsRun(states, steps) && i < |states| && DistinctIds(states[i].arrived)
    requires Enabled(states[i], CloseSession) || !states[i].sessionOpen
    requires id in states[i].arrived
    ensures ReplyCount(states[i], id) == 1 <==> !Abandoned(states, steps, i, id)
    ensures ReplyCount(states[i], id) == 0 <==> Abandoned(states, steps, i, id)
  {
    var s := states[i];
    RunInv(states, steps, i);
    JoinedDrained(s.pool);
    DistinctCount(s.arrived, id);
    SilentOnlyIfAbandoned(states, steps, i, id);
    assert Settled(s)[id] == multiset(s.arrived)[id] == 1;
    assert multiset(s.silent)[id] > 0 <==> id in s.silent;
  }

  // ----- Answers, errors and counters -----

  // In this step the query's handler responds and the response is sent.
  ghost predicate Answers(s: Service, step: ServiceStep, id: nat) {
    && step.Complete? && step.worker < |s.pool.workers| && s.pool.workers[step.worker] == Running(id)
    && step.outcome.Responds? && step.outcome.sent && E.Encodable(step.outcome.response)
  }

  lemma AnswerStep(s: Service, step: ServiceStep, id: nat)
    requires Enabled(s, step)
    ensures id in Apply(s, step).answered <==> id in s.answered || Answers(s, step, id)
  {
    match step
    case Complete(w, outcome) =>
      var task := s.pool.workers[w].task;
      assert id in s.answered + [task] <==> id in s.answered || id == task;
    case _ =>
  }

  // A query is answered with a response exactly when its handler gave one that could be encoded
  // and sent; everything else that is replied to gets an error.
  lemma {:induction false} AnsweredExactlyWhen(states: seq<Service>, steps: seq<ServiceStep>, i: nat, id: nat)
    requires IsRun(states, steps) && i < |states|
    ensures id in states[i].answered <==> exists j :: 0 <= j < i && Answers(states[j], steps[j], id)
  {
    if i > 0 {
      AnsweredExactlyWhen(states, steps, i - 1, id);
      AnswerStep(states[i - 1], steps[i - 1], id);
    }
  }

  // In this step an error goes out for the query: from the callback for one it cannot queue,
  // for a response that cannot be encoded, for a refusal, or from the catch clause.
  ghost predicate ErrorSent(s: Service, step: ServiceStep, id: nat) {
    match step
    case Arrive(q, _, sent) =>
      && q.id == id && sent
      && (s.pool.stopping || |s.pool.tasks| >= s.pool.capacity || q.payload.None? || !E.Accepts(q.payload.value))
    case Complete(w, outcome) =>
      && w < |s.pool.workers| && s.pool.workers[w] == Running(id)
      && (match outcome
          case Responds(response, sent, rescued) => if sent then !E.Encodable(response) else rescued
          case Refuses(sent, rescued) => sent || rescued
          case ThrowsStandard(rescued) => rescued
          case ThrowsOther => false)
    case _ => false
  }

  lemma ErrorStep(s: Service, step: ServiceStep, id: nat)
    requires Enabled(s, step)
    ensures id in Apply(s, step).refused <==> id in s.refused || ErrorSent(s, step, id)
  {
    match step
    case Arrive(q, _, _) =>
      assert id in s.refused + [q.id] <==> id in s.refused || id == q.id;
    case Complete(w, outcome) =>
      var task := s.pool.workers[w].task;
      assert id in s.refused + [task] <==> id in s.refused || id == task;
    case _ =>
  }

  // A query is replied to with an error exactly when some step sent one.
  lemma {:induction false} RefusedExactlyWhen(states: seq<Service>, steps: seq<ServiceStep>, i: nat, id: nat)
    requires IsRun(states, steps) && i < |states|
    ensures id in states[i].refused <==> exists j :: 0 <= j < i && ErrorSent(states[j], steps[j], id)
  {
    if i > 0 {
      RefusedExactlyWhen(states, steps, i - 1, id);
      ErrorStep(states[i - 1], steps[i - 1], id);
    }
  }

  // Queries so far whose bytes are there but do not decode
  ghost function Undecodable(steps: seq<ServiceStep>): nat {
    if steps == [] then 0
    else
      var step := Last(steps);
      Undecodable(DropLast(steps))
      + if step.Arrive? && step.query.payload.Some? && !E.Accepts(step.query.payload.value) then 1 else 0
  }

  // Well-formed queries so far that met a stopping or full pool
  ghost function TurnedAway(states: seq<Service>, steps: seq<ServiceStep>): nat
    requires |states| >= |steps|
  {
    if steps == [] then 0
    else
      var s, step := states[|steps| - 1].pool, Last(steps);
      TurnedAway(states, DropLast(steps))
      + if step.Arrive? && step.query.payload.Some? && E.Accepts(step.query.payload.value)
           && (s.stopping || |s.tasks| >= s.capacity) then 1 else 0
  }

  // The two counters count exactly these.
  lemma {:induction false} CountersCount(states: seq<Service>, steps: seq<ServiceStep>, i: nat)
    requires IsRun(states, steps) && i < |states|
    ensures states[i].decodeErrors == Undecodable(steps[..i])
    ensures states[i].queueDrops == TurnedAway(states, steps[..i])
  {
    if i > 0 {
      CountersCount(states, steps, i - 1);
      assert DropLast(steps[..i]) == steps[..i - 1];
      CounterStep(states[i - 1], steps[i - 1]);
    }
  }

  lemma CounterStep(s: Service, step: ServiceStep)
    requires Enabled(s, step)
    ensures var t := Apply(s, step);
            var arrives := step.Arrive? && step.query.payload.Some?;
            && t.decodeErrors == s.decodeErrors
               + (if arrives && !E.Accepts(step.query.payload.value) then 1 else 0)
            && t.queueDrops == s.queueDrops
               + (if arrives && E.Accepts(step.query.payload.value)
                     && (s.pool.stopping || |s.pool.tasks| >= s.pool.capacity) then 1 else 0)
  {
  }

  // One worker and one query, number 0: how far each has got
  function Lone(worker: Worker<nat>, waiting: bool, stopping: bool, notified: bool, finished: bool): Service {
    Service(State(1, if waiting then [0] else [], stopping, notified, [worker], [0],
                  if waiting then [] else [0], if finished then [0] else []),
            true, [0], [], [], [], if finished then [0] else [], 0, 0)
  }

  lemma LoneArrives(query: Query)
    requires query.id == 0 && WellFormed(query)
    ensures Enabled(Open(1, 1), Arrive(query, None, true))
    ensures Apply(Open(1, 1), Arrive(query, None, true)) == Lone(Awake, true, false, false, false)
  {
    var pool := Open(1, 1).pool;
    assert pool == State(1, [], false, false, [Awake], [], [], []);
    assert pool.workers[0].Awake? && NoneParked(pool.workers);
  }

  lemma LoneFails(outcome: Outcome)
    requires Escapes(outcome)
    ensures var taken := Lone(Running(0), false, false, false, false);
            Enabled(Lone(Awake, true, false, false, false), Pool(Enter(0)))
            && Apply(Lone(Awake, true, false, false, false), Pool(Enter(0))) == taken
            && Enabled(taken, Complete(0, outcome))
            && Apply(taken, Complete(0, outcome)) == Lone(Awake, false, false, false, true)
  {
    var awake: Worker<nat> := Awake;
    assert [awake][0 := Running(0)] == [Running(0)] && [Running(0)][0 := awake] == [awake];
  }

  lemma LoneStops()
    ensures var idle := Lone(Awake, false, false, false, true);
            Enabled(idle, Pool(BeginStop)) && Apply(idle, Pool(BeginStop)) == Lone(Awake, false, true, false, true)
    ensures var stopping := Lone(Awake, false, true, false, true);
            Enabled(stopping, Pool(NotifyAll))
            && Apply(stopping, Pool(NotifyAll)) == Lone(Awake, false, true, true, true)
  {
    var awake: Worker<nat> := Awake;
    assert WakeAll([awake]) == [awake];
  }

  lemma LoneExits()
    ensures var stopped, closed := Lone(Awake, false, true, true, true), Lone(Exited, false, true, true, true);
            Enabled(stopped, Pool(Enter(0))) && Apply(stopped, Pool(Enter(0))) == closed
            && Enabled(closed, CloseSession) && ReplyCount(closed, 0) == 0
  {
    var awake: Worker<nat> := Awake;
    assert [awake][0 := Exited] == [Exited];
  }

  lemma OneStepMore(states: seq<Service>, steps: seq<ServiceStep>, step: ServiceStep)
    requires IsRun(states, steps) && Enabled(Last(states), step)
    ensures IsRun(states + [Apply(Last(states), step)], steps + [step])
  {
    var more := states + [Apply(Last(states), step)];
    assert forall i :: 0 <= i < |states| ==> more[i] == states[i];
  }

  // However an exception escapes, some run leaves a query unanswered: it is accepted and taken
  // up, its task ends so, and the pool stops and drains.
  lemma UnansweredQuery(request: E.Envelope, outcome: Outcome) returns (states: seq<Service>, steps: seq<ServiceStep>)
    requires E.Encodable(request) && Escapes(outcome)
    ensures IsRun(states, steps)
    ensures steps != [] && steps[0] == Arrive(Query(0, Some(E.Wire(request, 0))), None, true)
    ensures Last(states).arrived == [0] && Enabled(Last(states), CloseSession) && ReplyCount(Last(states), 0) == 0
  {
    var query := Query(0, Some(E.Wire(request, 0)));
    assert WellFormed(query);
    LoneArrives(query);
    LoneFails(outcome);
    LoneStops();
    LoneExits();
    states, steps := Appended([Open(1, 1)], [], Arrive(query, None, true));
    states, steps := Appended(states, steps, Pool(Enter(0)));
    states, steps := Appended(states, steps, Complete(0, outcome));
    states, steps := Appended(states, steps, Pool(BeginStop));
    states, steps := Appended(states, steps, Pool(NotifyAll));
    states, steps := Appended(states, steps, Pool(Enter(0)));
  }

  lemma Appended(states: seq<Service>, steps: seq<ServiceStep>, step: ServiceStep)
    returns (longer: seq<Service>, taken: seq<ServiceStep>)
    requires IsRun(states, steps) && Enabled(Last(states), step)
    ensures IsRun(longer, taken) && Last(longer) == Apply(Last(states), step)
    ensures taken != [] && taken[0] == (steps + [step])[0]
  {
    OneStepMore(states, steps, step);
    longer, taken := states + [Apply(Last(states), step)], steps + [step];
  }

  // A run that leaves a query unanswered although no worker ever saw it: it is malformed, and
  // the error for it cannot be sent.
  lemma UnansweredRefusal(query: Query) returns (states: seq<Service>, steps: seq<ServiceStep>)
    requires !WellFormed(query)
    ensures IsRun(states, steps) && steps != [] && steps[0] == Arrive(query, None, false)
    ensures Last(states).arrived == [query.id] && Enabled(Last(states), CloseSession)
    ensures ReplyCount(Last(states), query.id) == 0 && Last(states).pool.accepted == []
  {
    var s0 := Open(1, 1);
    states, steps := Appended([s0], [], Arrive(query, None, false));
    var s1 := Last(states);
    assert s1.pool == Idle(Awake, false, false) && s1.answered == [] && s1.refused == [];
    IdleStops();
    states, steps := Appended(states, steps, Pool(BeginStop));
    states, steps := Appended(states, steps, Pool(NotifyAll));
    states, steps := Appended(states, steps, Pool(Enter(0)));
    assert Last(states) == s1.(pool := Idle(Exited, true, true));
  }

  // A pool of one worker that never had a task
  function Idle(worker: Worker<nat>, stopping: bool, notified: bool): State<nat> {
    State(1, [], stopping, notified, [worker], [], [], [])
  }

  lemma IdleStops()
    ensures Open(1, 1).pool == Idle(Awake, false, false)
    ensures Executor.Apply(Idle(Awake, false, false), BeginStop) == Idle(Awake, true, false)
    ensures Executor.Apply(Idle(Awake, true, false), NotifyAll) == Idle(Awake, true, true)
    ensures Executor.Enabled(Idle(Awake, true, true), Enter(0))
    ensures Executor.Apply(Idle(Awake, true, true), Enter(0)) == Idle(Exited, true, true)
  {
    var awake: Worker<nat> := Awake;
    assert WakeAll([awake]) == [awake] && [awake][0 := Exited] == [Exited];
  }
}
