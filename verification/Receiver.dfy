/**
 The receive pipeline of one topic as atomic steps: topic_factory.cpp, lines 433-515,
 542-570 and 658-700, with the queue policy of transport/bridge_transport.cpp, lines 196-282.
 */
module Receiver {
  import opened Common
  import opened Subsequences
  import opened Envelope

  // ----- Queue policy -----

  datatype QosClass = Command | State | Bulk | Service

  datatype QosPolicy = QosPolicy(
    reliable: bool,
    blockOnCongestion: bool,
    express: bool,
    keepLatest: bool,
    queueCapacity: nat,
    priority: string)

  function GetQosPolicy(qos: QosClass): QosPolicy {
    match qos
    case Command => QosPolicy(true, true, true, false, 64, "real_time")
    case State => QosPolicy(false, false, true, true, 1, "data_high")
    case Bulk => QosPolicy(false, false, false, true, 1, "data_low")
    case Service => QosPolicy(true, true, true, false, 64, "interactive_high")
  }

  function Capacity(qos: QosClass): nat {
    Max(1, GetQosPolicy(qos).queueCapacity)
  }

  predicate KeepsLatest(qos: QosClass) {
    GetQosPolicy(qos).keepLatest
  }

  datatype PushResult = Enqueued | ReplacedOldest | Rejected

  function PushResultFor(qos: QosClass, size: nat): PushResult {
    if size < Capacity(qos) then Enqueued
    else if KeepsLatest(qos) then ReplacedOldest
    else Rejected
  }

  function QueueAfterPush<T>(qos: QosClass, queue: seq<T>, e: T): seq<T> {
    match PushResultFor(qos, |queue|)
    case Enqueued => queue + [e]
    case ReplacedOldest => queue[1..] + [e]
    case Rejected => queue
  }

  method PushToBoundedEnvelopeQueue<T>(qos: QosClass, e: T, before: seq<T>)
    returns (result: PushResult, queue: seq<T>)
    ensures result == PushResultFor(qos, |before|)
    ensures queue == QueueAfterPush(qos, before, e)
    ensures |before| <= Capacity(qos) ==> |queue| <= Capacity(qos)
    ensures result == Rejected <==> !KeepsLatest(qos) && |before| >= Capacity(qos)
    ensures result != Rejected ==> queue != [] && Last(queue) == e
    ensures qos == Command || qos == Service ==>
              if |before| < 64 then result == Enqueued && queue == before + [e]
              else result == Rejected && queue == before
    ensures qos == State || qos == Bulk ==>
              if before == [] then result == Enqueued && queue == [e]
              else result == ReplacedOldest && queue == before[1..] + [e]
  {
    var policy := GetQosPolicy(qos);
    var capacity := Max(1, policy.queueCapacity);
    result, queue := Enqueued, before;
    if |queue| >= capacity {
      if !policy.keepLatest {
        return Rejected, queue;
      }
      queue := queue[1..];
      result := ReplacedOldest;
    }
    queue := queue + [e];
  }

  // The table, row by row
  lemma PolicyTable()
    ensures GetQosPolicy(Command) == QosPolicy(true, true, true, false, 64, "real_time")
    ensures GetQosPolicy(State) == QosPolicy(false, false, true, true, 1, "data_high")
    ensures GetQosPolicy(Bulk) == QosPolicy(false, false, false, true, 1, "data_low")
    ensures GetQosPolicy(Service) == QosPolicy(true, true, true, false, 64, "interactive_high")
  {
  }

  // ----- Validation -----

  datatype TopicConfig = TopicConfig(
    rosType: string,
    rosMd5: string,
    cloudCompress: bool,
    dynamicDestination: bool,
    sourceHost: string,
    sources: map<string, bool>,
    qos: QosClass)

  function ExpectedKind(cfg: TopicConfig): PayloadKind {
    if cfg.rosType == "sensor_msgs/Image" then Jpeg
    else if cfg.rosType == "sensor_msgs/PointCloud2" && cfg.cloudCompress then PointCloudCompressed
    else RosSerialized
  }

  predicate MetadataValid(e: Envelope, rosType: string, rosMd5: string) {
    e.version == PROTOCOL_VERSION && e.rosType == rosType && e.rosMd5 == rosMd5
  }

  predicate SourceAllowed(cfg: TopicConfig, source: string) {
    && (cfg.dynamicDestination || source == cfg.sourceHost)
    && source in cfg.sources && cfg.sources[source]
  }

  predicate Admits(cfg: TopicConfig, e: Envelope) {
    e.kind == ExpectedKind(cfg) && MetadataValid(e, cfg.rosType, cfg.rosMd5) && SourceAllowed(cfg, e.sourceHost)
  }

  // What is admitted, written out
  lemma AdmittedExactlyWhen(cfg: TopicConfig, e: Envelope)
    ensures Admits(cfg, e)
       <==> (&& (cfg.rosType == "sensor_msgs/Image" ==> e.kind == Jpeg)
             && (cfg.rosType == "sensor_msgs/PointCloud2" ==>
                   e.kind == if cfg.cloudCompress then PointCloudCompressed else RosSerialized)
             && (cfg.rosType != "sensor_msgs/Image" && cfg.rosType != "sensor_msgs/PointCloud2" ==>
                   e.kind == RosSerialized)
             && e.version == 1 && e.rosType == cfg.rosType && e.rosMd5 == cfg.rosMd5
             && (!cfg.dynamicDestination ==> e.sourceHost == cfg.sourceHost)
             && e.sourceHost in cfg.sources && cfg.sources[e.sourceHost])
  {
    assert |"sensor_msgs/Image"| != |"sensor_msgs/PointCloud2"|;
  }

  // ----- States and steps -----

  datatype Worker = NotStarted | Awake | Parked | Holding(envelope: Envelope) | Exited

  // callbacks: validated envelopes whose callback has not reached the queue yet.
  // joining: stopThread has cleared the flag and waits for the worker.
  // log: the envelopes by what has happened to them, each list oldest first.
  datatype Receiver = Receiver(
    cfg: TopicConfig,
    running: bool,
    joining: bool,
    worker: Worker,
    callbacks: seq<Envelope>,
    queue: seq<Envelope>,
    droppedMessages: nat,
    transportQueueDrops: nat,
    totalReceived: nat,
    log: Log)

  datatype Log = Log(
    arrived: seq<Envelope>,
    invalid: seq<Envelope>,
    ignored: seq<Envelope>,
    offered: seq<Envelope>,
    rejected: seq<Envelope>,
    accepted: seq<Envelope>,
    replaced: seq<Envelope>,
    taken: seq<Envelope>,
    failed: seq<Envelope>,
    published: seq<Envelope>)

  datatype Step =
    | Arrive(envelope: Envelope)  // validation in enqueueEnvelope
    | Push(index: nat)            // its critical section, for one pending callback
    | Take                        // one pass of recvFunction through its critical section
    | Publish                     // deserializePublish returns
    | Fail                        // deserializePublish throws
    | Wake                        // a notification or a spurious wake-up
    | Start                       // createThread
    | ClearFlag                   // stopThread's exchange
    | Joined                      // stopThread's join returns

  function Init(cfg: TopicConfig): Receiver {
    Receiver(cfg, false, false, NotStarted, [], [], 0, 0, 0, Log([], [], [], [], [], [], [], [], [], []))
  }

  predicate Enabled(s: Receiver, step: Step) {
    match step
    case Arrive(_) => true
    case Push(i) => i < |s.callbacks|
    case Take => s.worker.Awake?
    case Publish => s.worker.Holding?
    case Fail => s.worker.Holding?
    case Wake => s.worker.Parked?
    case Start => !s.joining
    case ClearFlag => !s.joining
    case Joined => s.joining && s.worker.Exited?
  }

  function Without<T>(s: seq<T>, i: nat): seq<T>
    requires i < |s|
  {
    s[..i] + s[i + 1..]
  }

  function AfterArrive(s: Receiver, e: Envelope): Receiver {
    var log := s.log.(arrived := s.log.arrived + [e]);
    if Admits(s.cfg, e) then s.(callbacks := s.callbacks + [e], log := log)
    else s.(droppedMessages := s.droppedMessages + 1, log := log.(invalid := log.invalid + [e]))
  }

  function AfterEnqueue(s: Receiver, e: Envelope): Receiver {
    s.(queue := s.queue + [e],
       log := s.log.(offered := s.log.offered + [e], accepted := s.log.accepted + [e]))
  }

  function AfterReplace(s: Receiver, e: Envelope): Receiver
    requires s.queue != []
  {
    s.(queue := s.queue[1..] + [e],
       droppedMessages := s.droppedMessages + 1, transportQueueDrops := s.transportQueueDrops + 1,
       log := s.log.(offered := s.log.offered + [e], accepted := s.log.accepted + [e],
                     replaced := s.log.replaced + [s.queue[0]]))
  }

  function AfterReject(s: Receiver, e: Envelope): Receiver {
    s.(droppedMessages := s.droppedMessages + 1, transportQueueDrops := s.transportQueueDrops + 1,
       log := s.log.(offered := s.log.offered + [e], rejected := s.log.rejected + [e]))
  }

  // The critical section of enqueueEnvelope, for an envelope its callback holds
  function AfterOffer(s: Receiver, e: Envelope): Receiver {
    if !s.running then s.(log := s.log.(ignored := s.log.ignored + [e]))
    else
      match PushResultFor(s.cfg.qos, |s.queue|)
      case Enqueued => AfterEnqueue(s, e)
      case ReplacedOldest => AfterReplace(s, e)
      case Rejected => AfterReject(s, e)
  }

  function AfterPush(s: Receiver, i: nat): Receiver
    requires i < |s.callbacks|
  {
    AfterOffer(s.(callbacks := Without(s.callbacks, i)), s.callbacks[i])
  }

  function AfterTake(s: Receiver): Receiver {
    if !s.running && s.queue == [] then s.(worker := Exited)
    else if s.queue == [] then s.(worker := Parked)
    else s.(worker := Holding(s.queue[0]), queue := s.queue[1..],
            log := s.log.(taken := s.log.taken + [s.queue[0]]))
  }

  function AfterPublish(s: Receiver): Receiver
    requires s.worker.Holding?
  {
    s.(worker := Awake, totalReceived := s.totalReceived + 1,
       log := s.log.(published := s.log.published + [s.worker.envelope]))
  }

  function AfterFail(s: Receiver): Receiver
    requires s.worker.Holding?
  {
    s.(worker := Awake, droppedMessages := s.droppedMessages + 1,
       log := s.log.(failed := s.log.failed + [s.worker.envelope]))
  }

  function AfterStart(s: Receiver): Receiver {
    if s.running then s else s.(running := true, worker := Awake)
  }

  function AfterClear(s: Receiver): Receiver {
    if s.running then s.(running := false, joining := true) else s
  }

  function Apply(s: Receiver, step: Step): Receiver
    requires Enabled(s, step)
  {
    match step
    case Arrive(e) => AfterArrive(s, e)
    case Push(i) => AfterPush(s, i)
    case Take => AfterTake(s)
    case Publish => AfterPublish(s)
    case Fail => AfterFail(s)
    case Wake => s.(worker := Awake)
    case Start => AfterStart(s)
    case ClearFlag => AfterClear(s)
    case Joined => s.(joining := false)
  }

  // ----- The invariant -----

  function Held(w: Worker): multiset<Envelope> {
    if w.Holding? then multiset{w.envelope} else multiset{}
  }

  // Each stage of the pipeline passes on or disposes of exactly what it was given.
  ghost predicate Conserved(s: Receiver) {
    StageOne(s, multiset{}) && StageTwo(s) && StageThree(s) && StageFour(s)
  }

  // limbo: what a callback has picked up and not yet offered
  ghost predicate StageOne(s: Receiver, limbo: multiset<Envelope>) {
    multiset(s.log.arrived)
    == multiset(s.log.invalid) + multiset(s.callbacks) + multiset(s.log.ignored) + multiset(s.log.offered) + limbo
  }

  ghost predicate StageTwo(s: Receiver) {
    multiset(s.log.offered) == multiset(s.log.rejected) + multiset(s.log.accepted)
  }

  ghost predicate StageThree(s: Receiver) {
    multiset(s.log.accepted) == multiset(s.log.replaced) + multiset(s.log.taken) + multiset(s.queue)
  }

  ghost predicate StageFour(s: Receiver) {
    multiset(s.log.taken) == multiset(s.log.failed) + multiset(s.log.published) + Held(s.worker)
  }

  ghost predicate Counted(s: Receiver) {
    && s.droppedMessages
       == |s.log.invalid| + |s.log.rejected| + |s.log.replaced| + |s.log.failed|
    && s.transportQueueDrops == |s.log.rejected| + |s.log.replaced|
    && s.totalReceived == |s.log.published|
  }

  ghost predicate Ordered(s: Receiver) {
    && |s.queue| <= Capacity(s.cfg.qos)
    && if KeepsLatest(s.cfg.qos) then
         && s.log.rejected == [] && s.log.accepted == s.log.offered
         && (s.queue != [] ==> s.log.offered != [] && s.queue == [Last(s.log.offered)])
         && IsSubsequence(s.log.taken + s.queue, s.log.offered)
       else
         && s.log.replaced == []
         && s.log.accepted == s.log.taken + s.queue
  }

  ghost predicate Quiet(s: Receiver) {
    && (s.worker.NotStarted? || s.worker.Exited? ==> !s.running && s.queue == [])
    && (!s.running && !s.joining ==> s.worker.NotStarted? || s.worker.Exited?)
    && (s.joining ==> !s.running)
  }

  // What has been published was taken in the same order, before what the worker holds.
  ghost predicate Delivered(s: Receiver) {
    if s.worker.Holding? then
      && s.log.taken != [] && Last(s.log.taken) == s.worker.envelope
      && IsSubsequence(s.log.published, DropLast(s.log.taken))
    else IsSubsequence(s.log.published, s.log.taken)
  }

  // What the queue accepts keeps the order in which it was offered.
  ghost predicate AcceptedInOrder(s: Receiver) {
    && IsSubsequence(s.log.accepted, s.log.offered)
    && |s.log.accepted| + |s.log.rejected| == |s.log.offered|
  }

  ghost predicate Inv(s: Receiver) {
    Conserved(s) && Counted(s) && Ordered(s) && Quiet(s) && Delivered(s) && AcceptedInOrder(s)
  }

  lemma WithoutMultiset<T>(s: seq<T>, i: nat)
    requires i < |s|
    ensures multiset(s) == multiset(Without(s, i)) + multiset{s[i]}
  {
    assert s == s[..i] + ([s[i]] + s[i + 1..]);
  }

  lemma HeadMultiset<T>(s: seq<T>)
    requires s != []
    ensures multiset(s) == multiset(s[1..]) + multiset{s[0]}
  {
    assert s == [s[0]] + s[1..];
  }

  lemma Sum2<T>(t: multiset<T>, a: multiset<T>, b: multiset<T>, x: multiset<T>)
    requires t == a + b
    ensures t + x == (a + x) + b && t + x == a + (b + x)
  {
  }

  lemma Sum3<T>(t: multiset<T>, a: multiset<T>, b: multiset<T>, c: multiset<T>, x: multiset<T>)
    requires t == a + b + c
    ensures t + x == (a + x) + b + c && t + x == a + (b + x) + c && t + x == a + b + (c + x)
  {
  }

  // x moves out of the third part
  lemma Move3<T>(t: multiset<T>, a: multiset<T>, b: multiset<T>, c: multiset<T>, x: multiset<T>)
    requires t == a + b + (c + x)
    ensures t == (a + x) + b + c && t == a + (b + x) + c
  {
  }

  lemma Sum5<T>(t: multiset<T>, a: multiset<T>, b: multiset<T>, c: multiset<T>, d: multiset<T>, x: multiset<T>)
    requires t == a + b + c + d + multiset{}
    ensures t + x == (a + x) + b + c + d + multiset{} && t + x == a + (b + x) + c + d + multiset{}
  {
  }

  lemma Move5<T>(t: multiset<T>, a: multiset<T>, b: multiset<T>, c: multiset<T>, d: multiset<T>, x: multiset<T>)
    requires t == a + b + c + d + x
    ensures t == a + b + (c + x) + d + multiset{} && t == a + b + c + (d + x) + multiset{}
  {
  }

  lemma PickUp5<T>(t: multiset<T>, a: multiset<T>, b: multiset<T>, c: multiset<T>, d: multiset<T>, x: multiset<T>)
    requires t == a + (b + x) + c + d + multiset{}
    ensures t == a + b + c + d + x
  {
  }

  lemma ArriveConserved(s: Receiver, e: Envelope)
    requires Conserved(s)
    ensures Conserved(AfterArrive(s, e))
  {
    MultisetSnoc(s.log.arrived, e);
    MultisetSnoc(s.log.invalid, e);
    MultisetSnoc(s.callbacks, e);
    Sum5(multiset(s.log.arrived), multiset(s.log.invalid), multiset(s.callbacks), multiset(s.log.ignored),
         multiset(s.log.offered), multiset{e});
  }

  lemma PickUp(s: Receiver, i: nat)
    requires Conserved(s) && i < |s.callbacks|
    ensures StageOne(s.(callbacks := Without(s.callbacks, i)), multiset{s.callbacks[i]})
  {
    WithoutMultiset(s.callbacks, i);
    PickUp5(multiset(s.log.arrived), multiset(s.log.invalid), multiset(Without(s.callbacks, i)),
            multiset(s.log.ignored), multiset(s.log.offered), multiset{s.callbacks[i]});
  }

  lemma OfferStageOne(s: Receiver, e: Envelope)
    requires StageOne(s, multiset{e})
    ensures StageOne(AfterOffer(s, e), multiset{})
  {
    MultisetSnoc(s.log.ignored, e);
    MultisetSnoc(s.log.offered, e);
    Move5(multiset(s.log.arrived), multiset(s.log.invalid), multiset(s.callbacks),
          multiset(s.log.ignored), multiset(s.log.offered), multiset{e});
  }

  lemma OfferStageTwo(s: Receiver, e: Envelope)
    requires StageTwo(s)
    ensures StageTwo(AfterOffer(s, e))
  {
    MultisetSnoc(s.log.offered, e);
    MultisetSnoc(s.log.rejected, e);
    MultisetSnoc(s.log.accepted, e);
    Sum2(multiset(s.log.offered), multiset(s.log.rejected), multiset(s.log.accepted), multiset{e});
  }

  lemma EnqueueStageThree(s: Receiver, e: Envelope)
    requires StageThree(s)
    ensures StageThree(AfterEnqueue(s, e))
  {
    MultisetSnoc(s.log.accepted, e);
    MultisetSnoc(s.queue, e);
    Sum3(multiset(s.log.accepted), multiset(s.log.replaced), multiset(s.log.taken), multiset(s.queue), multiset{e});
  }

  lemma ReplaceStageThree(s: Receiver, e: Envelope)
    requires StageThree(s) && s.queue != []
    ensures StageThree(AfterReplace(s, e))
  {
    var oldest := multiset{s.queue[0]};
    HeadMultiset(s.queue);
    Move3(multiset(s.log.accepted), multiset(s.log.replaced), multiset(s.log.taken), multiset(s.queue[1..]), oldest);
    MultisetSnoc(s.log.replaced, s.queue[0]);
    MultisetSnoc(s.log.accepted, e);
    MultisetSnoc(s.queue[1..], e);
    Sum3(multiset(s.log.accepted), multiset(s.log.replaced) + oldest, multiset(s.log.taken),
         multiset(s.queue[1..]), multiset{e});
  }

  lemma OfferConserved(s: Receiver, e: Envelope)
    requires StageOne(s, multiset{e}) && StageTwo(s) && StageThree(s) && StageFour(s)
    ensures Conserved(AfterOffer(s, e))
  {
    OfferStageOne(s, e);
    OfferStageTwo(s, e);
    if s.running {
      match PushResultFor(s.cfg.qos, |s.queue|)
      case Enqueued => EnqueueStageThree(s, e);
      case ReplacedOldest => ReplaceStageThree(s, e);
      case Rejected =>
    }
  }

  lemma TakeConserved(s: Receiver)
    requires Conserved(s) && s.worker.Awake?
    ensures Conserved(AfterTake(s))
  {
    if s.queue != [] {
      var e := s.queue[0];
      HeadMultiset(s.queue);
      MultisetSnoc(s.log.taken, e);
      Move3(multiset(s.log.accepted), multiset(s.log.replaced), multiset(s.log.taken),
            multiset(s.queue[1..]), multiset{e});
      Sum3(multiset(s.log.taken), multiset(s.log.failed), multiset(s.log.published), multiset{}, multiset{e});
      assert multiset{} + multiset{e} == multiset{e};
    }
  }

  lemma EndConserved(s: Receiver, step: Step)
    requires Conserved(s) && Enabled(s, step) && (step.Publish? || step.Fail?)
    ensures Conserved(Apply(s, step))
  {
    var e := s.worker.envelope;
    MultisetSnoc(s.log.published, e);
    MultisetSnoc(s.log.failed, e);
    assert multiset{e} == multiset{} + multiset{e};
    Move3(multiset(s.log.taken), multiset(s.log.failed), multiset(s.log.published), multiset{}, multiset{e});
  }

  lemma StepConserved(s: Receiver, step: Step)
    requires Conserved(s) && Quiet(s) && Enabled(s, step)
    ensures Conserved(Apply(s, step))
  {
    match step
    case Arrive(e) => ArriveConserved(s, e);
    case Push(i) =>
      PickUp(s, i);
      OfferConserved(s.(callbacks := Without(s.callbacks, i)), s.callbacks[i]);
    case Take => TakeConserved(s);
    case Publish => EndConserved(s, step);
    case Fail => EndConserved(s, step);
    case _ =>
      SameLog(s, Apply(s, step));
  }

  lemma SameLog(s: Receiver, t: Receiver)
    requires Conserved(s) && t.log == s.log && t.callbacks == s.callbacks && t.queue == s.queue
    requires Held(t.worker) == Held(s.worker)
    ensures Conserved(t)
  {
  }

  lemma OfferOrdered(s: Receiver, e: Envelope)
    requires Ordered(s)
    ensures Ordered(AfterOffer(s, e))
  {
    if s.running {
      if KeepsLatest(s.cfg.qos) {
        LatestOffered(s.log.taken, s.queue, s.log.offered, e);
      } else {
        Assoc(s.log.taken, s.queue, [e]);
      }
    }
  }

  // With a one-place queue the newest offer displaces whatever was waiting.
  lemma LatestOffered(taken: seq<Envelope>, queue: seq<Envelope>, offered: seq<Envelope>, e: Envelope)
    requires IsSubsequence(taken + queue, offered) && |queue| <= 1
    ensures IsSubsequence(taken + [e], offered + [e]) && Last(offered + [e]) == e
  {
    if queue != [] {
      LastOfAppend(taken, queue);
      assert taken + DropLast(queue) == taken;
      SubsequenceInit(taken + queue, offered);
    } else {
      assert taken + queue == taken;
    }
    SubsequenceSnoc(taken, offered, e);
  }

  lemma TakeOrdered(s: Receiver)
    requires Ordered(s) && s.worker.Awake?
    ensures Ordered(AfterTake(s))
  {
    if s.queue != [] {
      assert s.queue == [s.queue[0]] + s.queue[1..];
      Assoc(s.log.taken, [s.queue[0]], s.queue[1..]);
    }
  }

  lemma SameOrder(s: Receiver, t: Receiver)
    requires Ordered(s) && t.cfg == s.cfg && t.queue == s.queue && t.log.taken == s.log.taken
    requires t.log.offered == s.log.offered && t.log.accepted == s.log.accepted
    requires t.log.rejected == s.log.rejected && t.log.replaced == s.log.replaced
    ensures Ordered(t)
  {
  }

  lemma ArriveOrdered(s: Receiver, e: Envelope)
    requires Ordered(s)
    ensures Ordered(AfterArrive(s, e))
  {
    SameOrder(s, AfterArrive(s, e));
  }

  lemma EndOrdered(s: Receiver)
    requires Ordered(s) && s.worker.Holding?
    ensures Ordered(AfterPublish(s)) && Ordered(AfterFail(s))
  {
    SameOrder(s, AfterPublish(s));
    SameOrder(s, AfterFail(s));
  }

  lemma PushOrdered(s: Receiver, i: nat)
    requires Ordered(s) && i < |s.callbacks|
    ensures Ordered(AfterPush(s, i))
  {
    var t := s.(callbacks := Without(s.callbacks, i));
    SameOrder(s, t);
    OfferOrdered(t, s.callbacks[i]);
  }

  lemma SwitchOrdered(s: Receiver, running: bool, joining: bool, worker: Worker)
    requires Ordered(s)
    ensures Ordered(s.(running := running, joining := joining, worker := worker))
  {
    SameOrder(s, s.(running := running, joining := joining, worker := worker));
  }

  lemma StepOrdered(s: Receiver, step: Step)
    requires Ordered(s) && Enabled(s, step)
    ensures Ordered(Apply(s, step))
  {
    match step
    case Arrive(e) => ArriveOrdered(s, e);
    case Push(i) => PushOrdered(s, i);
    case Take => TakeOrdered(s);
    case Publish => EndOrdered(s);
    case Fail => EndOrdered(s);
    case Wake => SwitchOrdered(s, s.running, s.joining, Awake);
    case Start => SwitchOrdered(s, true, s.joining, Awake);
    case ClearFlag => SwitchOrdered(s, false, true, s.worker);
    case Joined => SwitchOrdered(s, s.running, false, s.worker);
  }

  lemma OfferCounted(s: Receiver, e: Envelope)
    requires Counted(s)
    ensures Counted(AfterOffer(s, e))
  {
  }

  lemma StepCounted(s: Receiver, step: Step)
    requires Counted(s) && Enabled(s, step)
    ensures Counted(Apply(s, step))
  {
    match step
    case Push(i) => OfferCounted(s.(callbacks := Without(s.callbacks, i)), s.callbacks[i]);
    case Arrive(e) => ArriveCounted(s, e);
    case Publish =>
    case Fail =>
    case _ => SameCounts(s, Apply(s, step));
  }

  lemma ArriveCounted(s: Receiver, e: Envelope)
    requires Counted(s)
    ensures Counted(AfterArrive(s, e))
  {
  }

  lemma SameCounts(s: Receiver, t: Receiver)
    requires Counted(s) && t.droppedMessages == s.droppedMessages && t.totalReceived == s.totalReceived
    requires t.transportQueueDrops == s.transportQueueDrops
    requires t.log == s.log.(taken := t.log.taken)
    ensures Counted(t)
  {
  }

  lemma StepQuiet(s: Receiver, step: Step)
    requires Quiet(s) && Enabled(s, step)
    ensures Quiet(Apply(s, step))
  {
  }

  lemma StepDelivered(s: Receiver, step: Step)
    requires Delivered(s) && Quiet(s) && Enabled(s, step)
    ensures Delivered(Apply(s, step))
  {
    match step
    case Take =>
      if s.queue != [] {
        LastOfAppend(s.log.taken, [s.queue[0]]);
        assert s.log.taken + DropLast([s.queue[0]]) == s.log.taken;
      }
    case Publish => HeldDelivered(s);
    case Fail => HeldDelivered(s);
    case _ =>
  }

  lemma StepAcceptedInOrder(s: Receiver, step: Step)
    requires AcceptedInOrder(s) && Enabled(s, step)
    ensures AcceptedInOrder(Apply(s, step))
  {
    match step
    case Push(i) => SubsequenceSnoc(s.log.accepted, s.log.offered, s.callbacks[i]);
    case _ =>
  }

  lemma HeldDelivered(s: Receiver)
    requires Delivered(s) && s.worker.Holding?
    ensures IsSubsequence(s.log.published, s.log.taken)
    ensures IsSubsequence(s.log.published + [s.worker.envelope], s.log.taken)
  {
    SubsequenceSnoc(s.log.published, DropLast(s.log.taken), s.worker.envelope);
    Rejoin(s.log.taken);
  }

  lemma StepConfig(s: Receiver, step: Step)
    requires Enabled(s, step)
    ensures Apply(s, step).cfg == s.cfg
  {
  }

  lemma StepInv(s: Receiver, step: Step)
    requires Inv(s) && Enabled(s, step)
    ensures Inv(Apply(s, step))
  {
    StepConserved(s, step);
    StepOrdered(s, step);
    StepCounted(s, step);
    StepQuiet(s, step);
    StepDelivered(s, step);
    StepAcceptedInOrder(s, step);
  }

  // ----- Runs -----

  ghost predicate IsRun(states: seq<Receiver>, steps: seq<Step>) {
    && |states| == |steps| + 1
    && states[0] == Init(states[0].cfg)
    && forall i :: 0 <= i < |steps| ==> Enabled(states[i], steps[i]) && states[i + 1] == Apply(states[i], steps[i])
  }

  lemma InitInv(cfg: TopicConfig)
    ensures Inv(Init(cfg))
  {
    assert [] + Init(cfg).log.taken == Init(cfg).log.taken;
  }

  lemma {:induction false} RunInv(states: seq<Receiver>, steps: seq<Step>, i: nat)
    requires IsRun(states, steps) && i < |states|
    ensures Inv(states[i]) && states[i].cfg == states[0].cfg
  {
    if i == 0 {
      InitInv(states[0].cfg);
    } else {
      RunInv(states, steps, i - 1);
      var s, step := states[i - 1], steps[i - 1];
      StepInv(s, step);
      StepConfig(s, step);
    }
  }

  // Every envelope that arrived is in exactly one place, and the counters say how many
  // are where.
  lemma PipelineConservation(states: seq<Receiver>, steps: seq<Step>, i: nat)
    requires IsRun(states, steps) && i < |states|
    ensures var s := states[i];
            multiset(s.log.arrived)
            == (multiset(s.log.invalid) + multiset(s.log.rejected) + multiset(s.log.replaced) + multiset(s.log.failed))
             + (multiset(s.callbacks) + multiset(s.log.ignored) + multiset(s.queue) + Held(s.worker))
             + multiset(s.log.published)
    ensures var s := states[i];
            s.droppedMessages == |s.log.invalid| + |s.log.rejected| + |s.log.replaced| + |s.log.failed|
            && s.transportQueueDrops == |s.log.rejected| + |s.log.replaced|
            && s.totalReceived == |s.log.published|
  {
    RunInv(states, steps, i);
    var s := states[i];
    Substitute(multiset(s.log.arrived), multiset(s.log.invalid), multiset(s.callbacks), multiset(s.log.ignored),
               multiset(s.log.offered), multiset(s.log.rejected), multiset(s.log.accepted));
    Regroup(multiset(s.log.invalid) + multiset(s.callbacks) + multiset(s.log.ignored) + multiset(s.log.rejected),
            multiset(s.log.accepted), multiset(s.log.replaced), multiset(s.log.taken), multiset(s.queue),
            multiset(s.log.failed), multiset(s.log.published), Held(s.worker));
  }

  lemma Substitute<T>(t: multiset<T>, a: multiset<T>, b: multiset<T>, c: multiset<T>, o: multiset<T>,
                      r: multiset<T>, x: multiset<T>)
    requires t == a + b + c + o + multiset{} && o == r + x
    ensures t == (a + b + c + r) + x
  {
  }

  lemma Regroup<T>(a: multiset<T>, x: multiset<T>, r: multiset<T>, y: multiset<T>, q: multiset<T>,
                   f: multiset<T>, p: multiset<T>, h: multiset<T>)
    requires x == r + y + q && y == f + p + h
    ensures a + x == a + r + f + q + h + p
  {
  }

  // A queue accepts a subsequence of what is offered to it and rejects the rest. Command and
  // service topics take exactly what they accept, in that order; state and bulk topics reject
  // nothing, take a subsequence and hold only the newest offer. Either way messages are
  // published in the order they were accepted.
  lemma QueuePolicy(states: seq<Receiver>, steps: seq<Step>, i: nat)
    requires IsRun(states, steps) && i < |states|
    ensures var s := states[i];
            |s.queue| <= Capacity(s.cfg.qos)
            && (!KeepsLatest(s.cfg.qos) ==> s.log.accepted == s.log.taken + s.queue)
            && (KeepsLatest(s.cfg.qos) ==>
                  && s.log.rejected == [] && IsSubsequence(s.log.taken + s.queue, s.log.offered)
                  && (s.queue != [] ==> s.log.offered != [] && s.queue == [Last(s.log.offered)]))
    ensures IsSubsequence(states[i].log.accepted, states[i].log.offered)
    ensures |states[i].log.accepted| + |states[i].log.rejected| == |states[i].log.offered|
    ensures IsSubsequence(states[i].log.published, states[i].log.accepted)
    ensures var s := states[i];
            s.cfg.qos == Command || s.cfg.qos == Service ==>
              s.log.replaced == [] && |s.queue| <= 64 && s.log.accepted == s.log.taken + s.queue
    ensures var s := states[i];
            s.cfg.qos == State || s.cfg.qos == Bulk ==>
              s.log.rejected == [] && IsSubsequence(s.log.taken + s.queue, s.log.offered)
              && (s.queue != [] ==> s.log.offered != [] && s.queue == [Last(s.log.offered)])
  {
    RunInv(states, steps, i);
    var s := states[i];
    PublishedTaken(s);
    PrefixSubsequence(s.log.taken, s.queue);
    Transitive(s.log.published, s.log.taken, s.log.taken + s.queue);
    if KeepsLatest(s.cfg.qos) {
      Transitive(s.log.published, s.log.taken + s.queue, s.log.offered);
    }
  }

  // What an offer to a running receiver does, class by class: a command or service queue rejects
  // it exactly when 64 wait; a state or bulk queue then holds it alone.
  lemma OfferByClass(states: seq<Receiver>, steps: seq<Step>, i: nat, k: nat)
    requires IsRun(states, steps) && i < |states| && k < |states[i].callbacks| && states[i].running
    ensures var s, e := states[i], states[i].callbacks[k];
            var t := Apply(s, Push(k));
            && (s.cfg.qos == Command || s.cfg.qos == Service ==>
                  if |s.queue| == 64 then
                    t.queue == s.queue && t.log.rejected == s.log.rejected + [e] && t.log.accepted == s.log.accepted
                  else
                    t.queue == s.queue + [e] && t.log.accepted == s.log.accepted + [e]
                    && t.log.rejected == s.log.rejected)
            && (s.cfg.qos == State || s.cfg.qos == Bulk ==>
                  t.queue == [e] && t.log.accepted == s.log.accepted + [e]
                  && t.log.replaced == s.log.replaced + s.queue)
  {
    var s, e := states[i], states[i].callbacks[k];
    RunInv(states, steps, i);
    if s.cfg.qos == State || s.cfg.qos == Bulk {
      assert |s.queue| <= 1;
      if s.queue != [] {
        assert s.queue == [s.queue[0]] && s.queue[1..] == [];
      }
    }
  }

  // Validation sifts: what fails it is dropped, and only what passes it reaches the queue.
  ghost predicate Sifted(s: Receiver) {
    && (forall e <- s.log.invalid :: !Admits(s.cfg, e))
    && (forall e <- s.callbacks :: Admits(s.cfg, e))
    && (forall e <- s.log.ignored :: Admits(s.cfg, e))
    && (forall e <- s.log.offered :: Admits(s.cfg, e))
  }

  lemma StepSifted(s: Receiver, step: Step)
    requires Sifted(s) && Enabled(s, step)
    ensures Sifted(Apply(s, step))
  {
    match step
    case Push(i) =>
      assert forall e <- Without(s.callbacks, i) :: e in s.callbacks;
      OfferSifted(s.(callbacks := Without(s.callbacks, i)), s.callbacks[i]);
    case _ =>
  }

  lemma OfferSifted(s: Receiver, e: Envelope)
    requires Sifted(s) && Admits(s.cfg, e)
    ensures Sifted(AfterOffer(s, e))
  {
  }

  lemma {:induction false} ValidationSifts(states: seq<Receiver>, steps: seq<Step>, i: nat)
    requires IsRun(states, steps) && i < |states|
    ensures Sifted(states[i])
  {
    if i > 0 {
      ValidationSifts(states, steps, i - 1);
      StepSifted(states[i - 1], steps[i - 1]);
    }
  }

  lemma PublishedTaken(s: Receiver)
    requires Delivered(s)
    ensures IsSubsequence(s.log.published, s.log.taken)
  {
    if s.worker.Holding? {
      HeldDelivered(s);
    }
  }

  // Once the worker has exited the queue is empty, and stays so until a restart.
  lemma {:induction false} EmptyUntilRestart(states: seq<Receiver>, steps: seq<Step>, i: nat, j: nat)
    requires IsRun(states, steps) && i <= j < |states| && states[i].worker.Exited?
    requires forall k :: i <= k < j ==> steps[k] != Start
    ensures states[j].worker.Exited? && states[j].queue == [] && !states[j].running
  {
    RunInv(states, steps, j);
    if i < j {
      EmptyUntilRestart(states, steps, i, j - 1);
    }
  }

  // ----- The object -----

  // Each method is one step, so StepInv carries the invariant across every call.
  class TopicReceiver {
    const cfg: TopicConfig
    var recvThreadFlag: bool
    var joining: bool
    var worker: Worker
    var callbacks: seq<Envelope>
    var recvQueue: seq<Envelope>
    var droppedMessages: nat
    var transportQueueDrops: nat
    var totalReceived: nat
    ghost var log: Log

    ghost function View(): Receiver
      reads this
    {
      Receiver(cfg, recvThreadFlag, joining, worker, callbacks, recvQueue, droppedMessages,
               transportQueueDrops, totalReceived, log)
    }

    constructor (cfg: TopicConfig)
      ensures View() == Init(cfg)
    {
      this.cfg := cfg;
      recvThreadFlag, joining, worker := false, false, NotStarted;
      callbacks, recvQueue := [], [];
      droppedMessages, transportQueueDrops, totalReceived := 0, 0, 0;
      log := Init(cfg).log;
    }

    // enqueueEnvelope up to its critical section; an admitted envelope goes on to OfferPending.
    method EnqueueEnvelope(e: Envelope) returns (admitted: bool)
      modifies this
      ensures View() == Apply(old(View()), Arrive(e))
      ensures admitted <==> Admits(cfg, e)
      ensures callbacks == old(callbacks) + if admitted then [e] else []
      ensures droppedMessages == old(droppedMessages) + if admitted then 0 else 1
    {
      log := log.(arrived := log.arrived + [e]);
      if e.kind != ExpectedKind(cfg) || !MetadataValid(e, cfg.rosType, cfg.rosMd5)
         || (!cfg.dynamicDestination && e.sourceHost != cfg.sourceHost)
         || e.sourceHost !in cfg.sources || !cfg.sources[e.sourceHost] {
        droppedMessages := droppedMessages + 1;
        log := log.(invalid := log.invalid + [e]);
        admitted := false;
      } else {
        callbacks := callbacks + [e];
        admitted := true;
      }
    }

    // The push of a running receiver, with the drops it records
    method PushOffered(e: Envelope)
      requires recvThreadFlag
      modifies this
      ensures View() == AfterOffer(old(View()), e)
    {
      ghost var oldest := recvQueue;
      var result;
      result, recvQueue := PushToBoundedEnvelopeQueue(cfg.qos, e, recvQueue);
      log := log.(offered := log.offered + [e]);
      if result == Rejected {
        droppedMessages, transportQueueDrops := droppedMessages + 1, transportQueueDrops + 1;
        log := log.(rejected := log.rejected + [e]);
        return;
      }
      log := log.(accepted := log.accepted + [e]);
      if result == ReplacedOldest {
        droppedMessages, transportQueueDrops := droppedMessages + 1, transportQueueDrops + 1;
        log := log.(replaced := log.replaced + [oldest[0]]);
      }
    }

    method OfferPending(i: nat)
      requires Enabled(View(), Push(i))
      modifies this
      ensures View() == Apply(old(View()), Push(i))
      ensures droppedMessages - old(droppedMessages) == transportQueueDrops - old(transportQueueDrops)
           == |log.rejected| + |log.replaced| - |old(log).rejected| - |old(log).replaced|
    {
      var e := callbacks[i];
      callbacks := Without(callbacks, i);
      if !recvThreadFlag {
        log := log.(ignored := log.ignored + [e]);
        return;
      }
      PushOffered(e);
    }

    method TakeEnvelope() returns (envelope: Option<Envelope>, done: bool)
      requires Enabled(View(), Take)
      modifies this
      ensures View() == Apply(old(View()), Take)
      ensures done <==> !old(recvThreadFlag) && old(recvQueue) == []
      ensures envelope == if old(recvQueue) == [] then None else Some(old(recvQueue)[0])
      ensures envelope.None? ==> recvQueue == [] && worker == if done then Exited else Parked
      ensures envelope.Some? ==> recvQueue == old(recvQueue)[1..] && worker == Holding(envelope.value)
    {
      envelope, done := None, false;
      if !recvThreadFlag && recvQueue == [] {
        worker := Exited;
        done := true;
      } else if recvQueue == [] {
        worker := Parked;
      } else {
        envelope := Some(recvQueue[0]);
        worker := Holding(recvQueue[0]);
        log := log.(taken := log.taken + [recvQueue[0]]);
        recvQueue := recvQueue[1..];
      }
    }

    // recordReceive after publishing, or recordDrop after an exception
    method FinishEnvelope(decoded: bool)
      requires worker.Holding?
      modifies this
      ensures View() == Apply(old(View()), if decoded then Publish else Fail)
      ensures worker == Awake && totalReceived == old(totalReceived) + (if decoded then 1 else 0)
      ensures droppedMessages == old(droppedMessages) + (if decoded then 0 else 1)
    {
      if decoded {
        totalReceived := totalReceived + 1;
        log := log.(published := log.published + [worker.envelope]);
      } else {
        droppedMessages := droppedMessages + 1;
        log := log.(failed := log.failed + [worker.envelope]);
      }
      worker := Awake;
    }

    method CreateThread()
      requires Enabled(View(), Start)
      modifies this
      ensures View() == Apply(old(View()), Start)
      ensures recvThreadFlag && worker == if old(recvThreadFlag) then old(worker) else Awake
    {
      if !recvThreadFlag {
        recvThreadFlag, worker := true, Awake;
      }
    }

    method StopThread()
      requires Enabled(View(), ClearFlag)
      modifies this
      ensures View() == Apply(old(View()), ClearFlag)
      ensures !recvThreadFlag && joining == old(recvThreadFlag) && recvQueue == old(recvQueue)
    {
      if recvThreadFlag {
        recvThreadFlag, joining := false, true;
      }
    }
  }
}
