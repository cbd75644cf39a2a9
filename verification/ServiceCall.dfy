/**
 A remote service call: the query state of transport/zenoh_transport.cpp, lines 32-40 and
 494-578, between the client and the server of service_factory.cpp, lines 62-184.
 */
module ServiceCall {
  import opened Common
  import opened Envelope
  import Receiver

  // ----- Replies and their outcome -----

  datatype Reply = OkReply(bytes: seq<Byte>) | ErrReply(text: string)

  // Failures with a fixed text are constructors; of those only TimedOut mentions a timeout.
  datatype QueryError =
    | TimedOut
    | Remote(text: string)
    | BadReply
    | BadRequest
    | SessionFailed(text: string)

  datatype Outcome = Success(envelope: Envelope) | Failure(error: QueryError)

  predicate PartAt(text: string, part: string, i: nat) {
    i + |part| <= |text| && text[i..i + |part|] == part
  }

  predicate Contains(text: string, part: string) {
    exists i: nat :: i <= |text| && PartAt(text, part, i)
  }

  function Lower(c: char): char {
    if 'A' <= c <= 'Z' then (c as int + 32) as char else c
  }

  function LowerText(s: string): string {
    seq(|s|, i requires 0 <= i < |s| => Lower(s[i]))
  }

  predicate IsTimeoutError(text: string) {
    Contains(LowerText(text), "timeout") || Contains(LowerText(text), "timed out")
  }

  // The envelope some accepted bytes stand for; Meant shows there is only one.
  ghost function Meaning(bytes: seq<Byte>): (e: Envelope)
    requires Accepts(bytes)
    ensures Encodable(e) && exists flags: Byte :: bytes == Wire(e, flags)
  {
    var e: Envelope :| exists flags: Byte :: Encodable(e) && bytes == Wire(e, flags);
    e
  }

  lemma Meant(bytes: seq<Byte>, e: Envelope, flags: Byte)
    requires Encodable(e) && bytes == Wire(e, flags)
    ensures Accepts(bytes) && Meaning(bytes) == e
  {
    var d := Meaning(bytes);
    var g: Byte :| bytes == Wire(d, g);
    assert Wire(d, g) + [] == Wire(d, g);
    PrefixFree(d, g, e, flags, []);
  }

  // ----- The query state -----

  datatype Pending = Pending(done: bool, received: bool, response: Envelope, error: Option<QueryError>)

  const NOTHING_YET := Pending(false, false, DEFAULT_ENVELOPE, None)

  // An empty error text counts as no error.
  ghost function AfterReply(p: Pending, r: Reply): Pending {
    if p.received then p
    else match r
      case ErrReply(text) => p.(received := true, error := if text == "" then None else Some(Remote(text)))
      case OkReply(bytes) =>
        if Accepts(bytes) then p.(received := true, response := Meaning(bytes))
        else p.(received := true, error := Some(BadReply))
  }

  predicate TimesOut(p: Pending) {
    !p.received || (p.error.Some? && p.error.value.Remote? && IsTimeoutError(p.error.value.text))
  }

  function Conclusion(p: Pending): Outcome {
    if !p.received then Failure(TimedOut)
    else
      match p.error
      case None => Success(p.response)
      case Some(e) => if e.Remote? && IsTimeoutError(e.text) then Failure(TimedOut) else Failure(e)
  }

  datatype Event = Replied(reply: Reply) | AllReplied | WaitEnds

  // outcome is set when the waiting thread wakes for good; replies may still arrive later.
  datatype QueryRun = QueryRun(pending: Pending, outcome: Option<Outcome>, serviceTimeouts: nat)

  ghost function Next(q: QueryRun, event: Event): QueryRun {
    match event
    case Replied(r) => q.(pending := AfterReply(q.pending, r))
    case AllReplied => q.(pending := q.pending.(done := true))
    case WaitEnds =>
      if q.outcome.Some? then q
      else
        q.(outcome := Some(Conclusion(q.pending)),
           serviceTimeouts := q.serviceTimeouts + if TimesOut(q.pending) then 1 else 0)
  }

  ghost function After(events: seq<Event>): QueryRun {
    if events == [] then QueryRun(NOTHING_YET, None, 0)
    else Next(After(DropLast(events)), Last(events))
  }

  // The first reply of any kind, if it comes before the wait ends
  function FirstReply(events: seq<Event>): Option<Reply> {
    if events == [] then None
    else
      match events[0]
      case Replied(r) => Some(r)
      case AllReplied => FirstReply(events[1..])
      case WaitEnds => None
  }

  ghost function OutcomeOf(first: Option<Reply>): Outcome {
    match first
    case None => Failure(TimedOut)
    case Some(r) => Conclusion(AfterReply(NOTHING_YET, r))
  }

  ghost predicate ComesFirst(events: seq<Event>, i: nat, r: Reply) {
    i < |events| && events[i] == Replied(r) && forall j :: 0 <= j < i ==> events[j] == AllReplied
  }

  lemma {:induction false} FirstReplyMeans(events: seq<Event>, r: Reply)
    ensures FirstReply(events) == Some(r) <==> exists i: nat :: ComesFirst(events, i, r)
  {
    if events != [] {
      var rest := events[1..];
      FirstReplyMeans(rest, r);
      if i: nat :| ComesFirst(events, i, r) {
        if i > 0 {
          assert events[0] == AllReplied;
          assert forall j :: 0 <= j < |rest| ==> rest[j] == events[j + 1];
          assert ComesFirst(rest, i - 1, r);
        }
      }
      if i: nat :| ComesFirst(rest, i, r) {
        if events[0] == AllReplied {
          assert forall j :: 0 < j < |events| ==> events[j] == rest[j - 1];
          assert ComesFirst(events, i + 1, r);
        }
      }
      if events[0] == Replied(r) {
        assert ComesFirst(events, 0, r);
      }
    }
  }

  lemma {:induction false} FirstReplyAppend(events: seq<Event>, event: Event)
    ensures FirstReply(events + [event])
         == if FirstReply(events).Some? || WaitEnds in events then FirstReply(events)
            else if event.Replied? then Some(event.reply) else None
  {
    if events == [] {
    } else {
      assert (events + [event])[1..] == events[1..] + [event];
      FirstReplyAppend(events[1..], event);
      assert WaitEnds in events <==> events[0] == WaitEnds || WaitEnds in events[1..];
    }
  }

  ghost predicate PendingIs(p: Pending, first: Option<Reply>) {
    if first.None? then !p.received && p.(done := false) == NOTHING_YET
    else p.received && p.(done := false) == AfterReply(NOTHING_YET, first.value)
  }

  // Whatever the interleaving, only the first reply before the wait ends fixes the outcome.
  lemma {:induction false} FirstReplyDecides(events: seq<Event>)
    ensures var q := After(events);
            && (q.outcome.Some? <==> WaitEnds in events)
            && (q.outcome.Some? ==> q.outcome.value == OutcomeOf(FirstReply(events)))
            && (q.outcome.None? ==> PendingIs(q.pending, FirstReply(events)))
            && q.serviceTimeouts == if q.outcome == Some(Failure(TimedOut)) then 1 else 0
  {
    if events != [] {
      FirstReplyDecides(DropLast(events));
      FirstReplyAppend(DropLast(events), Last(events));
      Rejoin(events);
      DoneIsNoReply(After(DropLast(events)).pending);
    }
  }

  lemma DoneIsNoReply(p: Pending)
    ensures Conclusion(p) == Conclusion(p.(done := false))
    ensures forall r: Reply :: AfterReply(p, r).(done := false) == AfterReply(p.(done := false), r)
  {
  }

  method DecodeReply(bytes: seq<Byte>, before: Envelope) returns (decoded: Option<Envelope>)
    ensures decoded.Some? <==> Accepts(bytes)
    ensures decoded.Some? ==> decoded.value == Meaning(bytes)
  {
    var e, failure := DecodeEnvelope(bytes, before);
    if failure.Some? {
      return None;
    }
    Meant(bytes, e, bytes[7]);
    decoded := Some(e);
  }

  class QueryState {
    var done: bool
    var received: bool
    var response: Envelope
    var error: Option<QueryError>

    ghost function View(): Pending
      reads this
    {
      Pending(done, received, response, error)
    }

    constructor ()
      ensures View() == NOTHING_YET
    {
      done, received, response, error := false, false, DEFAULT_ENVELOPE, None;
    }

    method OnReply(reply: Reply)
      modifies this
      ensures View() == AfterReply(old(View()), reply)
    {
      if received {
        return;
      }
      match reply {
        case ErrReply(text) =>
          error := if text == "" then None else Some(Remote(text));
        case OkReply(bytes) =>
          var decoded := DecodeReply(bytes, response);
          if decoded.None? {
            error := Some(BadReply);
          } else {
            response := decoded.value;
          }
      }
      received := true;
    }

    method OnDone()
      modifies this
      ensures View() == old(View()).(done := true)
    {
      done := true;
    }
  }

  class QueryClient {
    var serviceTimeouts: nat

    constructor ()
      ensures serviceTimeouts == 0
    {
      serviceTimeouts := 0;
    }

    // The rest of Query once its wait has ended
    method EndWait(state: QueryState) returns (outcome: Outcome)
      modifies `serviceTimeouts
      ensures outcome == Conclusion(state.View())
      ensures serviceTimeouts == old(serviceTimeouts) + if TimesOut(state.View()) then 1 else 0
    {
      if !state.received {
        serviceTimeouts := serviceTimeouts + 1;
        return Failure(TimedOut);
      }
      if state.error.Some? {
        var e := state.error.value;
        if e.Remote? && IsTimeoutError(e.text) {
          serviceTimeouts := serviceTimeouts + 1;
          return Failure(TimedOut);
        }
        return Failure(e);
      }
      outcome := Success(state.response);
    }
  }

  // ----- Client and server -----

  datatype ServiceConfig = ServiceConfig(
    serviceType: Text,
    md5: Text,
    host: Text,
    clients: map<string, bool>)

  // Sequence numbers wrap at 64 bits.
  function NextSequence(sequence: UInt64): UInt64 {
    (sequence + 1) % 0x1_0000_0000_0000_0000
  }

  function RequestOf(c: ServiceConfig, sequence: UInt64, now: Int64, payload: seq<Byte>): Envelope {
    Envelope(PROTOCOL_VERSION, ServiceRequest, sequence, now, 0, c.host, c.serviceType, c.md5, [], payload)
  }

  function ResponseOf(c: ServiceConfig, request: Envelope, now: Int64, payload: seq<Byte>): Envelope {
    Envelope(PROTOCOL_VERSION, ServiceResponse, request.sequence, now, 0, c.host, c.serviceType, c.md5, [], payload)
  }

  predicate RightResponse(c: ServiceConfig, e: Envelope) {
    e.kind == ServiceResponse && Receiver.MetadataValid(e, c.serviceType, c.md5)
  }

  predicate Permits(c: ServiceConfig, request: Envelope) {
    && request.kind == ServiceRequest && Receiver.MetadataValid(request, c.serviceType, c.md5)
    && request.sourceHost in c.clients && c.clients[request.sourceHost]
  }

  datatype Refusal = BadEnvelope | ClientNotAllowed | LocalCallFailed(text: string)

  // local: the serialized answer of the local service, or the text of an exception
  method HandleRemoteRequest(c: ServiceConfig, request: Envelope, now: Int64, local: Result<seq<Byte>, string>)
    returns (result: Result<Envelope, Refusal>)
    ensures result.Ok? <==> Permits(c, request) && local.Ok?
    ensures result.Ok? ==> result.value == ResponseOf(c, request, now, local.value)
    ensures result == Err(BadEnvelope) <==>
              !(request.kind == ServiceRequest && request.version == 1
                && request.rosType == c.serviceType && request.rosMd5 == c.md5)
    ensures result.Err? && result.error.LocalCallFailed? <==>
              && request.kind == ServiceRequest && request.version == 1
              && request.rosType == c.serviceType && request.rosMd5 == c.md5
              && request.sourceHost in c.clients && c.clients[request.sourceHost] && local.Err?
    ensures result.Ok? ==>
              && result.value.kind == ServiceResponse && result.value.version == 1
              && result.value.sequence == request.sequence && result.value.sourceTimeNs == now
              && result.value.sourceHost == c.host && result.value.rosType == c.serviceType
              && result.value.rosMd5 == c.md5 && result.value.payload == local.value
    ensures result == Err(ClientNotAllowed) <==>
              && request.kind == ServiceRequest && Receiver.MetadataValid(request, c.serviceType, c.md5)
              && !(request.sourceHost in c.clients && c.clients[request.sourceHost])
  {
    if request.kind != ServiceRequest || !Receiver.MetadataValid(request, c.serviceType, c.md5) {
      return Err(BadEnvelope);
    }
    if request.sourceHost !in c.clients || !c.clients[request.sourceHost] {
      return Err(ClientNotAllowed);
    }
    if local.Err? {
      return Err(LocalCallFailed(local.error));
    }
    var response := DEFAULT_ENVELOPE.(kind := ServiceResponse, sequence := request.sequence, sourceTimeNs := now,
                                      sourceHost := c.host, rosType := c.serviceType, rosMd5 := c.md5);
    result := Ok(response.(payload := local.value));
  }

  // Query as a whole: encoding, the session's get, which may throw, and the wait
  ghost function QueryOutcome(request: Envelope, thrown: Option<string>, events: seq<Event>): Outcome
    requires WaitEnds in events
  {
    if !Encodable(request) then Failure(BadRequest)
    else if thrown.Some? then Failure(SessionFailed(thrown.value))
    else
      FirstReplyDecides(events);
      After(events).outcome.value
  }

  predicate MentionsTimeout(e: QueryError) {
    match e
    case TimedOut => true
    case Remote(text) => Contains(text, "timed out")
    case SessionFailed(text) => Contains(text, "timed out")
    case _ => false
  }

  class ServiceFactory {
    const config: ServiceConfig
    var sequence: UInt64
    var timeoutCount: nat

    constructor (config: ServiceConfig)
      ensures this.config == config && sequence == 0 && timeoutCount == 0
    {
      this.config, sequence, timeoutCount := config, 0, 0;
    }

    method MakeRequest(payload: seq<Byte>, now: Int64) returns (request: Envelope)
      modifies `sequence
      ensures sequence == NextSequence(old(sequence))
      ensures request == RequestOf(config, sequence, now, payload)
      ensures sequence == if old(sequence) == 18446744073709551615 then 0 else old(sequence) + 1
      ensures request.kind == ServiceRequest && request.version == 1 && request.sequence == sequence
      ensures request.sourceTimeNs == now && request.sourceHost == config.host
      ensures request.rosType == config.serviceType && request.rosMd5 == config.md5 && request.payload == payload
    {
      sequence := NextSequence(sequence);
      request := DEFAULT_ENVELOPE.(kind := ServiceRequest, sequence := sequence, sourceTimeNs := now,
                                   sourceHost := config.host, rosType := config.serviceType, rosMd5 := config.md5);
      request := request.(payload := payload);
    }

    // The rest of call, once the transport's Query has returned
    method FinishCall(outcome: Outcome) returns (response: Option<seq<Byte>>)
      modifies `timeoutCount
      ensures response == CallResult(config, outcome)
      ensures timeoutCount == old(timeoutCount) + CallTimeouts(outcome)
      ensures response.Some? <==>
                && outcome.Success? && outcome.envelope.kind == ServiceResponse && outcome.envelope.version == 1
                && outcome.envelope.rosType == config.serviceType && outcome.envelope.rosMd5 == config.md5
      ensures response.Some? ==> response.value == outcome.envelope.payload
    {
      match outcome {
        case Failure(error) =>
          if MentionsTimeout(error) {
            timeoutCount := timeoutCount + 1;
          }
          return None;
        case Success(e) =>
          if e.kind != ServiceResponse || !Receiver.MetadataValid(e, config.serviceType, config.md5) {
            return None;
          }
          return Some(e.payload);
      }
    }
  }

  function CallResult(c: ServiceConfig, outcome: Outcome): Option<seq<Byte>> {
    if outcome.Success? && RightResponse(c, outcome.envelope) then Some(outcome.envelope.payload) else None
  }

  function CallTimeouts(outcome: Outcome): nat {
    if outcome.Failure? && MentionsTimeout(outcome.error) then 1 else 0
  }

  // A call succeeds exactly when its request went out and the first reply before the wait
  // ended decodes to a service response with the expected version, type and checksum.
  lemma CallSucceeds(c: ServiceConfig, request: Envelope, thrown: Option<string>, events: seq<Event>)
    requires WaitEnds in events
    ensures var result := CallResult(c, QueryOutcome(request, thrown, events));
            var first := FirstReply(events);
            && (result.Some? <==>
                  && Encodable(request) && thrown.None?
                  && first.Some? && first.value.OkReply? && Accepts(first.value.bytes)
                  && var e := Meaning(first.value.bytes);
                     e.kind == ServiceResponse && e.version == 1 && e.rosType == c.serviceType && e.rosMd5 == c.md5)
            && (result.Some? ==> result.value == Meaning(first.value.bytes).payload)
  {
    FirstReplyDecides(events);
  }

  // The outcome of a query by its first reply
  lemma OutcomeByReply(request: Envelope, thrown: Option<string>, events: seq<Event>)
    requires WaitEnds in events
    ensures var outcome := QueryOutcome(request, thrown, events);
            var first := FirstReply(events);
            if !Encodable(request) then outcome == Failure(BadRequest)
            else if thrown.Some? then outcome == Failure(SessionFailed(thrown.value))
            else if first.None? then outcome == Failure(TimedOut)
            else match first.value
              case OkReply(bytes) =>
                outcome == if Accepts(bytes) then Success(Meaning(bytes)) else Failure(BadReply)
              case ErrReply(text) =>
                text != "" ==>
                  outcome == Failure(if SaysTimeout(text) then TimedOut else Remote(text))
  {
    FirstReplyDecides(events);
    if FirstReply(events).Some? && FirstReply(events).value.ErrReply? {
      TimeoutWords(FirstReply(events).value.text);
    }
  }

  // The word stands at this place in capital or small letters.
  predicate Reads(text: string, word: string, i: nat) {
    i + |word| <= |text|
    && forall k :: 0 <= k < |word| ==>
         var c := text[i..i + |word|][k];
         c == word[k] || ('a' <= word[k] <= 'z' && c as int + 32 == word[k] as int)
  }

  predicate SaysTimeout(text: string) {
    exists i: nat :: i <= |text| && (Reads(text, "timeout", i) || Reads(text, "timed out", i))
  }

  predicate Small(word: string) {
    forall k :: 0 <= k < |word| ==> !('A' <= word[k] <= 'Z')
  }

  lemma LowerReads(text: string, word: string, i: nat)
    requires Small(word)
    ensures PartAt(LowerText(text), word, i) <==> Reads(text, word, i)
  {
    if i + |word| <= |text| {
      var lower, part := LowerText(text)[i..i + |word|], text[i..i + |word|];
      forall k | 0 <= k < |word|
        ensures lower[k] == word[k] <==>
                (part[k] == word[k] || ('a' <= word[k] <= 'z' && part[k] as int + 32 == word[k] as int))
      {
        assert lower[k] == Lower(part[k]);
      }
    }
  }

  // An error speaks of a timeout exactly when it has one of the two words, in any case.
  lemma TimeoutWords(text: string)
    ensures IsTimeoutError(text) <==> SaysTimeout(text)
  {
    assert Small("timeout") && Small("timed out");
    forall i: nat
      ensures PartAt(LowerText(text), "timeout", i) <==> Reads(text, "timeout", i)
      ensures PartAt(LowerText(text), "timed out", i) <==> Reads(text, "timed out", i)
    {
      LowerReads(text, "timeout", i);
      LowerReads(text, "timed out", i);
    }
  }

  // A failed call counts a timeout when the wait ended without a reply, or when the text of a
  // remote or session error has the words in small letters.
  lemma CountedTimeouts(outcome: Outcome)
    ensures CallTimeouts(outcome) == 1
       <==> (&& outcome.Failure?
             && match outcome.error
                case TimedOut => true
                case Remote(text) => exists before, after :: text == before + "timed out" + after
                case SessionFailed(text) => exists before, after :: text == before + "timed out" + after
                case _ => false)
  {
    if outcome.Failure? && outcome.error.Remote? {
      WordInText(outcome.error.text, "timed out");
    } else if outcome.Failure? && outcome.error.SessionFailed? {
      WordInText(outcome.error.text, "timed out");
    }
  }

  lemma WordInText(text: string, word: string)
    ensures Contains(text, word) <==> exists before, after :: text == before + word + after
  {
    if Contains(text, word) {
      var i: nat :| i <= |text| && PartAt(text, word, i);
      assert text == text[..i] + word + text[i + |word|..];
    }
    if before, after :| text == before + word + after {
      assert PartAt(text, word, |before|);
    }
  }

  // Query succeeds exactly on a decoded first reply or on an error reply with an empty text;
  // call refuses the default envelope that the latter yields.
  lemma EmptyErrorReply(c: ServiceConfig, request: Envelope, thrown: Option<string>, events: seq<Event>)
    requires WaitEnds in events
    ensures var first := FirstReply(events);
            QueryOutcome(request, thrown, events).Success?
            <==> (Encodable(request) && thrown.None? && first.Some?
                  && (first.value == ErrReply("") || (first.value.OkReply? && Accepts(first.value.bytes))))
    ensures Encodable(request) && thrown.None? && FirstReply(events) == Some(ErrReply(""))
        ==> QueryOutcome(request, thrown, events) == Success(DEFAULT_ENVELOPE)
            && CallResult(c, QueryOutcome(request, thrown, events)) == None
  {
    FirstReplyDecides(events);
  }

  lemma LowerKeepsTimedOut(text: string)
    requires Contains(text, "timed out")
    ensures IsTimeoutError(text)
  {
    var part := "timed out";
    var i: nat :| i <= |text| && PartAt(text, part, i);
    LowerPart(text, part, i);
    assert LowerText(part) == part;
  }

  lemma LowerPart(text: string, part: string, i: nat)
    requires PartAt(text, part, i)
    ensures PartAt(LowerText(text), LowerText(part), i)
  {
    forall k | 0 <= k < |part|
      ensures LowerText(text)[i..i + |part|][k] == LowerText(part)[k]
    {
      assert text[i..i + |part|][k] == text[i + k];
    }
  }

  // The client's timeout counter and the transport's advance together on every query that
  // reached the session.
  lemma TimeoutsAgree(request: Envelope, events: seq<Event>)
    requires WaitEnds in events && Encodable(request)
    ensures CallTimeouts(QueryOutcome(request, None, events)) == After(events).serviceTimeouts
  {
    FirstReplyDecides(events);
    var outcome := After(events).outcome.value;
    if outcome.Failure? && outcome.error.Remote? && Contains(outcome.error.text, "timed out") {
      LowerKeepsTimedOut(outcome.error.text);
      assert false;
    }
  }

  // When the server of the same service answers first, the caller gets the answer of the
  // server's local service, under the caller's sequence number.
  lemma EndToEnd(client: ServiceConfig, server: ServiceConfig, sequence: UInt64, sentAt: Int64, payload: seq<Byte>,
                 answeredAt: Int64, answer: seq<Byte>, flags: Byte, events: seq<Event>)
    requires client.serviceType == server.serviceType && client.md5 == server.md5
    requires client.host in server.clients && server.clients[client.host]
    requires WaitEnds in events
    ensures var request := RequestOf(client, sequence, sentAt, payload);
            var response := ResponseOf(server, request, answeredAt, answer);
            Permits(server, request) && response.sequence == sequence
            && (Encodable(request) && Encodable(response) && FirstReply(events) == Some(OkReply(Wire(response, flags)))
                ==> CallResult(client, QueryOutcome(request, None, events)) == Some(answer))
  {
    var request := RequestOf(client, sequence, sentAt, payload);
    var response := ResponseOf(server, request, answeredAt, answer);
    if Encodable(request) && Encodable(response) && FirstReply(events) == Some(OkReply(Wire(response, flags))) {
      Meant(Wire(response, flags), response, flags);
      CallSucceeds(client, request, None, events);
    }
  }
}
