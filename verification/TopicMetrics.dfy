/**
 The runtime metrics of one topic: topic_factory.cpp, lines 517-623, and
 diagnostics/topic_metrics.cpp, lines 10-18 and 70-113.
 */
module TopicMetrics {
  import opened Common
  import opened Arithmetic
  import opened SlidingWindow
  import opened JpegQuality

  const RATE_WINDOW: nat := 3_000_000_000

  function AtLeast(a: real, b: real): (m: real)
    ensures m >= a && m >= b && (m == a || m == b)
  {
    if a < b then b else a
  }

  function AtMost(a: real, b: real): (m: real)
    ensures m <= a && m <= b && (m == a || m == b)
  {
    if b < a then b else a
  }

  function Seconds(ns: int): real {
    ns as real / 1000000000.0
  }

  // ComputeObservedWindow, for the configured window of RATE_WINDOW
  function ObservedWindow(now: int, start: int): (seconds: real)
    ensures 0.001 <= seconds <= 3.0
  {
    if start == 0 then 3.0 else AtMost(3.0, AtLeast(0.001, Seconds(now - start)))
  }

  function Rate(recent: seq<Sample>, now: int): real {
    if recent == [] then 0.0 else |recent| as real / ObservedWindow(now, recent[0].at)
  }

  function Bandwidth(recent: seq<Sample>, now: int): real {
    if recent == [] then 0.0 else Bytes(recent) as real * 8.0 / 1000.0 / ObservedWindow(now, recent[0].at)
  }

  // What the quality controller measures; it needs two samples.
  function Reading(recent: seq<Sample>, now: int): Option<real> {
    if |recent| < 2 then None
    else Some(Bytes(recent) as real * 8.0 / 1000.0 / AtLeast(0.001, Seconds(now - recent[0].at)))
  }

  datatype Rates = Rates(sendRateHz: real, recvRateHz: real, bandwidthKbps: real)

  function RatesOf(sent: seq<Sample>, received: seq<Sample>, sending: bool, now: int): Rates {
    Rates(Rate(sent, now), Rate(received, now), Bandwidth(if sending then sent else received, now))
  }

  // ----- The state as a function of the calls so far -----

  datatype Call =
    | RecordSend(at: int, bytes: nat)
    | RecordReceive(at: int, bytes: nat)
    | GetMetricsSnapshot(at: int)

  predicate Records(call: Call, sending: bool) {
    if sending then call.RecordSend? else call.RecordReceive?
  }

  // Everything ever sent, or received
  function History(calls: seq<Call>, sending: bool): seq<Sample> {
    if calls == [] then []
    else
      var before := History(DropLast(calls), sending);
      var call := Last(calls);
      if Records(call, sending) then before + [Sample(call.at, call.bytes)] else before
  }

  // The two deques of one direction and its totals
  datatype Series = Series(times: seq<int>, samples: seq<Sample>, total: nat, totalBytes: nat)

  // Each call prunes and then adds what it records.
  function AfterCall(s: Series, call: Call, sending: bool): Series {
    var times := PrunedTimes(s.times, call.at, RATE_WINDOW);
    var samples := Pruned(s.samples, call.at, RATE_WINDOW);
    if Records(call, sending) then
      Series(times + [call.at], samples + [Sample(call.at, call.bytes)], s.total + 1, s.totalBytes + call.bytes)
    else Series(times, samples, s.total, s.totalBytes)
  }

  function SeriesOf(calls: seq<Call>, sending: bool): Series {
    if calls == [] then Series([], [], 0, 0)
    else AfterCall(SeriesOf(DropLast(calls), sending), Last(calls), sending)
  }

  // The quality controller reads the send window after every send.
  function ControlOf(cfg: QualityConfig, calls: seq<Call>): Control {
    if calls == [] then Run(cfg, [])
    else
      var before := ControlOf(cfg, DropLast(calls));
      if Last(calls).RecordSend? then
        AfterSend(cfg, before, Reading(SeriesOf(calls, true).samples, Last(calls).at))
      else before
  }

  function Readings(calls: seq<Call>): seq<Option<real>> {
    if calls == [] then []
    else
      var before := Readings(DropLast(calls));
      if Last(calls).RecordSend? then before + [Reading(SeriesOf(calls, true).samples, Last(calls).at)] else before
  }

  // So every bound on runs of the controller holds of the topic.
  lemma {:induction false} ControlIsRun(cfg: QualityConfig, calls: seq<Call>)
    ensures ControlOf(cfg, calls) == Run(cfg, Readings(calls))
    ensures ControlOf(cfg, calls).sent == |History(calls, true)| == |Readings(calls)|
  {
    if calls != [] {
      ControlIsRun(cfg, DropLast(calls));
      if Last(calls).RecordSend? {
        RunSnoc(cfg, Readings(DropLast(calls)), Reading(SeriesOf(calls, true).samples, Last(calls).at));
      }
    }
  }

  lemma RunSnoc(cfg: QualityConfig, readings: seq<Option<real>>, reading: Option<real>)
    ensures Run(cfg, readings + [reading]) == AfterSend(cfg, Run(cfg, readings), reading)
  {
    LastOfAppend(readings, [reading]);
    assert readings + DropLast([reading]) == readings;
  }

  ghost predicate SteadyClock(calls: seq<Call>) {
    forall i, j :: 0 <= i <= j < |calls| ==> calls[i].at <= calls[j].at
  }

  lemma {:induction false} HistorySorted(calls: seq<Call>, sending: bool)
    requires SteadyClock(calls)
    ensures Nondecreasing(History(calls, sending))
    ensures History(calls, sending) != [] ==> calls != [] && Last(History(calls, sending)).at <= Last(calls).at
  {
    if calls != [] {
      HistorySorted(DropLast(calls), sending);
    }
  }

  lemma InWindowSnoc(history: seq<Sample>, s: Sample)
    ensures InWindow(history + [s], s.at, RATE_WINDOW) == InWindow(history, s.at, RATE_WINDOW) + [s]
  {
    LastOfAppend(history, [s]);
    assert history + DropLast([s]) == history;
  }

  // Under a clock that never steps back, each deque is the whole history cut to the window,
  // after every call.
  lemma {:induction false} WindowsRefineHistory(calls: seq<Call>, sending: bool)
    requires SteadyClock(calls) && calls != []
    ensures SeriesOf(calls, sending).samples == InWindow(History(calls, sending), Last(calls).at, 3_000_000_000)
  {
    var before, call := DropLast(calls), Last(calls);
    var history := History(before, sending);
    if before != [] {
      WindowsRefineHistory(before, sending);
      HistorySorted(before, sending);
      PruneRefines(history, Last(before).at, call.at, RATE_WINDOW);
    }
    if Records(call, sending) {
      InWindowSnoc(history, Sample(call.at, call.bytes));
    }
  }

  // Whatever the clock does, the two deques stay in step and the totals are those of the
  // whole history.
  lemma {:induction false} SeriesInStep(calls: seq<Call>, sending: bool)
    ensures var s := SeriesOf(calls, sending);
            && s.times == Times(s.samples)
            && s.total == |History(calls, sending)| && s.totalBytes == Bytes(History(calls, sending))
  {
    if calls != [] {
      var before, call := DropLast(calls), Last(calls);
      var s := SeriesOf(before, sending);
      SeriesInStep(before, sending);
      CallInStep(s, call, sending);
      if Records(call, sending) {
        Pushed(History(before, sending), Sample(call.at, call.bytes));
      }
    }
  }

  lemma CallInStep(s: Series, call: Call, sending: bool)
    requires s.times == Times(s.samples)
    ensures AfterCall(s, call, sending).times == Times(AfterCall(s, call, sending).samples)
  {
    PrunedInStep(s.samples, call.at, RATE_WINDOW);
    if Records(call, sending) {
      Pushed(Pruned(s.samples, call.at, RATE_WINDOW), Sample(call.at, call.bytes));
    }
  }

  lemma Pushed(deque: seq<Sample>, s: Sample)
    ensures Times(deque + [s]) == Times(deque) + [s.at]
    ensures Bytes(deque + [s]) == Bytes(deque) + s.bytes
  {
    LastOfAppend(deque, [s]);
    assert deque + DropLast([s]) == deque;
  }

  lemma OneMoreCall(calls: seq<Call>, call: Call)
    ensures DropLast(calls + [call]) == calls && Last(calls + [call]) == call
  {
  }

  class TopicRuntimeState {
    const cfg: QualityConfig
    const sending: bool
    const windowStart: int
    var recentSendTimes: seq<int>
    var recentRecvTimes: seq<int>
    var recentSendBytes: seq<Sample>
    var recentRecvBytes: seq<Sample>
    var totalSent: nat
    var totalReceived: nat
    var totalSendBytes: nat
    var totalRecvBytes: nat
    var currentJpegQuality: int
    var lastAdaptTotalSent: nat
    ghost var calls: seq<Call>
    ghost var adjustments: nat

    ghost function SendSeries(): Series
      reads this
    {
      Series(recentSendTimes, recentSendBytes, totalSent, totalSendBytes)
    }

    ghost function RecvSeries(): Series
      reads this
    {
      Series(recentRecvTimes, recentRecvBytes, totalReceived, totalRecvBytes)
    }

    ghost function Controller(): Control
      reads this
    {
      Control(currentJpegQuality, lastAdaptTotalSent, totalSent, adjustments)
    }

    // Every field is a function of the calls so far.
    ghost predicate Valid()
      reads this
    {
      && SendSeries() == SeriesOf(calls, true) && RecvSeries() == SeriesOf(calls, false)
      && Controller() == ControlOf(cfg, calls)
    }

    constructor (cfg: QualityConfig, sending: bool, now: int)
      ensures Valid() && calls == []
      ensures this.cfg == cfg && this.sending == sending
    {
      this.cfg, this.sending, windowStart := cfg, sending, now;
      recentSendTimes, recentRecvTimes, recentSendBytes, recentRecvBytes := [], [], [], [];
      totalSent, totalReceived, totalSendBytes, totalRecvBytes := 0, 0, 0, 0;
      currentJpegQuality, lastAdaptTotalSent := cfg.initial, 0;
      calls, adjustments := [], 0;
    }

    method PruneMetricsWindow(now: int)
      modifies `recentSendTimes, `recentRecvTimes, `recentSendBytes, `recentRecvBytes
      ensures recentSendTimes == PrunedTimes(old(recentSendTimes), now, RATE_WINDOW)
      ensures recentRecvTimes == PrunedTimes(old(recentRecvTimes), now, RATE_WINDOW)
      ensures recentSendBytes == Pruned(old(recentSendBytes), now, RATE_WINDOW)
      ensures recentRecvBytes == Pruned(old(recentRecvBytes), now, RATE_WINDOW)
    {
      recentSendTimes := PruneTimes(recentSendTimes, now, RATE_WINDOW);
      recentRecvTimes := PruneTimes(recentRecvTimes, now, RATE_WINDOW);
      recentSendBytes := PruneSamples(recentSendBytes, now, RATE_WINDOW);
      recentRecvBytes := PruneSamples(recentRecvBytes, now, RATE_WINDOW);
    }

    method MeasureBandwidth(now: int) returns (reading: Option<real>)
      ensures reading == Reading(recentSendBytes, now)
    {
      if |recentSendBytes| < 2 {
        return None;
      }
      var recentBytes := SumBytes(recentSendBytes);
      var window := AtLeast(0.001, Seconds(now - recentSendBytes[0].at));
      reading := Some(recentBytes as real * 8.0 / 1000.0 / window);
    }

    // maybeAdaptImageQualityLocked, once the send is counted
    method MaybeAdaptImageQuality(reading: Option<real>, ghost before: Control)
      requires Controller() == before.(sent := before.sent + 1)
      modifies `currentJpegQuality, `lastAdaptTotalSent, `adjustments
      ensures Controller() == AfterSend(cfg, before, reading)
    {
      if !cfg.enabled || cfg.targetKbps <= 0.0 || reading.None?
         || totalSent < lastAdaptTotalSent + cfg.cooldown {
        return;
      }
      var bandwidth := reading.value;
      var quality := currentJpegQuality;
      if bandwidth > cfg.targetKbps * 1.15 && quality > cfg.low {
        quality := Max(cfg.low, quality - cfg.step);
      } else if bandwidth < cfg.targetKbps * 0.85 && quality < cfg.high {
        quality := Min(cfg.high, quality + cfg.step);
      } else {
        return;
      }
      currentJpegQuality, lastAdaptTotalSent := quality, totalSent;
      adjustments := adjustments + 1;
    }

    // recordSend up to the quality controller
    method CountSend(bytes: nat, now: int)
      modifies this
      ensures SendSeries() == AfterCall(old(SendSeries()), RecordSend(now, bytes), true)
      ensures RecvSeries() == AfterCall(old(RecvSeries()), RecordSend(now, bytes), false)
      ensures calls == old(calls) + [RecordSend(now, bytes)]
      ensures Controller() == old(Controller()).(sent := old(totalSent) + 1)
    {
      PruneMetricsWindow(now);
      totalSent := totalSent + 1;
      totalSendBytes := totalSendBytes + bytes;
      recentSendTimes := recentSendTimes + [now];
      recentSendBytes := recentSendBytes + [Sample(now, bytes)];
      calls := calls + [RecordSend(now, bytes)];
    }

    method RecordSendBytes(bytes: nat, now: int)
      requires Valid()
      modifies this
      ensures Valid() && calls == old(calls) + [RecordSend(now, bytes)]
    {
      ghost var before := Controller();
      OneMoreCall(calls, RecordSend(now, bytes));
      CountSend(bytes, now);
      var reading := MeasureBandwidth(now);
      MaybeAdaptImageQuality(reading, before);
    }

    method CountReceive(bytes: nat, now: int)
      modifies this
      ensures SendSeries() == AfterCall(old(SendSeries()), RecordReceive(now, bytes), true)
      ensures RecvSeries() == AfterCall(old(RecvSeries()), RecordReceive(now, bytes), false)
      ensures calls == old(calls) + [RecordReceive(now, bytes)] && Controller() == old(Controller())
    {
      PruneMetricsWindow(now);
      totalReceived := totalReceived + 1;
      totalRecvBytes := totalRecvBytes + bytes;
      recentRecvTimes := recentRecvTimes + [now];
      recentRecvBytes := recentRecvBytes + [Sample(now, bytes)];
      calls := calls + [RecordReceive(now, bytes)];
    }

    method RecordReceiveBytes(bytes: nat, now: int)
      requires Valid()
      modifies this
      ensures Valid() && calls == old(calls) + [RecordReceive(now, bytes)]
    {
      OneMoreCall(calls, RecordReceive(now, bytes));
      CountReceive(bytes, now);
    }

    method Snapshot(now: int) returns (m: Rates)
      requires Valid()
      modifies this
      ensures Valid() && calls == old(calls) + [GetMetricsSnapshot(now)]
      ensures m == RatesOf(SeriesOf(calls, true).samples, SeriesOf(calls, false).samples, sending, now)
    {
      OneMoreCall(calls, GetMetricsSnapshot(now));
      PruneMetricsWindow(now);
      calls := calls + [GetMetricsSnapshot(now)];
      SeriesInStep(calls, true);
      SeriesInStep(calls, false);
      m := MakeTopicMetrics(now);
    }

    method MakeTopicMetrics(now: int) returns (m: Rates)
      requires recentSendTimes == Times(recentSendBytes) && recentRecvTimes == Times(recentRecvBytes)
      ensures m == RatesOf(recentSendBytes, recentRecvBytes, sending, now)
    {
      FrontTimes(recentSendBytes);
      FrontTimes(recentRecvBytes);
      var sendElapsed := ObservedWindow(now, if recentSendTimes == [] then windowStart else recentSendTimes[0]);
      var recvElapsed := ObservedWindow(now, if recentRecvTimes == [] then windowStart else recentRecvTimes[0]);
      var sendRate := if recentSendTimes == [] then 0.0 else |recentSendTimes| as real / sendElapsed;
      var recvRate := if recentRecvTimes == [] then 0.0 else |recentRecvTimes| as real / recvElapsed;
      var recentBytes := SumBytes(if sending then recentSendBytes else recentRecvBytes);
      var elapsed := if sending then sendElapsed else recvElapsed;
      var bandwidth := if recentBytes == 0 then 0.0 else recentBytes as real * 8.0 / 1000.0 / elapsed;
      m := Rates(sendRate, recvRate, bandwidth);
    }
  }

  lemma FrontTimes(s: seq<Sample>)
    ensures |Times(s)| == |s| && (s != [] ==> Times(s)[0] == s[0].at)
  {
    if s != [] {
      TimesTail(s);
    }
  }

  // What a snapshot reports under a clock that never steps back: the figures of the full
  // history cut to the window.
  lemma SnapshotReportsHistory(calls: seq<Call>, sending: bool, now: int)
    requires SteadyClock(calls + [GetMetricsSnapshot(now)])
    ensures var all := calls + [GetMetricsSnapshot(now)];
            RatesOf(SeriesOf(all, true).samples, SeriesOf(all, false).samples, sending, now)
            == RatesOf(InWindow(History(calls, true), now, 3_000_000_000),
                       InWindow(History(calls, false), now, 3_000_000_000), sending, now)
  {
    OneMoreCall(calls, GetMetricsSnapshot(now));
    WindowsRefineHistory(calls + [GetMetricsSnapshot(now)], true);
    WindowsRefineHistory(calls + [GetMetricsSnapshot(now)], false);
  }

  // What the quality controller measures at a send is the in-window history, this send included.
  lemma ReadingIsOfHistory(calls: seq<Call>)
    requires SteadyClock(calls) && calls != [] && Last(calls).RecordSend?
    ensures var now := Last(calls).at;
            Readings(calls) != []
            && Last(Readings(calls)) == Reading(InWindow(History(calls, true), now, RATE_WINDOW), now)
  {
    WindowsRefineHistory(calls, true);
  }

  lemma {:induction false} NothingSent(calls: seq<Call>)
    requires Readings(calls) == []
    ensures SeriesOf(calls, true).samples == []
  {
    if calls != [] {
      NothingSent(DropLast(calls));
    }
  }

  // The first send finds itself alone in the window.
  lemma {:induction false} FirstReadingNone(calls: seq<Call>)
    requires Readings(calls) != []
    ensures Readings(calls)[0] == None
  {
    if Readings(DropLast(calls)) == [] {
      NothingSent(DropLast(calls));
    } else {
      FirstReadingNone(DropLast(calls));
    }
  }

  // A topic overloaded at every send after its first: quality is the start less one step per
  // cooldown of sends, down to low.
  lemma OverloadedTopic(cfg: QualityConfig, calls: seq<Call>)
    requires Clamped(cfg) && cfg.enabled && cfg.targetKbps > 0.0
    requires OverloadedAfterFirst(cfg, Readings(calls))
    ensures ControlOf(cfg, calls).quality == Fallen(cfg, |History(calls, true)|)
  {
    ControlIsRun(cfg, calls);
    if Readings(calls) == [] {
      NothingFallen(cfg);
    } else {
      FirstReadingNone(calls);
      OverloadAfterFirst(cfg, Readings(calls));
    }
  }

  // Two sends of a megabyte within a second overload the default target: with a cooldown of
  // one, quality falls at the second.
  lemma SecondSendFalls(cfg: QualityConfig)
    requires cfg == QualityConfig(true, 80, 45, 90, 5, 1, 1200.0)
    ensures var calls := [RecordSend(1, 1_000_000), RecordSend(1_000_000_001, 1_000_000)];
            Readings(calls) == [None, Some(16000.0)]
            && ControlOf(cfg, [calls[0]]).quality == 80 && ControlOf(cfg, calls).quality == 75
  {
    var a, b := RecordSend(1, 1_000_000), RecordSend(1_000_000_001, 1_000_000);
    var x, y := Sample(1, 1_000_000), Sample(1_000_000_001, 1_000_000);
    assert DropLast([a, b]) == [a] && DropLast([a]) == [];
    assert SeriesOf([], true) == Series([], [], 0, 0);
    assert SeriesOf([a], true).samples == [x];
    assert SeriesOf([a, b], true).samples == [x, y];
    assert DropLast([x, y]) == [x] && DropLast([x]) == [];
    assert Bytes([x]) == 1_000_000 && Bytes([x, y]) == 2_000_000;
    assert Readings([]) == [] && Readings([a]) == [None];
    assert ControlOf(cfg, [a]) == Control(80, 0, 1, 0);
  }

  // ----- The figures in numbers -----

  // What each call adds to the two histories
  lemma HistoryOfCall(calls: seq<Call>, at: int, bytes: nat)
    ensures History(calls + [RecordSend(at, bytes)], true) == History(calls, true) + [Sample(at, bytes)]
    ensures History(calls + [RecordSend(at, bytes)], false) == History(calls, false)
    ensures History(calls + [RecordReceive(at, bytes)], true) == History(calls, true)
    ensures History(calls + [RecordReceive(at, bytes)], false) == History(calls, false) + [Sample(at, bytes)]
    ensures History(calls + [GetMetricsSnapshot(at)], true) == History(calls, true)
    ensures History(calls + [GetMetricsSnapshot(at)], false) == History(calls, false)
    ensures History([], true) == [] && History([], false) == []
  {
    OneMoreCall(calls, RecordSend(at, bytes));
    OneMoreCall(calls, RecordReceive(at, bytes));
    OneMoreCall(calls, GetMetricsSnapshot(at));
  }

  // The observed window, by cases of its length in nanoseconds
  lemma WindowInNumbers(now: int, start: int)
    ensures start == 0 || now - start > 3_000_000_000 ==> ObservedWindow(now, start) == 3.0
    ensures start != 0 && now - start < 1_000_000 ==> ObservedWindow(now, start) == 0.001
    ensures start != 0 && 1_000_000 <= now - start <= 3_000_000_000 ==>
              ObservedWindow(now, start) * 1000000000.0 == (now - start) as real
  {
  }

  // A rate in hertz, from the time in nanoseconds since the oldest sample, which counts as at
  // least a millisecond and at most the window
  predicate RateIs(rate: real, recent: seq<Sample>, now: int) {
    if recent == [] then rate == 0.0
    else
      var span := now - recent[0].at;
      if recent[0].at == 0 || span > 3_000_000_000 then rate * 3.0 == |recent| as real
      else if span < 1_000_000 then rate == |recent| as real * 1000.0
      else rate * span as real == |recent| as real * 1000000000.0
  }

  // A bandwidth in kilobits a second, in the same way
  predicate BandwidthIs(kbps: real, recent: seq<Sample>, now: int) {
    if recent == [] then kbps == 0.0
    else
      var span := now - recent[0].at;
      if recent[0].at == 0 || span > 3_000_000_000 then kbps * 3000.0 == Bytes(recent) as real * 8.0
      else KilobitsOver(kbps, Bytes(recent) as real, span)
  }

  // kilobits a second of these bytes over a span that counts as at least a millisecond
  predicate KilobitsOver(kbps: real, bytes: real, span: int) {
    if span < 1_000_000 then kbps == bytes * 8.0 else kbps * span as real == bytes * 8000000.0
  }

  lemma SpanOver(x: real, span: int, window: real)
    requires window > 0.0 && window * 1000000000.0 == span as real
    ensures x / window * span as real == x * 1000000000.0
  {
    Undivide(x, window);
    assert x / window * (window * 1000000000.0) == x / window * window * 1000000000.0;
  }

  lemma RateInNumbers(recent: seq<Sample>, now: int)
    ensures RateIs(Rate(recent, now), recent, now) && BandwidthIs(Bandwidth(recent, now), recent, now)
  {
    if recent != [] {
      var span, window := now - recent[0].at, ObservedWindow(now, recent[0].at);
      WindowInNumbers(now, recent[0].at);
      if recent[0].at != 0 && 1_000_000 <= span <= 3_000_000_000 {
        SpanOver(|recent| as real, span, window);
        SpanOver(Bytes(recent) as real * 8.0 / 1000.0, span, window);
      }
    }
  }

  // Sends over the send window, receptions over the receive window, and the kilobits of the
  // topic's own direction
  lemma RatesInNumbers(sent: seq<Sample>, received: seq<Sample>, sending: bool, now: int)
    ensures var m := RatesOf(sent, received, sending, now);
            && RateIs(m.sendRateHz, sent, now) && RateIs(m.recvRateHz, received, now)
            && BandwidthIs(m.bandwidthKbps, if sending then sent else received, now)
  {
    RateInNumbers(sent, now);
    RateInNumbers(received, now);
  }

  lemma KilobitsInNumbers(bytes: real, span: int)
    ensures KilobitsOver(bytes * 8.0 / 1000.0 / AtLeast(0.001, Seconds(span)), bytes, span)
  {
    if span < 1_000_000 {
      assert AtLeast(0.001, Seconds(span)) == 0.001;
    } else {
      assert AtLeast(0.001, Seconds(span)) == Seconds(span);
      SpanOver(bytes * 8.0 / 1000.0, span, Seconds(span));
    }
  }

  // The controller's reading is taken over the time since the oldest sample.
  lemma ReadingInNumbers(recent: seq<Sample>, now: int)
    ensures |recent| < 2 <==> Reading(recent, now) == None
    ensures |recent| >= 2 ==>
              KilobitsOver(Reading(recent, now).value, Bytes(recent) as real, now - recent[0].at)
  {
    if |recent| >= 2 {
      KilobitsInNumbers(Bytes(recent) as real, now - recent[0].at);
    }
  }
}
