/**
 Frame accounting at an image receiver: diagnostics/topic_metrics.cpp, lines 40-68 and
 129-137. Counters are unbounded.
 */
module FrameSequence {
  import opened Common
  import opened Arithmetic

  datatype Frames = Frames(
    initialized: bool,
    last: nat,
    expected: nat,
    complete: nat,
    lost: nat,
    resets: nat)

  function Observe(f: Frames, sequence: nat): Frames {
    if !f.initialized then
      f.(initialized := true, last := sequence, expected := f.expected + 1, complete := f.complete + 1)
    else if sequence == f.last then f
    else if sequence < f.last then
      f.(last := sequence, expected := f.expected + 1, complete := f.complete + 1, resets := f.resets + 1)
    else
      f.(last := sequence, expected := f.expected + (sequence - f.last), complete := f.complete + 1,
         lost := f.lost + (sequence - f.last - 1))
  }

  function Observed(sequences: seq<nat>): Frames {
    if sequences == [] then Frames(false, 0, 0, 0, 0, 0)
    else Observe(Observed(DropLast(sequences)), Last(sequences))
  }

  function Percent(part: nat, whole: nat): real
    requires whole > 0
  {
    part as real * 100.0 / whole as real
  }

  // The loss and success rates MakeTopicMetrics reports, in percent
  function LossRate(f: Frames): real
    requires f.expected > 0
  {
    AtMost100(Percent(f.lost, f.expected))
  }

  function SuccessRate(f: Frames, totalReceived: nat): real
    requires f.expected > 0
  {
    AtMost100(Percent(totalReceived, f.expected))
  }

  function AtMost100(r: real): real {
    if r < 100.0 then r else 100.0
  }

  class FrameState {
    var frameSequenceInitialized: bool
    var lastFrameSequence: nat
    var expectedFrames: nat
    var transportCompleteFrames: nat
    var inferredLostFrames: nat
    var sequenceResets: nat
    ghost var sequences: seq<nat>

    ghost function View(): Frames
      reads this
    {
      Frames(frameSequenceInitialized, lastFrameSequence, expectedFrames, transportCompleteFrames,
             inferredLostFrames, sequenceResets)
    }

    ghost predicate Valid()
      reads this
    {
      View() == Observed(sequences)
    }

    constructor ()
      ensures Valid() && sequences == []
    {
      frameSequenceInitialized, lastFrameSequence, expectedFrames := false, 0, 0;
      transportCompleteFrames, inferredLostFrames, sequenceResets := 0, 0, 0;
      sequences := [];
    }

    method ObserveCompleteFrameSequence(sequence: nat)
      requires Valid()
      modifies this
      ensures Valid() && sequences == old(sequences) + [sequence]
    {
      sequences := sequences + [sequence];
      LastOfAppend(old(sequences), [sequence]);
      assert old(sequences) + DropLast([sequence]) == old(sequences);
      if !frameSequenceInitialized {
        frameSequenceInitialized := true;
        lastFrameSequence := sequence;
        expectedFrames := expectedFrames + 1;
        transportCompleteFrames := transportCompleteFrames + 1;
        return;
      }
      if sequence == lastFrameSequence {
        return;
      }
      if sequence < lastFrameSequence {
        sequenceResets := sequenceResets + 1;
        lastFrameSequence := sequence;
        expectedFrames := expectedFrames + 1;
        transportCompleteFrames := transportCompleteFrames + 1;
        return;
      }
      var sequenceDelta := sequence - lastFrameSequence;
      expectedFrames := expectedFrames + sequenceDelta;
      inferredLostFrames := inferredLostFrames + (sequenceDelta - 1);
      transportCompleteFrames := transportCompleteFrames + 1;
      lastFrameSequence := sequence;
    }
  }

  // ----- Epochs -----

  // The sequences cut wherever a number is lower than the one before
  function Epochs(s: seq<nat>): seq<seq<nat>> {
    if s == [] then []
    else
      var before := Epochs(DropLast(s));
      if before == [] || Last(before) == [] || Last(s) < Last(Last(before)) then before + [[Last(s)]]
      else DropLast(before) + [Last(before) + [Last(s)]]
  }

  function Concat(es: seq<seq<nat>>): seq<nat> {
    if es == [] then [] else Concat(DropLast(es)) + Last(es)
  }

  ghost predicate Nondecreasing(s: seq<nat>) {
    forall i :: 0 < i < |s| ==> s[i - 1] <= s[i]
  }

  // Nonempty nondecreasing runs, each starting below the end of the one before
  ghost predicate MaximalRuns(es: seq<seq<nat>>) {
    es == [] ||
    (&& MaximalRuns(DropLast(es)) && Last(es) != [] && Nondecreasing(Last(es))
     && (|es| > 1 ==> Last(DropLast(es)) != [] && Last(es)[0] < Last(Last(DropLast(es)))))
  }

  lemma NewRun(es: seq<seq<nat>>, x: nat)
    requires MaximalRuns(es) && (es != [] ==> x < Last(Last(es)))
    ensures MaximalRuns(es + [[x]]) && Concat(es + [[x]]) == Concat(es) + [x] && Last(Last(es + [[x]])) == x
    ensures TotalSpan(es + [[x]]) == TotalSpan(es) + 1
  {
    LastOfAppend(es, [[x]]);
    assert es + DropLast([[x]]) == es;
  }

  lemma LongerRun(es: seq<seq<nat>>, x: nat)
    requires MaximalRuns(es) && es != [] && x >= Last(Last(es))
    ensures var grown := DropLast(es) + [Last(es) + [x]];
            && MaximalRuns(grown) && Concat(grown) == Concat(es) + [x] && Last(Last(grown)) == x
            && TotalSpan(grown) == TotalSpan(es) + (x - Last(Last(es)))
  {
    var run := Last(es) + [x];
    LastOfAppend(DropLast(es), [run]);
    assert DropLast(es) + DropLast([run]) == DropLast(es);
    Assoc(Concat(DropLast(es)), Last(es), [x]);
    LongerRunOrdered(Last(es), x);
  }

  lemma LongerRunOrdered(run: seq<nat>, x: nat)
    requires run != [] && Nondecreasing(run) && x >= Last(run)
    ensures Nondecreasing(run + [x]) && (run + [x])[0] == run[0] && Last(run + [x]) == x
  {
  }

  lemma {:induction false} EpochsAreMaximalRuns(s: seq<nat>)
    ensures Concat(Epochs(s)) == s && MaximalRuns(Epochs(s))
    ensures s != [] ==> Epochs(s) != [] && Last(Last(Epochs(s))) == Last(s)
  {
    if s != [] {
      var before := Epochs(DropLast(s));
      EpochsAreMaximalRuns(DropLast(s));
      Rejoin(s);
      if before == [] || Last(s) < Last(Last(before)) {
        NewRun(before, Last(s));
      } else {
        LongerRun(before, Last(s));
      }
    }
  }

  // The numbers from the first to the last of an epoch
  function Span(epoch: seq<nat>): int {
    if epoch == [] then 0 else (Last(epoch) as int) - epoch[0] + 1
  }

  function TotalSpan(es: seq<seq<nat>>): int {
    if es == [] then 0 else TotalSpan(DropLast(es)) + Span(Last(es))
  }

  function AdjacentDuplicates(s: seq<nat>): nat {
    if |s| < 2 then 0
    else AdjacentDuplicates(DropLast(s)) + (if Last(s) == Last(DropLast(s)) then 1 else 0)
  }

  lemma {:induction false} Counters(s: seq<nat>)
    ensures var f := Observed(s);
            && f.expected == f.complete + f.lost
            && f.complete == |s| - AdjacentDuplicates(s)
            && (f.initialized <==> s != [])
            && (s != [] ==> f.last == Last(s))
  {
    if s != [] {
      Counters(DropLast(s));
    }
  }

  lemma {:induction false} SpansAndResets(s: seq<nat>)
    ensures Observed(s).expected == TotalSpan(Epochs(s))
    ensures Observed(s).resets == if s == [] then 0 else |Epochs(s)| - 1
  {
    if s != [] {
      var before := DropLast(s);
      SpansAndResets(before);
      Counters(before);
      NextEpoch(s);
    }
  }

  lemma NextEpoch(s: seq<nat>)
    requires s != []
    ensures var before := DropLast(s);
            if before == [] || Last(s) < Last(before) then
              && |Epochs(s)| == |Epochs(before)| + 1 && TotalSpan(Epochs(s)) == TotalSpan(Epochs(before)) + 1
            else
              && |Epochs(s)| == |Epochs(before)| > 0
              && TotalSpan(Epochs(s)) == TotalSpan(Epochs(before)) + (Last(s) - Last(before))
  {
    var before := DropLast(s);
    EpochsAreMaximalRuns(before);
    if before == [] || Last(s) < Last(before) {
      NewRun(Epochs(before), Last(s));
    } else {
      LongerRun(Epochs(before), Last(s));
    }
  }

  // Every frame number between the ends of an epoch is expected; it is either seen complete
  // or inferred lost; a reset starts each epoch but the first.
  lemma Accounting(s: seq<nat>)
    ensures var f := Observed(s);
            && f.expected == f.complete + f.lost
            && f.expected == TotalSpan(Epochs(s))
            && f.resets == (if s == [] then 0 else |Epochs(s)| - 1)
            && f.complete == |s| - AdjacentDuplicates(s)
    ensures MaximalRuns(Epochs(s)) && Concat(Epochs(s)) == s
  {
    Counters(s);
    SpansAndResets(s);
    EpochsAreMaximalRuns(s);
  }

  lemma {:induction false} FewDuplicates(s: seq<nat>)
    requires s != []
    ensures AdjacentDuplicates(s) < |s|
  {
    if |s| >= 2 {
      FewDuplicates(DropLast(s));
    }
  }

  // The reported loss rate never reaches 100, so its clamp never acts. The clamp on the
  // success rate acts exactly when more images were published than frames expected, that is
  // when duplicates outnumber losses and observed images not published together.
  lemma RatesAndClamps(s: seq<nat>, totalReceived: nat)
    requires s != []
    ensures var f := Observed(s);
            && f.expected > 0
            && LossRate(f) == Percent(f.lost, f.expected) && 0.0 <= LossRate(f) < 100.0
            && (SuccessRate(f, totalReceived) < Percent(totalReceived, f.expected)
                <==> AdjacentDuplicates(s) > f.lost + (|s| - totalReceived))
  {
    var f := Observed(s);
    Counters(s);
    FewDuplicates(s);
    PercentBelow100(f.lost, f.expected);
    PercentAbove100(totalReceived, f.expected);
  }

  // Both rates in numbers, without a division
  lemma RatesInNumbers(f: Frames, totalReceived: nat)
    requires f.expected > 0
    ensures f.lost <= f.expected ==> LossRate(f) * f.expected as real == f.lost as real * 100.0
    ensures totalReceived <= f.expected ==>
              SuccessRate(f, totalReceived) * f.expected as real == totalReceived as real * 100.0
    ensures totalReceived > f.expected ==> SuccessRate(f, totalReceived) == 100.0
  {
    ClampedPercent(f.lost, f.expected);
    ClampedPercent(totalReceived, f.expected);
  }

  lemma ClampedPercent(part: nat, whole: nat)
    requires whole > 0
    ensures part <= whole ==> AtMost100(Percent(part, whole)) * whole as real == part as real * 100.0
    ensures part > whole ==> AtMost100(Percent(part, whole)) == 100.0
  {
    PercentTimes(part, whole);
    PercentAbove100(part, whole);
    if part == whole {
      assert Percent(part, whole) <= 100.0;
    }
  }

  lemma PercentTimes(part: nat, whole: nat)
    requires whole > 0
    ensures Percent(part, whole) * whole as real == part as real * 100.0
  {
    Undivide(part as real * 100.0, whole as real);
  }

  // One image delivered and published twice is reported as a success of 100, not 200.
  lemma ClampedSuccess()
    ensures Observed([5, 5]).expected == 1
    ensures SuccessRate(Observed([5, 5]), 2) == 100.0 && Percent(2, Observed([5, 5]).expected) == 200.0
  {
    assert DropLast([5, 5]) == [5] && DropLast([5]) == [];
    assert Observed([]) == Frames(false, 0, 0, 0, 0, 0);
    assert Observed([5]) == Frames(true, 5, 1, 1, 0, 0);
  }

  lemma PercentAbove100(part: nat, whole: nat)
    requires whole > 0
    ensures part > whole <==> Percent(part, whole) > 100.0
  {
    RatioAbove(part as real * 100.0, whole as real);
  }

  lemma RatioAbove(x: real, y: real)
    requires y > 0.0
    ensures x > 100.0 * y <==> x / y > 100.0
  {
    assert x / y * y == x;
  }

  lemma PercentBelow100(part: nat, whole: nat)
    requires part < whole
    ensures 0.0 <= Percent(part, whole) < 100.0
  {
    Ratio(part as real * 100.0, whole as real);
  }

  lemma Ratio(x: real, y: real)
    requires y > 0.0 && 0.0 <= x < 100.0 * y
    ensures 0.0 <= x / y < 100.0
  {
  }
}
