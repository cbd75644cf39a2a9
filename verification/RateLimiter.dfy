/**
 The send-rate limiter: topic_factory.cpp, lines 308-322. Times are nanoseconds, and the
 minimum interval is an exact real.
 */
module RateLimiter {
  import opened Common
  import opened Arithmetic
  import opened Subsequences

  const EPSILON := 1.0 / 4503599627370496.0
  const NANOSECONDS := 1000000000.0

  // max_freq of -1 turns the limiter off.
  predicate Unlimited(maxFreq: real) {
    -EPSILON < maxFreq + 1.0 < EPSILON
  }

  function Interval(maxFreq: real): (i: real)
    ensures i > 0.0
  {
    NANOSECONDS / (if maxFreq > 0.001 then maxFreq else 0.001)
  }

  function Gap(earlier: int, later: int): real {
    (later - earlier) as real
  }

  predicate TooSoon(last: nat, now: nat, interval: real) {
    last != 0 && Gap(last, now) < interval
  }

  // The arrivals let through
  function Passed(maxFreq: real, arrivals: seq<nat>): seq<nat> {
    if arrivals == [] then []
    else
      var before := Passed(maxFreq, DropLast(arrivals));
      var last := if before == [] then 0 else Last(before);
      if !Unlimited(maxFreq) && TooSoon(last, Last(arrivals), Interval(maxFreq)) then before
      else before + [Last(arrivals)]
  }

  class SendLimiter {
    const maxFreq: real
    var subLastTime: nat
    var droppedMessages: nat
    ghost var arrivals: seq<nat>

    ghost predicate Valid()
      reads this
    {
      var passed := Passed(maxFreq, arrivals);
      && (!Unlimited(maxFreq) ==> subLastTime == if passed == [] then 0 else Last(passed))
      && droppedMessages == |arrivals| - |passed|
    }

    constructor (maxFreq: real)
      ensures Valid() && this.maxFreq == maxFreq && arrivals == []
    {
      this.maxFreq := maxFreq;
      subLastTime, droppedMessages, arrivals := 0, 0, [];
    }

    // True tells the caller to drop this message.
    method SendFreqControl(now: nat) returns (suppress: bool)
      requires Valid()
      modifies this
      ensures Valid() && arrivals == old(arrivals) + [now]
      ensures Passed(maxFreq, arrivals)
           == if suppress then Passed(maxFreq, old(arrivals)) else Passed(maxFreq, old(arrivals)) + [now]
      ensures droppedMessages == old(droppedMessages) + (if suppress then 1 else 0)
    {
      arrivals := arrivals + [now];
      LastOfAppend(old(arrivals), [now]);
      assert old(arrivals) + DropLast([now]) == old(arrivals);
      if Unlimited(maxFreq) {
        return false;
      }
      var minimumInterval := Interval(maxFreq);
      if subLastTime != 0 && Gap(subLastTime, now) < minimumInterval {
        droppedMessages := droppedMessages + 1;
        return true;
      }
      subLastTime := now;
      return false;
    }
  }

  // ----- Safety -----

  ghost predicate Spaced(s: seq<nat>, interval: real) {
    forall i :: 0 < i < |s| ==> Gap(s[i - 1], s[i]) >= interval
  }

  ghost predicate Positive(s: seq<nat>) {
    forall i :: 0 <= i < |s| ==> s[i] > 0
  }

  ghost predicate Nondecreasing(s: seq<nat>) {
    forall i, j :: 0 <= i <= j < |s| ==> s[i] <= s[j]
  }

  // Consecutive passed samples are at least the interval apart, even if the clock steps back.
  lemma {:induction false} PassedSpaced(maxFreq: real, arrivals: seq<nat>)
    requires !Unlimited(maxFreq) && Positive(arrivals)
    ensures Spaced(Passed(maxFreq, arrivals), Interval(maxFreq)) && Positive(Passed(maxFreq, arrivals))
  {
    if arrivals != [] {
      PassedSpaced(maxFreq, DropLast(arrivals));
    }
  }

  lemma {:induction false} PassedAreArrivals(maxFreq: real, arrivals: seq<nat>)
    ensures IsSubsequence(Passed(maxFreq, arrivals), arrivals)
  {
    if arrivals != [] {
      PassedAreArrivals(maxFreq, DropLast(arrivals));
      SubsequenceSnoc(Passed(maxFreq, DropLast(arrivals)), DropLast(arrivals), Last(arrivals));
      Rejoin(arrivals);
    }
  }

  lemma {:induction false} Apart(s: seq<nat>, interval: real, i: nat, j: nat)
    requires Spaced(s, interval) && interval > 0.0 && i < j < |s|
    ensures Gap(s[i], s[j]) >= interval
    decreases j - i
  {
    if i < j - 1 {
      Apart(s, interval, i, j - 1);
    }
  }

  function CountIn(s: seq<nat>, start: real, span: real): nat {
    if s == [] then 0
    else CountIn(DropLast(s), start, span) + (if start <= Last(s) as real <= start + span then 1 else 0)
  }

  lemma {:induction false} CountedApart(s: seq<nat>, interval: real, start: real, span: real) returns (e: nat)
    requires Spaced(s, interval) && interval > 0.0 && CountIn(s, start, span) > 0
    ensures e < |s| && start <= s[e] as real <= start + span
    ensures s[e] as real >= Reach(start, CountIn(s, start, span) - 1, interval)
  {
    var rest, x := DropLast(s), Last(s);
    var k := CountIn(rest, start, span);
    if !(start <= x as real <= start + span) {
      e := CountedApart(rest, interval, start, span);
    } else {
      e := |s| - 1;
      if k > 0 {
        var f := CountedApart(rest, interval, start, span);
        Apart(s, interval, f, e);
        OneIntervalOn(s[f], s[e], k, start, interval);
      }
    }
  }

  // k intervals from the start
  function Reach(start: real, k: nat, interval: real): real {
    start + k as real * interval
  }

  lemma OneIntervalOn(earlier: nat, later: nat, k: nat, start: real, interval: real)
    requires k > 0 && earlier as real >= Reach(start, k - 1, interval) && Gap(earlier, later) >= interval
    ensures later as real >= Reach(start, k, interval)
  {
    assert k as real == (k - 1) as real + 1.0;
    Distribute((k - 1) as real, interval);
    assert later as real == earlier as real + Gap(earlier, later);
  }

  lemma Distribute(a: real, b: real)
    ensures (a + 1.0) * b == a * b + b
  {
  }

  lemma FloorBound(k: nat, interval: real, span: real)
    requires interval > 0.0 && k as real * interval <= span
    ensures k <= (span / interval).Floor
  {
    assert k as real <= span / interval by {
      assert span / interval * interval == span;
      if k as real > span / interval {
        Product(k as real - span / interval, interval);
      }
    }
  }

  lemma Product(a: real, b: real)
    requires a > 0.0 && b > 0.0
    ensures a * b > 0.0
  {
  }

  lemma SpacedInWindow(s: seq<nat>, interval: real, start: real, span: real)
    requires Spaced(s, interval) && interval > 0.0 && span >= 0.0
    ensures CountIn(s, start, span) <= (span / interval).Floor + 1
  {
    var k := CountIn(s, start, span);
    if k > 0 {
      var e := CountedApart(s, interval, start, span);
      FloorBound(k - 1, interval, span);
    } else {
      FloorBound(0, interval, span);
    }
  }

  // Any time span W holds at most floor(W / interval) + 1 passed samples.
  lemma WindowBound(maxFreq: real, arrivals: seq<nat>, start: real, span: real)
    requires !Unlimited(maxFreq) && Positive(arrivals) && span >= 0.0
    ensures CountIn(Passed(maxFreq, arrivals), start, span) <= (span / Interval(maxFreq)).Floor + 1
  {
    PassedSpaced(maxFreq, arrivals);
    SpacedInWindow(Passed(maxFreq, arrivals), Interval(maxFreq), start, span);
  }

  // The interval and the switch in numbers
  lemma IntervalInNumbers(maxFreq: real)
    ensures maxFreq >= 0.001 ==> Interval(maxFreq) * maxFreq == 1000000000.0
    ensures maxFreq < 0.001 ==> Interval(maxFreq) == 1000000000000.0
    ensures Unlimited(maxFreq) <==> -1.0 < 4503599627370496.0 * (maxFreq + 1.0) < 1.0
    ensures Unlimited(-1.0)
  {
    if maxFreq >= 0.001 {
      Undivide(NANOSECONDS, maxFreq);
    }
  }

  lemma {:induction false} UnlimitedPassesAll(maxFreq: real, arrivals: seq<nat>)
    requires Unlimited(maxFreq)
    ensures Passed(maxFreq, arrivals) == arrivals
  {
    if arrivals != [] {
      UnlimitedPassesAll(maxFreq, DropLast(arrivals));
      Rejoin(arrivals);
    }
  }

  // ----- Optimality -----

  lemma PassedLast(maxFreq: real, arrivals: seq<nat>)
    requires Passed(maxFreq, arrivals) != [] && Nondecreasing(arrivals)
    ensures arrivals != [] && Last(Passed(maxFreq, arrivals)) <= Last(arrivals)
  {
    if Passed(maxFreq, arrivals) == Passed(maxFreq, DropLast(arrivals)) {
      PassedLast(maxFreq, DropLast(arrivals));
    }
  }

  // A selection as large as the limiter's never ends earlier: greedy stays ahead.
  lemma {:induction false} GreedyStaysAhead(maxFreq: real, arrivals: seq<nat>, selection: seq<nat>)
    requires !Unlimited(maxFreq) && Positive(arrivals) && Nondecreasing(arrivals)
    requires IsSubsequence(selection, arrivals) && Spaced(selection, Interval(maxFreq))
    ensures |selection| <= |Passed(maxFreq, arrivals)|
    ensures |selection| == |Passed(maxFreq, arrivals)| && selection != []
        ==> Last(selection) >= Last(Passed(maxFreq, arrivals))
  {
    if selection != [] {
      var before := Passed(maxFreq, DropLast(arrivals));
      PassedSpaced(maxFreq, DropLast(arrivals));
      if IsSubsequence(selection, DropLast(arrivals)) {
        GreedyStaysAhead(maxFreq, DropLast(arrivals), selection);
      } else {
        GreedyStaysAhead(maxFreq, DropLast(arrivals), DropLast(selection));
        if before != [] {
          PassedLast(maxFreq, DropLast(arrivals));
        }
      }
    }
  }

  // No selection of arrivals with the same spacing is larger than what the limiter passes.
  lemma PassedIsLargest(maxFreq: real, arrivals: seq<nat>, selection: seq<nat>)
    requires !Unlimited(maxFreq) && Positive(arrivals) && Nondecreasing(arrivals)
    requires IsSubsequence(selection, arrivals) && Spaced(selection, Interval(maxFreq))
    ensures |selection| <= |Passed(maxFreq, arrivals)|
    ensures IsSubsequence(Passed(maxFreq, arrivals), arrivals)
    ensures Spaced(Passed(maxFreq, arrivals), Interval(maxFreq))
  {
    GreedyStaysAhead(maxFreq, arrivals, selection);
    PassedAreArrivals(maxFreq, arrivals);
    PassedSpaced(maxFreq, arrivals);
  }
}
