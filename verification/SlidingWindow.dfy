/**
 Sliding windows over timed samples: topic_factory.cpp, lines 572-590, and the byte sums of
 diagnostics/topic_metrics.cpp, lines 97-113. Times are nanoseconds.
 */
module SlidingWindow {
  import opened Common
  import opened Subsequences

  datatype Sample = Sample(at: int, bytes: nat)

  function Times(s: seq<Sample>): (ts: seq<int>)
    ensures |ts| == |s|
  {
    if s == [] then [] else Times(DropLast(s)) + [Last(s).at]
  }

  function Bytes(s: seq<Sample>): nat {
    if s == [] then 0 else Bytes(DropLast(s)) + Last(s).bytes
  }

  predicate Fresh(at: int, now: int, window: nat) {
    now - at <= window
  }

  // The samples of a whole history that are no older than the window
  function InWindow(history: seq<Sample>, now: int, window: nat): seq<Sample> {
    if history == [] then []
    else
      var before := InWindow(DropLast(history), now, window);
      if Fresh(Last(history).at, now, window) then before + [Last(history)] else before
  }

  // What pruning keeps: everything from the first fresh sample on
  function Pruned(s: seq<Sample>, now: int, window: nat): seq<Sample> {
    if s != [] && !Fresh(s[0].at, now, window) then Pruned(s[1..], now, window) else s
  }

  function PrunedTimes(s: seq<int>, now: int, window: nat): seq<int> {
    if s != [] && !Fresh(s[0], now, window) then PrunedTimes(s[1..], now, window) else s
  }

  method PruneTimes(times: seq<int>, now: int, window: nat) returns (kept: seq<int>)
    ensures kept == PrunedTimes(times, now, window)
  {
    kept := times;
    while kept != [] && now - kept[0] > window
      decreases |kept|
      invariant PrunedTimes(kept, now, window) == PrunedTimes(times, now, window)
    {
      kept := kept[1..];
    }
  }

  method PruneSamples(samples: seq<Sample>, now: int, window: nat) returns (kept: seq<Sample>)
    ensures kept == Pruned(samples, now, window)
  {
    kept := samples;
    while kept != [] && now - kept[0].at > window
      decreases |kept|
      invariant Pruned(kept, now, window) == Pruned(samples, now, window)
    {
      kept := kept[1..];
    }
  }

  method SumBytes(samples: seq<Sample>) returns (total: nat)
    ensures total == Bytes(samples)
  {
    total := 0;
    for i := 0 to |samples|
      invariant total == Bytes(samples[..i])
    {
      assert DropLast(samples[..i + 1]) == samples[..i];
      total := total + samples[i].bytes;
    }
    assert samples[..|samples|] == samples;
  }

  lemma {:induction false} TimesTail(s: seq<Sample>)
    requires s != []
    ensures Times(s)[0] == s[0].at && Times(s)[1..] == Times(s[1..])
  {
    if |s| > 1 {
      TimesTail(DropLast(s));
      assert DropLast(s)[1..] == DropLast(s[1..]);
      assert Times(s)[1..] == Times(DropLast(s))[1..] + [Last(s).at];
    }
  }

  // Pruning keeps the two deques in step, whatever the clock does.
  lemma {:induction false} PrunedInStep(s: seq<Sample>, now: int, window: nat)
    ensures PrunedTimes(Times(s), now, window) == Times(Pruned(s, now, window))
  {
    if s != [] {
      TimesTail(s);
      PrunedInStep(s[1..], now, window);
    }
  }

  ghost predicate Nondecreasing(s: seq<Sample>) {
    forall i, j :: 0 <= i <= j < |s| ==> s[i].at <= s[j].at
  }

  lemma {:induction false} AllFresh(s: seq<Sample>, now: int, window: nat)
    requires forall i :: 0 <= i < |s| ==> Fresh(s[i].at, now, window)
    ensures InWindow(s, now, window) == s
  {
    if s != [] {
      AllFresh(DropLast(s), now, window);
      Rejoin(s);
    }
  }

  lemma {:induction false} InWindowTail(s: seq<Sample>, now: int, window: nat)
    requires s != [] && !Fresh(s[0].at, now, window)
    ensures InWindow(s, now, window) == InWindow(s[1..], now, window)
  {
    if |s| > 1 {
      InWindowTail(DropLast(s), now, window);
      assert DropLast(s)[1..] == DropLast(s[1..]);
    }
  }

  // No stale sample stands behind a fresh one.
  ghost predicate FreshToTheEnd(s: seq<Sample>, now: int, window: nat) {
    forall i, j :: 0 <= i <= j < |s| && Fresh(s[i].at, now, window) ==> Fresh(s[j].at, now, window)
  }

  lemma {:induction false} InWindowFresh(s: seq<Sample>, now: int, window: nat)
    ensures forall i :: 0 <= i < |InWindow(s, now, window)| ==> Fresh(InWindow(s, now, window)[i].at, now, window)
  {
    if s != [] {
      InWindowFresh(DropLast(s), now, window);
    }
  }

  // Dropping from the front is filtering exactly when no stale sample stands behind a fresh
  // one; on a nondecreasing deque none does.
  lemma {:induction false} PrunedIsFilter(s: seq<Sample>, now: int, window: nat)
    ensures Pruned(s, now, window) == InWindow(s, now, window) <==> FreshToTheEnd(s, now, window)
    ensures Nondecreasing(s) ==> FreshToTheEnd(s, now, window)
  {
    InWindowFresh(s, now, window);
    if s != [] && !Fresh(s[0].at, now, window) {
      InWindowTail(s, now, window);
      PrunedIsFilter(s[1..], now, window);
      assert forall i :: 0 < i < |s| ==> s[i] == s[1..][i - 1];
    } else if FreshToTheEnd(s, now, window) {
      AllFresh(s, now, window);
    }
  }

  lemma {:induction false} WindowShrinks(history: seq<Sample>, earlier: int, now: int, window: nat)
    requires earlier <= now
    ensures InWindow(InWindow(history, earlier, window), now, window) == InWindow(history, now, window)
  {
    if history != [] {
      WindowShrinks(DropLast(history), earlier, now, window);
      var before := InWindow(DropLast(history), earlier, window);
      LastOfAppend(before, [Last(history)]);
      assert before + DropLast([Last(history)]) == before;
    }
  }

  lemma {:induction false} WindowSorted(history: seq<Sample>, now: int, window: nat)
    requires Nondecreasing(history)
    ensures Nondecreasing(InWindow(history, now, window))
    ensures InWindow(history, now, window) != [] ==> Last(InWindow(history, now, window)).at <= Last(history).at
  {
    if history != [] {
      WindowSorted(DropLast(history), now, window);
    }
  }

  // A deque that held the window's samples at an earlier time holds them now once pruned.
  lemma PruneRefines(history: seq<Sample>, earlier: int, now: int, window: nat)
    requires Nondecreasing(history) && earlier <= now
    ensures Pruned(InWindow(history, earlier, window), now, window) == InWindow(history, now, window)
  {
    WindowSorted(history, earlier, window);
    PrunedIsFilter(InWindow(history, earlier, window), now, window);
    WindowShrinks(history, earlier, now, window);
  }

  // After a step back of the clock, a stale sample can survive behind a fresh one.
  lemma StaleBehindFresh()
    ensures var history := [Sample(10, 1), Sample(2, 1)];
            Pruned(history, 11, 3) == history && InWindow(history, 11, 3) == [Sample(10, 1)]
  {
    var history := [Sample(10, 1), Sample(2, 1)];
    assert DropLast(history) == [Sample(10, 1)] && DropLast([Sample(10, 1)]) == [];
    assert InWindow([], 11, 3) == [];
    assert InWindow([Sample(10, 1)], 11, 3) == [Sample(10, 1)];
  }

  // ----- The window in numbers -----

  // A sample is in the window as often as in the history if it is not older, and else never.
  lemma {:induction false} WindowCounts(history: seq<Sample>, now: int, window: nat, s: Sample)
    ensures multiset(InWindow(history, now, window))[s]
         == if now - s.at <= window then multiset(history)[s] else 0
  {
    if history != [] {
      WindowCounts(DropLast(history), now, window, s);
      Rejoin(history);
      MultisetSnoc(DropLast(history), Last(history));
      MultisetSnoc(InWindow(DropLast(history), now, window), Last(history));
    }
  }

  // The window keeps the order of the history.
  lemma {:induction false} WindowInOrder(history: seq<Sample>, now: int, window: nat)
    ensures IsSubsequence(InWindow(history, now, window), history)
  {
    if history != [] {
      WindowInOrder(DropLast(history), now, window);
      SubsequenceSnoc(InWindow(DropLast(history), now, window), DropLast(history), Last(history));
      Rejoin(history);
    }
  }

  lemma {:induction false} BytesAdd(a: seq<Sample>, b: seq<Sample>)
    ensures Bytes(a + b) == Bytes(a) + Bytes(b)
    ensures |b| == 1 ==> Bytes(b) == b[0].bytes
  {
    if b == [] {
      assert a + b == a;
    } else {
      LastOfAppend(a, b);
      BytesAdd(a, DropLast(b));
    }
  }

  lemma {:induction false} TimeAt(s: seq<Sample>, i: nat)
    requires i < |s|
    ensures Times(s)[i] == s[i].at
  {
    if i < |s| - 1 {
      TimeAt(DropLast(s), i);
    }
  }
}
