/**
 Adaptive JPEG quality: topic_factory.cpp, lines 592-623, with the clamping of
 bridge_factory.cpp, lines 497-532. Bandwidths are exact reals.
 */
module JpegQuality {
  import opened Common
  import opened Arithmetic

  datatype QualityConfig = QualityConfig(
    enabled: bool,
    initial: int,
    low: int,
    high: int,
    step: int,
    cooldown: int,
    targetKbps: real)

  function ClampQuality(q: int): int {
    Max(10, Min(100, q))
  }

  predicate Clamped(cfg: QualityConfig) {
    && 10 <= cfg.initial <= 100 && 10 <= cfg.low <= cfg.high <= 100
    && cfg.step >= 1 && cfg.cooldown >= 1
  }

  function OrElse(value: Option<int>, fallback: int): int {
    if value.Some? then value.value else fallback
  }

  // The image settings of one topic entry; None stands for an absent member. Other message
  // types keep the defaults and never adapt.
  function Configure(isImage: bool, adaptive: bool, quality: Option<int>, low: Option<int>, high: Option<int>,
                     step: Option<int>, cooldown: Option<int>, targetKbps: real): (cfg: QualityConfig)
    ensures Clamped(cfg)
    ensures isImage && low.Some? && high.Some? && 10 <= low.value <= high.value <= 100
        ==> cfg.low == low.value && cfg.high == high.value
    ensures isImage && step.Some? && step.value >= 1 ==> cfg.step == step.value
    ensures isImage && cooldown.Some? && cooldown.value >= 1 ==> cfg.cooldown == cooldown.value
    ensures cfg.targetKbps == targetKbps && (cfg.enabled <==> isImage && adaptive)
    ensures isImage && quality.Some? && 10 <= quality.value <= 100 ==> cfg.initial == quality.value
  {
    if !isImage then QualityConfig(false, 80, 45, 90, 5, 8, targetKbps)
    else
      var bottom := ClampQuality(OrElse(low, 45));
      QualityConfig(adaptive,
                    if quality.Some? then ClampQuality(quality.value) else 80,
                    bottom,
                    Max(bottom, Min(100, OrElse(high, 90))),
                    if step.Some? then Max(1, step.value) else 5,
                    if cooldown.Some? then Max(1, cooldown.value) else 8,
                    targetKbps)
  }

  // The settings in numbers
  lemma ConfiguredNumbers(adaptive: bool, quality: Option<int>, low: Option<int>, high: Option<int>,
                          step: Option<int>, cooldown: Option<int>, targetKbps: real)
    ensures var cfg := Configure(true, adaptive, quality, low, high, step, cooldown, targetKbps);
            && (quality.None? ==> cfg.initial == 80)
            && (quality.Some? && quality.value < 10 ==> cfg.initial == 10)
            && (quality.Some? && quality.value > 100 ==> cfg.initial == 100)
            && (low.None? ==> cfg.low == 45)
            && (low.Some? && low.value < 10 ==> cfg.low == 10) && (low.Some? && low.value > 100 ==> cfg.low == 100)
            && (low.Some? && 10 <= low.value <= 100 ==> cfg.low == low.value)
            && (high.None? ==> cfg.high == if cfg.low > 90 then cfg.low else 90)
            && (high.Some? && high.value > 100 ==> cfg.high == 100)
            && (high.Some? && high.value <= cfg.low ==> cfg.high == cfg.low)
            && (step.None? ==> cfg.step == 5) && (step.Some? && step.value < 1 ==> cfg.step == 1)
            && (cooldown.None? ==> cfg.cooldown == 8) && (cooldown.Some? && cooldown.value < 1 ==> cfg.cooldown == 1)
    ensures !Configure(false, adaptive, quality, low, high, step, cooldown, targetKbps).enabled
  {
  }

  // ----- One send -----

  datatype Control = Control(quality: int, lastAdapt: nat, sent: nat, adjustments: nat)

  predicate Overloaded(cfg: QualityConfig, kbps: real) {
    kbps > cfg.targetKbps * 1.15
  }

  predicate Underused(cfg: QualityConfig, kbps: real) {
    kbps < cfg.targetKbps * 0.85
  }

  function Steered(cfg: QualityConfig, quality: int, kbps: real): Option<int> {
    if Overloaded(cfg, kbps) && quality > cfg.low then Some(Max(cfg.low, quality - cfg.step))
    else if Underused(cfg, kbps) && quality < cfg.high then Some(Min(cfg.high, quality + cfg.step))
    else None
  }

  // reading: the bandwidth over the window, None when the window has fewer than two samples
  predicate MayAdapt(cfg: QualityConfig, c: Control, reading: Option<real>) {
    cfg.enabled && cfg.targetKbps > 0.0 && reading.Some? && c.sent + 1 >= c.lastAdapt + cfg.cooldown
  }

  function AfterSend(cfg: QualityConfig, c: Control, reading: Option<real>): Control {
    if MayAdapt(cfg, c, reading) && Steered(cfg, c.quality, reading.value).Some? then
      Control(Steered(cfg, c.quality, reading.value).value, c.sent + 1, c.sent + 1, c.adjustments + 1)
    else c.(sent := c.sent + 1)
  }

  function Run(cfg: QualityConfig, readings: seq<Option<real>>): Control {
    if readings == [] then Control(cfg.initial, 0, 0, 0)
    else AfterSend(cfg, Run(cfg, DropLast(readings)), Last(readings))
  }

  // ----- Whole runs -----

  // Whatever the readings, quality stays a JPEG quality and never leaves the range spanned by
  // the configured bounds and the start.
  lemma {:induction false} QualityBounded(cfg: QualityConfig, readings: seq<Option<real>>)
    requires Clamped(cfg)
    ensures Min(cfg.initial, cfg.low) <= Run(cfg, readings).quality <= Max(cfg.initial, cfg.high)
    ensures 10 <= Run(cfg, readings).quality <= 100
  {
    if readings != [] {
      QualityBounded(cfg, DropLast(readings));
    }
  }

  // Once inside [low, high] quality stays there.
  lemma {:induction false} StaysInside(cfg: QualityConfig, readings: seq<Option<real>>, i: nat)
    requires Clamped(cfg) && i <= |readings|
    requires cfg.low <= Run(cfg, readings[..i]).quality <= cfg.high
    ensures cfg.low <= Run(cfg, readings).quality <= cfg.high
  {
    if i == |readings| {
      assert readings[..i] == readings;
    } else {
      assert DropLast(readings)[..i] == readings[..i];
      StaysInside(cfg, DropLast(readings), i);
    }
  }

  // Adjustments are paid for with cooldown sends each and move quality by at most a step.
  lemma {:induction false} Budget(cfg: QualityConfig, readings: seq<Option<real>>)
    requires Clamped(cfg)
    ensures var c := Run(cfg, readings);
            && c.sent == |readings|
            && c.adjustments * cfg.cooldown <= c.lastAdapt <= c.sent
            && -(cfg.step * c.adjustments) <= c.quality - cfg.initial <= cfg.step * c.adjustments
  {
    if readings != [] {
      Budget(cfg, DropLast(readings));
      var before := Run(cfg, DropLast(readings));
      OneMoreTime(before.adjustments, cfg.cooldown);
      OneMoreTime(before.adjustments, cfg.step);
    }
  }

  lemma OneMoreTime(a: nat, b: int)
    ensures (a + 1) * b == a * b + b && b * (a + 1) == b * a + b
  {
  }

  function Distance(a: int, b: int): nat {
    if a < b then b - a else a - b
  }

  lemma DriftBound(cfg: QualityConfig, readings: seq<Option<real>>)
    requires Clamped(cfg)
    ensures Run(cfg, readings).adjustments * cfg.cooldown <= |readings|
    ensures Distance(cfg.initial, Run(cfg, readings).quality) * cfg.cooldown <= cfg.step * |readings|
  {
    Budget(cfg, readings);
    var c := Run(cfg, readings);
    Chain(Distance(cfg.initial, c.quality), cfg.step, c.adjustments, cfg.cooldown, |readings|);
  }

  lemma Chain(d: nat, step: nat, adjustments: nat, cooldown: nat, n: nat)
    requires d <= step * adjustments && adjustments * cooldown <= n
    ensures d * cooldown <= step * n
  {
    MulMonotone(cooldown, d, step * adjustments);
    MulMonotone(step, adjustments * cooldown, n);
    Regroup(step, adjustments, cooldown);
    assert cooldown * d == d * cooldown;
  }

  lemma Regroup(a: int, b: int, c: int)
    ensures c * (a * b) == a * (b * c)
  {
  }

  // Every send reads more than 115 percent of the target.
  ghost predicate AllOverloaded(cfg: QualityConfig, readings: seq<Option<real>>) {
    forall i :: 0 <= i < |readings| ==> readings[i].Some? && readings[i].value > cfg.targetKbps * 1.15
  }

  // Every send reads less than 85 percent of the target.
  ghost predicate AllUnderused(cfg: QualityConfig, readings: seq<Option<real>>) {
    forall i :: 0 <= i < |readings| ==> readings[i].Some? && readings[i].value < cfg.targetKbps * 0.85
  }

  // One direction of pressure: down under overload, up under underuse
  predicate Pressed(cfg: QualityConfig, reading: Option<real>, down: bool) {
    reading.Some? && if down then reading.value > cfg.targetKbps * 1.15 else reading.value < cfg.targetKbps * 0.85
  }

  predicate CanMove(cfg: QualityConfig, quality: int, down: bool) {
    if down then quality > cfg.low else quality < cfg.high
  }

  function Moved(cfg: QualityConfig, quality: int, steps: nat, down: bool): int {
    if down then Max(cfg.low, quality - cfg.step * steps) else Min(cfg.high, quality + cfg.step * steps)
  }

  // Sends until the cooldown first allows an adjustment
  function Wait(cfg: QualityConfig, c: Control): nat {
    Max(1, c.lastAdapt + cfg.cooldown - c.sent)
  }

  // Adjustments the cooldown allows within k sends
  function StepsWithin(cfg: QualityConfig, c: Control, k: nat): nat
    requires cfg.cooldown >= 1
  {
    if k < Wait(cfg, c) then 0 else 1 + (k - Wait(cfg, c)) / cfg.cooldown
  }

  // Overload that lasts from any moment on: quality falls by a full step as soon as the
  // cooldown allows and every cooldown sends after that, down to low.
  lemma LastingOverload(cfg: QualityConfig, before: seq<Option<real>>, readings: seq<Option<real>>)
    requires Clamped(cfg) && cfg.enabled && cfg.targetKbps > 0.0 && AllOverloaded(cfg, readings)
    ensures var c := Run(cfg, before);
            Run(cfg, before + readings).quality
            == if c.quality <= cfg.low then c.quality
               else Max(cfg.low, c.quality - cfg.step * StepsWithin(cfg, c, |readings|))
  {
    LastingPressure(cfg, before, readings, true);
  }

  // Underuse that lasts from any moment on: quality rises by a full step as soon as the
  // cooldown allows and every cooldown sends after that, up to high.
  lemma LastingUnderuse(cfg: QualityConfig, before: seq<Option<real>>, readings: seq<Option<real>>)
    requires Clamped(cfg) && cfg.enabled && cfg.targetKbps > 0.0 && AllUnderused(cfg, readings)
    ensures var c := Run(cfg, before);
            Run(cfg, before + readings).quality
            == if c.quality >= cfg.high then c.quality
               else Min(cfg.high, c.quality + cfg.step * StepsWithin(cfg, c, |readings|))
  {
    LastingPressure(cfg, before, readings, false);
  }

  lemma LastingPressure(cfg: QualityConfig, before: seq<Option<real>>, readings: seq<Option<real>>, down: bool)
    requires Clamped(cfg) && cfg.enabled && cfg.targetKbps > 0.0
    requires forall i :: 0 <= i < |readings| ==> Pressed(cfg, readings[i], down)
    ensures var c := Run(cfg, before);
            Run(cfg, before + readings).quality
            == if CanMove(cfg, c.quality, down) then Moved(cfg, c.quality, StepsWithin(cfg, c, |readings|), down)
               else c.quality
  {
    var c, d := Run(cfg, before), Run(cfg, before + readings);
    Pace(cfg, before, readings, down);
    if CanMove(cfg, c.quality, down) {
      QualityOnPace(cfg, c, d, |readings|, down);
    }
  }

  lemma QualityOnPace(cfg: QualityConfig, c: Control, d: Control, k: nat, down: bool)
    requires Clamped(cfg) && OnPace(cfg, c, d, down) && d.sent == c.sent + k
    ensures d.quality == Moved(cfg, c.quality, StepsWithin(cfg, c, k), down)
  {
    var a := d.adjustments - c.adjustments;
    StepsTaken(cfg, c, a, k, d.lastAdapt, CanMove(cfg, d.quality, down));
    if !CanMove(cfg, d.quality, down) {
      Saturated(cfg, c.quality, a, StepsWithin(cfg, c, k), down);
    }
  }

  // Past the bound more steps change nothing.
  lemma Saturated(cfg: QualityConfig, quality: int, a: nat, b: nat, down: bool)
    requires Clamped(cfg) && a <= b && !CanMove(cfg, Moved(cfg, quality, a, down), down)
    ensures Moved(cfg, quality, a, down) == Moved(cfg, quality, b, down)
  {
    MulMonotone(cfg.step, a, b);
  }

  // Nothing to adjust by: no reading, or one between 85 and 115 percent of the target
  predicate Balanced(cfg: QualityConfig, reading: Option<real>) {
    reading.Some? ==> cfg.targetKbps * 0.85 <= reading.value <= cfg.targetKbps * 1.15
  }

  // Balanced sends leave quality, and the count from which the cooldown runs, as they are.
  lemma {:induction false} BalancedHolds(cfg: QualityConfig, before: seq<Option<real>>, readings: seq<Option<real>>)
    requires forall i :: 0 <= i < |readings| ==> Balanced(cfg, readings[i])
    ensures var c := Run(cfg, before);
            Run(cfg, before + readings) == c.(sent := c.sent + |readings|)
  {
    if readings == [] {
      assert before + readings == before;
    } else {
      BalancedHolds(cfg, before, DropLast(readings));
      LastOfAppend(before, readings);
    }
  }

  // So does any send of a topic that does not adapt, or has no target.
  lemma {:induction false} DisabledHolds(cfg: QualityConfig, readings: seq<Option<real>>)
    requires !cfg.enabled || cfg.targetKbps <= 0.0
    ensures Run(cfg, readings) == Control(cfg.initial, 0, |readings|, 0)
  {
    if readings != [] {
      DisabledHolds(cfg, DropLast(readings));
    }
  }

  // The count of adjustments so far against the one the cooldown allows
  lemma StepsTaken(cfg: QualityConfig, c: Control, a: nat, k: nat, lastAdapt: nat, above: bool)
    requires cfg.cooldown >= 1
    requires a > 0 ==> lastAdapt == c.sent + Wait(cfg, c) + cfg.cooldown * (a - 1) <= c.sent + k
    requires above ==> if a == 0 then k < Wait(cfg, c) else c.sent + k < lastAdapt + cfg.cooldown
    ensures a <= StepsWithin(cfg, c, k) && (above ==> a == StepsWithin(cfg, c, k))
  {
    if a > 0 {
      var rest := k - Wait(cfg, c);
      MulMonotone(cfg.cooldown, 0, a - 1);
      if above {
        ExactQuotient(a - 1, rest, cfg.cooldown);
      } else {
        AtLeastQuotient(a - 1, rest, cfg.cooldown);
      }
    }
  }

  lemma ExactQuotient(a: nat, n: nat, d: int)
    requires d > 0 && d * a <= n < d * a + d
    ensures a == n / d
  {
    QuotientUnique(n, d, a, n - d * a);
  }

  lemma AtLeastQuotient(a: nat, n: nat, d: int)
    requires d > 0 && d * a <= n
    ensures a <= n / d
  {
    var q := n / d;
    if a >= q + 1 {
      MulMonotone(d, q + 1, a);
    }
  }

  lemma {:induction false} Pace(cfg: QualityConfig, before: seq<Option<real>>, readings: seq<Option<real>>, down: bool)
    requires Clamped(cfg) && cfg.enabled && cfg.targetKbps > 0.0
    requires forall i :: 0 <= i < |readings| ==> Pressed(cfg, readings[i], down)
    ensures var c, d := Run(cfg, before), Run(cfg, before + readings);
            && d.sent == c.sent + |readings|
            && if CanMove(cfg, c.quality, down) then OnPace(cfg, c, d, down) else d.quality == c.quality
  {
    if readings == [] {
      assert before + readings == before;
    } else {
      Pace(cfg, before, DropLast(readings), down);
      LastOfAppend(before, readings);
      OneSided(cfg, Last(readings), down);
      var c, d := Run(cfg, before), Run(cfg, before + DropLast(readings));
      if CanMove(cfg, c.quality, down) {
        NextOnPace(cfg, c, d, Last(readings), down);
      }
    }
  }

  // d follows c by pressed sends alone.
  predicate OnPace(cfg: QualityConfig, c: Control, d: Control, down: bool) {
    var a := d.adjustments - c.adjustments;
    && a >= 0 && d.sent >= c.sent && d.quality == Moved(cfg, c.quality, a, down)
    && (a == 0 ==> d.lastAdapt == c.lastAdapt)
    && (a > 0 ==> d.lastAdapt == c.sent + Wait(cfg, c) + cfg.cooldown * (a - 1) <= d.sent)
    && (CanMove(cfg, d.quality, down) ==>
          if a == 0 then d.sent < c.sent + Wait(cfg, c) else d.sent < d.lastAdapt + cfg.cooldown)
  }

  lemma NextOnPace(cfg: QualityConfig, c: Control, d: Control, reading: Option<real>, down: bool)
    requires Clamped(cfg) && cfg.enabled && cfg.targetKbps > 0.0 && CanMove(cfg, c.quality, down)
    requires OnPace(cfg, c, d, down) && Pressed(cfg, reading, down) && !Pressed(cfg, reading, !down)
    ensures OnPace(cfg, c, AfterSend(cfg, d, reading), down)
  {
    var a := d.adjustments - c.adjustments;
    OneMoreTime(a, cfg.step);
    if a > 0 {
      OneMoreTime(a - 1, cfg.cooldown);
    }
  }

  lemma OneSided(cfg: QualityConfig, reading: Option<real>, down: bool)
    requires cfg.targetKbps > 0.0 && Pressed(cfg, reading, down)
    ensures !Pressed(cfg, reading, !down)
  {
  }

  // Sends that count towards the cooldown: the first can never adjust.
  function Paid(cooldown: int, sends: nat): nat {
    if cooldown == 1 && sends > 0 then sends - 1 else sends
  }

  lemma StepsFromFirstSend(cfg: QualityConfig, sends: nat)
    requires cfg.cooldown >= 1 && sends > 0
    ensures StepsWithin(cfg, Control(cfg.initial, 0, 1, 0), sends - 1) == Paid(cfg.cooldown, sends) / cfg.cooldown
  {
    if cfg.cooldown == 1 {
      DivideByOne(cfg.cooldown, sends - 1);
      if sends > 1 {
        DivideByOne(cfg.cooldown, sends - 2);
      }
    } else {
      OneCooldownLess(sends, cfg.cooldown);
    }
  }

  lemma DivideByOne(d: int, n: nat)
    requires d == 1
    ensures n / d == n
  {
    QuotientUnique(n, d, n, 0);
  }

  lemma OneCooldownLess(n: nat, d: int)
    requires d > 0
    ensures n < d ==> n / d == 0
    ensures n >= d ==> n / d == 1 + (n - d) / d
  {
    if n < d {
      QuotientUnique(n, d, 0, n);
    } else {
      var q, r := (n - d) / d, (n - d) % d;
      assert n - d == d * q + r;
      OneMoreTime(q, d);
      QuotientUnique(n, d, q + 1, r);
    }
  }

  lemma FirstRun(cfg: QualityConfig, first: seq<Option<real>>)
    requires first == [None]
    ensures Run(cfg, first) == Control(cfg.initial, 0, 1, 0)
  {
    assert DropLast(first) == [];
  }

  // Overload at every send after the first, at which there is nothing to read yet
  ghost predicate OverloadedAfterFirst(cfg: QualityConfig, readings: seq<Option<real>>) {
    forall i :: 0 < i < |readings| ==> readings[i].Some? && readings[i].value > cfg.targetKbps * 1.15
  }

  // The start less one step per cooldown of sends, down to low
  function Fallen(cfg: QualityConfig, sends: nat): int
    requires cfg.cooldown >= 1
  {
    if cfg.initial <= cfg.low then cfg.initial
    else Max(cfg.low, cfg.initial - cfg.step * (Paid(cfg.cooldown, sends) / cfg.cooldown))
  }

  lemma OverloadAfterFirst(cfg: QualityConfig, readings: seq<Option<real>>)
    requires Clamped(cfg) && cfg.enabled && cfg.targetKbps > 0.0
    requires readings != [] && readings[0] == None && OverloadedAfterFirst(cfg, readings)
    ensures Run(cfg, readings).quality == Fallen(cfg, |readings|)
  {
    var first, rest := readings[..1], readings[1..];
    assert first + rest == readings;
    FirstRun(cfg, first);
    assert AllOverloaded(cfg, rest);
    LastingOverload(cfg, first, rest);
    StepsFromFirstSend(cfg, |readings|);
  }

  lemma NothingFallen(cfg: QualityConfig)
    requires Clamped(cfg)
    ensures Run(cfg, []).quality == Fallen(cfg, 0)
  {
    QuotientUnique(0, cfg.cooldown, 0, 0);
  }
}
