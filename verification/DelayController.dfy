/** The frame pacer: a minimum delay between releases and, for decoupled simulations, an
    injected sleep steered by a moving average of how sleep and frame time move together.
    Times are integers in nanoseconds, the floating-point average is a real number. */
module Pacing {
  import opened HostClock
  import opened Wrappers

  datatype Frame = Frame(frametimeNs: int, jitterNs: int, releaseNs: nat)

  datatype Controller = Controller(
    decoupled: bool,
    previous: Option<Frame>,
    gradientEwma: real,
    drainNs: int)

  // ----- One call

  function Clamp(x: real, low: real, high: real): real {
    if x < low then low else if x > high then high else x
  }

  function ClampInt(x: int, low: int, high: int): int {
    if x < low then low else if x > high then high else x
  }

  /** Conversion from floating point to an integer, toward zero. */
  function Truncate(x: real): int {
    if x >= 0.0 then x.Floor else -((-x).Floor)
  }

  /** One down phase: the frame before it slept jitterNs extra and took frametimeNs. */
  datatype Phase = Phase(before: Frame, frametimeNs: int)

  function Gradient(p: Phase): real {
    var dtJitter, dtFrametime := -p.before.jitterNs, p.frametimeNs - p.before.frametimeNs;
    if dtJitter == 0 then 0.0 else Clamp(dtFrametime as real / dtJitter as real, -1.0, 1.0)
  }

  /** The moving average, with weight 0.01 for the new gradient. */
  function NextEwma(ewma: real, p: Phase): real {
    0.01 * Gradient(p) + 0.99 * ewma
  }

  /** The drain is pushed by five times the distance of the average from one half. */
  function Push(ewma: real, jitterNs: int): real {
    5.0 * (0.5 - ewma) * (jitterNs as real)
  }

  function NextDrain(drain: int, ewma: real, p: Phase): int {
    ClampInt(drain + Truncate(Push(ewma, p.before.jitterNs)), 0, p.frametimeNs)
  }

  /** Frame time seen by a call whose first clock reading is now. */
  function Frametime(prev: Frame, now: nat): nat {
    if now > prev.releaseNs then now - prev.releaseNs else 0
  }

  function Jitter(prev: Frame, frametime: nat): nat {
    if prev.jitterNs == 0 then frametime / 50 else 0
  }

  /** The extra sleep of a decoupled call that sees this frame time. */
  function CycleSleep(drainNs: int, prev: Frame, frametime: nat): nat {
    var sleep := Jitter(prev, frametime) + drainNs;
    if sleep > 0 then sleep else 0
  }

  /** The extra sleep of a call. */
  function InjectedSleep(c: Controller, now: nat): nat {
    if c.previous.None? || !c.decoupled then 0
    else CycleSleep(c.drainNs, c.previous.value, Frametime(c.previous.value, now))
  }

  predicate IsDown(c: Controller) { c.previous.Some? && c.decoupled && c.previous.value.jitterNs != 0 }

  function Followed(c: Controller, p: Phase): Controller {
    var ewma := NextEwma(c.gradientEwma, p);
    c.(gradientEwma := ewma, drainNs := NextDrain(c.drainNs, ewma, p))
  }

  /** A decoupled call: its jitter is remembered, and the down half follows the gradient. */
  function Cycled(c: Controller, prev: Frame, frametime: nat, release: nat): Controller {
    var c' := if prev.jitterNs == 0 then c else Followed(c, Phase(prev, frametime));
    c'.(previous := Some(Frame(frametime, Jitter(prev, frametime), release)))
  }

  /** The controller after a call: now is its first clock reading, release its last. */
  function AfterDelay(c: Controller, now: nat, release: nat): Controller {
    if c.previous.None? then c.(previous := Some(Frame(0, 0, release)))
    else
      AfterNext(c, c.previous.value, Frametime(c.previous.value, now), release)
  }

  /** A call that is not the first. */
  function AfterNext(c: Controller, prev: Frame, frametime: nat, release: nat): Controller {
    if !c.decoupled then c.(previous := Some(Frame(frametime, 0, release)))
    else Cycled(c, prev, frametime, release)
  }

  class DelayController {
    const simulationDecoupled: bool
    var previousFrame: Option<Frame>
    var gradientEwma: real
    var drainNs: int

    ghost function Abstract(): Controller
      reads this
    {
      Controller(simulationDecoupled, previousFrame, gradientEwma, drainNs)
    }

    constructor (simulationDecoupled: bool)
      ensures Abstract() == Start(simulationDecoupled)
    {
      this.simulationDecoupled := simulationDecoupled;
      previousFrame, gradientEwma, drainNs := None, 0.0, 0;
    }

    /** delay: reads the clock from tick on; the release is the reading before next. */
    method Delay(minDelayNs: nat, clock: nat -> nat, tick: nat) returns (next: nat)
      requires Advancing(clock)
      modifies this
      ensures next - 1 == ReleaseTick(old(Abstract()), minDelayNs, clock, tick)
      ensures Abstract() == AfterDelay(old(Abstract()), clock(tick), clock(next - 1))
    {
      if previousFrame.None? {
        previousFrame := Some(Frame(0, 0, clock(tick)));
        return tick + 1;
      }
      var prev := previousFrame.value;
      var frametimeNs := Frametime(prev, clock(tick));
      next := WaitMinimum(prev, minDelayNs, clock, tick);
      next := Release(prev, frametimeNs, clock, next);
      assert Abstract() == AfterNext(old(Abstract()), prev, frametimeNs, clock(next - 1));
    }

    /** The rest of a call, from the reading its minimum delay ended at. */
    method Release(prev: Frame, frametimeNs: nat, clock: nat -> nat, tick: nat) returns (next: nat)
      requires Advancing(clock)
      modifies this
      ensures next > tick
      ensures Abstract() == AfterNext(old(Abstract()), prev, frametimeNs, clock(next - 1))
      ensures next - 1 ==
                if !simulationDecoupled then tick
                else FirstAt(clock, clock(tick) + CycleSleep(old(drainNs), prev, frametimeNs), tick + 1) + 1
    {
      if !simulationDecoupled {
        previousFrame := Some(Frame(frametimeNs, 0, clock(tick)));
        return tick + 1;
      }
      next := Cycle(prev, frametimeNs, clock, tick);
    }

    /** The jitter cycle of decoupled simulations, from the reading the minimum delay ended at. */
    method Cycle(prev: Frame, frametimeNs: nat, clock: nat -> nat, tick: nat) returns (next: nat)
      requires Advancing(clock)
      modifies this
      ensures next - 1 == FirstAt(clock, clock(tick) + CycleSleep(old(drainNs), prev, frametimeNs), tick + 1) + 1
      ensures Abstract() == Cycled(old(Abstract()), prev, frametimeNs, clock(next - 1))
    {
      var jitterNs := Jitter(prev, frametimeNs);
      var sleep := if jitterNs + drainNs > 0 then jitterNs + drainNs else 0;
      next := SpinUntil(clock(tick) + sleep, clock, tick + 1);
      if prev.jitterNs != 0 { FollowGradient(Phase(prev, frametimeNs)); }
      previousFrame := Some(Frame(frametimeNs, jitterNs, clock(next)));
      next := next + 1;
    }

    /** The end of the down half of the cycle. */
    method FollowGradient(p: Phase)
      modifies this`gradientEwma, this`drainNs
      ensures gradientEwma == NextEwma(old(gradientEwma), p)
      ensures drainNs == NextDrain(old(drainNs), gradientEwma, p)
    {
      gradientEwma := NextEwma(gradientEwma, p);
      drainNs := NextDrain(drainNs, gradientEwma, p);
    }
  }

  /** The wait for the minimum delay, if there is one. */
  method WaitMinimum(prev: Frame, minDelayNs: nat, clock: nat -> nat, tick: nat) returns (next: nat)
    requires Advancing(clock)
    ensures next == DelayTick(prev, minDelayNs, clock, tick)
  {
    next := tick + 1;
    if minDelayNs != 0 { next := SpinUntil(prev.releaseNs + minDelayNs, clock, next); }
  }

  /** spin_until: returns after the first reading at or past the deadline. */
  method SpinUntil(deadlineNs: nat, clock: nat -> nat, tick: nat) returns (next: nat)
    requires Advancing(clock)
    ensures next == FirstAt(clock, deadlineNs, tick) + 1
  {
    next := tick;
    while true
      invariant next >= tick && FirstAt(clock, deadlineNs, next) == FirstAt(clock, deadlineNs, tick)
      decreases Left(clock, deadlineNs, next)
    {
      assert Ticks(clock, next);
      if clock(next) >= deadlineNs { return next + 1; }
      next := next + 1;
    }
  }

  /** The reading a call ends its minimum delay at. */
  ghost function DelayTick(prev: Frame, minDelayNs: nat, clock: nat -> nat, tick: nat): (k: nat)
    requires Advancing(clock)
    ensures k > tick
  {
    if minDelayNs == 0 then tick + 1 else FirstAt(clock, prev.releaseNs + minDelayNs, tick + 1) + 1
  }

  /** The reading a call releases at: each of its waits ends as soon as the clock allows. */
  ghost function ReleaseTick(c: Controller, minDelayNs: nat, clock: nat -> nat, tick: nat): (k: nat)
    requires Advancing(clock)
    ensures k >= tick
  {
    if c.previous.None? then tick
    else
      var k := DelayTick(c.previous.value, minDelayNs, clock, tick);
      if !c.decoupled then k else FirstAt(clock, clock(k) + InjectedSleep(c, clock(tick)), k + 1) + 1
  }

  /** No call releases before its minimum delay is over and its injected sleep was slept. */
  lemma ReleaseIsLate(c: Controller, minDelayNs: nat, clock: nat -> nat, tick: nat)
    requires Advancing(clock)
    ensures var release := clock(ReleaseTick(c, minDelayNs, clock, tick));
            && release >= clock(tick) + InjectedSleep(c, clock(tick))
            && (c.previous.Some? && c.previous.value.releaseNs <= clock(tick) ==>
                  release >= c.previous.value.releaseNs + minDelayNs)
  {
    if c.previous.Some? {
      var prev := c.previous.value;
      var k := DelayTick(prev, minDelayNs, clock, tick);
      Advances(clock, tick, k);
      if minDelayNs != 0 { Advances(clock, k - 1, k); }
      if c.decoupled { SleepIsLate(clock, k, InjectedSleep(c, clock(tick))); }
    }
  }

  lemma SleepIsLate(clock: nat -> nat, k: nat, sleep: nat)
    requires Advancing(clock)
    ensures clock(FirstAt(clock, clock(k) + sleep, k + 1) + 1) > clock(k) + sleep
  {
    assert Ticks(clock, FirstAt(clock, clock(k) + sleep, k + 1));
  }

  lemma DelayIsPrompt(prev: Frame, minDelayNs: nat, clock: nat -> nat, tick: nat, gap: nat)
    requires Advancing(clock) && Prompt(clock, gap)
    ensures var due := prev.releaseNs + minDelayNs;
            clock(DelayTick(prev, minDelayNs, clock, tick))
            <= (if minDelayNs != 0 && due > clock(tick) then due else clock(tick)) + 2 * gap
  {
    assert Soon(clock, gap, tick);
    if minDelayNs != 0 {
      FirstAtSoon(clock, prev.releaseNs + minDelayNs, tick + 1, gap);
      assert Soon(clock, gap, FirstAt(clock, prev.releaseNs + minDelayNs, tick + 1));
    }
  }

  lemma SleepIsPrompt(clock: nat -> nat, k: nat, sleep: nat, gap: nat)
    requires Advancing(clock) && Prompt(clock, gap)
    ensures clock(FirstAt(clock, clock(k) + sleep, k + 1) + 1) <= clock(k) + sleep + 2 * gap
  {
    assert Soon(clock, gap, k);
    FirstAtSoon(clock, clock(k) + sleep, k + 1, gap);
    assert Soon(clock, gap, FirstAt(clock, clock(k) + sleep, k + 1));
  }

  /** When readings are at most gap apart, a call takes no longer than what is left of the
      minimum delay, then the injected sleep, and four gaps. */
  lemma ReleaseIsPrompt(c: Controller, minDelayNs: nat, clock: nat -> nat, tick: nat, gap: nat)
    requires Advancing(clock) && Prompt(clock, gap) && c.previous.Some?
    ensures var due := c.previous.value.releaseNs + minDelayNs;
            clock(ReleaseTick(c, minDelayNs, clock, tick))
            <= (if minDelayNs != 0 && due > clock(tick) then due else clock(tick)) +
               InjectedSleep(c, clock(tick)) + 4 * gap
  {
    var k := DelayTick(c.previous.value, minDelayNs, clock, tick);
    DelayIsPrompt(c.previous.value, minDelayNs, clock, tick, gap);
    if c.decoupled { SleepIsPrompt(clock, k, InjectedSleep(c, clock(tick)), gap); }
  }

  // ----- Runs

  /** One call of delay: what it was asked for, and its first and last clock readings. */
  datatype Call = Call(minDelayNs: nat, now: nat, release: nat)

  ghost function Start(decoupled: bool): Controller { Controller(decoupled, None, 0.0, 0) }

  ghost function After(decoupled: bool, calls: seq<Call>): Controller {
    if calls == [] then Start(decoupled)
    else
      var last := calls[|calls| - 1];
      AfterDelay(After(decoupled, calls[..|calls| - 1]), last.now, last.release)
  }

  /** Each release keeps its call's minimum delay from the one before. */
  ghost predicate Paced(calls: seq<Call>) {
    forall i :: 1 <= i < |calls| ==>
      calls[i].release >= calls[i - 1].release + calls[i].minDelayNs
  }

  /** The controller has made these calls, the last of them up to this tick. */
  ghost predicate InStep(c: DelayController, calls: seq<Call>, clock: nat -> nat, tick: nat)
    reads c
  {
    && c.Abstract() == After(c.simulationDecoupled, calls) && Paced(calls)
    && (calls != [] ==>
          && tick > 0
          && calls[|calls| - 1].release == clock(tick - 1)
          && c.previousFrame.Some? && c.previousFrame.value.releaseNs == clock(tick - 1))
  }

  method PaceOne(c: DelayController, ghost calls: seq<Call>, delay: nat, clock: nat -> nat, tick: nat)
    returns (call: Call, next: nat)
    requires Advancing(clock) && InStep(c, calls, clock, tick)
    modifies c
    ensures call.minDelayNs == delay && InStep(c, calls + [call], clock, next)
  {
    if tick > 0 { Advances(clock, tick - 1, tick); }
    ReleaseIsLate(c.Abstract(), delay, clock, tick);
    next := c.Delay(delay, clock, tick);
    call := Call(delay, clock(tick), clock(next - 1));
    OneMoreCall(c.simulationDecoupled, calls, call);
  }

  /** A monitor's worker over its life: one call of delay per signal, on one clock. */
  method PaceSignals(decoupled: bool, delays: seq<nat>, clock: nat -> nat)
    returns (c: DelayController, calls: seq<Call>)
    requires Advancing(clock)
    ensures c.Abstract() == After(decoupled, calls) && Paced(calls)
    ensures |calls| == |delays| && forall i :: 0 <= i < |calls| ==> calls[i].minDelayNs == delays[i]
  {
    c := new DelayController(decoupled);
    calls := [];
    var tick := 0;
    while |calls| < |delays|
      invariant |calls| <= |delays| && forall i :: 0 <= i < |calls| ==> calls[i].minDelayNs == delays[i]
      invariant fresh(c) && c.simulationDecoupled == decoupled && InStep(c, calls, clock, tick)
    {
      var call, next := PaceOne(c, calls, delays[|calls|], clock, tick);
      calls := calls + [call];
      tick := next;
    }
  }

  lemma OneMoreCall(decoupled: bool, calls: seq<Call>, call: Call)
    requires Paced(calls)
    requires calls != [] ==> call.release >= calls[|calls| - 1].release + call.minDelayNs
    ensures Paced(calls + [call])
    ensures After(decoupled, calls + [call]) == AfterDelay(After(decoupled, calls), call.now, call.release)
  {
    assert (calls + [call])[..|calls|] == calls;
  }

  /** The down phases of a run, oldest first. */
  ghost function Phases(decoupled: bool, calls: seq<Call>): seq<Phase> {
    if calls == [] then []
    else
      var n := |calls| - 1;
      var c := After(decoupled, calls[..n]);
      Phases(decoupled, calls[..n]) + PhaseOf(c, calls[n].now)
  }

  ghost function PhaseOf(c: Controller, now: nat): seq<Phase> {
    if IsDown(c) then [Phase(c.previous.value, Frametime(c.previous.value, now))] else []
  }

  ghost function Ewma(ps: seq<Phase>): real {
    if ps == [] then 0.0 else NextEwma(Ewma(ps[..|ps| - 1]), ps[|ps| - 1])
  }

  ghost function Drain(ps: seq<Phase>): int {
    if ps == [] then 0 else NextDrain(Drain(ps[..|ps| - 1]), Ewma(ps), ps[|ps| - 1])
  }

  lemma PhaseAppended(ps: seq<Phase>, p: Phase)
    ensures Ewma(ps + [p]) == NextEwma(Ewma(ps), p)
    ensures Drain(ps + [p]) == NextDrain(Drain(ps), Ewma(ps + [p]), p)
  {
    assert (ps + [p])[..|ps|] == ps;
  }

  lemma OneCallDecides(c: Controller, now: nat, release: nat, ps: seq<Phase>)
    requires c.gradientEwma == Ewma(ps) && c.drainNs == Drain(ps)
    ensures AfterDelay(c, now, release).gradientEwma == Ewma(ps + PhaseOf(c, now))
    ensures AfterDelay(c, now, release).drainNs == Drain(ps + PhaseOf(c, now))
  {
    if IsDown(c) {
      PhaseAppended(ps, PhaseOf(c, now)[0]);
    } else {
      assert ps + PhaseOf(c, now) == ps;
    }
  }

  /** The average and the drain depend on the down phases only, and in a down phase the
      jitter before it is positive: the division by zero guarded against cannot come up. */
  lemma {:induction false} PhasesDecide(decoupled: bool, calls: seq<Call>)
    ensures var c, ps := After(decoupled, calls), Phases(decoupled, calls);
            && c.decoupled == decoupled
            && c.gradientEwma == Ewma(ps) && c.drainNs == Drain(ps)
            && (c.previous.Some? ==> c.previous.value.frametimeNs >= 0 && c.previous.value.jitterNs >= 0)
            && (forall i :: 0 <= i < |ps| ==> ps[i].before.jitterNs > 0 && ps[i].frametimeNs >= 0)
            && (!decoupled ==> ps == [])
  {
    if calls != [] {
      var n := |calls| - 1;
      PhasesDecide(decoupled, calls[..n]);
      OneCallDecides(After(decoupled, calls[..n]), calls[n].now, calls[n].release, Phases(decoupled, calls[..n]));
    }
  }

  lemma {:induction false} EwmaBounded(ps: seq<Phase>)
    ensures -1.0 <= Ewma(ps) <= 1.0
  {
    if ps != [] {
      EwmaBounded(ps[..|ps| - 1]);
      Mix(Gradient(ps[|ps| - 1]), Ewma(ps[..|ps| - 1]));
    }
  }

  lemma Mix(g: real, e: real)
    requires -1.0 <= g <= 1.0 && -1.0 <= e <= 1.0
    ensures -1.0 <= 0.01 * g + 0.99 * e <= 1.0
  {}

  /** Over every run: the average stays in [-1, 1], the drain is at most the frame time of the
      last down phase and 0 without one (so always, for coupled games), and a call's injected
      sleep is at most a fiftieth of its frame time plus that drain. */
  lemma ControllerStaysBounded(decoupled: bool, calls: seq<Call>, now: nat)
    ensures var c, ps := After(decoupled, calls), Phases(decoupled, calls);
            && -1.0 <= c.gradientEwma <= 1.0
            && 0 <= c.drainNs <= (if ps == [] then 0 else ps[|ps| - 1].frametimeNs)
            && (!decoupled ==> c.drainNs == 0 && InjectedSleep(c, now) == 0)
            && (c.previous.Some? ==>
                  50 * (InjectedSleep(c, now) - c.drainNs) <= Frametime(c.previous.value, now))
  {
    PhasesDecide(decoupled, calls);
    EwmaBounded(Phases(decoupled, calls));
  }

  /** So over every run a call ends within a fiftieth of its frame time, plus the last down
      phase's frame time, plus four clock gaps, of when its minimum delay is over; for coupled
      games within the gaps alone. */
  lemma CallsStayShort(decoupled: bool, calls: seq<Call>, minDelayNs: nat, clock: nat -> nat, tick: nat, gap: nat)
    requires Advancing(clock) && Prompt(clock, gap) && After(decoupled, calls).previous.Some?
    ensures var c, ps := After(decoupled, calls), Phases(decoupled, calls);
            var prev := c.previous.value;
            var due := if minDelayNs != 0 && prev.releaseNs + minDelayNs > clock(tick)
                       then prev.releaseNs + minDelayNs else clock(tick);
            var late := clock(ReleaseTick(c, minDelayNs, clock, tick)) - due - 4 * gap;
            && (!decoupled ==> late <= 0)
            && 50 * (late - if ps == [] then 0 else ps[|ps| - 1].frametimeNs) <= Frametime(prev, clock(tick))
  {
    ReleaseIsPrompt(After(decoupled, calls), minDelayNs, clock, tick, gap);
    ControllerStaysBounded(decoupled, calls, clock(tick));
  }

  // ----- One call in numbers

  /** Frame time and release are remembered; the jitter only on the up half of a decoupled cycle,
      and then it is a fiftieth of the frame time, rounded down. */
  lemma WhatACallRemembers(c: Controller, now: nat, release: nat)
    ensures var r := AfterDelay(c, now, release).previous;
            && r.Some? && r.value.releaseNs == release
            && (c.previous.None? ==> r.value.frametimeNs == 0 && r.value.jitterNs == 0)
            && (c.previous.Some? ==>
                  && r.value.frametimeNs
                     == (if now > c.previous.value.releaseNs then now - c.previous.value.releaseNs else 0)
                  && if c.decoupled && c.previous.value.jitterNs == 0
                     then 50 * r.value.jitterNs <= r.value.frametimeNs < 50 * (r.value.jitterNs + 1)
                     else r.value.jitterNs == 0)
  {}

  /** A decoupled call ends its minimum delay at the first reading that allows it, k - 1, and then
      sleeps jitter and drain from reading k on, at least that long and no more than two gaps
      longer. */
  lemma WhatACallSleeps(c: Controller, minDelayNs: nat, clock: nat -> nat, tick: nat) returns (k: nat)
    requires Advancing(clock) && c.previous.Some? && c.decoupled
    ensures tick < k
    ensures minDelayNs == 0 ==> k == tick + 1
    ensures minDelayNs != 0 ==>
              && k > tick + 1 && clock(k - 1) >= c.previous.value.releaseNs + minDelayNs
              && forall i :: tick < i < k - 1 ==> clock(i) < c.previous.value.releaseNs + minDelayNs
    ensures var at := ReleaseTick(c, minDelayNs, clock, tick);
            var jitter := AfterDelay(c, clock(tick), clock(at)).previous.value.jitterNs;
            var sleep := if jitter + c.drainNs > 0 then jitter + c.drainNs else 0;
            && clock(at) >= clock(k) + sleep
            && forall gap: nat :: Prompt(clock, gap) ==> clock(at) <= clock(k) + sleep + 2 * gap
  {
    k := DelayTick(c.previous.value, minDelayNs, clock, tick);
    var sleep := InjectedSleep(c, clock(tick));
    SleepIsLate(clock, k, sleep);
    forall gap: nat | Prompt(clock, gap)
      ensures clock(FirstAt(clock, clock(k) + sleep, k + 1) + 1) <= clock(k) + sleep + 2 * gap
    {
      SleepIsPrompt(clock, k, sleep, gap);
    }
  }

  /** Off the down half nothing is learnt. */
  lemma OtherCallsLearnNothing(c: Controller, now: nat, release: nat)
    requires c.previous.None? || !c.decoupled || c.previous.value.jitterNs == 0
    ensures var c' := AfterDelay(c, now, release);
            c'.gradientEwma == c.gradientEwma && c'.drainNs == c.drainNs && c'.decoupled == c.decoupled
  {}

  /** By how much frame time fell for each nanosecond of sleep taken away, between -1 and 1. */
  ghost predicate IsGradient(g: real, rise: int, jitter: int) {
    && (rise >= jitter ==> g == -1.0)
    && (rise <= -jitter ==> g == 1.0)
    && (-jitter < rise < jitter ==> g * jitter as real == -(rise as real))
  }

  lemma GradientMeans(p: Phase)
    requires p.before.jitterNs > 0
    ensures IsGradient(Gradient(p), p.frametimeNs - p.before.frametimeNs, p.before.jitterNs)
  {
    var rise, j := p.frametimeNs - p.before.frametimeNs, p.before.jitterNs;
    QuotientInNumbers(rise, j);
  }

  lemma QuotientInNumbers(rise: int, j: int)
    requires j > 0
    ensures var q := rise as real / (-j) as real;
            && q * j as real == -(rise as real)
            && (rise >= j ==> q <= -1.0) && (rise <= -j ==> q >= 1.0)
            && (-j < rise < j ==> -1.0 < q < 1.0)
  {
    var q, x := rise as real / (-j) as real, j as real;
    assert (-j) as real == -x;
    assert q * (-x) == rise as real;
    assert q * x == -(q * (-x));
    if rise >= j && q > -1.0 { Product(q + 1.0, x); }
    if rise <= -j && q < 1.0 { Product(1.0 - q, x); }
    if -j < rise < j {
      if q <= -1.0 { Product(-1.0 - q, x); }
      if q >= 1.0 { Product(q - 1.0, x); }
    }
  }

  /** The drain moves by five times the distance of the average from one half, per nanosecond of
      jitter, m whole nanoseconds toward zero: up while the average is below one half, down while
      it is above, and never below 0 or beyond the frame time. */
  ghost predicate DrainRule(drain: int, e: real, jitter: int, frametime: int, m: nat, after: int) {
    && m as real <= 5.0 * (if e <= 0.5 then 0.5 - e else e - 0.5) * jitter as real < m as real + 1.0
    && after == if e <= 0.5 then if drain + m < frametime then drain + m else frametime
                else if drain - m < 0 then 0
                else if drain - m < frametime then drain - m else frametime
  }

  /** A down call: the average moves a hundredth of the way to the gradient, and the drain by the
      new average. */
  lemma WhatADownCallLearns(c: Controller, now: nat, release: nat) returns (g: real, m: nat)
    requires c.previous.Some? && c.decoupled && c.previous.value.jitterNs > 0 && c.drainNs >= 0
    ensures var prev, c' := c.previous.value, AfterDelay(c, now, release);
            && c'.previous.Some?
            && IsGradient(g, c'.previous.value.frametimeNs - prev.frametimeNs, prev.jitterNs)
            && c'.gradientEwma == 0.01 * g + 0.99 * c.gradientEwma
            && DrainRule(c.drainNs, c'.gradientEwma, prev.jitterNs, c'.previous.value.frametimeNs, m, c'.drainNs)
  {
    var p := Phase(c.previous.value, Frametime(c.previous.value, now));
    g := Gradient(p);
    GradientMeans(p);
    m := DrainMoves(c.drainNs, NextEwma(c.gradientEwma, p), p);
  }

  lemma DrainMoves(drain: int, e: real, p: Phase) returns (m: nat)
    requires p.before.jitterNs > 0 && p.frametimeNs >= 0 && drain >= 0
    ensures DrainRule(drain, e, p.before.jitterNs, p.frametimeNs, m, NextDrain(drain, e, p))
  {
    var push := Push(e, p.before.jitterNs);
    PushSign(e, p.before.jitterNs);
    m := if e <= 0.5 then push.Floor else (-push).Floor;
  }

  lemma PushSign(e: real, jitterNs: nat)
    ensures e <= 0.5 ==> Push(e, jitterNs) >= 0.0 && Push(e, jitterNs) == 5.0 * (0.5 - e) * jitterNs as real
    ensures e > 0.5 ==> Push(e, jitterNs) <= 0.0 && -Push(e, jitterNs) == 5.0 * (e - 0.5) * jitterNs as real
  {
    var j := jitterNs as real;
    if e <= 0.5 { Product(5.0 * (0.5 - e), j); } else { Product(5.0 * (e - 0.5), j); }
    assert 5.0 * (0.5 - e) * j == -(5.0 * (e - 0.5) * j);
  }

  /** Every frame takes at least 50 ns, so that a fiftieth of it is not 0. */
  ghost predicate Measurable(calls: seq<Call>) {
    forall i :: 0 < i < |calls| ==> calls[i].now >= calls[i - 1].release + 50
  }

  /** A frame remembered from the up half: when it was released, what it took and its jitter. */
  ghost predicate IsUpFrame(f: Frame, before: Call, call: Call) {
    && f.releaseNs == call.release && f.frametimeNs == call.now - before.release
    && 0 < 50 * f.jitterNs <= f.frametimeNs < 50 * (f.jitterNs + 1)
  }

  /** The calls of a decoupled game alternate: up, with a jitter, and down, without. */
  lemma {:induction false} CallsAlternate(calls: seq<Call>)
    requires calls != [] && Measurable(calls)
    ensures var c := After(true, calls);
            && c.decoupled && c.previous.Some? && c.previous.value.releaseNs == calls[|calls| - 1].release
            && (IsDown(c) <==> |calls| % 2 == 0)
            && |Phases(true, calls)| == (|calls| - 1) / 2
            && (IsDown(c) ==> IsUpFrame(c.previous.value, calls[|calls| - 2], calls[|calls| - 1]))
  {
    var n := |calls| - 1;
    if n > 0 {
      CallsAlternate(calls[..n]);
      WhatACallRemembers(After(true, calls[..n]), calls[n].now, calls[n].release);
    } else {
      assert calls[..0] == [];
    }
  }

  lemma LastPhase(calls: seq<Call>)
    requires Measurable(calls) && |calls| > 2 && |calls| % 2 == 1
    ensures var n, ps := |calls| - 1, Phases(true, calls);
            && |ps| == n / 2 && ps[..|ps| - 1] == Phases(true, calls[..n])
            && IsUpFrame(ps[|ps| - 1].before, calls[n - 2], calls[n - 1])
            && ps[|ps| - 1].frametimeNs == calls[n].now - calls[n - 1].release
  {
    var n := |calls| - 1;
    CallsAlternate(calls[..n]);
    CallsAlternate(calls);
  }

  /** The k-th down phase is made of the calls 2k + 1 and 2k + 2. */
  lemma {:induction false} PhaseAt(calls: seq<Call>, k: nat)
    requires Measurable(calls) && 2 * k + 2 < |calls|
    ensures k < |Phases(true, calls)|
    ensures var p := Phases(true, calls)[k];
            && IsUpFrame(p.before, calls[2 * k], calls[2 * k + 1])
            && p.frametimeNs == calls[2 * k + 2].now - calls[2 * k + 1].release
  {
    var n := |calls| - 1;
    if 2 * k + 2 == n {
      LastPhase(calls);
    } else {
      PhaseAt(calls[..n], k);
    }
  }

  // ----- Pinned at the floor, the drain dies out

  /** Frame time fell by at least the jitter that was taken away: the gradient is 1. */
  ghost predicate Pinned(p: Phase) {
    p.before.jitterNs > 0 && p.frametimeNs - p.before.frametimeNs <= -p.before.jitterNs
  }

  lemma PinnedGradient(p: Phase)
    requires Pinned(p)
    ensures Gradient(p) == 1.0
  {
    var a, b := (p.frametimeNs - p.before.frametimeNs) as real, (-p.before.jitterNs) as real;
    assert a <= b < 0.0;
    QuotientAtLeastOne(a, b);
  }

  lemma QuotientAtLeastOne(a: real, b: real)
    requires a <= b < 0.0
    ensures a / b >= 1.0
  {}

  /** x * 0.99^n */
  ghost function Decayed(x: real, n: nat): real { if n == 0 then x else 0.99 * Decayed(x, n - 1) }

  lemma {:induction false} DecayBound(x: real, n: nat)
    requires x >= 0.0
    ensures 0.0 <= Decayed(x, n) && Decayed(x, n) * (99 + n) as real <= 99.0 * x
  {
    if n != 0 {
      DecayBound(x, n - 1);
      DecayStep(Decayed(x, n - 1), (n - 1) as real);
    }
  }

  lemma DecayStep(d: real, m: real)
    requires d >= 0.0 && m >= 0.0
    ensures (0.99 * d) * (100.0 + m) <= d * (99.0 + m)
  {
    Product(d, 0.01 * m);
    assert d * (0.01 * m) == d * (99.0 + m) - (0.99 * d) * (100.0 + m);
  }

  lemma Product(a: real, b: real)
    requires a >= 0.0 && b >= 0.0
    ensures a * b >= 0.0
  {}

  lemma PinnedStep(ewma: real, p: Phase)
    requires Pinned(p)
    ensures 1.0 - NextEwma(ewma, p) == 0.99 * (1.0 - ewma)
  {
    PinnedGradient(p);
  }

  /** After any history, pinned phases bring the average to 1 geometrically. */
  lemma {:induction false} PinnedEwma(past: seq<Phase>, ps: seq<Phase>)
    requires forall i :: 0 <= i < |ps| ==> Pinned(ps[i])
    ensures 1.0 - Ewma(past + ps) == Decayed(1.0 - Ewma(past), |ps|)
  {
    if ps == [] {
      assert past + ps == past;
    } else {
      var n := |ps| - 1;
      PinnedEwma(past, ps[..n]);
      assert past + ps == (past + ps[..n]) + [ps[n]];
      PhaseAppended(past + ps[..n], ps[n]);
      PinnedStep(Ewma(past + ps[..n]), ps[n]);
    }
  }

  const SETTLED: nat := 693

  lemma SmallFactor(d: real, m: real)
    requires 0.0 <= d && m >= 792.0 && d * m <= 198.0
    ensures d <= 0.25
  {
    Product(d, m - 792.0);
    assert d * (m - 792.0) == d * m - d * 792.0;
  }

  lemma EwmaSettles(past: seq<Phase>, ps: seq<Phase>)
    requires forall i :: 0 <= i < |ps| ==> Pinned(ps[i])
    requires |ps| >= SETTLED
    ensures Ewma(past + ps) >= 0.75
  {
    PinnedEwma(past, ps);
    EwmaBounded(past);
    DecayBound(1.0 - Ewma(past), |ps|);
    SmallFactor(Decayed(1.0 - Ewma(past), |ps|), (99 + |ps|) as real);
  }

  lemma PushFalls(ewma: real, jitterNs: nat)
    requires ewma >= 0.75
    ensures Push(ewma, jitterNs) <= -(jitterNs as real)
  {
    Product(-1.0 - 5.0 * (0.5 - ewma), jitterNs as real);
  }

  lemma TruncatedFall(x: real, j: int)
    requires j >= 0 && x <= -(j as real)
    ensures Truncate(x) <= -j
  {
    assert (-x).Floor >= j;
  }

  lemma DrainFalls(drain: int, ewma: real, p: Phase, j: nat)
    requires ewma >= 0.75 && p.before.jitterNs >= j && p.frametimeNs >= 0
    ensures NextDrain(drain, ewma, p) <= if drain > j then drain - j else 0
  {
    PushFalls(ewma, p.before.jitterNs);
    TruncatedFall(Push(ewma, p.before.jitterNs), p.before.jitterNs);
  }

  /** Drain left after the average has settled: at most frame - k * jitter after k more phases. */
  lemma {:induction false} DrainDiesOut(past: seq<Phase>, ps: seq<Phase>, frame: nat, jitter: nat, k: nat)
    requires forall i :: 0 <= i < |ps| ==>
               Pinned(ps[i]) && jitter <= ps[i].before.jitterNs && 0 <= ps[i].frametimeNs <= frame
    requires |ps| == SETTLED + k
    ensures Drain(past + ps) <= if frame > k * jitter then frame - k * jitter else 0
  {
    var n := |ps| - 1;
    var all := past + ps;
    assert all[..|all| - 1] == past + ps[..n] && all[|all| - 1] == ps[n];
    if k == 0 {
      assert Drain(all) <= ps[n].frametimeNs;
    } else {
      DrainDiesOut(past, ps[..n], frame, jitter, k - 1);
      EwmaSettles(past, ps);
      DrainFalls(Drain(past + ps[..n]), Ewma(all), ps[n], jitter);
      assert (k - 1) * jitter + jitter == k * jitter;
    }
  }

  /** Whatever a run did before, once its last 693 + k down phases are pinned and k times the
      least jitter covers the longest frame, the injected drain is gone. */
  lemma FloorStopsTheDrain(decoupled: bool, calls: seq<Call>, past: seq<Phase>, ps: seq<Phase>,
                           frame: nat, jitter: nat, k: nat)
    requires Phases(decoupled, calls) == past + ps
    requires forall i :: 0 <= i < |ps| ==>
               Pinned(ps[i]) && jitter <= ps[i].before.jitterNs && ps[i].frametimeNs <= frame
    requires |ps| == SETTLED + k && k * jitter >= frame
    ensures After(decoupled, calls).drainNs == 0
  {
    PhasesDecide(decoupled, calls);
    var all := past + ps;
    forall i | 0 <= i < |ps| ensures ps[i].frametimeNs >= 0 { assert all[|past| + i] == ps[i]; }
    DrainDiesOut(past, ps, frame, jitter, k);
    assert all[|all| - 1] == ps[|ps| - 1];
  }

  // ----- With a backlog, the drain grows to a frame

  /** Frame time did not fall when the jitter was taken away: the simulation still runs ahead. */
  ghost predicate Backlogged(p: Phase) {
    p.before.jitterNs > 0 && p.frametimeNs >= p.before.frametimeNs
  }

  lemma BacklogStep(ewma: real, p: Phase)
    requires Backlogged(p)
    ensures NextEwma(ewma, p) <= 0.99 * ewma
  {
    QuotientInNumbers(p.frametimeNs - p.before.frametimeNs, p.before.jitterNs);
    NonPositive((p.frametimeNs - p.before.frametimeNs) as real / (-p.before.jitterNs) as real,
                p.before.jitterNs as real);
  }

  lemma NonPositive(q: real, x: real)
    requires x > 0.0 && q * x <= 0.0
    ensures q <= 0.0
  {}

  lemma {:induction false} BacklogEwma(past: seq<Phase>, ps: seq<Phase>)
    requires forall i :: 0 <= i < |ps| ==> Backlogged(ps[i])
    ensures Ewma(past + ps) <= Decayed(1.0, |ps|)
  {
    EwmaBounded(past);
    if ps == [] {
      assert past + ps == past;
    } else {
      var n := |ps| - 1;
      BacklogEwma(past, ps[..n]);
      assert past + ps == (past + ps[..n]) + [ps[n]];
      PhaseAppended(past + ps[..n], ps[n]);
      BacklogStep(Ewma(past + ps[..n]), ps[n]);
    }
  }

  lemma BacklogSettles(past: seq<Phase>, ps: seq<Phase>)
    requires forall i :: 0 <= i < |ps| ==> Backlogged(ps[i])
    requires |ps| >= SETTLED
    ensures Ewma(past + ps) <= 0.25
  {
    BacklogEwma(past, ps);
    DecayBound(1.0, |ps|);
    SmallFactor(Decayed(1.0, |ps|), (99 + |ps|) as real);
  }

  lemma DrainRises(drain: int, ewma: real, p: Phase, j: nat)
    requires ewma <= 0.25 && p.before.jitterNs >= j
    ensures NextDrain(drain, ewma, p) >= if drain + j < p.frametimeNs then drain + j else p.frametimeNs
  {
    Product(5.0 * (0.5 - ewma) - 1.0, p.before.jitterNs as real);
    assert Push(ewma, p.before.jitterNs) >= p.before.jitterNs as real;
  }

  lemma {:induction false} DrainGrows(past: seq<Phase>, ps: seq<Phase>, frame: nat, jitter: nat, k: nat)
    requires forall i :: 0 <= i < |ps| ==>
               Backlogged(ps[i]) && jitter <= ps[i].before.jitterNs && frame <= ps[i].frametimeNs
    requires |ps| == SETTLED + k
    ensures Drain(past + ps) >= if k * jitter < frame then k * jitter else frame
  {
    var n := |ps| - 1;
    var all := past + ps;
    assert all[..|all| - 1] == past + ps[..n] && all[|all| - 1] == ps[n];
    if k == 0 {
      assert Drain(all) >= 0;
    } else {
      DrainGrows(past, ps[..n], frame, jitter, k - 1);
      BacklogSettles(past, ps);
      DrainRises(Drain(past + ps[..n]), Ewma(all), ps[n], jitter);
      assert (k - 1) * jitter + jitter == k * jitter;
    }
  }

  /** Whatever a run did before, while the simulation stays ahead the injected drain grows: after
      693 + k such down phases with k times the least jitter covering the shortest frame, it is
      at least that frame. */
  lemma BacklogFillsTheDrain(decoupled: bool, calls: seq<Call>, past: seq<Phase>, ps: seq<Phase>,
                             frame: nat, jitter: nat, k: nat)
    requires Phases(decoupled, calls) == past + ps
    requires forall i :: 0 <= i < |ps| ==>
               Backlogged(ps[i]) && jitter <= ps[i].before.jitterNs && frame <= ps[i].frametimeNs
    requires |ps| == SETTLED + k && k * jitter >= frame
    ensures After(decoupled, calls).drainNs >= frame
  {
    PhasesDecide(decoupled, calls);
    DrainGrows(past, ps, frame, jitter, k);
  }

  // ----- Pacing over whole runs

  /** fps_cap_min_delay_ns */
  function FpsCapMinDelayNs(fpsCap: nat): nat {
    if fpsCap == 0 then 0 else 1_000_000_000 / fpsCap
  }

  /** The delay ensure_vrr_target derives from the display's refresh duration. */
  function VrrDelayNs(refreshNs: nat, offsetHz: nat): nat
    requires refreshNs != 0
  {
    var refreshHz := 1_000_000_000 / refreshNs;
    var target := if refreshHz > offsetHz then refreshHz - offsetHz else 0;
    1_000_000_000 / if target > 1 then target else 1
  }

  /** The target in numbers: the offset is taken off the display's whole rate, but at least 1 Hz
      is left, and the delay is the longest whole number of nanoseconds within that rate. */
  lemma VrrTargetMeans(refreshNs: nat, offsetHz: nat, hz: nat)
    requires refreshNs != 0 && hz * refreshNs <= 1_000_000_000 < (hz + 1) * refreshNs
    ensures var target := if hz > offsetHz + 1 then hz - offsetHz else 1;
            var d := VrrDelayNs(refreshNs, offsetHz);
            d * target <= 1_000_000_000 < (d + 1) * target
  {
    RateIs(1_000_000_000, refreshNs, hz);
    Quotient(1_000_000_000, if hz > offsetHz + 1 then hz - offsetHz else 1);
  }

  lemma RateIs(a: nat, b: nat, q: nat)
    requires b != 0 && q * b <= a < (q + 1) * b
    ensures a / b == q
  {
    Quotient(a, b);
    OneQuotient(a / b, q, a, b);
  }

  lemma OneQuotient(q: nat, r: nat, a: nat, b: nat)
    requires q * b <= a < (q + 1) * b && r * b <= a < (r + 1) * b
    ensures q == r
  {
    if q < r { Scale(q + 1, r, b); }
    if r < q { Scale(r + 1, q, b); }
  }

  /** The VRR target after one more present: set by the first refresh duration that is known,
      None when there is no query or it failed. */
  function AfterEnsure(target: nat, enabled: bool, refreshNs: Option<nat>, offsetHz: nat): nat {
    if !enabled || target != 0 || refreshNs.None? || refreshNs.value == 0 then target
    else VrrDelayNs(refreshNs.value, offsetHz)
  }

  function Max(a: nat, b: nat): nat { if a > b then a else b }

  class DeviceContext {
    const vrrEnabled: bool
    const offsetHz: nat
    const fpsCap: nat
    var vrrTargetDelayNs: nat

    constructor (vrrEnabled: bool, offsetHz: nat, fpsCap: nat)
      ensures this.vrrEnabled == vrrEnabled && this.offsetHz == offsetHz && this.fpsCap == fpsCap
      ensures vrrTargetDelayNs == 0
    {
      this.vrrEnabled, this.offsetHz, this.fpsCap, vrrTargetDelayNs := vrrEnabled, offsetHz, fpsCap, 0;
    }

    method EnsureVrrTarget(refreshNs: Option<nat>)
      modifies this
      ensures vrrTargetDelayNs == AfterEnsure(old(vrrTargetDelayNs), vrrEnabled, refreshNs, offsetHz)
    {
      if !vrrEnabled { return; }
      if vrrTargetDelayNs != 0 { return; }
      if refreshNs.None? || refreshNs.value == 0 { return; }
      vrrTargetDelayNs := VrrDelayNs(refreshNs.value, offsetHz);
    }

    /** The delay a monitor's worker asks for: the application's or the layer's, the longer one. */
    function WorkerDelayNs(appDelayNs: nat): nat
      reads this
    {
      Max(appDelayNs, EffectiveMinDelayNs(fpsCap, vrrTargetDelayNs))
    }
  }

  /** effective_min_delay_ns */
  function EffectiveMinDelayNs(fpsCap: nat, vrrTargetNs: nat): nat {
    Max(FpsCapMinDelayNs(fpsCap), vrrTargetNs)
  }

  /** The target after the given presents, from a device's start. */
  ghost function VrrTarget(enabled: bool, offsetHz: nat, queries: seq<Option<nat>>): nat {
    if queries == [] then 0
    else AfterEnsure(VrrTarget(enabled, offsetHz, queries[..|queries| - 1]), enabled, queries[|queries| - 1], offsetHz)
  }

  predicate Known(refreshNs: Option<nat>) { refreshNs.Some? && refreshNs.value != 0 }

  /** The first refresh duration that a query gave. */
  ghost function FirstKnown(queries: seq<Option<nat>>): (r: Option<nat>)
    ensures r.Some? ==> r.value != 0
  {
    if queries == [] then None
    else
      var n := |queries| - 1;
      var before := FirstKnown(queries[..n]);
      if before.Some? then before else if Known(queries[n]) then queries[n] else None
  }

  /** i is the number of the first query that gave one. */
  ghost predicate IsFirstKnown(queries: seq<Option<nat>>, i: nat) {
    i < |queries| && Known(queries[i]) && forall j :: 0 <= j < i ==> !Known(queries[j])
  }

  lemma {:induction false} FirstKnownIsFirst(queries: seq<Option<nat>>, i: nat)
    ensures IsFirstKnown(queries, i) ==> FirstKnown(queries) == queries[i]
    ensures FirstKnown(queries).None? <==> forall j :: 0 <= j < |queries| ==> !Known(queries[j])
  {
    if queries != [] { FirstKnownIsFirst(queries[..|queries| - 1], i); }
  }

  lemma VrrPositive(refreshNs: nat, offsetHz: nat)
    requires refreshNs != 0
    ensures VrrDelayNs(refreshNs, offsetHz) > 0
  {
    VrrTargetIsSlower(refreshNs, offsetHz);
    if refreshNs > 1_000_000_000 {
      Quotient(1_000_000_000, refreshNs);
      assert 1_000_000_000 / refreshNs == 0;
    }
  }

  /** The first known refresh duration decides, once and for all; without one, or with VRR
      disabled, there is no target. */
  lemma {:induction false} FirstRefreshDecides(enabled: bool, offsetHz: nat, queries: seq<Option<nat>>)
    ensures var first := FirstKnown(queries);
            if !enabled || first.None? then VrrTarget(enabled, offsetHz, queries) == 0
            else first.value != 0 && VrrTarget(enabled, offsetHz, queries) == VrrDelayNs(first.value, offsetHz)
  {
    if queries != [] {
      var n := |queries| - 1;
      FirstRefreshDecides(enabled, offsetHz, queries[..n]);
      var before := FirstKnown(queries[..n]);
      if before.Some? { VrrPositive(before.value, offsetHz); }
    }
  }

  /** The cap's delay is the longest whole number of nanoseconds that fits the cap. */
  lemma FpsCapIsTight(fpsCap: nat)
    requires fpsCap != 0
    ensures var d := FpsCapMinDelayNs(fpsCap); d * fpsCap <= 1_000_000_000 < (d + 1) * fpsCap
  {
    Quotient(1_000_000_000, fpsCap);
  }

  lemma Quotient(a: nat, b: nat)
    requires b != 0
    ensures (a / b) * b <= a < (a / b + 1) * b
  {
    assert a == (a / b) * b + a % b;
  }

  lemma Scale(x: nat, y: nat, z: nat)
    requires x <= y
    ensures x * z <= y * z
  {}

  lemma QuotientsAntitone(a: nat, b: nat, c: nat)
    requires 0 < b && 0 < c && c <= a / b
    ensures a / c >= b
  {
    Quotient(a, b);
    Quotient(a, c);
    if a / c < b { Scale(a / c + 1, b, c); Scale(c, a / b, b); }
  }

  /** The VRR target never asks for more than the display's rate, exactly when one refresh
      takes at most a second. */
  lemma VrrTargetIsSlower(refreshNs: nat, offsetHz: nat)
    requires refreshNs != 0
    ensures VrrDelayNs(refreshNs, offsetHz) >= refreshNs <==> refreshNs <= 1_000_000_000
  {
    var hz := 1_000_000_000 / refreshNs;
    if refreshNs <= 1_000_000_000 {
      QuotientsAntitone(1_000_000_000, refreshNs, 1);
      Quotient(1_000_000_000, refreshNs);
      assert hz >= 1;
      var target := if hz > offsetHz + 1 then hz - offsetHz else 1;
      QuotientsAntitone(1_000_000_000, refreshNs, target);
    } else {
      Quotient(1_000_000_000, refreshNs);
      assert hz == 0;
    }
  }

  /** The delay of every release keeps all limits there are, and no more than the strictest: the
      application's interval, the cap if there is one, and the display's rate once it is known. */
  lemma StricterLimitHolds(appDelayNs: nat, fpsCap: nat, enabled: bool, offsetHz: nat, queries: seq<Option<nat>>)
    ensures var vrr := VrrTarget(enabled, offsetHz, queries);
            var d := Max(appDelayNs, EffectiveMinDelayNs(fpsCap, vrr));
            && d >= appDelayNs
            && (fpsCap != 0 ==> 1_000_000_000 < (d + 1) * fpsCap)
            && (enabled && FirstKnown(queries).Some? && FirstKnown(queries).value <= 1_000_000_000 ==>
                  d >= FirstKnown(queries).value)
            && (d == appDelayNs || d == vrr || (fpsCap != 0 && d * fpsCap <= 1_000_000_000))
  {
    var vrr := VrrTarget(enabled, offsetHz, queries);
    var d := Max(appDelayNs, EffectiveMinDelayNs(fpsCap, vrr));
    FirstRefreshDecides(enabled, offsetHz, queries);
    if enabled && FirstKnown(queries).Some? { VrrTargetIsSlower(FirstKnown(queries).value, offsetHz); }
    if fpsCap != 0 {
      FpsCapIsTight(fpsCap);
      Scale(FpsCapMinDelayNs(fpsCap) + 1, d + 1, fpsCap);
    }
  }

  /** n releases under a minimum delay d span at least (n - 1) * d. */
  lemma {:induction false} ReleasesAreSpaced(calls: seq<Call>, d: nat)
    requires calls != [] && Paced(calls)
    requires forall i :: 0 <= i < |calls| ==> calls[i].minDelayNs >= d
    ensures calls[|calls| - 1].release - calls[0].release >= (|calls| - 1) * d
  {
    var n := |calls| - 1;
    if n != 0 {
      ReleasesAreSpaced(calls[..n], d);
      assert (n - 1) * d + d == n * d;
    }
  }
}
