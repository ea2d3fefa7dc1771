/** The ambient bubble around the dial (`MaskBubble`).

    While the control is enabled a bubble runs a finite sequence of steps:
    each step expands it over `DurationPerStep` and, once that expansion
    has completed, advances its angle by `ThetaStep` and draws a new
    radial jitter. Disabling puts the angle and the expansion back at
    rest and cancels the run. The random draw is an input in [0, 1);
    the initial angle (which depends on a pixel-to-radian helper) is a
    parameter. */
module Bubble {
  import opened Numeric

  const Steps: nat := 15
  const ThetaStep: real := Pi / Steps as real
  const AnimationDuration: real := 1500.0
  const DurationPerStep: real := AnimationDuration / Steps as real
  /** Expansion factor at rest. */
  const RestExpand: real := 0.15
  /** Expansion factor each step animates to. */
  const FullExpand: real := 1.0
  const InitialRFactor: real := 1.05
  const JitterScale: real := 1.1

  /** `remaining` counts the steps of the armed run still to complete;
      zero means no expansion is in flight. */
  datatype BubbleState = BubbleState(enabled: bool, theta: real, expand: real, rFactor: real, remaining: nat)

  /** Shared values as first created, before the effect has run. */
  function Fresh(initTheta: real, isEnabled: bool): BubbleState {
    BubbleState(isEnabled, initTheta, RestExpand, InitialRFactor, 0)
  }

  /** Radial jitter drawn from `random` in [0, 1). */
  function Jitter(random: real): (j: real)
    requires 0.0 <= random < 1.0
    ensures -JitterScale <= j < JitterScale
  {
    (random * 2.0 - 1.0) * JitterScale
  }

  /** The jitter is a bijection from [0, 1) onto [-1.1, 1.1): the draw is
      recovered from it. */
  lemma JitterRecoversDraw(random: real)
    requires 0.0 <= random < 1.0
    ensures (Jitter(random) / JitterScale + 1.0) / 2.0 == random
  {
  }

  /** The enable/disable effect body. Enabling arms a full run and leaves
      the angle where it is; disabling resets angle and expansion and
      cancels the run. */
  function Effect(s: BubbleState, isEnabled: bool, initTheta: real): (r: BubbleState)
    ensures r.enabled == isEnabled
    ensures r.rFactor == s.rFactor
    ensures isEnabled ==> r.remaining == Steps && r.theta == s.theta && r.expand == s.expand
    ensures !isEnabled ==> r.remaining == 0 && r.theta == initTheta && r.expand == RestExpand
  {
    if isEnabled then s.(enabled := true, remaining := Steps)
    else s.(enabled := false, theta := initTheta, expand := RestExpand, remaining := 0)
  }

  /** The effect fires only when `isEnabled` actually changes. */
  function SetEnabled(s: BubbleState, isEnabled: bool, initTheta: real): (r: BubbleState)
    ensures isEnabled == s.enabled ==> r == s
    ensures isEnabled != s.enabled ==> r == Effect(s, isEnabled, initTheta)
  {
    if isEnabled == s.enabled then s else Effect(s, isEnabled, initTheta)
  }

  /** The mount-time run of the effect. */
  function Mount(initTheta: real, isEnabled: bool): (r: BubbleState)
    ensures r.theta == initTheta
    ensures r.remaining == (if isEnabled then Steps else 0)
  {
    Effect(Fresh(initTheta, isEnabled), isEnabled, initTheta)
  }

  /** One expansion completes. With a run armed, the angle advances by
      exactly one step, a new jitter is drawn and one step is used up;
      with nothing in flight nothing happens. */
  function CompleteStep(s: BubbleState, random: real): (r: BubbleState)
    requires 0.0 <= random < 1.0
    ensures s.remaining == 0 ==> r == s
    ensures s.remaining > 0 ==>
              && r.theta == s.theta + ThetaStep
              && r.remaining == s.remaining - 1
              && r.rFactor == Jitter(random)
              && r.expand == FullExpand
              && r.enabled == s.enabled
  {
    if s.remaining == 0 then s
    else s.(theta := s.theta + ThetaStep, rFactor := Jitter(random), expand := FullExpand,
            remaining := s.remaining - 1)
  }

  /** Drawn radius of the bubble. */
  function Radius(s: BubbleState, maxRadius: real): (r: real)
    requires 0.0 <= maxRadius
    ensures RestExpand <= s.expand <= FullExpand ==> RestExpand * maxRadius <= r <= maxRadius
    ensures s.expand == RestExpand ==> r == 0.15 * maxRadius
  {
    ScaleBetween(maxRadius, s.expand);
    maxRadius * s.expand
  }

  lemma ScaleBetween(m: real, e: real)
    requires 0.0 <= m
    ensures RestExpand <= e <= FullExpand ==> RestExpand * m <= m * e <= m
    ensures e == RestExpand ==> m * e == 0.15 * m
  {
    if RestExpand <= e <= FullExpand {
      assert m * e - RestExpand * m == m * (e - RestExpand);
      assert m - m * e == m * (FullExpand - e);
    }
  }

  /** Completion time of step `k` (1-based) of a run started after `delay`:
      steps complete one `DurationPerStep` apart, the last at the end of
      the full animation duration. */
  function StepCompletionTime(delay: real, k: nat): (t: real)
    requires 1 <= k <= Steps
    ensures t == delay + k as real * 100.0
    ensures delay + 100.0 <= t <= delay + AnimationDuration
    ensures k == Steps ==> t == delay + AnimationDuration
  {
    delay + k as real * DurationPerStep
  }

  /** Consecutive steps of a run complete exactly 100 ms apart. */
  lemma StepSpacing(delay: real, k: nat)
    requires 1 <= k < Steps
    ensures StepCompletionTime(delay, k + 1) - StepCompletionTime(delay, k) == 100.0
    ensures DurationPerStep == 100.0
  {
  }

  /** The state machine's invariant, for a bubble whose rest angle is
      `initTheta`. Enabled: the angle has advanced one step per completed
      step of the current run. Disabled: everything is at rest. */
  predicate Invariant(s: BubbleState, initTheta: real) {
    && s.remaining <= Steps
    && RestExpand <= s.expand <= FullExpand
    && (s.enabled ==> s.theta == initTheta + (Steps - s.remaining) as real * ThetaStep)
    && (!s.enabled ==> s.theta == initTheta && s.remaining == 0 && s.expand == RestExpand)
  }

  /** Under the invariant the angle stays within half a turn of rest. */
  lemma InvariantBoundsTheta(s: BubbleState, initTheta: real)
    requires Invariant(s, initTheta)
    ensures initTheta <= s.theta <= initTheta + Pi
  {
    var done := (Steps - s.remaining) as real;
    assert 0.0 <= done <= Steps as real;
    assert done * ThetaStep <= Steps as real * ThetaStep;
  }

  datatype Event = Toggle(isEnabled: bool) | StepDone(random: real)

  predicate ValidDraws(events: seq<Event>) {
    forall i :: 0 <= i < |events| && events[i].StepDone? ==> 0.0 <= events[i].random < 1.0
  }

  function Step(s: BubbleState, e: Event, initTheta: real): BubbleState
    requires e.StepDone? ==> 0.0 <= e.random < 1.0
  {
    match e
    case Toggle(b) => SetEnabled(s, b, initTheta)
    case StepDone(random) => CompleteStep(s, random)
  }

  function Run(s: BubbleState, events: seq<Event>, initTheta: real): BubbleState
    requires ValidDraws(events)
    decreases |events|
  {
    if |events| == 0 then s
    else
      assert events[0].StepDone? ==> 0.0 <= events[0].random < 1.0;
      Run(Step(s, events[0], initTheta), events[1..], initTheta)
  }

  lemma TailDraws(events: seq<Event>)
    requires |events| > 0 && ValidDraws(events)
    ensures ValidDraws(events[1..])
  {
    forall i | 0 <= i < |events[1..]| && events[1..][i].StepDone?
      ensures 0.0 <= events[1..][i].random < 1.0
    {
      assert events[1..][i] == events[i + 1];
    }
  }

  /** Every toggle and step keeps the invariant. */
  lemma StepKeepsInvariant(s: BubbleState, e: Event, initTheta: real)
    requires Invariant(s, initTheta)
    requires e.StepDone? ==> 0.0 <= e.random < 1.0
    ensures Invariant(Step(s, e, initTheta), initTheta)
  {
    match e
    case Toggle(b) =>
    case StepDone(random) =>
      if s.remaining > 0 {
        var done := (Steps - s.remaining) as real;
        assert (Steps - (s.remaining - 1)) as real == done + 1.0;
        assert (done + 1.0) * ThetaStep == done * ThetaStep + ThetaStep;
      }
  }

  /** From mount, any sequence of enable toggles and completed steps keeps
      the angle in [initTheta, initTheta + π] and the radius between its
      rest size and `maxRadius`. */
  lemma {:induction false} RunStaysBounded(s: BubbleState, events: seq<Event>, initTheta: real, maxRadius: real)
    requires Invariant(s, initTheta) && 0.0 <= maxRadius
    requires ValidDraws(events)
    ensures Invariant(Run(s, events, initTheta), initTheta)
    ensures initTheta <= Run(s, events, initTheta).theta <= initTheta + Pi
    ensures RestExpand * maxRadius <= Radius(Run(s, events, initTheta), maxRadius) <= maxRadius
    decreases |events|
  {
    if |events| == 0 {
      InvariantBoundsTheta(s, initTheta);
    } else {
      assert events[0].StepDone? ==> 0.0 <= events[0].random < 1.0;
      StepKeepsInvariant(s, events[0], initTheta);
      TailDraws(events);
      RunStaysBounded(Step(s, events[0], initTheta), events[1..], initTheta, maxRadius);
    }
  }

  /** Mounting, with either flag, satisfies the invariant. */
  lemma MountEstablishesInvariant(initTheta: real, isEnabled: bool)
    ensures Invariant(Mount(initTheta, isEnabled), initTheta)
  {
  }

  /** Completing `n` steps in a row advances the angle by `min(n, remaining)`
      steps: a run never does more than it armed. */
  lemma {:induction false} StepsAdvanceTheta(s: BubbleState, draws: seq<real>, initTheta: real)
    requires forall i :: 0 <= i < |draws| ==> 0.0 <= draws[i] < 1.0
    ensures var r := Run(s, StepsOf(draws), initTheta);
            var n := if |draws| <= s.remaining then |draws| else s.remaining;
            r.theta == s.theta + n as real * ThetaStep && r.remaining == s.remaining - n
    decreases |draws|
  {
    if |draws| > 0 {
      var rest := draws[1..];
      assert forall i :: 0 <= i < |rest| ==> rest[i] == draws[i + 1];
      var next := CompleteStep(s, draws[0]);
      RunStepsUnfold(s, draws, initTheta);
      StepsAdvanceTheta(next, rest, initTheta);
      var m := if |rest| <= next.remaining then |rest| else next.remaining;
      if s.remaining > 0 {
        OneMoreStep(m);
      }
    }
  }

  lemma RunStepsUnfold(s: BubbleState, draws: seq<real>, initTheta: real)
    requires |draws| > 0
    requires forall i :: 0 <= i < |draws| ==> 0.0 <= draws[i] < 1.0
    ensures Run(s, StepsOf(draws), initTheta) == Run(CompleteStep(s, draws[0]), StepsOf(draws[1..]), initTheta)
  {
    var es := StepsOf(draws);
    assert es[0] == StepDone(draws[0]);
    assert es[1..] == StepsOf(draws[1..]);
  }

  lemma OneMoreStep(m: nat)
    ensures (m + 1) as real * ThetaStep == m as real * ThetaStep + ThetaStep
  {
  }

  /** Completed-step events carrying the given draws. */
  function StepsOf(draws: seq<real>): (es: seq<Event>)
    requires forall i :: 0 <= i < |draws| ==> 0.0 <= draws[i] < 1.0
    ensures |es| == |draws|
    ensures forall i :: 0 <= i < |es| ==> es[i] == StepDone(draws[i])
    ensures ValidDraws(es)
  {
    if |draws| == 0 then [] else [StepDone(draws[0])] + StepsOf(draws[1..])
  }

  /** Disabling in the middle of a run (say at step 7 of 15) puts the
      bubble back at rest, and re-enabling arms a full run from there. */
  lemma DisableMidRunRestarts(s: BubbleState, initTheta: real)
    requires Invariant(s, initTheta) && s.enabled && s.remaining == 8
    ensures var off := SetEnabled(s, false, initTheta);
            && off == BubbleState(false, initTheta, RestExpand, s.rFactor, 0)
            && SetEnabled(off, true, initTheta).remaining == Steps
            && SetEnabled(off, true, initTheta).theta == initTheta
  {
  }

  /** The effect itself does not reset the angle: running it again while
      enabled (as a change of the `delay` prop does) after a full run arms
      a second run that carries the angle a full turn past rest. */
  lemma {:induction false} RerunWithoutResetOvershoots(initTheta: real, draws: seq<real>)
    requires |draws| == 2 * Steps
    requires forall i :: 0 <= i < |draws| ==> 0.0 <= draws[i] < 1.0
    ensures var first := Run(Mount(initTheta, true), StepsOf(draws[..Steps]), initTheta);
            var second := Run(Effect(first, true, initTheta), StepsOf(draws[Steps..]), initTheta);
            second.theta == initTheta + 2.0 * Pi && second.theta > initTheta + Pi
  {
    var first := Run(Mount(initTheta, true), StepsOf(draws[..Steps]), initTheta);
    StepsAdvanceTheta(Mount(initTheta, true), draws[..Steps], initTheta);
    StepsAdvanceTheta(Effect(first, true, initTheta), draws[Steps..], initTheta);
  }
}
