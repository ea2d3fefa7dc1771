/** The circular temperature dial (`ThermostatGradientCircle`).

    The drag state is the pair (rotation, lastAngle). A pan gesture feeds
    pointer angles about the dial's pivot; each update applies the wrapped
    angular delta to the rotation, which is accepted only strictly inside
    the thresholds and otherwise clamped without moving the reference
    angle. The rotation maps to a temperature in [62, 86] by a decreasing
    affine map followed by `Math.round`. On release a fling may start a
    clamped decay animation.

    Trigonometry is not modelled: the pointer angle `a = atan2(..)` and the
    wrapped delta `atan2(sin(a - lastAngle), cos(a - lastAngle))` are
    inputs of the update. */
module Dial {
  import opened Numeric

  const MinTemperature: int := 62
  const MaxTemperature: int := 86
  const TempDelta: int := MaxTemperature - MinTemperature
  const MinThreshold: real := -0.85
  const MaxThreshold: real := 1.85
  const ThresholdDelta: real := MaxThreshold - MinThreshold
  const InitialRotation: real := 0.3
  const InitialLastAngle: real := 0.3
  /** Per-frame velocity factor handed to the decay animation. */
  const DecayDeceleration: real := 0.995
  /** The release angular velocity is halved (and negated) for the decay. */
  const DecayVelocityScale: real := 0.5

  datatype DialState = DialState(rotation: real, lastAngle: real)

  const Initial: DialState := DialState(InitialRotation, InitialLastAngle)

  predicate InRange(rotation: real) {
    MinThreshold <= rotation <= MaxThreshold
  }

  predicate StrictlyInside(rotation: real) {
    MinThreshold < rotation < MaxThreshold
  }

  /** Gesture begin: the reference angle becomes the pointer's angle,
      except when the stored reference is exactly zero. */
  function Begin(s: DialState, pointerAngle: real): (r: DialState)
    ensures r.rotation == s.rotation
    ensures s.lastAngle == 0.0 ==> r == s
    ensures s.lastAngle != 0.0 ==> r.lastAngle == pointerAngle
  {
    if s.lastAngle != 0.0 then s.(lastAngle := pointerAngle) else s
  }

  /** Gesture update with pointer angle `a` and wrapped delta `delta`.
      The candidate rotation is `rotation - delta`. */
  function Update(s: DialState, a: real, delta: real): (r: DialState)
    // accepted: the rotation moves by exactly -delta and the reference follows the pointer
    ensures StrictlyInside(s.rotation - delta) ==> r == DialState(s.rotation - delta, a)
    // clamped: the rotation sits on the bound it crossed, the reference stays
    ensures s.rotation - delta < MinThreshold ==> r == DialState(MinThreshold, s.lastAngle)
    ensures MaxThreshold < s.rotation - delta ==> r == DialState(MaxThreshold, s.lastAngle)
    // a candidate exactly on a threshold fires no branch at all
    ensures s.rotation - delta == MinThreshold || s.rotation - delta == MaxThreshold ==> r == s
    // the reference angle changes only on an accepted step
    ensures r.lastAngle != s.lastAngle ==> StrictlyInside(s.rotation - delta) && r.lastAngle == a
    ensures InRange(s.rotation) ==> InRange(r.rotation)
  {
    var newRotation := s.rotation - delta;
    if MinThreshold < newRotation && newRotation < MaxThreshold then
      DialState(newRotation, a)
    else if newRotation < MinThreshold then
      s.(rotation := MinThreshold)
    else if MaxThreshold < newRotation then
      s.(rotation := MaxThreshold)
    else
      s
  }

  /** The unrounded temperature of a rotation: the affine map sending
      MinThreshold to 86 and MaxThreshold to 62. */
  function Temperature(rotation: real): real {
    (1.0 - (rotation - MinThreshold) / ThresholdDelta) * TempDelta as real + MinTemperature as real
  }

  /** The temperature map is strictly decreasing. */
  lemma TemperatureDecreasing(x: real, y: real)
    requires x < y
    ensures Temperature(y) < Temperature(x)
  {
    assert (y - MinThreshold) / ThresholdDelta - (x - MinThreshold) / ThresholdDelta == (y - x) / ThresholdDelta;
  }

  /** The map's anchor values and its range on the thresholds. */
  lemma TemperatureValues(rotation: real)
    ensures Temperature(MinThreshold) == 86.0
    ensures Temperature(MaxThreshold) == 62.0
    ensures Temperature(0.5) == 74.0
    ensures InRange(rotation) ==> 62.0 <= Temperature(rotation) <= 86.0
  {
    if InRange(rotation) {
      if rotation != MinThreshold {
        TemperatureDecreasing(MinThreshold, rotation);
      }
      if rotation != MaxThreshold {
        TemperatureDecreasing(rotation, MaxThreshold);
      }
    }
  }

  /** The integer reported to the caller for a rotation: `Math.round` of
      the temperature map. Both the update handler and the derived-value
      subscription report through this one formula. */
  function ReportedTemperature(rotation: real): (t: int)
    ensures InRange(rotation) ==> MinTemperature <= t <= MaxTemperature
    ensures rotation == MinThreshold ==> t == MaxTemperature
    ensures rotation == MaxThreshold ==> t == MinTemperature
    ensures rotation == 0.5 ==> t == 74
  {
    RoundedTemperatureBounds(rotation);
    Round(Temperature(rotation))
  }

  lemma RoundedTemperatureBounds(rotation: real)
    ensures InRange(rotation) ==> MinTemperature <= Round(Temperature(rotation)) <= MaxTemperature
    ensures Round(Temperature(MinThreshold)) == MaxTemperature
    ensures Round(Temperature(MaxThreshold)) == MinTemperature
    ensures Round(Temperature(0.5)) == 74
  {
    TemperatureValues(rotation);
    if InRange(rotation) {
      RoundMonotone(62.0, Temperature(rotation));
      RoundMonotone(Temperature(rotation), 86.0);
    }
    RoundOfWhole(62);
    RoundOfWhole(86);
    RoundOfWhole(74);
  }

  /** A larger rotation never reports a higher temperature. */
  lemma ReportedNonIncreasing(x: real, y: real)
    requires x <= y
    ensures ReportedTemperature(y) <= ReportedTemperature(x)
  {
    if x < y {
      TemperatureDecreasing(x, y);
    }
    RoundMonotone(Temperature(y), Temperature(x));
  }

  /** What one update produces: the new state and the value it reports. */
  datatype UpdateResult = UpdateResult(state: DialState, reported: int)

  /** The update handler: apply the step, then report the rounded
      temperature of the rotation it left behind. */
  function OnUpdate(s: DialState, a: real, delta: real): (r: UpdateResult)
    ensures r.state == Update(s, a, delta)
    ensures r.reported == ReportedTemperature(r.state.rotation)
    ensures InRange(s.rotation) ==> MinTemperature <= r.reported <= MaxTemperature
  {
    var next := Update(s, a, delta);
    UpdateResult(next, ReportedTemperature(next.rotation))
  }

  /** A zero delta leaves the rotation where it was, inside the range or on
      a bound (only the reference angle may move, when strictly inside). */
  lemma ZeroDeltaKeepsRotation(s: DialState, a: real)
    requires InRange(s.rotation)
    ensures Update(s, a, 0.0).rotation == s.rotation
    ensures ReportedTemperature(Update(s, a, 0.0).rotation) == ReportedTemperature(s.rotation)
    ensures !StrictlyInside(s.rotation) ==> Update(s, a, 0.0) == s
  {
  }

  /** A drag sample at pointer angle `a` whose delta is derived from the
      stored reference angle: the shortest signed angle from `lastAngle`
      to `a`, as `atan2(sin(a - lastAngle), cos(a - lastAngle))` gives. */
  function Drag(s: DialState, a: real): (r: DialState)
    ensures InRange(s.rotation) ==> InRange(r.rotation)
    // a pointer resting on the reference angle moves nothing
    ensures a == s.lastAngle && InRange(s.rotation) ==> r.rotation == s.rotation && r.lastAngle == a
    // within half a turn of the reference the delta is the plain difference
    ensures -Pi < a - s.lastAngle <= Pi && StrictlyInside(s.rotation - (a - s.lastAngle)) ==>
              r == DialState(s.rotation - (a - s.lastAngle), a)
    ensures -Pi < a - s.lastAngle <= Pi && s.rotation - (a - s.lastAngle) < MinThreshold ==>
              r == DialState(MinThreshold, s.lastAngle)
  {
    var delta := Wrap(a - s.lastAngle);
    assert a == s.lastAngle ==> delta == 0.0;
    assert -Pi < a - s.lastAngle <= Pi ==> delta == a - s.lastAngle;
    Update(s, a, delta)
  }

  /** A whole extra turn of the pointer angle makes no difference. */
  lemma DragIgnoresWholeTurns(s: DialState, a: real)
    ensures Drag(s, a + TwoPi).rotation == Drag(s, a).rotation
  {
    WrapPeriodic(a - s.lastAngle);
    assert (a + TwoPi) - s.lastAngle == (a - s.lastAngle) + TwoPi;
  }

  /** Overshoot at the hot end is not forgotten. A drag that would carry
      the rotation past MinThreshold clamps it there and keeps the old
      reference angle `L`. Bringing the pointer back part of the way, to
      any angle still at or past `L`, changes nothing; only once the
      pointer is back before `L` does the rotation leave the bound, and
      then by the distance the pointer has moved before `L`. */
  lemma ReversalWaitsForReference(s: DialState, a1: real, a2: real)
    requires InRange(s.rotation)
    requires -Pi < a1 - s.lastAngle <= Pi && -Pi < a2 - s.lastAngle <= Pi
    requires s.rotation - (a1 - s.lastAngle) < MinThreshold
    ensures Drag(s, a1) == DialState(MinThreshold, s.lastAngle)
    ensures s.lastAngle <= a2 ==> Drag(Drag(s, a1), a2) == Drag(s, a1)
    ensures s.lastAngle <= a2 ==> ReportedTemperature(Drag(Drag(s, a1), a2).rotation) == MaxTemperature
    ensures s.lastAngle - ThresholdDelta < a2 < s.lastAngle ==>
              Drag(Drag(s, a1), a2) == DialState(MinThreshold + (s.lastAngle - a2), a2)
  {
    var s1 := Drag(s, a1);
    assert s1.lastAngle == s.lastAngle;
    if s.lastAngle <= a2 {
      assert Wrap(a2 - s1.lastAngle) == a2 - s.lastAngle;
    }
  }

  /** Gesture begin re-references the drag: the first sample is measured
      from the angle where the finger went down, not from where the
      previous gesture left off. */
  lemma BeginRereferences(s: DialState, p: real, a: real)
    requires s.lastAngle != 0.0
    requires -Pi < a - p <= Pi && StrictlyInside(s.rotation - (a - p))
    ensures Drag(Begin(s, p), a) == DialState(s.rotation - (a - p), a)
  {
  }

  /** With a stored reference of exactly 0 begin does not re-reference,
      so a gesture whose finger goes down and stays at 0.5 rad still turns
      the dial, measured from the stale angle 0. */
  lemma ZeroReferenceStillGestureMoves()
    ensures var s := DialState(InitialRotation, 0.0);
            var r := Drag(Begin(s, 0.5), 0.5);
            r == DialState(InitialRotation - 0.5, 0.5) && r.rotation != s.rotation
  {
    var s := DialState(InitialRotation, 0.0);
    assert Begin(s, 0.5) == s;
    assert Wrap(0.5 - 0.0) == 0.5;
  }

  /** Drag samples that all sit at the same pointer angle. */
  function HoldAt(p: real, n: nat): (es: seq<Event>)
    ensures |es| == n
    ensures forall i :: 0 <= i < n ==> es[i] == DragTo(p)
  {
    if n == 0 then [] else [DragTo(p)] + HoldAt(p, n - 1)
  }

  lemma {:induction false} HoldingStillKeepsRotation(s: DialState, p: real, n: nat)
    requires InRange(s.rotation) && s.lastAngle == p
    ensures Run(s, HoldAt(p, n)).rotation == s.rotation
    ensures Run(s, HoldAt(p, n)).lastAngle == p
    decreases n
  {
    if n > 0 {
      var es := HoldAt(p, n);
      assert es[0] == DragTo(p);
      assert es[1..] == HoldAt(p, n - 1);
      HoldingStillKeepsRotation(Drag(s, p), p, n - 1);
    }
  }

  /** A gesture whose finger goes down and never moves leaves the value
      unchanged, provided begin re-references (the stored angle is not 0). */
  lemma StillGestureKeepsValue(s: DialState, p: real, n: nat)
    requires InRange(s.rotation) && s.lastAngle != 0.0
    ensures Run(s, [BeginAt(p)] + HoldAt(p, n)).rotation == s.rotation
  {
    assert ([BeginAt(p)] + HoldAt(p, n))[1..] == HoldAt(p, n);
    HoldingStillKeepsRotation(Begin(s, p), p, n);
  }

  /** Saturation at the hot end: a delta that keeps pushing past
      MinThreshold leaves the state unchanged and the report at 86, while
      a negative delta is accepted at once and does not raise the report.
      `ReversalWaitsForReference` shows when such a delta arises. */
  lemma SaturatedAtMinimum(s: DialState, a: real, delta: real)
    requires s.rotation == MinThreshold
    ensures 0.0 <= delta ==> Update(s, a, delta) == s
    ensures 0.0 <= delta ==> ReportedTemperature(Update(s, a, delta).rotation) == MaxTemperature
    ensures -ThresholdDelta < delta < 0.0 ==>
              Update(s, a, delta).rotation == MinThreshold - delta
              && ReportedTemperature(Update(s, a, delta).rotation) <= MaxTemperature
  {
    if -ThresholdDelta < delta < 0.0 {
      ReportedNonIncreasing(MinThreshold, MinThreshold - delta);
    }
  }

  /** What release hands to the decay animation. */
  datatype Decay = Decay(velocity: real, deceleration: real, lo: real, hi: real)

  /** Squared distance of the release point from the pivot. */
  function RadiusSquared(rx: real, ry: real): real {
    rx * rx + ry * ry
  }

  /** Gesture end. Positions are screen coordinates (y grows downwards);
      the pivot is (centerX, centerY). Both the position and the velocity
      are taken into a y-up frame before the cross product. A decay starts
      only beyond unit squared radius, with velocity -ω/2 where
      ω = (r × v) / |r|². */
  function Release(absoluteX: real, absoluteY: real, velocityX: real, velocityY: real,
                   centerX: real, centerY: real): (d: Option<Decay>)
    ensures d.Some? <==> RadiusSquared(absoluteX - centerX, centerY - absoluteY) > 1.0
    ensures d.Some? ==> d.value.lo == MinThreshold && d.value.hi == MaxThreshold
    ensures d.Some? ==> d.value.deceleration == DecayDeceleration
    // the decay velocity times |r|² is -1/2 of the y-up cross product r × v
    ensures d.Some? ==>
              d.value.velocity * RadiusSquared(absoluteX - centerX, centerY - absoluteY)
              == -DecayVelocityScale * ((absoluteX - centerX) * (-velocityY) - (centerY - absoluteY) * velocityX)
  {
    var rx := absoluteX - centerX;
    var ry := -(absoluteY - centerY);
    var vx := velocityX;
    var vy := -velocityY;
    assert ry == centerY - absoluteY;
    var r2 := RadiusSquared(rx, ry);
    if r2 > 1.0 then
      var omega := (rx * vy - ry * vx) / r2;
      Some(Decay(-omega * DecayVelocityScale, DecayDeceleration, MinThreshold, MaxThreshold))
    else
      None
  }

  /** A purely radial release velocity (parallel to the pivot-to-pointer
      vector) has no angular component, so the decay, if any, starts still. */
  lemma RadialReleaseHasNoSpin(absoluteX: real, absoluteY: real, k: real, centerX: real, centerY: real)
    requires RadiusSquared(absoluteX - centerX, centerY - absoluteY) > 1.0
    ensures Release(absoluteX, absoluteY, k * (absoluteX - centerX), k * (absoluteY - centerY), centerX, centerY)
            == Some(Decay(0.0, DecayDeceleration, MinThreshold, MaxThreshold))
  {
    var rx := absoluteX - centerX;
    var ry := centerY - absoluteY;
    assert rx * (-(k * (absoluteY - centerY))) - ry * (k * rx) == 0.0 by {
      assert -(k * (absoluteY - centerY)) == k * ry;
      assert rx * (k * ry) == ry * (k * rx);
    }
  }

  /** The decay turns the same way the drag did: a counter-clockwise fling
      (positive y-up cross product) lowers the rotation, as a positive
      delta does in `Update`. */
  lemma DecayTurnsLikeDrag(absoluteX: real, absoluteY: real, velocityX: real, velocityY: real,
                           centerX: real, centerY: real)
    requires RadiusSquared(absoluteX - centerX, centerY - absoluteY) > 1.0
    ensures var cross := (absoluteX - centerX) * (-velocityY) - (centerY - absoluteY) * velocityX;
            var d := Release(absoluteX, absoluteY, velocityX, velocityY, centerX, centerY);
            d.Some? && (cross > 0.0 ==> d.value.velocity < 0.0) && (cross < 0.0 ==> d.value.velocity > 0.0)
  {
    var rx := absoluteX - centerX;
    var ry := centerY - absoluteY;
    var r2 := RadiusSquared(rx, ry);
    var d := Release(absoluteX, absoluteY, velocityX, velocityY, centerX, centerY);
    var cross := rx * (-velocityY) - ry * velocityX;
    SignOfProduct(d.value.velocity, r2);
  }

  /** Multiplying by a positive quantity keeps the sign. */
  lemma SignOfProduct(v: real, r: real)
    requires r > 0.0
    ensures v * r < 0.0 ==> v < 0.0
    ensures v * r > 0.0 ==> v > 0.0
  {
  }

  /** One frame written by the decay animation: whatever value the
      animation proposes, the clamp keeps it on the thresholds. The
      reference angle is not touched. */
  function DecayFrame(s: DialState, proposed: real): (r: DialState)
    ensures InRange(r.rotation)
    ensures r.lastAngle == s.lastAngle
    ensures InRange(proposed) ==> r.rotation == proposed
    ensures proposed < MinThreshold ==> r.rotation == MinThreshold
    ensures MaxThreshold < proposed ==> r.rotation == MaxThreshold
  {
    s.(rotation := Clamp(proposed, MinThreshold, MaxThreshold))
  }

  /** The events the dial reacts to. Release itself writes nothing; it is
      followed by the decay frames it started. */
  datatype Event =
    | BeginAt(pointerAngle: real)
    | MoveTo(a: real, delta: real)
    | DragTo(a: real)
    | Decaying(proposed: real)

  function Step(s: DialState, e: Event): DialState {
    match e
    case BeginAt(p) => Begin(s, p)
    case MoveTo(a, delta) => Update(s, a, delta)
    case DragTo(a) => Drag(s, a)
    case Decaying(x) => DecayFrame(s, x)
  }

  function Run(s: DialState, events: seq<Event>): DialState
    decreases |events|
  {
    if |events| == 0 then s else Run(Step(s, events[0]), events[1..])
  }

  /** From any in-range state, and so from the initial 0.3, every sequence
      of drags and decay frames keeps the rotation on the thresholds and
      the reported value in [62, 86]. */
  lemma {:induction false} RunStaysInRange(s: DialState, events: seq<Event>)
    requires InRange(s.rotation)
    ensures InRange(Run(s, events).rotation)
    ensures MinTemperature <= ReportedTemperature(Run(s, events).rotation) <= MaxTemperature
    decreases |events|
  {
    if |events| > 0 {
      RunStaysInRange(Step(s, events[0]), events[1..]);
    }
  }

  /** From the mounted state (rotation 0.3, reported as 76) every event
      sequence keeps the rotation on the thresholds and the report in
      [62, 86]. */
  lemma InitialRunStaysInRange(events: seq<Event>)
    ensures ReportedTemperature(Initial.rotation) == 76
    ensures InRange(Run(Initial, events).rotation)
    ensures MinTemperature <= ReportedTemperature(Run(Initial, events).rotation) <= MaxTemperature
  {
    RoundUnique(Temperature(InitialRotation), 76);
    RunStaysInRange(Initial, events);
  }

  /** A gesture that begins and moves with zero delta leaves the rotation,
      and hence the reported value, unchanged. */
  lemma {:induction false} ZeroGestureKeepsValue(s: DialState, p: real, moves: seq<real>)
    requires InRange(s.rotation)
    ensures Run(s, [BeginAt(p)] + ZeroMoves(moves)).rotation == s.rotation
    decreases |moves|
  {
    ZeroMovesKeepRotation(Begin(s, p), moves);
    assert ([BeginAt(p)] + ZeroMoves(moves))[1..] == ZeroMoves(moves);
  }

  /** Update events that carry a zero delta, one per pointer angle. */
  function ZeroMoves(angles: seq<real>): (es: seq<Event>)
    ensures |es| == |angles|
    ensures forall i :: 0 <= i < |es| ==> es[i] == MoveTo(angles[i], 0.0)
  {
    if |angles| == 0 then [] else [MoveTo(angles[0], 0.0)] + ZeroMoves(angles[1..])
  }

  lemma {:induction false} ZeroMovesKeepRotation(s: DialState, angles: seq<real>)
    requires InRange(s.rotation)
    ensures Run(s, ZeroMoves(angles)).rotation == s.rotation
    decreases |angles|
  {
    if |angles| > 0 {
      var es := ZeroMoves(angles);
      assert es[0] == MoveTo(angles[0], 0.0);
      assert es[1..] == ZeroMoves(angles[1..]);
      ZeroDeltaKeepsRotation(s, angles[0]);
      ZeroMovesKeepRotation(Update(s, angles[0], 0.0), angles[1..]);
    }
  }
}
