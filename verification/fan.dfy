/** The linear fan-speed slider (`FanSlider`).

    The thumb position `translateX` lives on a track of measured width.
    A pan begins by snapshotting the position; every update places the
    thumb at the snapshot plus the gesture's cumulative translation,
    clamped to the track, and sets a direction from that translation's
    sign. Gesture end reports the position mapped back to the value
    range. An external value change moves the thumb to the mapped
    position and points the direction by the new value's sign.

    The track width (set by layout) and the enabled flag are inputs of
    each handler. */
module Fan {
  import opened Numeric

  datatype Direction = Left | Right | Idle

  datatype FanState = FanState(translateX: real, lastTranslationX: real, direction: Direction)

  const Initial: FanState := FanState(0.0, 0.0, Idle)

  /** The value domain of the slider; the only caller passes 0 and 100. */
  datatype ValueRange = ValueRange(min: real, max: real) {
    predicate Valid() {
      min < max
    }
  }

  const DefaultRange: ValueRange := ValueRange(0.0, 100.0)

  /** Thumb position on the track, inside [0, width]. */
  predicate OnTrack(x: real, width: real) {
    0.0 <= x <= width
  }

  /** Direction of a cumulative translation. */
  function DirectionOf(translation: real): (d: Direction)
    ensures d == Left <==> translation < 0.0
    ensures d == Right <==> translation > 0.0
    ensures d == Idle <==> translation == 0.0
  {
    if translation < 0.0 then Left else if translation > 0.0 then Right else Idle
  }

  /** Gesture begin: snapshot the current position, unless the width is
      negative or the slider disabled. A zero width still snapshots. */
  function Begin(s: FanState, width: real, enabled: bool): (r: FanState)
    ensures width < 0.0 || !enabled ==> r == s
    ensures 0.0 <= width && enabled ==> r == s.(lastTranslationX := s.translateX)
  {
    if width < 0.0 || !enabled then s else s.(lastTranslationX := s.translateX)
  }

  /** Gesture update with the gesture's cumulative `translation`. A no-op
      unless the track has positive width and the slider is enabled. */
  function Update(s: FanState, width: real, enabled: bool, translation: real): (r: FanState)
    ensures width <= 0.0 || !enabled ==> r == s
    ensures 0.0 < width && enabled ==>
              && r.translateX == Clamp(s.lastTranslationX + translation, 0.0, width)
              && r.lastTranslationX == s.lastTranslationX
              && r.direction == DirectionOf(translation)
    ensures 0.0 < width && enabled ==> OnTrack(r.translateX, width)
  {
    if width <= 0.0 || !enabled then s
    else
      var x :=
        if s.lastTranslationX + translation < 0.0 then 0.0
        else if s.lastTranslationX + translation > width then width
        else s.lastTranslationX + translation;
      s.(translateX := x, direction := DirectionOf(translation))
  }

  /** Updates are measured from the begin snapshot, not accumulated: a
      second update overrides the first entirely. */
  lemma UpdatesDoNotAccumulate(s: FanState, width: real, enabled: bool, t1: real, t2: real)
    ensures Update(Update(s, width, enabled, t1), width, enabled, t2) == Update(s, width, enabled, t2)
  {
  }

  /** The value a track position stands for (`handleUpdate`). */
  function ValueAt(position: real, range: ValueRange, width: real): (v: real)
    requires width != 0.0
    ensures range.Valid() && 0.0 < width && OnTrack(position, width) ==> range.min <= v <= range.max
  {
    ScaleBounds(position / width, range);
    position / width * (range.max - range.min) + range.min
  }

  /** The track position a value maps to (the value-change effect). */
  function PositionOf(value: real, range: ValueRange, width: real): (p: real)
    requires range.Valid()
    ensures 0.0 <= width && range.min <= value <= range.max ==> OnTrack(p, width)
  {
    var normalized := (value - range.min) / (range.max - range.min);
    UnitFraction(value - range.min, range.max - range.min);
    NormalizedScale(normalized, width);
    normalized * width
  }

  lemma MulDivCancel(x: real, d: real)
    requires d != 0.0
    ensures x * d / d == x
  {
    var q := x * d / d;
    assert q * d == x * d;
    assert (q - x) * d == 0.0;
  }

  lemma UnitFraction(a: real, d: real)
    requires 0.0 < d
    ensures 0.0 <= a <= d ==> 0.0 <= a / d <= 1.0
  {
    if 0.0 <= a <= d {
      assert a / d * d == a;
    }
  }

  lemma ScaleBounds(f: real, range: ValueRange)
    ensures range.Valid() && 0.0 <= f <= 1.0 ==> range.min <= f * (range.max - range.min) + range.min <= range.max
  {
    if range.Valid() && 0.0 <= f <= 1.0 {
      assert f * (range.max - range.min) <= 1.0 * (range.max - range.min);
    }
  }

  lemma NormalizedScale(f: real, width: real)
    ensures 0.0 <= width && 0.0 <= f <= 1.0 ==> 0.0 <= f * width <= width
  {
    if 0.0 <= width && 0.0 <= f <= 1.0 {
      assert f * width <= 1.0 * width;
    }
  }

  /** Round trip value → position → value. */
  lemma ValueAtPositionOf(value: real, range: ValueRange, width: real)
    requires range.Valid() && 0.0 < width
    ensures ValueAt(PositionOf(value, range, width), range, width) == value
  {
    var d := range.max - range.min;
    var n := (value - range.min) / d;
    var p := PositionOf(value, range, width);
    assert p == n * width;
    assert p / width == n;
    assert n * d == value - range.min;
    assert ValueAt(p, range, width) == p / width * d + range.min;
  }

  /** Round trip position → value → position. */
  lemma PositionOfValueAt(position: real, range: ValueRange, width: real)
    requires range.Valid() && 0.0 < width
    ensures PositionOf(ValueAt(position, range, width), range, width) == position
  {
    var d := range.max - range.min;
    var f := position / width;
    assert ValueAt(position, range, width) - range.min == f * d;
    MulDivCancel(f, d);
    assert f * width == position;
  }

  /** Result of gesture end: the idle state and the reported value, or no
      number at all. */
  datatype EndResult = EndResult(state: FanState, report: Option<real>)

  /** Gesture end as the handler is written: direction to idle, then report
      `translateX / width * (max - min) + min` with no guard at all, so a
      zero width divides by zero (NaN or ±Infinity, shown as `None`). */
  function EndAsWritten(s: FanState, width: real, range: ValueRange): (r: EndResult)
    ensures r.state == s.(direction := Idle)
    ensures r.report.None? <==> width == 0.0
    ensures width != 0.0 ==> r.report == Some(ValueAt(s.translateX, range, width))
  {
    if width == 0.0 then EndResult(s.(direction := Idle), None)
    else EndResult(s.(direction := Idle), Some(ValueAt(s.translateX, range, width)))
  }

  /** The handler reaches that division: a gesture on a track not yet laid
      out (width 0) is accepted by begin, ignored by update, and its end
      produces no number. */
  lemma ZeroWidthGestureReportsNoNumber(s: FanState, translation: real)
    ensures var afterBegin := Begin(s, 0.0, true);
            && afterBegin.lastTranslationX == s.translateX
            && Update(afterBegin, 0.0, true, translation) == afterBegin
            && EndAsWritten(Update(afterBegin, 0.0, true, translation), 0.0, DefaultRange).report.None?
  {
  }

  /** Gesture end with the width guard the other handlers have: a report
      only from a laid-out track, and then always inside the range. */
  function End(s: FanState, width: real, range: ValueRange): (r: EndResult)
    ensures r.state == s.(direction := Idle)
    ensures r.report.Some? <==> 0.0 < width
    ensures r.report.Some? ==> r.report == EndAsWritten(s, width, range).report
    ensures range.Valid() && r.report.Some? && OnTrack(s.translateX, width) ==>
              range.min <= r.report.value <= range.max
  {
    if width <= 0.0 then EndResult(s.(direction := Idle), None)
    else EndResult(s.(direction := Idle), Some(ValueAt(s.translateX, range, width)))
  }

  /** The value-change effect: the thumb heads for the mapped position
      (the end point of its timed move) and the direction is set from the
      sign of the new value, not from the change. */
  function SyncStart(s: FanState, value: real, range: ValueRange, width: real): (r: FanState)
    requires range.Valid()
    ensures r.lastTranslationX == s.lastTranslationX
    ensures 0.0 < width ==> ValueAt(r.translateX, range, width) == value
    ensures 0.0 <= width && range.min <= value <= range.max ==> OnTrack(r.translateX, width)
    ensures r.direction == Right <==> value > 0.0
    ensures r.direction == Left <==> value <= 0.0
  {
    var target := FanState(PositionOf(value, range, width), s.lastTranslationX, if value > 0.0 then Right else Left);
    if 0.0 < width then ValueAtPositionOf(value, range, width); target else target
  }

  /** The timed move finished: direction back to idle. */
  function SyncFinished(s: FanState): (r: FanState)
    ensures r.direction == Idle
    ensures r.translateX == s.translateX && r.lastTranslationX == s.lastTranslationX
  {
    s.(direction := Idle)
  }

  /** Lowering the value from 80 to 50 still points the direction right:
      it follows the value's sign, not the direction of travel. */
  lemma SyncDirectionFollowsSign()
    ensures var width := 200.0;
            var at80 := SyncStart(Initial, 80.0, DefaultRange, width);
            var at50 := SyncStart(at80, 50.0, DefaultRange, width);
            at50.translateX < at80.translateX && at50.direction == Right
  {
    assert PositionOf(80.0, DefaultRange, 200.0) == 160.0;
    assert PositionOf(50.0, DefaultRange, 200.0) == 100.0;
  }

  /** Events of the slider on a track of fixed width. */
  datatype Event =
    | BeginPan(enabled: bool)
    | Pan(enabled: bool, translation: real)
    | EndPan
    | ValueChanged(value: real)
    | MoveFinished

  function Step(s: FanState, e: Event, range: ValueRange, width: real): FanState
    requires range.Valid()
  {
    match e
    case BeginPan(enabled) => Begin(s, width, enabled)
    case Pan(enabled, t) => Update(s, width, enabled, t)
    case EndPan => End(s, width, range).state
    case ValueChanged(v) => SyncStart(s, v, range, width)
    case MoveFinished => SyncFinished(s)
  }

  function Run(s: FanState, events: seq<Event>, range: ValueRange, width: real): FanState
    requires range.Valid()
    decreases |events|
  {
    if |events| == 0 then s else Run(Step(s, events[0], range, width), events[1..], range, width)
  }

  /** Every external value lies in the range. */
  predicate ValuesInRange(events: seq<Event>, range: ValueRange) {
    forall i :: 0 <= i < |events| && events[i].ValueChanged? ==>
      range.min <= events[i].value <= range.max
  }

  /** Both positions stay on the track. */
  predicate Invariant(s: FanState, width: real) {
    OnTrack(s.translateX, width) && OnTrack(s.lastTranslationX, width)
  }

  /** On a laid-out track with in-range external values, the thumb and
      its snapshot never leave the track, and every value reported at a
      gesture end lies in [min, max]. */
  lemma {:induction false} RunKeepsThumbOnTrack(s: FanState, events: seq<Event>, range: ValueRange, width: real)
    requires range.Valid() && 0.0 <= width
    requires Invariant(s, width)
    requires ValuesInRange(events, range)
    ensures Invariant(Run(s, events, range, width), width)
    ensures var r := End(Run(s, events, range, width), width, range).report;
            r.Some? ==> range.min <= r.value <= range.max
    decreases |events|
  {
    if |events| > 0 {
      var next := Step(s, events[0], range, width);
      assert events[0].ValueChanged? ==> range.min <= events[0].value <= range.max;
      assert Invariant(next, width);
      assert ValuesInRange(events[1..], range) by {
        forall i | 0 <= i < |events[1..]| && events[1..][i].ValueChanged?
          ensures range.min <= events[1..][i].value <= range.max
        {
          assert events[1..][i] == events[i + 1];
        }
      }
      RunKeepsThumbOnTrack(next, events[1..], range, width);
    }
  }
}
