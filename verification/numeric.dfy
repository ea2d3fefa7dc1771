/** Small numeric vocabulary shared by the controls: an optional value,
    clamping into a closed interval, JavaScript's `Math.round`, and the
    shortest signed angle `atan2(sin x, cos x)` computed exactly over reals. */
module Numeric {

  /** A value that may be absent, used where the program's arithmetic
      would produce no number (a division by zero yields NaN or ±Infinity). */
  datatype Option<+T> = None | Some(value: T)

  /** `x` forced into `[lo, hi]`: unchanged inside, the nearer bound outside. */
  function Clamp(x: real, lo: real, hi: real): (r: real)
    requires lo <= hi
    ensures lo <= r <= hi
    ensures lo <= x <= hi ==> r == x
    ensures x < lo ==> r == lo
    ensures hi < x ==> r == hi
  {
    if x < lo then lo else if hi < x then hi else x
  }

  /** `Math.round`: the nearest integer, halves rounded towards +∞.
      The ensures clause characterises that integer uniquely. */
  function Round(x: real): (n: int)
    ensures n as real - 0.5 <= x < n as real + 0.5
  {
    (x + 0.5).Floor
  }

  /** The characterisation in `Round`'s contract pins the integer down. */
  lemma RoundUnique(x: real, n: int)
    requires n as real - 0.5 <= x < n as real + 0.5
    ensures Round(x) == n
  {
  }

  /** Rounding never reverses an order. */
  lemma RoundMonotone(x: real, y: real)
    requires x <= y
    ensures Round(x) <= Round(y)
  {
  }

  /** Whole numbers round to themselves. */
  lemma RoundOfWhole(k: int)
    ensures Round(k as real) == k
  {
    RoundUnique(k as real, k);
  }

  /** `Math.PI` to the digits the program's runtime prints. */
  const Pi: real := 3.141592653589793
  const TwoPi: real := 2.0 * Pi

  /** The shortest signed angle equivalent to `x`, i.e. what
      `atan2(sin(x), cos(x))` denotes: `x` shifted by a whole number of
      turns into (-π, π]. */
  function Wrap(x: real): (w: real)
    ensures -Pi < w <= Pi
    ensures -Pi < x <= Pi ==> w == x
  {
    var y := (Pi - x) / TwoPi;
    var turns := y.Floor;
    WrapBounds(x, y, turns);
    x + TwoPi * turns as real
  }

  lemma WrapBounds(x: real, y: real, turns: int)
    requires y == (Pi - x) / TwoPi
    requires turns as real <= y < turns as real + 1.0
    ensures -Pi < x + TwoPi * turns as real <= Pi
    ensures -Pi < x <= Pi ==> turns == 0
  {
    assert y * TwoPi == Pi - x;
    assert TwoPi * turns as real <= TwoPi * y;
    assert TwoPi * y < TwoPi * (turns as real + 1.0);
  }

  /** Angles a whole turn apart wrap to the same shortest angle. */
  lemma WrapPeriodic(x: real)
    ensures Wrap(x + TwoPi) == Wrap(x)
  {
    var y := (Pi - x) / TwoPi;
    var y' := (Pi - (x + TwoPi)) / TwoPi;
    assert y' * TwoPi == y * TwoPi - TwoPi;
    assert y' == y - 1.0;
    assert y'.Floor == y.Floor - 1;
  }

  /** Two angles exactly half a turn apart give +π either way round:
      the result is never -π and never jumps by a full turn. */
  lemma WrapHalfTurn()
    ensures Wrap(Pi) == Pi
    ensures Wrap(-Pi) == Pi
  {
    WrapPeriodic(-Pi);
  }
}
