/** The two font-size walks of `changeText`. `measure(t, n)` is the width,
    rounded up to whole pixels, of text `t` set at font size `n`; the canvas
    that measures it is not modelled, only the two facts the walks rely on:
    the width does not shrink as the size grows, and every non-empty text
    can be made wide and narrow enough. */
module Fitter {

  /** A larger font size never gives a narrower text. */
  ghost predicate Nondecreasing(measure: (string, int) -> int) {
    forall t, a, b :: a <= b ==> measure(t, a) <= measure(t, b)
  }

  /** Some size makes `t` at least `min` wide, and some size at most `max` wide. */
  ghost predicate Reaches(measure: (string, int) -> int, t: string, min: real, max: real) {
    (exists hi :: measure(t, hi) as real >= min) && (exists lo :: measure(t, lo) as real <= max)
  }

  /** The measurements both walks terminate on. */
  ghost predicate Adequate(measure: (string, int) -> int, min: real, max: real) {
    Nondecreasing(measure) && forall t {:trigger Reaches(measure, t, min, max)} :: |t| > 0 ==> Reaches(measure, t, min, max)
  }

  /** `after` is where `fitByIncrement` stops when started at `before`: the
      least size from `before` up whose width is not below `min`. */
  ghost predicate Grown(measure: (string, int) -> int, t: string, min: real, before: int, after: int) {
    before <= after && measure(t, after) as real >= min
    && forall k :: before <= k < after ==> measure(t, k) as real < min
  }

  /** `after` is where `fitByDecrement` stops when started at `before`: the
      greatest size from `before` down whose width is not above `max`. */
  ghost predicate Shrunk(measure: (string, int) -> int, t: string, max: real, before: int, after: int) {
    after <= before && measure(t, after) as real <= max
    && forall k :: after < k <= before ==> measure(t, k) as real > max
  }

  /** What `changeText` does to the font size: nothing for the empty text,
      otherwise the increment walk followed by the decrement walk. */
  ghost predicate Fitted(measure: (string, int) -> int, t: string, min: real, max: real,
                         before: int, after: int) {
    if |t| == 0 then after == before
    else exists grown :: Grown(measure, t, min, before, grown) && Shrunk(measure, t, max, grown, after)
  }

  /** Each walk has exactly one stopping point. */
  lemma WalksAreDeterministic(measure: (string, int) -> int, t: string, min: real, max: real,
                              n: int, a: int, b: int)
    ensures Grown(measure, t, min, n, a) && Grown(measure, t, min, n, b) ==> a == b
    ensures Shrunk(measure, t, max, n, a) && Shrunk(measure, t, max, n, b) ==> a == b
  {
  }

  /** The fitted width never exceeds `max`; the decrement walk never goes
      back above where the increment walk stopped; and when the increment
      walk already stops within `max` the decrement walk leaves that size
      alone, so the width lies in [min, max]. */
  lemma FittedBounds(measure: (string, int) -> int, t: string, min: real, max: real,
                     before: int, grown: int, after: int)
    requires |t| > 0
    requires Grown(measure, t, min, before, grown) && Shrunk(measure, t, max, grown, after)
    ensures measure(t, after) as real <= max && after <= grown
    ensures measure(t, grown) as real <= max ==> after == grown && min <= measure(t, after) as real
  {
  }

  /** The 12% floor is not kept in general: when one size step makes the
      width jump by more than the gap between 12% and 80%, the increment walk
      overshoots past 80% and the decrement walk falls back below 12%. Here a
      non-empty text is 0 wide below size 10 and 100 wide from 10 on, and the
      empty text is always 0 wide, against a 100-wide viewport: starting at 5
      the walks stop at 10 and then at 9. */
  lemma FitCanEndBelowMinimum()
    ensures var m := (t: string, n: int) => if |t| == 0 then 0 else if n >= 10 then 100 else 0;
      Adequate(m, 12.0, 80.0) && (forall n :: m("", n) == 0)
      && Grown(m, "x", 12.0, 5, 10) && Shrunk(m, "x", 80.0, 10, 9)
      && Fitted(m, "x", 12.0, 80.0, 5, 9) && m("x", 9) as real < 12.0
  {
    var m := (t: string, n: int) => if |t| == 0 then 0 else if n >= 10 then 100 else 0;
    forall t | |t| > 0 ensures Reaches(m, t, 12.0, 80.0) {
      assert m(t, 10) as real >= 12.0;
      assert m(t, 0) as real <= 80.0;
    }
    assert Grown(m, "x", 12.0, 5, 10);
    assert Shrunk(m, "x", 80.0, 10, 9);
  }

  /** The increment walk only raises the size, the decrement walk only lowers it,
      and a text already wide enough is not grown. */
  lemma WalksAreMonotone(measure: (string, int) -> int, t: string, min: real, max: real,
                         before: int, after: int)
    ensures Grown(measure, t, min, before, after) ==> before <= after
    ensures Grown(measure, t, min, before, after) && measure(t, before) as real >= min ==> after == before
    ensures Shrunk(measure, t, max, before, after) ==> after <= before
    ensures Shrunk(measure, t, max, before, after) && measure(t, before) as real <= max ==> after == before
  {
  }
}
