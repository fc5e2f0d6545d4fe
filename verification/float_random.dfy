/** `Float.arc4random` and `CGFloat.arc4random`: a uniform value between zero
    and the receiver. The random source is a unit draw passed in as a parameter. */
module FloatRandom {
  import opened Wrappers

  /** A draw of the uniform random source, scaled to [0, 1]. */
  type Unit = t: real | 0.0 <= t <= 1.0

  /** What stops the program: a closed range whose lower bound exceeds its upper bound. */
  datatype Trap = InvertedRange

  /** Scaling a non-negative width by a unit draw stays within the width. */
  lemma ScaleWithin(t: Unit, w: real)
    requires 0.0 <= w
    ensures 0.0 <= t * w <= w
  {
    assert (1.0 - t) * w >= 0.0;
  }

  /** `Float.random(in: lo...hi)` for the unit draw `t`. */
  function RandomIn(lo: real, hi: real, t: Unit): (r: real)
    requires lo <= hi
    ensures lo <= r <= hi
    ensures t == 0.0 ==> r == lo
    ensures t == 1.0 ==> r == hi
  {
    ScaleWithin(t, hi - lo);
    lo + t * (hi - lo)
  }

  /** Every value of the range is the result of some draw. */
  lemma RandomInCovers(lo: real, hi: real, v: real)
    requires lo <= v <= hi
    ensures exists t: Unit :: RandomIn(lo, hi, t) == v
  {
    if lo == hi {
      assert RandomIn(lo, hi, 0.0) == v;
    } else {
      var w := hi - lo;
      var q := (v - lo) / w;
      assert q * w == v - lo;
      var t: Unit := q;
      assert RandomIn(lo, hi, t) == v;
    }
  }

  /** The range check a closed range performs before a value is drawn from it. */
  function CheckedRandomIn(lo: real, hi: real, t: Unit): (r: Result<real, Trap>)
    ensures r.Ok? <==> lo <= hi
    ensures r.Ok? ==> lo <= r.value <= hi
  {
    if lo <= hi then Ok(RandomIn(lo, hi, t)) else Err(InvertedRange)
  }

  /** `x.arc4random` as written: the negative branch draws from `-x...0`. */
  function Arc4RandomAsWritten(x: real, t: Unit): (r: Result<real, Trap>)
    ensures r.Ok? <==> x >= 0.0
    ensures r.Ok? ==> 0.0 <= r.value <= x
  {
    if x > 0.0 then CheckedRandomIn(0.0, x, t)
    else if x < 0.0 then CheckedRandomIn(-x, 0.0, t)
    else Ok(0.0)
  }

  /** For every negative receiver the range `-x...0` is inverted, so the call stops the program. */
  lemma Arc4RandomAsWrittenTrapsOnNegative(x: real, t: Unit)
    requires x < 0.0
    ensures Arc4RandomAsWritten(x, t) == Err(InvertedRange)
  {
  }

  /** `x.arc4random` with the negative branch drawing from `x...0`, a value between zero and the receiver for every sign. */
  function Arc4Random(x: real, t: Unit): (r: real)
    ensures x > 0.0 ==> 0.0 <= r <= x
    ensures x < 0.0 ==> x <= r <= 0.0
    ensures x == 0.0 ==> r == 0.0
  {
    if x > 0.0 then RandomIn(0.0, x, t)
    else if x < 0.0 then RandomIn(x, 0.0, t)
    else 0.0
  }

  /** Where the written code does not stop, it agrees with `Arc4Random`. */
  lemma Arc4RandomAgreesOnNonNegative(x: real, t: Unit)
    requires x >= 0.0
    ensures Arc4RandomAsWritten(x, t) == Ok(Arc4Random(x, t))
  {
  }
}
