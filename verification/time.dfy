/** Optional values, for the engine references a configuration may hold or miss. */
module Optional {
  datatype Option<+T> = None | Some(value: T)
}

/**
  Time arithmetic shared by the scheduler: seconds and frame positions are reals,
  and a duration or an end frame may be unbounded (C#'s float.PositiveInfinity),
  so they are `Extended` values.  Also the three Unity math helpers the core uses.
*/
module Time {

  /** A real that may be +infinity. */
  datatype Extended = Finite(value: real) | Infinity

  /** `x >= e`, as C# compares a float against a possibly infinite float. */
  predicate Reached(x: real, e: Extended) {
    e.Finite? && x >= e.value
  }

  predicate NonNegative(e: Extended) {
    e.Infinity? || e.value >= 0.0
  }

  /** `a <= b` on extended reals. */
  predicate Le(a: Extended, b: Extended) {
    b.Infinity? || (a.Finite? && a.value <= b.value)
  }

  lemma LeTransitive(a: Extended, b: Extended, c: Extended)
    requires Le(a, b) && Le(b, c)
    ensures Le(a, c)
  {
  }

  /** Mathf.Max(a, b) on extended reals: the larger of the two. */
  function Max(a: Extended, b: Extended): (r: Extended)
    ensures Le(a, r) && Le(b, r)
    ensures r == a || r == b
  {
    if a.Infinity? || b.Infinity? then Infinity
    else if a.value > b.value then a else b
  }

  /** MathF.Max(0, e): a negative duration becomes 0. */
  function AtLeastZero(e: Extended): (r: Extended)
    ensures NonNegative(r)
    ensures NonNegative(e) ==> r == e
  {
    if e.Finite? && e.value < 0.0 then Finite(0.0) else e
  }

  /** `delay + e`, with infinity absorbing. */
  function Shift(delay: real, e: Extended): (r: Extended)
    ensures r.Infinity? <==> e.Infinity?
    ensures e.Finite? ==> r.value == delay + e.value
  {
    if e.Infinity? then Infinity else Finite(delay + e.value)
  }

  /** `e / speed` for a positive speed, with infinity absorbing. */
  function Slow(e: Extended, speed: real): (r: Extended)
    requires speed > 0.0
    ensures r.Infinity? <==> e.Infinity?
    ensures NonNegative(e) ==> NonNegative(r)
  {
    if e.Infinity? then Infinity else Finite(e.value / speed)
  }

  function MaxReal(a: real, b: real): real {
    if a > b then a else b
  }

  function MinReal(a: real, b: real): real {
    if a < b then a else b
  }

  /** Mathf.Clamp(x, lo, hi). */
  function Clamp(x: real, lo: real, hi: real): (r: real)
    ensures lo <= hi ==> lo <= r <= hi
    ensures lo <= x <= hi ==> r == x
  {
    if x < lo then lo else if x > hi then hi else x
  }

  /** Mathf.Clamp on a possibly infinite value (an infinite `to` frame clamps to `hi`). */
  function ClampExtended(x: Extended, lo: real, hi: real): (r: real)
    requires lo <= hi
    ensures lo <= r <= hi
    ensures x.Infinity? ==> r == hi
    ensures x.Finite? && lo <= x.value <= hi ==> r == x.value
  {
    if x.Infinity? then hi else Clamp(x.value, lo, hi)
  }

  /** Mathf.Clamp01. */
  function Clamp01(t: real): (r: real)
    ensures 0.0 <= r <= 1.0
  {
    Clamp(t, 0.0, 1.0)
  }

  /** A fraction in [0, 1] of `k` lies between 0 and `k`. */
  lemma ScaleWithin(k: real, u: real)
    requires 0.0 <= u <= 1.0
    ensures k >= 0.0 ==> 0.0 <= k * u <= k
    ensures k < 0.0 ==> k <= k * u <= 0.0
  {
    assert k - k * u == k * (1.0 - u);
    if k >= 0.0 {
      assert k * u >= 0.0;
      assert k * (1.0 - u) >= 0.0;
    } else {
      assert (-k) * (1.0 - u) >= 0.0;
      assert (-k) * u >= 0.0;
    }
  }

  /** Mathf.Lerp: interpolation with the parameter clamped to [0, 1]. */
  function Lerp(a: real, b: real, t: real): (r: real)
    ensures MinReal(a, b) <= r <= MaxReal(a, b)
    ensures t <= 0.0 ==> r == a
    ensures t >= 1.0 ==> r == b
    ensures 0.0 <= t <= 1.0 ==> r == a + (b - a) * t
  {
    var u := Clamp01(t);
    LerpWithin(a, b, u);
    assert t <= 0.0 ==> u == 0.0 && (b - a) * u == 0.0;
    assert t >= 1.0 ==> u == 1.0 && (b - a) * u == b - a;
    a + (b - a) * u
  }

  lemma LerpWithin(a: real, b: real, u: real)
    requires 0.0 <= u <= 1.0
    ensures MinReal(a, b) <= a + (b - a) * u <= MaxReal(a, b)
  {
    StepWithin(a, b - a, u);
  }

  /** A step from `a` by a fraction of `d` stays between `a` and `a + d`. */
  lemma StepWithin(a: real, d: real, u: real)
    requires 0.0 <= u <= 1.0
    ensures MinReal(a, a + d) <= a + d * u <= MaxReal(a, a + d)
  {
    ScaleWithin(d, u);
  }
}
