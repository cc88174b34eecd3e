/**
  The curve branch of Navigation.Lerp: a uniform Catmull-Rom spline through
  the path's points for parameters in [0, 1], the first point doubled before
  the start and the last after the end, and straight-line extrapolation along
  the first or last segment outside [0, 1].
*/
module Spline {

  datatype Vec3 = Vec3(x: real, y: real, z: real)

  /** Vector3.LerpUnclamped: the point at parameter `t` of the line through `a` (t = 0) and `b` (t = 1). */
  function LerpUnclamped(a: Vec3, b: Vec3, t: real): (r: Vec3)
    ensures t == 0.0 ==> r == a
    ensures t == 1.0 ==> r == b
    ensures a == b ==> r == a
  {
    Vec3(a.x + (b.x - a.x) * t, a.y + (b.y - a.y) * t, a.z + (b.z - a.z) * t)
  }

  /**
    One coordinate of a Catmull-Rom section from `b` (u = 0) to `c` (u = 1),
    with `a` and `d` the neighbouring control points.
  */
  function Blend(a: real, b: real, c: real, d: real, u: real): (r: real)
    ensures u == 0.0 ==> r == b
    ensures u == 1.0 ==> r == c
    ensures a == b == c == d ==> r == b
  {
    0.5 * ((-a + 3.0 * b - 3.0 * c + d) * (u * u * u)
      + (2.0 * a - 5.0 * b + 4.0 * c - d) * (u * u)
      + (-a + c) * u
      + 2.0 * b)
  }

  /**
    A section is the cubic Hermite curve from `b` to `c` whose tangents there
    are half the chords of the neighbouring points, (c - a) / 2 and
    (d - b) / 2: the uniform Catmull-Rom spline.
  */
  lemma BlendIsHermite(a: real, b: real, c: real, d: real, u: real)
    ensures var u2 := u * u; var u3 := u2 * u;
      Blend(a, b, c, d, u)
        == (2.0 * u3 - 3.0 * u2 + 1.0) * b + (u3 - 2.0 * u2 + u) * ((c - a) / 2.0)
         + (-2.0 * u3 + 3.0 * u2) * c + (u3 - u2) * ((d - b) / 2.0)
  {
  }

  function BlendVec(a: Vec3, b: Vec3, c: Vec3, d: Vec3, u: real): Vec3 {
    Vec3(Blend(a.x, b.x, c.x, d.x, u), Blend(a.y, b.y, c.y, d.y, u), Blend(a.z, b.z, c.z, d.z, u))
  }

  /** Which of the `n` sections a parameter falls in, and where within it. */
  datatype Section = Section(index: nat, u: real)

  /**
    The section lookup of Navigation.Lerp: the integer part of t·n, capped at
    the last section, and the remainder.
  */
  function Locate(n: nat, t: real): (s: Section)
    requires n >= 1 && 0.0 <= t <= 1.0
    ensures s.index < n && 0.0 <= s.u <= 1.0
    ensures s.index as real + s.u == t * n as real
    ensures s.u == 1.0 ==> s.index == n - 1
  {
    var x := t * n as real;
    assert 0.0 <= x <= n as real by { ScaleBetween(t, n as real); }
    var f := x.Floor;
    var k := if f < n - 1 then f else n - 1;
    Section(k, x - k as real)
  }

  lemma ScaleBetween(t: real, m: real)
    requires 0.0 <= t <= 1.0 && m >= 0.0
    ensures 0.0 <= t * m <= m
  {
    assert t * m >= 0.0;
    assert m - t * m == (1.0 - t) * m;
    assert (1.0 - t) * m >= 0.0;
  }

  /**
    Navigation.Lerp for a curve path: the spline on [0, 1], the line through the
    first two points before, the line through the last two points after (still
    at parameter `t`, not `t - 1`).  The source asserts at least two points.
  */
  function CurveLerp(path: seq<Vec3>, t: real): (r: Vec3)
    requires |path| >= 2
    ensures t <= 0.0 ==> r == LerpUnclamped(path[0], path[1], t)
    ensures t >= 1.0 ==> r == LerpUnclamped(path[|path| - 2], path[|path| - 1], t)
  {
    var last := |path| - 1;
    if t < 0.0 then LerpUnclamped(path[0], path[1], t)
    else if t > 1.0 then LerpUnclamped(path[last - 1], path[last], t)
    else
      var s := Locate(last, t);
      var k := s.index;
      var a := if k == 0 then path[0] else path[k - 1];
      var d := if k + 2 > last then path[last] else path[k + 2];
      BlendVec(a, path[k], path[k + 1], d, s.u)
  }

  /** The curve passes through every point of the path, the k-th at parameter k/n. */
  lemma CurvePassesKnots(path: seq<Vec3>, k: nat)
    requires |path| >= 2 && k < |path|
    ensures CurveLerp(path, k as real / (|path| - 1) as real) == path[k]
  {
    var n := |path| - 1;
    var t := k as real / n as real;
    KnotParameter(k, n);
    var s := Locate(n, t);
    assert s.index as real + s.u == k as real;
    if k < n {
      assert s.u != 1.0;
      assert (k - 1) as real < s.index as real <= k as real;
      assert s.index == k && s.u == 0.0;
    } else {
      assert s.index == n - 1 && s.u == 1.0;
    }
  }

  lemma KnotParameter(k: nat, n: nat)
    requires 0 < n && k <= n
    ensures 0.0 <= k as real / n as real <= 1.0
    ensures k as real / n as real * n as real == k as real
  {
    var t := k as real / n as real;
    assert t * n as real == k as real;
    assert (1.0 - t) * n as real == (n - k) as real;
  }

  /**
    The extrapolations meet the curve at its ends: the line before 0 reaches
    the first point at 0, and the line after 1 reaches the last point at 1.
  */
  lemma CurveEndsMeetLines(path: seq<Vec3>)
    requires |path| >= 2
    ensures CurveLerp(path, 0.0) == path[0] == LerpUnclamped(path[0], path[1], 0.0)
    ensures var last := |path| - 1;
      CurveLerp(path, 1.0) == path[last] == LerpUnclamped(path[last - 1], path[last], 1.0)
  {
    var n := |path| - 1;
    var s0 := Locate(n, 0.0);
    assert s0.index == 0 && s0.u == 0.0;
    var s1 := Locate(n, 1.0);
    assert s1.index == n - 1 && s1.u == 1.0;
  }

  /** A path that stays at one point yields that point for every parameter. */
  lemma ConstantPath(path: seq<Vec3>, p: Vec3, t: real)
    requires |path| >= 2 && forall i :: 0 <= i < |path| ==> path[i] == p
    ensures CurveLerp(path, t) == p
  {
  }
}
