/** The mean-wind lookup vel: a measurement time and altitude are turned
    into integer indices of a gridded (time x height) mean wind, clamped,
    and the east and north components are read at those indices. */
module Vel {
  import opened Common

  /** numpy.round: to the nearest integer, ties to the even one. */
  function RoundHalfEven(x: real): (r: int)
    ensures -0.5 <= r as real - x <= 0.5
    ensures (r as real - x == 0.5 || r as real - x == -0.5) ==> r % 2 == 0
  {
    var f := x.Floor;
    var d := x - f as real;
    if d < 0.5 then f
    else if d > 0.5 then f + 1
    else if f % 2 == 0 then f
    else f + 1
  }

  /** The distance from an integer to a real. */
  function Gap(k: int, x: real): real
  {
    Abs(k as real - x)
  }

  /** The rounded value is the integer nearest to x. */
  lemma RoundIsNearest(x: real, k: int)
    ensures Gap(RoundHalfEven(x), x) <= Gap(k, x)
  {
    var r := RoundHalfEven(x);
    if k < r {
      assert k as real <= r as real - 1.0;
    } else if k > r {
      assert k as real >= r as real + 1.0;
    }
  }

  /** The mean-wind grid: the time axis times, the height axis rgs and the
      east (u) and north (v) components, v[0] and v[1] of the source, each
      with one row of nh heights per time. */
  datatype WindGrid = WindGrid(times: seq<real>, rgs: seq<real>, u: seq<seq<real>>, v: seq<seq<real>>, nh: nat)

  /** A numpy array has one length per axis. */
  ghost predicate Rectangular(g: WindGrid)
  {
    |g.u| == |g.v| &&
    (forall i :: 0 <= i < |g.u| ==> |g.u[i]| == g.nh) &&
    (forall i :: 0 <= i < |g.v| ==> |g.v[i]| == g.nh)
  }

  /** The time since the start of the grid, in grid steps. */
  function TimeOffset(t: real, t0: real, dt: real): real
    requires dt != 0.0
  {
    (t - t0) / dt
  }

  /** ti: the rounded time offset, clamped first from below to 0 and then
      from above to nt - 1. With an empty time axis it ends at -1. */
  function TimeIndex(t: real, t0: real, dt: real, nt: nat): (ti: int)
    requires dt != 0.0
    ensures nt == 0 ==> ti == -1
    ensures nt > 0 ==> 0 <= ti < nt
    ensures nt > 0 ==> forall j :: 0 <= j < nt ==>
      Gap(ti, TimeOffset(t, t0, dt)) <= Gap(j, TimeOffset(t, t0, dt))
    ensures nt > 0 && 0 <= RoundHalfEven(TimeOffset(t, t0, dt)) < nt ==>
      ti == RoundHalfEven(TimeOffset(t, t0, dt))
    ensures nt > 0 && RoundHalfEven(TimeOffset(t, t0, dt)) < 0 ==> ti == 0
    ensures nt > 0 && RoundHalfEven(TimeOffset(t, t0, dt)) >= nt ==> ti == nt - 1
  {
    var raw := RoundHalfEven(TimeOffset(t, t0, dt));
    var low := if raw < 0 then 0 else raw;
    var ti := if low > nt - 1 then nt - 1 else low;
    assert nt > 0 ==> forall j :: 0 <= j < nt ==>
      Gap(ti, TimeOffset(t, t0, dt)) <= Gap(j, TimeOffset(t, t0, dt)) by {
      if nt > 0 {
        forall j | 0 <= j < nt
          ensures Gap(ti, TimeOffset(t, t0, dt)) <= Gap(j, TimeOffset(t, t0, dt))
        {
          RoundIsNearest(TimeOffset(t, t0, dt), j);
        }
      }
    }
    ti
  }

  /** hi: the floored height offset, clamped from above to nh - 1 only. */
  function HeightIndex(alt: real, r0: real, dh: real, nh: nat): (hi: int)
    requires dh != 0.0
    ensures hi <= nh - 1
    ensures ((alt - r0) / dh).Floor >= nh ==> hi == nh - 1
    ensures dh > 0.0 && ((alt - r0) / dh).Floor < nh ==>
      r0 + hi as real * dh <= alt < r0 + hi as real * dh + dh
    ensures dh < 0.0 && ((alt - r0) / dh).Floor < nh ==>
      r0 + hi as real * dh + dh < alt <= r0 + hi as real * dh
  {
    var raw := ((alt - r0) / dh).Floor;
    FloorBinEitherSign(alt, r0, dh);
    if raw > nh - 1 then nh - 1 else raw
  }

  lemma FloorBinEitherSign(x: real, r0: real, dh: real)
    requires dh != 0.0
    ensures dh > 0.0 ==>
      r0 + ((x - r0) / dh).Floor as real * dh <= x < r0 + ((x - r0) / dh).Floor as real * dh + dh
    ensures dh < 0.0 ==>
      r0 + ((x - r0) / dh).Floor as real * dh + dh < x <= r0 + ((x - r0) / dh).Floor as real * dh
  {
    var k := ((x - r0) / dh).Floor;
    if dh > 0.0 {
      FloorBin(x, r0, dh, k);
    } else {
      FloorBinDownward(x, r0, dh, k);
    }
  }

  /** With a negative step the heights run downwards: the floored offset k
      names the step (r0 + (k+1)*dh, r0 + k*dh] that holds x. */
  lemma FloorBinDownward(x: real, r0: real, dh: real, k: int)
    requires dh < 0.0 && k == ((x - r0) / dh).Floor
    ensures r0 + k as real * dh + dh < x
    ensures x <= r0 + k as real * dh
  {
    var x' := 2.0 * r0 - x;
    assert (x' - r0) / -dh == (x - r0) / dh;
    FloorBin(x', r0, -dh, k);
    assert k as real * -dh == -(k as real * dh);
  }

  /** The floored offset k names the step of width dh that holds x. */
  lemma FloorBin(x: real, r0: real, dh: real, k: int)
    requires dh > 0.0 && k == ((x - r0) / dh).Floor
    ensures r0 + k as real * dh <= x
    ensures x < r0 + k as real * dh + dh
  {
    var q := (x - r0) / dh;
    assert q * dh == x - r0;
    StepLower(k as real, q, dh, x - r0);
    StepUpper(k as real, q, dh, x - r0);
  }

  lemma StepLower(f: real, q: real, dh: real, d: real)
    requires dh > 0.0 && f <= q && d == q * dh
    ensures f * dh <= d
  {
    MulMonotone(f, q, dh);
  }

  lemma StepUpper(f: real, q: real, dh: real, d: real)
    requires dh > 0.0 && q < f + 1.0 && d == q * dh
    ensures d < f * dh + dh
  {
    MulStrict(q, f + 1.0, dh);
    AddOneMul(f, dh);
  }

  /** Python's a[i] on an axis of length n: a negative i counts from the
      end; anything outside [-n, n) raises IndexError. */
  function PyIndex(i: int, n: nat): (r: Option<nat>)
    ensures r.Some? <==> -(n as int) <= i < n
    ensures r.Some? ==> r.value < n && (r.value - i) % n == 0
  {
    if 0 <= i < n then Some(i)
    else if -(n as int) <= i < 0 then Some(i + n)
    else None
  }

  /** (v[0, ti, hi], v[1, ti, hi]) for one time and altitude, or None where
      the source raises IndexError (an empty axis, or hi below -nh). */
  function VelAt(g: WindGrid, dt: real, dh: real, t: real, alt: real): (r: Option<(real, real)>)
    requires Rectangular(g) && dt != 0.0 && dh != 0.0
    ensures r.Some? <==> |g.times| > 0 && |g.rgs| > 0 && |g.u| > 0
                         && HeightIndex(alt, g.rgs[0], dh, g.nh) >= -(g.nh as int)
    ensures r.Some? ==>
      var ti := TimeIndex(t, g.times[0], dt, |g.u|);
      var hi := HeightIndex(alt, g.rgs[0], dh, g.nh);
      var row := if hi < 0 then hi + g.nh else hi;
      0 <= ti < |g.u| && 0 <= row < g.nh && r.value == (g.u[ti][row], g.v[ti][row])
  {
    if |g.times| == 0 || |g.rgs| == 0 then None
    else
      var ti := TimeIndex(t, g.times[0], dt, |g.u|);
      var hi := HeightIndex(alt, g.rgs[0], dh, g.nh);
      match (PyIndex(ti, |g.u|), PyIndex(hi, g.nh))
      case (Some(a), Some(b)) => Some((g.u[a][b], g.v[a][b]))
      case _ => None
  }

  /** vel over whole arrays of measurements: None if any one lookup
      raises, otherwise one (u, v) per measurement. */
  function Vel(g: WindGrid, dt: real, dh: real, ms: seq<Measurement>): (r: Option<seq<(real, real)>>)
    requires Rectangular(g) && dt != 0.0 && dh != 0.0
    ensures r.Some? <==> forall i :: 0 <= i < |ms| ==> VelAt(g, dt, dh, ms[i].t, ms[i].height).Some?
    ensures r.Some? ==> |r.value| == |ms|
    ensures r.Some? ==> forall i :: 0 <= i < |ms| ==> r.value[i] == VelAt(g, dt, dh, ms[i].t, ms[i].height).value
  {
    if ms == [] then Some([])
    else
      match (VelAt(g, dt, dh, ms[0].t, ms[0].height), Vel(g, dt, dh, ms[1..]))
      case (Some(x), Some(rest)) =>
        assert forall i :: 1 <= i < |ms| ==> ms[i] == ms[1..][i - 1];
        Some([x] + rest)
      case (None, _) => None
      case (_, None) =>
        assert exists i :: 0 <= i < |ms[1..]| && VelAt(g, dt, dh, ms[1..][i].t, ms[1..][i].height).None?;
        None
  }

  /** An altitude one height step below the grid floors to hi = -1, which
      Python reads as the last row: the wind of the top of the grid. */
  lemma BelowGridReadsTop()
    ensures var g := WindGrid([0.0], [80.0], [[1.0, 2.0, 3.0]], [[4.0, 5.0, 6.0]], 3);
            Rectangular(g) && VelAt(g, 60.0, 2.0, 0.0, 78.0) == Some((3.0, 6.0))
            && VelAt(g, 60.0, 2.0, 0.0, 80.0) == Some((1.0, 4.0))
  {
    var g := WindGrid([0.0], [80.0], [[1.0, 2.0, 3.0]], [[4.0, 5.0, 6.0]], 3);
    assert HeightIndex(78.0, 80.0, 2.0, 3) == -1;
    assert HeightIndex(80.0, 80.0, 2.0, 3) == 0;
    assert TimeIndex(0.0, 0.0, 60.0, 1) == 0;
  }

  /** The row an as-written lookup reads (Python's wrap of a negative hi). */
  function RowRead(alt: real, r0: real, dh: real, nh: nat): int
    requires dh != 0.0
  {
    var hi := HeightIndex(alt, r0, dh, nh);
    if hi < 0 then hi + nh else hi
  }

  /** As written, a lower altitude can read a higher row. */
  lemma RowReadNotMonotone(r0: real, dh: real, nh: nat)
    requires dh > 0.0 && nh >= 2
    ensures RowRead(r0 - dh, r0, dh, nh) == nh - 1
    ensures RowRead(r0, r0, dh, nh) == 0
  {
    assert (r0 - dh - r0) / dh == -1.0;
    assert (r0 - r0) / dh == 0.0;
  }

  /** hi clamped into [0, nh - 1] like ti: an altitude below the grid reads
      the lowest row. */
  function ClampedHeightIndex(alt: real, r0: real, dh: real, nh: nat): (hi: int)
    requires dh != 0.0 && nh > 0
    ensures 0 <= hi < nh
    ensures 0 <= ((alt - r0) / dh).Floor < nh ==> hi == ((alt - r0) / dh).Floor
  {
    var upper := HeightIndex(alt, r0, dh, nh);
    if upper < 0 then 0 else upper
  }

  /** With both indices clamped, a grid with both axes non-empty gives a
      value for every time and altitude, read at an in-range row. */
  function VelAtClamped(g: WindGrid, dt: real, dh: real, t: real, alt: real): (r: Option<(real, real)>)
    requires Rectangular(g) && dt != 0.0 && dh != 0.0
    ensures r.Some? <==> |g.times| > 0 && |g.rgs| > 0 && |g.u| > 0 && g.nh > 0
    ensures r.Some? ==>
      var ti := TimeIndex(t, g.times[0], dt, |g.u|);
      var hi := ClampedHeightIndex(alt, g.rgs[0], dh, g.nh);
      r.value == (g.u[ti][hi], g.v[ti][hi])
  {
    if |g.times| == 0 || |g.rgs| == 0 || |g.u| == 0 || g.nh == 0 then None
    else
      var ti := TimeIndex(t, g.times[0], dt, |g.u|);
      var hi := ClampedHeightIndex(alt, g.rgs[0], dh, g.nh);
      Some((g.u[ti][hi], g.v[ti][hi]))
  }

  /** With the clamp, a higher altitude never reads a lower row. */
  lemma ClampedRowMonotone(a1: real, a2: real, r0: real, dh: real, nh: nat)
    requires dh > 0.0 && nh > 0 && a1 <= a2
    ensures ClampedHeightIndex(a1, r0, dh, nh) <= ClampedHeightIndex(a2, r0, dh, nh)
  {
    DivMonotone(a1 - r0, a2 - r0, dh);
  }

  lemma DivMonotone(x: real, y: real, d: real)
    requires x <= y && d > 0.0
    ensures x / d <= y / d
  {
    assert y / d - x / d == (y - x) / d;
  }
}
