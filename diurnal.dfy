/** The diurnal weight table of cfi: the histogram of the recorded pairs'
    hours of day, its counts floored at one, the bin centres with the ends
    pinned to 0 h and 24 h, the linear interpolant of the counts over the
    centres, and the per-pair weight, the reciprocal of that interpolant. */
module Diurnal {
  import opened Common

  /** Half-hour bins over the day. */
  const NumBins: nat := 48

  // ---------------------------------------------------------------------
  // Flooring the counts

  /** The histogram counts after every count below one is raised to one. */
  function Floored(counts: seq<int>): (r: seq<int>)
    ensures |r| == |counts|
    ensures forall i :: 0 <= i < |r| ==> r[i] >= 1
    ensures forall i :: 0 <= i < |r| && counts[i] >= 1 ==> r[i] == counts[i]
    ensures forall i :: 0 <= i < |r| && counts[i] < 1 ==> r[i] == 1
  {
    seq(|counts|, i requires 0 <= i < |counts| => if counts[i] < 1 then 1 else counts[i])
  }

  /** The masked assignment on thist, in place. */
  method FloorCounts(thist: array<int>)
    modifies thist
    ensures thist[..] == Floored(old(thist[..]))
  {
    forall i | 0 <= i < thist.Length && thist[i] < 1 {
      thist[i] := 1;
    }
  }

  // ---------------------------------------------------------------------
  // Bin centres

  predicate StrictlyIncreasing(xs: seq<real>)
  {
    forall i, j :: 0 <= i < j < |xs| ==> xs[i] < xs[j]
  }

  /** tbins2: the midpoints of consecutive histogram edges, with the first
      replaced by 0 h and the last by 24 h. */
  function Centres(edges: seq<real>): (c: seq<real>)
    requires |edges| == NumBins + 1
    ensures |c| == NumBins
    ensures c[0] == 0.0 && c[NumBins - 1] == 24.0
    ensures forall i :: 0 < i < NumBins - 1 ==> c[i] == 0.5 * (edges[i] + edges[i + 1])
  {
    seq(NumBins, i requires 0 <= i < NumBins =>
      if i == 0 then 0.0 else if i == NumBins - 1 then 24.0 else 0.5 * (edges[i] + edges[i + 1]))
  }

  /** Midpoints into a fresh array, then the two ends overwritten. */
  method PinCentres(edges: seq<real>) returns (c: array<real>)
    requires |edges| == NumBins + 1
    ensures fresh(c)
    ensures c[..] == Centres(edges)
  {
    c := new real[NumBins](i requires 0 <= i < NumBins => 0.5 * (edges[i] + edges[i + 1]));
    c[0] := 0.0;
    c[NumBins - 1] := 24.0;
  }

  /** The histogram of hours of day spans [min, max] of its data, a part of
      [0, 24); with strictly increasing edges there, the pinned centres are
      strictly increasing from 0 to 24, as the interpolant needs. */
  lemma CentresIncrease(edges: seq<real>)
    requires |edges| == NumBins + 1 && StrictlyIncreasing(edges)
    requires 0.0 <= edges[0] && edges[NumBins] < 24.0
    ensures StrictlyIncreasing(Centres(edges))
  {
    var c := Centres(edges);
    forall i, j | 0 <= i < j < NumBins
      ensures c[i] < c[j]
    {
      if i == 0 {
        assert edges[0] < edges[1] && edges[0] < edges[2];
      } else if j == NumBins - 1 {
        assert edges[i] < edges[NumBins] && edges[i + 1] < edges[NumBins];
      } else {
        assert edges[i] < edges[j] && edges[i + 1] < edges[j + 1];
      }
    }
  }

  // ---------------------------------------------------------------------
  // The linear interpolant countf

  /** numpy.searchsorted(xs, x) with side='left': the first index whose
      entry is not below x (|xs| when there is none). */
  function SearchLeft(xs: seq<real>, x: real): (i: nat)
    ensures i <= |xs|
    ensures forall j :: 0 <= j < i ==> xs[j] < x
    ensures i < |xs| ==> x <= xs[i]
  {
    if xs == [] then 0
    else if x <= xs[0] then 0
    else
      var rest := SearchLeft(xs[1..], x);
      assert forall j :: 1 <= j < 1 + rest ==> xs[j] == xs[1..][j - 1];
      1 + rest
  }

  /** Linear interpolation as interp1d does it: bracket with searchsorted
      clipped to [1, |xs| - 1], then the straight line through the two
      bracketing nodes. Outside [xs[0], xs[last]] there is no value (the
      library raises). */
  function Interp(xs: seq<real>, ys: seq<real>, x: real): (r: Option<real>)
    requires 2 <= |xs| == |ys| && StrictlyIncreasing(xs)
    ensures r.None? <==> x < xs[0] || x > xs[|xs| - 1]
  {
    if x < xs[0] || x > xs[|xs| - 1] then None
    else
      var s := SearchLeft(xs, x);
      var hi := if s < 1 then 1 else if s > |xs| - 1 then |xs| - 1 else s;
      var lo := hi - 1;
      var slope := (ys[hi] - ys[lo]) / (xs[hi] - xs[lo]);
      Some(slope * (x - xs[lo]) + ys[lo])
  }

  /** Inside the range, the interpolant lies between the smallest and the
      largest node value. */
  lemma InterpWithin(xs: seq<real>, ys: seq<real>, x: real, low: real, high: real)
    requires 2 <= |xs| == |ys| && StrictlyIncreasing(xs)
    requires xs[0] <= x <= xs[|xs| - 1]
    requires forall i :: 0 <= i < |ys| ==> low <= ys[i] <= high
    ensures low <= Interp(xs, ys, x).value <= high
  {
    var s := SearchLeft(xs, x);
    var hi := if s < 1 then 1 else if s > |xs| - 1 then |xs| - 1 else s;
    var lo := hi - 1;
    assert s < |xs|;
    assert xs[lo] <= x <= xs[hi];
    LineBetween(xs[lo], xs[hi], ys[lo], ys[hi], x, low, high);
  }

  /** On [x0, x1] the line through (x0, y0) and (x1, y1) stays between any
      common bounds of y0 and y1. */
  lemma LineBetween(x0: real, x1: real, y0: real, y1: real, x: real, low: real, high: real)
    requires x0 < x1 && x0 <= x <= x1
    requires low <= y0 <= high && low <= y1 <= high
    ensures low <= (y1 - y0) / (x1 - x0) * (x - x0) + y0 <= high
  {
    var f := (x - x0) / (x1 - x0);
    FractionInUnit(x - x0, x1 - x0);
    assert (y1 - y0) / (x1 - x0) * (x - x0) == f * (y1 - y0);
    assert f * (y1 - y0) + y0 == f * y1 + (1.0 - f) * y0;
    assert f * low <= f * y1 <= f * high;
    assert (1.0 - f) * low <= (1.0 - f) * y0 <= (1.0 - f) * high;
  }

  /** At every node the interpolant returns that node's value. */
  lemma InterpAtNode(xs: seq<real>, ys: seq<real>, i: nat)
    requires 2 <= |xs| == |ys| && StrictlyIncreasing(xs) && i < |xs|
    ensures Interp(xs, ys, xs[i]) == Some(ys[i])
  {
    var x := xs[i];
    SearchAtNode(xs, i);
    var hi := if i < 1 then 1 else i;
    var lo := hi - 1;
    var slope := (ys[hi] - ys[lo]) / (xs[hi] - xs[lo]);
    assert Interp(xs, ys, x).Some?;
    assert Interp(xs, ys, x).value == slope * (x - xs[lo]) + ys[lo];
    if i == 0 {
      assert x - xs[lo] == 0.0 && slope * 0.0 == 0.0;
      assert Interp(xs, ys, x).value == ys[i];
    } else {
      assert xs[lo] < xs[hi] && hi == i;
      RiseOverRun(ys[hi] - ys[lo], xs[hi] - xs[lo]);
      assert slope * (xs[hi] - xs[lo]) == ys[hi] - ys[lo];
      assert Interp(xs, ys, x).value == ys[i];
    }
  }

  /** Between two neighbouring nodes the interpolant is the straight line
      through them, whichever bracket the search picks at a node. */
  lemma InterpBetween(xs: seq<real>, ys: seq<real>, i: nat, x: real)
    requires 2 <= |xs| == |ys| && StrictlyIncreasing(xs)
    requires i + 1 < |xs| && xs[i] <= x <= xs[i + 1]
    ensures Interp(xs, ys, x).Some?
    ensures Interp(xs, ys, x).value == ys[i] + (ys[i + 1] - ys[i]) / (xs[i + 1] - xs[i]) * (x - xs[i])
  {
    assert xs[0] <= xs[i] && xs[i + 1] <= xs[|xs| - 1];
    if x == xs[i] {
      InterpAtNode(xs, ys, i);
      assert (ys[i + 1] - ys[i]) / (xs[i + 1] - xs[i]) * (x - xs[i]) == 0.0;
    } else {
      SearchInside(xs, i, x);
    }
  }

  /** Strictly past node i and at most node i + 1, the search gives i + 1. */
  lemma SearchInside(xs: seq<real>, i: nat, x: real)
    requires StrictlyIncreasing(xs) && i + 1 < |xs| && xs[i] < x <= xs[i + 1]
    ensures SearchLeft(xs, x) == i + 1
  {
  }

  /** A node lies in the range, and the search finds its own index. */
  lemma SearchAtNode(xs: seq<real>, i: nat)
    requires StrictlyIncreasing(xs) && i < |xs|
    ensures xs[0] <= xs[i] <= xs[|xs| - 1]
    ensures SearchLeft(xs, xs[i]) == i
  {
    if 0 < i { assert xs[0] < xs[i]; }
    if i < |xs| - 1 { assert xs[i] < xs[|xs| - 1]; }
  }

  lemma RiseOverRun(dy: real, dx: real)
    requires dx > 0.0
    ensures dy / dx * dx == dy
  {
  }

  /** A part of a positive whole is a fraction in [0, 1]. */
  lemma FractionInUnit(a: real, b: real)
    requires 0.0 <= a <= b && b > 0.0
    ensures 0.0 <= a / b <= 1.0
  {
    assert a / b * b == a;
  }

  // ---------------------------------------------------------------------
  // The weight of a pair

  /** The hour at which the weight of a pair whose first measurement is at
      t is looked up: mod((t - t0) / 3600, 24), hours since the earliest
      time of the working set, folded into a day. */
  function WeightHour(t0: real, t: real): (h: real)
    ensures 0.0 <= h < 24.0
  {
    Mod24((t - t0) / 3600.0)
  }

  /** A table ready for lookup: 48 strictly increasing centres from 0 to
      24 and 48 counts, each at least one. */
  predicate DiurnalTable(centres: seq<real>, counts: seq<int>)
  {
    |centres| == NumBins && |counts| == NumBins
    && StrictlyIncreasing(centres) && centres[0] == 0.0 && centres[NumBins - 1] == 24.0
    && forall i :: 0 <= i < NumBins ==> counts[i] >= 1
  }

  function AsReals(counts: seq<int>): (r: seq<real>)
    ensures |r| == |counts|
    ensures forall i :: 0 <= i < |r| ==> r[i] == counts[i] as real
  {
    seq(|counts|, i requires 0 <= i < |counts| => counts[i] as real)
  }

  /** countf at the hour of a pair: always defined, since the lookup hour
      lies in [0, 24), and at least one, since every count is. */
  function CountAt(centres: seq<real>, counts: seq<int>, t0: real, t: real): (c: real)
    requires DiurnalTable(centres, counts)
    ensures c >= 1.0
  {
    var ys := AsReals(counts);
    var h := WeightHour(t0, t);
    var big := MaxCount(counts);
    InterpWithin(centres, ys, h, 1.0, big as real);
    Interp(centres, ys, h).value
  }

  /** The largest count. */
  function MaxCount(counts: seq<int>): (m: int)
    ensures forall i :: 0 <= i < |counts| ==> counts[i] <= m
  {
    if counts == [] then 0
    else
      var rest := MaxCount(counts[1..]);
      assert forall i :: 1 <= i < |counts| ==> counts[i] == counts[1..][i - 1];
      if counts[0] > rest then counts[0] else rest
  }

  /** w = 1 / countf(mod((t[k] - t0) / 3600, 24)): a weight in (0, 1]. */
  function Weight(centres: seq<real>, counts: seq<int>, t0: real, t: real): (w: real)
    requires DiurnalTable(centres, counts)
    ensures 0.0 < w <= 1.0
  {
    1.0 / CountAt(centres, counts, t0, t)
  }

  /** At a bin centre the weight is the reciprocal of that bin's count. */
  lemma WeightAtCentre(centres: seq<real>, counts: seq<int>, t0: real, t: real, i: nat)
    requires DiurnalTable(centres, counts) && i < NumBins
    requires WeightHour(t0, t) == centres[i]
    ensures Weight(centres, counts, t0, t) == 1.0 / counts[i] as real
  {
    InterpAtNode(centres, AsReals(counts), i);
  }

  /** From a histogram over hours of day to a table ready for lookup:
      flooring the counts and pinning the centres always give one. */
  lemma HistogramGivesTable(edges: seq<real>, thist: seq<int>)
    requires |edges| == NumBins + 1 && StrictlyIncreasing(edges)
    requires 0.0 <= edges[0] && edges[NumBins] < 24.0
    requires |thist| == NumBins
    ensures DiurnalTable(Centres(edges), Floored(thist))
  {
    CentresIncrease(edges);
  }

  // ---------------------------------------------------------------------
  // The lookup hour against the histogram hour

  /** Shifting by whole days does not change the hour of day. */
  lemma Mod24Shift(x: real, d: int)
    ensures Mod24(x - 24.0 * d as real) == Mod24(x)
  {
    assert (x - 24.0 * d as real) / 24.0 == x / 24.0 - d as real;
    assert ((x - 24.0 * d as real) / 24.0).Floor == (x / 24.0).Floor - d;
  }

  /** When the working set starts at a UTC midnight the lookup hour is the
      hour of day the histogram was built from. */
  lemma WeightHourAtMidnightStart(t0: real, t: real, days: int)
    requires t0 == 86400.0 * days as real
    ensures WeightHour(t0, t) == HourOfDay(t)
  {
    assert (t - t0) / 3600.0 == t / 3600.0 - 24.0 * days as real;
    Mod24Shift(t / 3600.0, days);
  }

  /** Otherwise they differ: with the earliest time at 01:00 a pair at 02:00
      is looked up at hour 1 of the histogram, not hour 2. */
  lemma WeightHourIsNotHourOfDay()
    ensures WeightHour(3600.0, 7200.0) == 1.0
    ensures HourOfDay(7200.0) == 2.0
  {
    assert (1.0 / 24.0).Floor == 0;
    assert (2.0 / 24.0).Floor == 0;
  }
}
