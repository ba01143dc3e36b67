/** Shared vocabulary of the correlation-function inversion: the measurement
    record, the lag specification, the flat-earth constants, the hour of day,
    and the index selections that stand for numpy's boolean indexing. */
module Common {

  /** Kilometres per degree of latitude and of longitude (fixed, no
      latitude or altitude dependence). */
  const LatDeg2Km: real := 111.321
  const LonDeg2Km: real := 65.122785

  /** The Bragg vector of one measurement: the row braggs[k, 0..2], i.e. the
      sensitivity (ku, kv, kw) to the east, north and up wind components. */
  datatype Bragg = Bragg(u: real, v: real, w: real)

  /** One entry of the cleaned measurement table. The source keeps the six
      fields as parallel arrays; one record per index keeps them parallel by
      construction. */
  datatype Measurement = Measurement(t: real, height: real, lat: real, lon: real, dop: real, bragg: Bragg)

  /** The keyword arguments of cfi: the height band, the vertical, east,
      north, horizontal-distance and temporal lags with their resolutions,
      the spatial-mode selector and the hour-of-day band. */
  datatype LagSpec = LagSpec(
    h0: real, dh: real,
    sz: real, dsz: real,
    sx: real, dsx: real,
    sy: real, dsy: real,
    sh: real, dsh: real,
    tau: real, dtau: real,
    horizontalDist: bool,
    hourOfDay: real, dhourOfDay: real)

  /** The default values of cfi's keyword arguments. */
  const DefaultSpec: LagSpec := LagSpec(
    90.0, 2.0,
    0.0, 1.0,
    0.0, 1.0,
    0.0, 0.0,
    0.0, 100.0,
    0.0, 300.0,
    false,
    0.0, 48.0)

  datatype Option<T> = None | Some(value: T)

  function Abs(x: real): real
  {
    if x < 0.0 then -x else x
  }

  /** numpy's mod(x, 24.0): the remainder takes the sign of the divisor. */
  function Mod24(x: real): (r: real)
    ensures 0.0 <= r < 24.0
    ensures (x - r) / 24.0 == ((x - r) / 24.0).Floor as real
  {
    x - 24.0 * (x / 24.0).Floor as real
  }

  /** Hour of day (UTC) of a time in seconds: mod(t / 3600, 24). */
  function HourOfDay(t: real): (h: real)
    ensures 0.0 <= h < 24.0
  {
    Mod24(t / 3600.0)
  }

  /** numpy.where over a mask of length n: the ascending indices at which
      the mask holds. */
  function Where(n: nat, p: nat -> bool): (r: seq<nat>)
    ensures |r| <= n
    ensures forall i: nat :: i in r <==> i < n && p(i)
    ensures forall a, b :: 0 <= a < b < |r| ==> r[a] < r[b]
  {
    if n == 0 then []
    else
      var front := Where(n - 1, p);
      assert forall a :: 0 <= a < |front| ==> front[a] in front;
      front + (if p(n - 1) then [n - 1] else [])
  }

  /** s[numpy.where(mask)] for an index array s: the entries of s, in
      order, at which the mask holds. */
  function Keep(s: seq<nat>, p: nat -> bool): (r: seq<nat>)
    ensures |r| <= |s|
    ensures forall x: nat :: x in r <==> x in s && p(x)
  {
    if s == [] then [] else (if p(s[0]) then [s[0]] else []) + Keep(s[1..], p)
  }

  /** A mask that holds everywhere selects every index, in order. */
  lemma {:induction false} WhereAll(n: nat, p: nat -> bool)
    requires forall i: nat :: i < n ==> p(i)
    ensures |Where(n, p)| == n
    ensures forall j :: 0 <= j < n ==> Where(n, p)[j] == j
  {
    if n > 0 {
      WhereAll(n - 1, p);
      assert Where(n, p) == Where(n - 1, p) + [n - 1];
    }
  }

  /** Fancy indexing table[idx] of all the parallel arrays at once. */
  function Take(table: seq<Measurement>, idx: seq<nat>): seq<Measurement>
    requires forall j :: 0 <= j < |idx| ==> idx[j] < |table|
  {
    seq(|idx|, j requires 0 <= j < |idx| => table[idx[j]])
  }

  /** Multiplying by a non-negative factor keeps an order. */
  lemma MulMonotone(a: real, b: real, c: real)
    requires a <= b && c >= 0.0
    ensures a * c <= b * c
  {
  }

  /** One more step of width c. */
  lemma AddOneMul(f: real, c: real)
    ensures (f + 1.0) * c == f * c + c
  {
  }

  /** Multiplying by a positive factor keeps a strict order. */
  lemma MulStrict(a: real, b: real, c: real)
    requires a < b && c > 0.0
    ensures a * c < b * c
  {
  }
}
