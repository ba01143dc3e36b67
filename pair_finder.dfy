/** The time-windowed pair search of cfi: overlapping time windows of width
    2*dtau stepped by dtau, a reference and a lagged height band in each
    window, the spatial, vertical, self-exclusion and temporal predicates,
    the 2 km / 2 s floor, and the seen-set that records every unordered pair
    once together with its realized lags. */
module PairFinder {
  import opened Common

  // ---------------------------------------------------------------------
  // Time span and windows

  /** numpy.min(t) over a non-empty working set. */
  function MinTime(table: seq<Measurement>): (r: real)
    requires |table| > 0
    ensures forall j :: 0 <= j < |table| ==> r <= table[j].t
    ensures exists j :: 0 <= j < |table| && table[j].t == r
  {
    MinUpTo(table, |table|)
  }

  /** The least time among the first n measurements. */
  function MinUpTo(table: seq<Measurement>, n: nat): (r: real)
    requires 0 < n <= |table|
    ensures forall j :: 0 <= j < n ==> r <= table[j].t
    ensures exists j :: 0 <= j < n && table[j].t == r
  {
    if n == 1 then table[0].t
    else
      var rest := MinUpTo(table, n - 1);
      if table[n - 1].t < rest then table[n - 1].t else rest
  }

  /** numpy.max(t) over a non-empty working set. */
  function MaxTime(table: seq<Measurement>): (r: real)
    requires |table| > 0
    ensures forall j :: 0 <= j < |table| ==> table[j].t <= r
    ensures exists j :: 0 <= j < |table| && table[j].t == r
  {
    MaxUpTo(table, |table|)
  }

  /** The greatest time among the first n measurements. */
  function MaxUpTo(table: seq<Measurement>, n: nat): (r: real)
    requires 0 < n <= |table|
    ensures forall j :: 0 <= j < n ==> table[j].t <= r
    ensures exists j :: 0 <= j < n && table[j].t == r
  {
    if n == 1 then table[0].t
    else
      var rest := MaxUpTo(table, n - 1);
      if table[n - 1].t > rest then table[n - 1].t else rest
  }

  /** Python's int() on a float: truncation toward zero. */
  function Trunc(x: real): (r: int)
    ensures x >= 0.0 ==> r as real <= x < r as real + 1.0
    ensures x < 0.0 ==> r as real - 1.0 < x <= r as real
  {
    if x >= 0.0 then x.Floor else -((-x).Floor)
  }

  /** How many times the window loop runs: range(int(span / dtau)), which
      is empty when the truncated quotient is not positive. */
  function WindowCount(span: real, dtau: real): (n: nat)
    requires dtau != 0.0
    ensures span >= 0.0 && dtau > 0.0 ==> n as real <= span / dtau < n as real + 1.0
    ensures span >= 0.0 && dtau < 0.0 ==> n == 0
  {
    var q := Trunc(span / dtau);
    if q > 0 then q else 0
  }

  /** The open time interval (lo, hi) of one window. */
  datatype Window = Window(lo: real, hi: real)

  /** Window i of n: it starts at t0 + i*dtau and ends 2*dtau later, except
      the last, which ends at the latest time tmax. */
  function WindowAt(t0: real, tmax: real, dtau: real, n: nat, i: nat): Window
  {
    Window(i as real * dtau + t0, if i == n - 1 then tmax else i as real * dtau + 2.0 * dtau + t0)
  }

  /** The n windows of the search, in loop order. */
  function Windows(t0: real, tmax: real, dtau: real, n: nat): (ws: seq<Window>)
  {
    seq(n, (i: nat) => WindowAt(t0, tmax, dtau, n, i))
  }

  /** The windows cfi scans over a non-empty working set: from the earliest
      time, int((max - min) / dtau) of them. */
  function SearchWindows(table: seq<Measurement>, dtau: real): seq<Window>
    requires |table| > 0 && dtau != 0.0
  {
    var t0, tmax := MinTime(table), MaxTime(table);
    Windows(t0, tmax, dtau, WindowCount(tmax - t0, dtau))
  }

  // ---------------------------------------------------------------------
  // The acceptance predicates

  /** The reference height band, open at both ends. */
  predicate InReferenceBand(m: Measurement, s: LagSpec)
  {
    m.height > s.h0 - s.dh * 0.5 && m.height < s.h0 + s.dh * 0.5
  }

  /** The lagged height band, s_z above the reference band. */
  predicate InLaggedBand(m: Measurement, s: LagSpec)
  {
    m.height > s.h0 + s.sz - 0.5 * s.dh && m.height < s.h0 + s.sz + 0.5 * s.dh
  }

  /** idx0: the measurement lies in the reference height band and strictly
      inside the window. */
  predicate InReference(m: Measurement, s: LagSpec, w: Window)
  {
    InReferenceBand(m, s) && m.t > w.lo && m.t < w.hi
  }

  /** idx1: the measurement lies in the lagged height band and strictly
      inside the window shifted by tau. */
  predicate InLagged(m: Measurement, s: LagSpec, w: Window)
  {
    InLaggedBand(m, s) && m.t > w.lo + s.tau && m.t < w.hi + s.tau
  }

  /** Flat-earth north offset of l from k in km. */
  function NorthOffset(mk: Measurement, ml: Measurement): real
  {
    LatDeg2Km * (ml.lat - mk.lat)
  }

  /** Flat-earth east offset of l from k in km. */
  function EastOffset(mk: Measurement, ml: Measurement): real
  {
    LonDeg2Km * (ml.lon - mk.lon)
  }

  /** The horizontal distance, with numpy's square root passed in. */
  function HorDist(sqrt: real -> real, mk: Measurement, ml: Measurement): real
  {
    sqrt(NorthOffset(mk, ml) * NorthOffset(mk, ml) + EastOffset(mk, ml) * EastOffset(mk, ml))
  }

  /** dist_filter: the horizontal-distance test, or the east/north test. */
  predicate SpatialOk(sqrt: real -> real, s: LagSpec, mk: Measurement, ml: Measurement)
  {
    if s.horizontalDist then Abs(HorDist(sqrt, mk, ml) - s.sh) < s.dsh / 2.0
    else Abs(NorthOffset(mk, ml) - s.sy) < s.dsy / 2.0 && Abs(EastOffset(mk, ml) - s.sx) < s.dsx / 2.0
  }

  predicate VerticalOk(s: LagSpec, mk: Measurement, ml: Measurement)
  {
    Abs((ml.height - mk.height) - s.sz) < s.dsz / 2.0
  }

  predicate TemporalOk(s: LagSpec, mk: Measurement, ml: Measurement)
  {
    Abs(ml.t - mk.t - s.tau) < s.dtau / 2.0
  }

  /** The filter that turns idx1 into idxt for a reference measurement k. */
  predicate Candidate(table: seq<Measurement>, sqrt: real -> real, s: LagSpec, k: nat, l: nat)
  {
    k < |table| && l < |table|
    && SpatialOk(sqrt, s, table[k], table[l])
    && VerticalOk(s, table[k], table[l])
    && l != k
    && TemporalOk(s, table[k], table[l])
  }

  /** The floor against near-duplicates: more than 2 km and more than 2 s apart. */
  predicate FarEnough(sqrt: real -> real, mk: Measurement, ml: Measurement)
  {
    HorDist(sqrt, mk, ml) > 2.0 && Abs(ml.t - mk.t) > 2.0
  }

  /** (k, l) is a pair that window w offers and the floor lets through. */
  predicate Eligible(table: seq<Measurement>, sqrt: real -> real, s: LagSpec, w: Window, k: nat, l: nat)
  {
    k < |table| && l < |table|
    && InReference(table[k], s, w)
    && InLagged(table[l], s, w)
    && Candidate(table, sqrt, s, k, l)
    && FarEnough(sqrt, table[k], table[l])
  }

  function ReferenceIndices(table: seq<Measurement>, s: LagSpec, w: Window): (idx0: seq<nat>)
    ensures forall k: nat :: k in idx0 <==> k < |table| && InReference(table[k], s, w)
    ensures forall a, b :: 0 <= a < b < |idx0| ==> idx0[a] < idx0[b]
  {
    Where(|table|, (k: nat) => k < |table| && InReference(table[k], s, w))
  }

  function LaggedIndices(table: seq<Measurement>, s: LagSpec, w: Window): (idx1: seq<nat>)
    ensures forall l: nat :: l in idx1 <==> l < |table| && InLagged(table[l], s, w)
  {
    Where(|table|, (l: nat) => l < |table| && InLagged(table[l], s, w))
  }

  /** idxt: the lagged measurements that pass the per-pair filters for k. */
  function Matches(table: seq<Measurement>, sqrt: real -> real, s: LagSpec, k: nat, idx1: seq<nat>): (idxt: seq<nat>)
    ensures forall l: nat :: l in idxt <==> l in idx1 && Candidate(table, sqrt, s, k, l)
  {
    Keep(idx1, (l: nat) => Candidate(table, sqrt, s, k, l))
  }

  // ---------------------------------------------------------------------
  // What the search records

  /** The lists pairs, tods, taus, s_zs, s_xs, s_ys and s_hs. */
  datatype PairLists = PairLists(
    pairs: seq<(nat, nat)>,
    tods: seq<real>,
    taus: seq<real>,
    szs: seq<real>,
    sxs: seq<real>,
    sys: seq<real>,
    shs: seq<real>)

  const NoPairs: PairLists := PairLists([], [], [], [], [], [], [])

  function Swap(p: (nat, nat)): (nat, nat)
  {
    (p.1, p.0)
  }

  /** Appending one accepted pair to every list. */
  function WithPair(pl: PairLists, table: seq<Measurement>, sqrt: real -> real, k: nat, l: nat): PairLists
    requires k < |table| && l < |table|
  {
    PairLists(
      pl.pairs + [(k, l)],
      pl.tods + [table[k].t],
      pl.taus + [table[l].t - table[k].t],
      pl.szs + [table[l].height - table[k].height],
      pl.sxs + [EastOffset(table[k], table[l])],
      pl.sys + [NorthOffset(table[k], table[l])],
      pl.shs + [HorDist(sqrt, table[k], table[l])])
  }

  /** The seven lists have one entry per pair, and entry j holds the
      realized lags of pairs[j]. */
  ghost predicate Parallel(table: seq<Measurement>, sqrt: real -> real, pl: PairLists)
  {
    |pl.tods| == |pl.pairs| && |pl.taus| == |pl.pairs| && |pl.szs| == |pl.pairs|
    && |pl.sxs| == |pl.pairs| && |pl.sys| == |pl.pairs| && |pl.shs| == |pl.pairs|
    && forall j :: 0 <= j < |pl.pairs| ==>
      var k, l := pl.pairs[j].0, pl.pairs[j].1;
      k < |table| && l < |table|
      && pl.tods[j] == table[k].t
      && pl.taus[j] == table[l].t - table[k].t
      && pl.szs[j] == table[l].height - table[k].height
      && pl.sxs[j] == EastOffset(table[k], table[l])
      && pl.sys[j] == NorthOffset(table[k], table[l])
      && pl.shs[j] == HorDist(sqrt, table[k], table[l])
  }

  /** Some window of the search offers (k, l). */
  ghost predicate FoundInWindows(table: seq<Measurement>, sqrt: real -> real, s: LagSpec,
                                 wins: seq<Window>, k: nat, l: nat)
  {
    exists i: nat :: i < |wins| && Eligible(table, sqrt, s, wins[i], k, l)
  }

  /** Every recorded pair was offered by some window. */
  ghost predicate Sound(table: seq<Measurement>, sqrt: real -> real, s: LagSpec,
                        wins: seq<Window>, pairs: seq<(nat, nat)>)
  {
    forall j :: 0 <= j < |pairs| ==> FoundInWindows(table, sqrt, s, wins, pairs[j].0, pairs[j].1)
  }

  /** (k, l) is met before (l, k) in the scan: some window i offers (k, l),
      and (l, k) is offered by no earlier window, nor by window i itself
      with l scanned before k (idx0 ascends). */
  ghost predicate MetFirst(table: seq<Measurement>, sqrt: real -> real, s: LagSpec,
                           wins: seq<Window>, k: nat, l: nat)
  {
    exists i: nat :: i < |wins| && Eligible(table, sqrt, s, wins[i], k, l)
      && forall i': nat :: i' <= i && Eligible(table, sqrt, s, wins[i'], l, k) ==> i' == i && k < l
  }

  /** Every recorded pair is stored in the order the scan met it. */
  ghost predicate Oriented(table: seq<Measurement>, sqrt: real -> real, s: LagSpec,
                           wins: seq<Window>, pairs: seq<(nat, nat)>)
  {
    forall j :: 0 <= j < |pairs| ==> MetFirst(table, sqrt, s, wins, pairs[j].0, pairs[j].1)
  }

  /** Each of the seven lists of pl0 is a prefix of the same list of pl. */
  predicate Extends(pl0: PairLists, pl: PairLists)
  {
    pl0.pairs <= pl.pairs && pl0.tods <= pl.tods && pl0.taus <= pl.taus && pl0.szs <= pl.szs
    && pl0.sxs <= pl.sxs && pl0.sys <= pl.sys && pl0.shs <= pl.shs
  }

  /** No ordered pair twice, and never both (k, l) and (l, k). */
  ghost predicate Unique(pairs: seq<(nat, nat)>)
  {
    forall a, b :: 0 <= a < b < |pairs| ==> pairs[a] != pairs[b] && pairs[a] != Swap(pairs[b])
  }

  /** The keys of pair_dict are exactly the recorded pairs in both orders. */
  ghost predicate KeysMatch(seen: set<(nat, nat)>, pairs: seq<(nat, nat)>)
  {
    && (forall x :: x in seen ==> x in pairs || Swap(x) in pairs)
    && (forall j :: 0 <= j < |pairs| ==> pairs[j] in seen && Swap(pairs[j]) in seen)
  }

  /** The state the search loops keep. */
  ghost predicate Recorded(table: seq<Measurement>, sqrt: real -> real, s: LagSpec,
                           wins: seq<Window>, pl: PairLists, seen: set<(nat, nat)>)
  {
    Parallel(table, sqrt, pl)
    && Sound(table, sqrt, s, wins, pl.pairs)
    && Oriented(table, sqrt, s, wins, pl.pairs)
    && Unique(pl.pairs)
    && KeysMatch(seen, pl.pairs)
  }

  /** The scan has passed every window before i and, in window i, every
      reference index below k: each pair offered there is a key. */
  ghost predicate ScannedBefore(table: seq<Measurement>, sqrt: real -> real, s: LagSpec,
                                wins: seq<Window>, i: nat, k: nat, seen: set<(nat, nat)>)
  {
    forall i': nat, k': nat, l': nat ::
      i' < |wins| && Eligible(table, sqrt, s, wins[i'], k', l') && (i' < i || (i' == i && k' < k))
      ==> (k', l') in seen
  }

  /** A pair accepted at reference index k of window i, when it is not yet
      a key, is met there before its swap. */
  lemma AcceptedMetFirst(table: seq<Measurement>, sqrt: real -> real, s: LagSpec,
                         wins: seq<Window>, pl: PairLists, seen: set<(nat, nat)>,
                         i: nat, k: nat, l: nat)
    requires KeysMatch(seen, pl.pairs)
    requires ScannedBefore(table, sqrt, s, wins, i, k, seen)
    requires i < |wins| && Eligible(table, sqrt, s, wins[i], k, l)
    requires (k, l) !in seen
    ensures MetFirst(table, sqrt, s, wins, k, l)
  {
    assert (l, k) !in seen;
    forall i': nat | i' <= i && Eligible(table, sqrt, s, wins[i'], l, k)
      ensures i' == i && k < l
    {
      assert i' < i || l < k ==> (l, k) in seen;
    }
  }

  /** Two distinct indices are not each met before the other. */
  lemma MetFirstOneWay(table: seq<Measurement>, sqrt: real -> real, s: LagSpec,
                       wins: seq<Window>, k: nat, l: nat)
    requires MetFirst(table, sqrt, s, wins, k, l)
    ensures !MetFirst(table, sqrt, s, wins, l, k)
  {
    var i: nat :| i < |wins| && Eligible(table, sqrt, s, wins[i], k, l)
      && forall i': nat :: i' <= i && Eligible(table, sqrt, s, wins[i'], l, k) ==> i' == i && k < l;
    forall i2: nat | i2 < |wins| && Eligible(table, sqrt, s, wins[i2], l, k)
      ensures exists i': nat :: i' <= i2 && Eligible(table, sqrt, s, wins[i'], k, l) && !(i' == i2 && l < k)
    {
      assert i <= i2;
      assert Eligible(table, sqrt, s, wins[i], k, l) && !(i == i2 && l < k);
    }
  }

  /** Accepting a pair that window i offers, that is met before its swap
      and that is not yet a key keeps the recorded state consistent. */
  lemma RecordKeepsState(table: seq<Measurement>, sqrt: real -> real, s: LagSpec,
                         wins: seq<Window>, pl: PairLists, seen: set<(nat, nat)>,
                         i: nat, k: nat, l: nat)
    requires Recorded(table, sqrt, s, wins, pl, seen)
    requires i < |wins| && Eligible(table, sqrt, s, wins[i], k, l)
    requires MetFirst(table, sqrt, s, wins, k, l)
    requires (k, l) !in seen
    ensures Recorded(table, sqrt, s, wins, WithPair(pl, table, sqrt, k, l), seen + {(k, l), (l, k)})
  {
    var pl' := WithPair(pl, table, sqrt, k, l);
    var seen' := seen + {(k, l), (l, k)};
    assert FoundInWindows(table, sqrt, s, wins, k, l);
    assert (k, l) !in pl.pairs && (l, k) !in pl.pairs;
    assert forall a :: 0 <= a < |pl.pairs| ==> pl.pairs[a] in pl.pairs;
    forall x
      ensures x in seen' <==> x in pl'.pairs || Swap(x) in pl'.pairs
    {
      assert x in pl'.pairs <==> x in pl.pairs || x == (k, l);
      assert Swap(x) in pl'.pairs <==> Swap(x) in pl.pairs || Swap(x) == (k, l);
    }
  }

  // ---------------------------------------------------------------------
  // The search

  datatype SearchError =
    | EmptyWorkingSet      // numpy.max / numpy.min of an empty array raise
    | ZeroLagResolution    // int() of span / 0.0 (inf or nan) raises

  /** The loop over idxt for one reference measurement k of window i.
      Afterwards every pair (k, l) that window i offers is a key as well as
      every pair offered earlier in the scan; the keys only grew, and the
      lists only grew at their ends. */
  method ScanMatches(table: seq<Measurement>, sqrt: real -> real, s: LagSpec,
                     wins: seq<Window>, i: nat, k: nat, idxt: seq<nat>,
                     pl0: PairLists, seen0: set<(nat, nat)>)
    returns (pl: PairLists, seen: set<(nat, nat)>)
    requires i < |wins| && k < |table| && InReference(table[k], s, wins[i])
    requires forall l: nat :: l in idxt ==> l < |table| && InLagged(table[l], s, wins[i])
                                            && Candidate(table, sqrt, s, k, l)
    requires forall l: nat :: Eligible(table, sqrt, s, wins[i], k, l) ==> l in idxt
    requires Recorded(table, sqrt, s, wins, pl0, seen0)
    requires ScannedBefore(table, sqrt, s, wins, i, k, seen0)
    ensures Recorded(table, sqrt, s, wins, pl, seen)
    ensures Extends(pl0, pl) && seen0 <= seen
    ensures ScannedBefore(table, sqrt, s, wins, i, k + 1, seen)
  {
    pl, seen := pl0, seen0;
    ghost var w := wins[i];
    for li := 0 to |idxt|
      invariant Recorded(table, sqrt, s, wins, pl, seen)
      invariant Extends(pl0, pl) && seen0 <= seen
      invariant ScannedBefore(table, sqrt, s, wins, i, k, seen)
      invariant forall l: nat :: l in idxt[..li] && Eligible(table, sqrt, s, w, k, l) ==> (k, l) in seen
    {
      var l := idxt[li];
      assert l in idxt;
      if (k, l) !in seen {
        var horDist := HorDist(sqrt, table[k], table[l]);
        if horDist > 2.0 && Abs(table[l].t - table[k].t) > 2.0 {
          AcceptedMetFirst(table, sqrt, s, wins, pl, seen, i, k, l);
          RecordKeepsState(table, sqrt, s, wins, pl, seen, i, k, l);
          seen := seen + {(k, l), (l, k)};
          pl := WithPair(pl, table, sqrt, k, l);
        }
      }
      assert idxt[..li + 1] == idxt[..li] + [l];
    }
    assert idxt[..|idxt|] == idxt;
  }

  /** Entering reference index idx0[ki] of window i: every smaller
      reference index of the window is among the ones already scanned. */
  lemma EnterReference(table: seq<Measurement>, sqrt: real -> real, s: LagSpec,
                       wins: seq<Window>, i: nat, idx0: seq<nat>, ki: nat, seen: set<(nat, nat)>)
    requires i < |wins| && ki < |idx0|
    requires idx0 == ReferenceIndices(table, s, wins[i])
    requires ScannedBefore(table, sqrt, s, wins, i, 0, seen)
    requires forall k: nat, l: nat :: k in idx0[..ki] && Eligible(table, sqrt, s, wins[i], k, l) ==> (k, l) in seen
    ensures ScannedBefore(table, sqrt, s, wins, i, idx0[ki], seen)
  {
    forall i': nat, k': nat, l': nat |
      i' < |wins| && Eligible(table, sqrt, s, wins[i'], k', l') && (i' < i || (i' == i && k' < idx0[ki]))
      ensures (k', l') in seen
    {
      if i' == i {
        assert k' in idx0;
        var a :| 0 <= a < |idx0| && idx0[a] == k';
        assert a < ki;
        assert k' in idx0[..ki];
      }
    }
  }

  /** One pass of the window loop: the reference loop over idx0. Afterwards
      every pair that window i or an earlier one offers is a key; the keys
      only grew, and the lists only grew at their ends. */
  method ScanWindow(table: seq<Measurement>, sqrt: real -> real, s: LagSpec,
                    wins: seq<Window>, i: nat,
                    pl0: PairLists, seen0: set<(nat, nat)>)
    returns (pl: PairLists, seen: set<(nat, nat)>)
    requires i < |wins|
    requires Recorded(table, sqrt, s, wins, pl0, seen0)
    requires ScannedBefore(table, sqrt, s, wins, i, 0, seen0)
    ensures Recorded(table, sqrt, s, wins, pl, seen)
    ensures Extends(pl0, pl) && seen0 <= seen
    ensures ScannedBefore(table, sqrt, s, wins, i + 1, 0, seen)
  {
    pl, seen := pl0, seen0;
    var w := wins[i];
    var idx0 := ReferenceIndices(table, s, w);
    var idx1 := LaggedIndices(table, s, w);
    for ki := 0 to |idx0|
      invariant Recorded(table, sqrt, s, wins, pl, seen)
      invariant Extends(pl0, pl) && seen0 <= seen
      invariant ScannedBefore(table, sqrt, s, wins, i, 0, seen)
      invariant forall k: nat, l: nat :: k in idx0[..ki] && Eligible(table, sqrt, s, w, k, l) ==> (k, l) in seen
    {
      var k := idx0[ki];
      assert k in idx0;
      EnterReference(table, sqrt, s, wins, i, idx0, ki, seen);
      var idxt := Matches(table, sqrt, s, k, idx1);
      pl, seen := ScanMatches(table, sqrt, s, wins, i, k, idxt, pl, seen);
      assert idx0[..ki + 1] == idx0[..ki] + [k];
    }
    assert idx0[..|idx0|] == idx0;
  }

  /** The window loop of cfi over a non-empty working set: n windows
      spanning the earliest to the latest time. */
  method ScanWindows(table: seq<Measurement>, sqrt: real -> real, s: LagSpec)
    returns (pl: PairLists, seen: set<(nat, nat)>)
    requires |table| > 0 && s.dtau != 0.0
    ensures Outcome(table, sqrt, s, SearchWindows(table, s.dtau), pl, seen)
  {
    var wins := SearchWindows(table, s.dtau);
    pl, seen := NoPairs, {};
    for i := 0 to |wins|
      invariant Recorded(table, sqrt, s, wins, pl, seen)
      invariant ScannedBefore(table, sqrt, s, wins, i, 0, seen)
    {
      pl, seen := ScanWindow(table, sqrt, s, wins, i, pl, seen);
    }
    Conclude(table, sqrt, s, wins, pl, seen);
  }

  /** The result of the whole search over n windows: the lists are parallel
      and hold the realized lags, no unordered pair is recorded twice, the
      key set of pair_dict is exactly both orders of every recorded pair,
      every recorded pair is offered by some window, passes the 2 km / 2 s
      floor and is stored in the order the scan met it, every pair any
      window offers is recorded in one of its two orders, and zero windows
      give no pairs. */
  ghost predicate Outcome(table: seq<Measurement>, sqrt: real -> real, s: LagSpec,
                          wins: seq<Window>, pl: PairLists, seen: set<(nat, nat)>)
  {
    && Parallel(table, sqrt, pl)
    && Unique(pl.pairs)
    && KeysMatch(seen, pl.pairs)
    && (forall j :: 0 <= j < |pl.pairs| ==>
          FoundInWindows(table, sqrt, s, wins, pl.pairs[j].0, pl.pairs[j].1))
    && Oriented(table, sqrt, s, wins, pl.pairs)
    && (forall i: nat, k: nat, l: nat ::
          i < |wins| && Eligible(table, sqrt, s, wins[i], k, l) ==>
          (k, l) in pl.pairs || (l, k) in pl.pairs)
    && (wins == [] ==> pl.pairs == [])
  }

  /** What the loops' invariants give once every window is scanned. */
  lemma Conclude(table: seq<Measurement>, sqrt: real -> real, s: LagSpec,
                 wins: seq<Window>, pl: PairLists, seen: set<(nat, nat)>)
    requires Recorded(table, sqrt, s, wins, pl, seen)
    requires ScannedBefore(table, sqrt, s, wins, |wins|, 0, seen)
    ensures Outcome(table, sqrt, s, wins, pl, seen)
  {
    if |pl.pairs| > 0 {
      assert FoundInWindows(table, sqrt, s, wins, pl.pairs[0].0, pl.pairs[0].1);
    }
  }

  /** Of the two orders of a pair some window offers, the lists hold
      exactly the one the scan met first. */
  lemma RecordedAsMet(table: seq<Measurement>, sqrt: real -> real, s: LagSpec,
                      wins: seq<Window>, pl: PairLists, seen: set<(nat, nat)>, k: nat, l: nat)
    requires Outcome(table, sqrt, s, wins, pl, seen)
    requires MetFirst(table, sqrt, s, wins, k, l)
    ensures (k, l) in pl.pairs && (l, k) !in pl.pairs
  {
    MetFirstOneWay(table, sqrt, s, wins, k, l);
    var i: nat :| i < |wins| && Eligible(table, sqrt, s, wins[i], k, l);
    assert (k, l) in pl.pairs || (l, k) in pl.pairs;
  }

  // ---------------------------------------------------------------------
  // Properties of the windows

  /** There are int((max - min) / dtau) windows (none when that is not
      positive); window i starts i*dtau after the earliest time, and the
      last one ends exactly at the latest time. */
  lemma WindowsShape(table: seq<Measurement>, dtau: real)
    requires |table| > 0 && dtau != 0.0
    ensures var wins := SearchWindows(table, dtau);
      && |wins| == WindowCount(MaxTime(table) - MinTime(table), dtau)
      && (forall i :: 0 <= i < |wins| ==> wins[i].lo == MinTime(table) + i as real * dtau)
      && (forall i :: 0 <= i < |wins| - 1 ==> wins[i].hi == wins[i].lo + 2.0 * dtau)
      && (wins != [] ==> wins[|wins| - 1].hi == MaxTime(table))
  {
  }

  /** Every window is a non-empty interval inside [min(t), max(t)]; a
      window exists only when the lag resolution is positive. */
  lemma WindowsInsideSpan(table: seq<Measurement>, dtau: real, i: nat)
    requires |table| > 0 && dtau != 0.0
    requires i < |SearchWindows(table, dtau)|
    ensures dtau > 0.0
    ensures var w := SearchWindows(table, dtau)[i];
      MinTime(table) <= w.lo < w.hi <= MaxTime(table)
  {
    var t0, tmax := MinTime(table), MaxTime(table);
    assert t0 <= table[0].t <= tmax;
    var n := WindowCount(tmax - t0, dtau);
    CountFitsSpan(tmax - t0, dtau);
    WindowInside(t0, tmax, dtau, n, i);
  }

  /** n windows stepped by dtau fit in the span. */
  lemma CountFitsSpan(span: real, dtau: real)
    requires span >= 0.0 && dtau != 0.0
    requires WindowCount(span, dtau) > 0
    ensures dtau > 0.0
    ensures WindowCount(span, dtau) as real * dtau <= span
  {
    var n := WindowCount(span, dtau);
    assert n as real <= span / dtau;
    MulMonotone(n as real, span / dtau, dtau);
    assert span / dtau * dtau == span;
  }

  /** Window i of n lies inside [t0, tmax] when n steps of dtau fit. */
  lemma WindowInside(t0: real, tmax: real, dtau: real, n: nat, i: nat)
    requires dtau > 0.0 && i < n && n as real * dtau <= tmax - t0
    ensures var w := WindowAt(t0, tmax, dtau, n, i);
      t0 <= w.lo < w.hi <= tmax
  {
    MulMonotone(0.0, i as real, dtau);
    if i == n - 1 {
      MulMonotone(i as real + 1.0, n as real, dtau);
    } else {
      MulMonotone(i as real + 2.0, n as real, dtau);
    }
  }

  /** The bounds t > it0 and t < it1 are strict, so a member of any
      reference set idx0 lies strictly between the earliest and the latest
      time. */
  lemma ReferenceIsInterior(table: seq<Measurement>, s: LagSpec, i: nat, k: nat)
    requires |table| > 0 && s.dtau != 0.0 && k < |table|
    requires i < |SearchWindows(table, s.dtau)|
    requires InReference(table[k], s, SearchWindows(table, s.dtau)[i])
    ensures MinTime(table) < table[k].t < MaxTime(table)
  {
    WindowsInsideSpan(table, s.dtau, i);
  }

  /** Hence neither the earliest nor the latest measurement is ever in a
      reference set. */
  lemma ExtremesNeverReference(table: seq<Measurement>, s: LagSpec, k: nat)
    requires |table| > 0 && s.dtau != 0.0 && k < |table|
    requires table[k].t == MinTime(table) || table[k].t == MaxTime(table)
    ensures forall i :: 0 <= i < |SearchWindows(table, s.dtau)| ==>
      !InReference(table[k], s, SearchWindows(table, s.dtau)[i])
  {
    forall i | 0 <= i < |SearchWindows(table, s.dtau)|
      ensures !InReference(table[k], s, SearchWindows(table, s.dtau)[i])
    {
      WindowsInsideSpan(table, s.dtau, i);
    }
  }

  /** A span shorter than dtau yields no window ... */
  lemma ShortSpanNoWindows(table: seq<Measurement>, dtau: real)
    requires |table| > 0 && dtau > 0.0
    requires MaxTime(table) - MinTime(table) < dtau
    ensures SearchWindows(table, dtau) == []
  {
    assert MinTime(table) <= table[0].t <= MaxTime(table);
    NoWindowBelowStep(MaxTime(table) - MinTime(table), dtau);
  }

  /** ... and so no pair and no key. */
  lemma ShortSpanNoPairs(table: seq<Measurement>, sqrt: real -> real, s: LagSpec,
                         pl: PairLists, seen: set<(nat, nat)>)
    requires |table| > 0 && s.dtau > 0.0
    requires MaxTime(table) - MinTime(table) < s.dtau
    requires Outcome(table, sqrt, s, SearchWindows(table, s.dtau), pl, seen)
    ensures pl.pairs == [] && seen == {}
  {
    ShortSpanNoWindows(table, s.dtau);
    assert pl.pairs == [];
  }

  /** The windows lose only the two ends of the span: once the span holds
      a whole step, a pair that passes every per-pair test, whose members
      lie in the two height bands, and whose reference time t[k] and
      shifted lagged time t[l] - tau both lie strictly between the
      earliest and the latest time, is offered by some window. */
  lemma InteriorPairOffered(table: seq<Measurement>, sqrt: real -> real, s: LagSpec, k: nat, l: nat)
    requires |table| > 0 && s.dtau > 0.0
    requires MaxTime(table) - MinTime(table) >= s.dtau
    requires k < |table| && l < |table|
    requires InReferenceBand(table[k], s) && InLaggedBand(table[l], s)
    requires Candidate(table, sqrt, s, k, l) && FarEnough(sqrt, table[k], table[l])
    requires MinTime(table) < table[k].t < MaxTime(table)
    requires MinTime(table) < table[l].t - s.tau < MaxTime(table)
    ensures FoundInWindows(table, sqrt, s, SearchWindows(table, s.dtau), k, l)
  {
    var tk, u := table[k].t, table[l].t - s.tau;
    var a := if tk < u then tk else u;
    var b := if tk < u then u else tk;
    var j := TimesInWindow(table, s.dtau, a, b);
    OfferedInWindow(table, sqrt, s, SearchWindows(table, s.dtau)[j], k, l);
  }

  /** A window holding both t[k] and t[l] - tau offers a pair that passes
      the height bands and the per-pair tests. */
  lemma OfferedInWindow(table: seq<Measurement>, sqrt: real -> real, s: LagSpec, w: Window, k: nat, l: nat)
    requires k < |table| && l < |table|
    requires InReferenceBand(table[k], s) && InLaggedBand(table[l], s)
    requires Candidate(table, sqrt, s, k, l) && FarEnough(sqrt, table[k], table[l])
    requires w.lo < table[k].t < w.hi && w.lo < table[l].t - s.tau < w.hi
    ensures Eligible(table, sqrt, s, w, k, l)
  {
  }

  /** Two times less than half a step apart, strictly between the earliest
      and the latest time, lie together in some window of the search. */
  lemma TimesInWindow(table: seq<Measurement>, dtau: real, a: real, b: real) returns (j: nat)
    requires |table| > 0 && dtau > 0.0
    requires MaxTime(table) - MinTime(table) >= dtau
    requires MinTime(table) < a <= b < MaxTime(table) && b < a + dtau / 2.0
    ensures j < |SearchWindows(table, dtau)|
    ensures SearchWindows(table, dtau)[j].lo < a && b < SearchWindows(table, dtau)[j].hi
  {
    var t0, tmax := MinTime(table), MaxTime(table);
    var n := WindowCount(tmax - t0, dtau);
    AtLeastOneWindow(tmax - t0, dtau);
    j := WindowHolding(t0, tmax, dtau, n, a, b);
  }

  /** Two times a and b less than half a step apart, after t0 and before
      tmax, lie together in one of the n windows. */
  lemma WindowHolding(t0: real, tmax: real, dtau: real, n: nat, a: real, b: real) returns (j: nat)
    requires dtau > 0.0 && n >= 1
    requires t0 < a <= b < tmax && b < a + dtau / 2.0
    ensures j < n
    ensures WindowAt(t0, tmax, dtau, n, j).lo < a && b < WindowAt(t0, tmax, dtau, n, j).hi
  {
    var i := StepBelow(a - t0, dtau);
    j := if i < n - 1 then i else n - 1;
    if j < i {
      MulMonotone(j as real, i as real, dtau);
    }
  }

  /** Hence, after the search, such a pair is recorded in one of its two
      orders. */
  lemma InteriorPairRecorded(table: seq<Measurement>, sqrt: real -> real, s: LagSpec,
                             pl: PairLists, seen: set<(nat, nat)>, k: nat, l: nat)
    requires |table| > 0 && s.dtau > 0.0
    requires MaxTime(table) - MinTime(table) >= s.dtau
    requires k < |table| && l < |table|
    requires InReferenceBand(table[k], s) && InLaggedBand(table[l], s)
    requires Candidate(table, sqrt, s, k, l) && FarEnough(sqrt, table[k], table[l])
    requires MinTime(table) < table[k].t < MaxTime(table)
    requires MinTime(table) < table[l].t - s.tau < MaxTime(table)
    requires Outcome(table, sqrt, s, SearchWindows(table, s.dtau), pl, seen)
    ensures (k, l) in pl.pairs || (l, k) in pl.pairs
  {
    InteriorPairOffered(table, sqrt, s, k, l);
  }

  /** A span of at least one step gives at least one window. */
  lemma AtLeastOneWindow(span: real, dtau: real)
    requires dtau > 0.0 && span >= dtau
    ensures WindowCount(span, dtau) >= 1
  {
    var q := span / dtau;
    assert q * dtau == span;
    assert q >= 1.0;
    assert Trunc(q) >= 1;
  }

  /** The step of width dtau, counted from zero, whose half-open interval
      (i*dtau, (i+1)*dtau] holds a positive x. */
  lemma StepBelow(x: real, dtau: real) returns (i: nat)
    requires x > 0.0 && dtau > 0.0
    ensures i as real * dtau < x <= i as real * dtau + dtau
  {
    var q := x / dtau;
    var f := q.Floor;
    i := if f as real == q then f - 1 else f;
    assert q * dtau == x;
    StepBeyond(i as real, q, dtau, x);
    StepAtMost(i as real, q, dtau, x);
  }

  lemma StepBeyond(f: real, q: real, dtau: real, d: real)
    requires dtau > 0.0 && f < q && d == q * dtau
    ensures f * dtau < d
  {
    MulStrict(f, q, dtau);
  }

  lemma StepAtMost(f: real, q: real, dtau: real, d: real)
    requires dtau > 0.0 && q <= f + 1.0 && d == q * dtau
    ensures d <= f * dtau + dtau
  {
    MulMonotone(q, f + 1.0, dtau);
    AddOneMul(f, dtau);
  }

  lemma NoWindowBelowStep(span: real, dtau: real)
    requires 0.0 <= span < dtau
    ensures WindowCount(span, dtau) == 0
  {
    if span / dtau >= 1.0 {
      MulMonotone(1.0, span / dtau, dtau);
      assert span / dtau * dtau == span;
    }
  }

  // ---------------------------------------------------------------------
  // Properties of what is recorded

  /** Every entry of the lists honours the floor and the temporal test: the
      horizontal distance exceeds 2 km, the time lag exceeds 2 s in
      magnitude and lies within dtau/2 of tau, and the pair is not a
      measurement with itself. */
  lemma ListsMeetFloor(table: seq<Measurement>, sqrt: real -> real, s: LagSpec,
                       wins: seq<Window>, pl: PairLists, seen: set<(nat, nat)>, j: nat)
    requires Outcome(table, sqrt, s, wins, pl, seen)
    requires j < |pl.pairs|
    ensures pl.pairs[j].0 != pl.pairs[j].1
    ensures pl.shs[j] > 2.0
    ensures Abs(pl.taus[j]) > 2.0
    ensures Abs(pl.taus[j] - s.tau) < s.dtau / 2.0
  {
    var k, l := pl.pairs[j].0, pl.pairs[j].1;
    assert FoundInWindows(table, sqrt, s, wins, k, l);
  }

  /** The keys of pair_dict are exactly the recorded pairs and their
      swaps. */
  lemma KeysAreBothOrders(seen: set<(nat, nat)>, pairs: seq<(nat, nat)>)
    requires KeysMatch(seen, pairs)
    ensures seen == (set j | 0 <= j < |pairs| :: pairs[j]) + (set j | 0 <= j < |pairs| :: Swap(pairs[j]))
  {
    var both := (set j | 0 <= j < |pairs| :: pairs[j]) + (set j | 0 <= j < |pairs| :: Swap(pairs[j]));
    forall x | x in seen ensures x in both {
      if x in pairs {
        var j :| 0 <= j < |pairs| && pairs[j] == x;
      } else {
        var j :| 0 <= j < |pairs| && pairs[j] == Swap(x);
        assert Swap(pairs[j]) == x;
      }
    }
  }

  /** sqrt is the non-negative square root on non-negative arguments. */
  ghost predicate IsSqrt(sqrt: real -> real)
  {
    forall x: real :: x >= 0.0 ==> sqrt(x) >= 0.0 && sqrt(x) * sqrt(x) == x
  }

  /** With a true square root the 2 km floor is a test on the squared
      flat-earth distance. */
  lemma FloorBySquares(sqrt: real -> real, mk: Measurement, ml: Measurement)
    requires IsSqrt(sqrt)
    ensures HorDist(sqrt, mk, ml) > 2.0 <==>
      NorthOffset(mk, ml) * NorthOffset(mk, ml) + EastOffset(mk, ml) * EastOffset(mk, ml) > 4.0
  {
    var d2 := SquaredDistance(mk, ml);
    HorDistIsRootOfSquare(sqrt, mk, ml);
    RootAboveTwo(sqrt(d2), d2);
  }

  /** The squared flat-earth distance, which is never negative. */
  function SquaredDistance(mk: Measurement, ml: Measurement): (d2: real)
    ensures d2 >= 0.0
  {
    SquareNonNegative(NorthOffset(mk, ml));
    SquareNonNegative(EastOffset(mk, ml));
    NorthOffset(mk, ml) * NorthOffset(mk, ml) + EastOffset(mk, ml) * EastOffset(mk, ml)
  }

  lemma HorDistIsRootOfSquare(sqrt: real -> real, mk: Measurement, ml: Measurement)
    ensures HorDist(sqrt, mk, ml) == sqrt(SquaredDistance(mk, ml))
  {
  }

  lemma RootAboveTwo(d: real, d2: real)
    requires d >= 0.0 && d * d == d2
    ensures d > 2.0 <==> d2 > 4.0
  {
    if d > 2.0 {
      MulMonotone(2.0, d, d);
    } else {
      MulMonotone(d, 2.0, d);
    }
  }

  lemma SquareNonNegative(x: real)
    ensures x * x >= 0.0
  {
    if x < 0.0 {
      assert x * x == (-x) * (-x);
      MulMonotone(0.0, -x, -x);
    } else {
      MulMonotone(0.0, x, x);
    }
  }

  /** The window loop of cfi. On success it returns the seven lists and the
      key set of pair_dict: every recorded pair is offered by some window
      and passes the floor, no unordered pair is recorded twice, every pair
      any window offers is recorded in one of its two orders, and the lists
      hold the realized lags of each pair. */
  method FindPairs(table: seq<Measurement>, s: LagSpec, sqrt: real -> real)
    returns (err: Option<SearchError>, pl: PairLists, seen: set<(nat, nat)>)
    ensures err == Some(EmptyWorkingSet) <==> |table| == 0
    ensures err == Some(ZeroLagResolution) <==> |table| > 0 && s.dtau == 0.0
    ensures err.Some? ==> pl == NoPairs && seen == {}
    ensures err.None? ==>
      Outcome(table, sqrt, s, SearchWindows(table, s.dtau), pl, seen)
  {
    pl, seen := NoPairs, {};
    if |table| == 0 {
      return Some(EmptyWorkingSet), pl, seen;
    }
    if s.dtau == 0.0 {
      return Some(ZeroLagResolution), pl, seen;
    }
    err := None;
    pl, seen := ScanWindows(table, sqrt, s);
  }
}
