/** cfi end to end up to the least-squares solve: the hour-of-day subset,
    the pair search over it, the diurnal weight table, and the weighted and
    unweighted design rows of every recorded pair. The histogram of the
    pairs' hours of day (its 48 counts and 49 edges) is an input. */
module Inversion {
  import opened Common
  import opened HourFilter
  import opened PairFinder
  import opened Diurnal
  import opened Design

  /** The design of cfi for one lag specification. On success the pairs
      are those of the search over the hour-of-day subset, and row pi of
      the matrices and observations belongs to pair pi, weighted by the
      diurnal table built from the histogram, with hours counted from the
      earliest time of the subset. When the search raises, nothing is
      designed. */
  method Cfi(table0: seq<Measurement>, s: LagSpec, sqrt: real -> real,
             edges: seq<real>, thist: seq<int>)
    returns (err: Option<SearchError>, pl: PairLists, seen: set<(nat, nat)>,
             A: array2<real>, Ao: array2<real>, m: array<real>, mo: array<real>, ws: seq<real>)
    requires |edges| == NumBins + 1 && StrictlyIncreasing(edges)
    requires 0.0 <= edges[0] && edges[NumBins] < 24.0
    requires |thist| == NumBins
    ensures DiurnalTable(Centres(edges), Floored(thist))
    ensures var table := SelectHours(table0, s.hourOfDay, s.dhourOfDay);
      && (err == Some(EmptyWorkingSet) <==> |table| == 0)
      && (err == Some(ZeroLagResolution) <==> |table| > 0 && s.dtau == 0.0)
    ensures err.Some? ==> pl == NoPairs && seen == {} && A.Length0 == 0 && m.Length == 0 && ws == []
    ensures err.None? ==>
      var table := SelectHours(table0, s.hourOfDay, s.dhourOfDay);
      var centres, counts := Centres(edges), Floored(thist);
      |table| > 0
      && Outcome(table, sqrt, s, SearchWindows(table, s.dtau), pl, seen)
      && A.Length0 == |pl.pairs| && Ao.Length0 == |pl.pairs|
      && m.Length == |pl.pairs| && mo.Length == |pl.pairs| && |ws| == |pl.pairs|
      && forall pi :: 0 <= pi < |pl.pairs| ==>
           RowOk(table, pl.pairs, centres, counts, MinTime(table), A, Ao, m, mo, ws[pi], pi)
  {
    HistogramGivesTable(edges, thist);
    var table := SelectHours(table0, s.hourOfDay, s.dhourOfDay);
    err, pl, seen := FindPairs(table, s, sqrt);
    if err.Some? {
      A := new real[0, 6];
      Ao := new real[0, 6];
      m := new real[0];
      mo := new real[0];
      ws := [];
      return;
    }
    var hist := new int[|thist|](i requires 0 <= i < |thist| => thist[i]);
    assert hist[..] == thist;
    FloorCounts(hist);
    var bins := PinCentres(edges);
    var centres, counts := bins[..], hist[..];
    PairsInRange(table, sqrt, pl);
    A, Ao, m, mo, ws := BuildDesign(table, pl.pairs, centres, counts, MinTime(table));
  }

  /** The recorded pairs index the working set. */
  lemma PairsInRange(table: seq<Measurement>, sqrt: real -> real, pl: PairLists)
    requires Parallel(table, sqrt, pl)
    ensures forall j :: 0 <= j < |pl.pairs| ==> pl.pairs[j].0 < |table| && pl.pairs[j].1 < |table|
  {
  }
}
