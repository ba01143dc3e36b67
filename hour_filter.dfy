/** The hour-of-day restriction at the start of cfi: every measurement whose
    hour of day lies within dhour_of_day/2 of hour_of_day is kept, and all
    the parallel arrays are subset with the same index list. */
module HourFilter {
  import opened Common

  /** The per-measurement test behind t_idx. It compares hours on a line,
      not on a circle: there is no wrap-around at midnight. */
  predicate InHourBand(m: Measurement, hour: real, dhour: real)
  {
    Abs(HourOfDay(m.t) - hour) <= dhour / 2.0
  }

  /** The boolean mask of the band over the whole table. */
  function HourMask(table: seq<Measurement>, hour: real, dhour: real): nat -> bool
  {
    (i: nat) => i < |table| && InHourBand(table[i], hour, dhour)
  }

  /** t_idx: the ascending indices of the measurements in the band. */
  function HourIndices(table: seq<Measurement>, hour: real, dhour: real): (idx: seq<nat>)
    ensures forall i: nat :: i in idx <==> i < |table| && InHourBand(table[i], hour, dhour)
    ensures forall a, b :: 0 <= a < b < |idx| ==> idx[a] < idx[b]
    ensures forall j :: 0 <= j < |idx| ==> idx[j] < |table|
  {
    var idx := Where(|table|, HourMask(table, hour, dhour));
    assert forall j :: 0 <= j < |idx| ==> idx[j] in idx;
    idx
  }

  /** The working set: all parallel arrays indexed with t_idx. */
  function SelectHours(table: seq<Measurement>, hour: real, dhour: real): (r: seq<Measurement>)
    ensures |r| <= |table|
    ensures |r| == |HourIndices(table, hour, dhour)|
    ensures forall j :: 0 <= j < |r| ==> r[j] == table[HourIndices(table, hour, dhour)[j]]
    ensures forall j :: 0 <= j < |r| ==> InHourBand(r[j], hour, dhour)
    ensures forall i :: 0 <= i < |table| && InHourBand(table[i], hour, dhour) ==> table[i] in r
    ensures forall m :: m in r ==> m in table
  {
    var idx := HourIndices(table, hour, dhour);
    var r := Take(table, idx);
    assert forall i: nat :: i < |table| && InHourBand(table[i], hour, dhour) ==>
      exists j :: 0 <= j < |idx| && idx[j] == i && r[j] == table[i];
    r
  }

  /** With cfi's defaults (hour_of_day 0, dhour_of_day 48) the band is
      [-24, 24], which holds every hour of day, so nothing is dropped. */
  lemma {:induction false} DefaultBandKeepsAll(table: seq<Measurement>)
    ensures SelectHours(table, DefaultSpec.hourOfDay, DefaultSpec.dhourOfDay) == table
  {
    var p := HourMask(table, 0.0, 48.0);
    assert forall i: nat :: i < |table| ==> p(i) by {
      forall i: nat | i < |table| ensures p(i) {
        assert 0.0 <= HourOfDay(table[i].t) < 24.0;
      }
    }
    WhereAll(|table|, p);
    assert HourIndices(table, 0.0, 48.0) == seq(|table|, i => i);
  }

  /** The band does not wrap at midnight: a measurement at 00:30 is not
      within two hours of 23:00 although it is 1.5 hours away on the clock. */
  lemma BandDoesNotWrap(m: Measurement)
    requires m.t == 1800.0
    ensures !InHourBand(m, 23.0, 4.0)
  {
    assert (1800.0 / 3600.0 / 24.0).Floor == 0;
    assert HourOfDay(m.t) == 0.5;
  }
}
