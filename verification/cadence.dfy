/** Nearest-cadence lookup: the index of the exposure whose time stamp is
    closest to a requested flare time, with a warning flag when no time stamp
    matches exactly. Shared by the flare image builder, the pixel-file
    preparation and the localisation entry point. */
module Cadence {
  import opened Base
  import opened Numeric

  /** `k` is the lowest index among the cadences nearest to `t`. */
  ghost predicate IsNearestCadence(time: seq<real>, t: real, k: int)
  {
    && 0 <= k < |time|
    && (forall j :: 0 <= j < |time| ==> Abs(time[k] - t) <= Abs(time[j] - t))
    && (forall j :: 0 <= j < k ==> Abs(time[k] - t) < Abs(time[j] - t))
  }

  function Distances(time: seq<real>, t: real): (d: seq<real>)
    ensures |d| == |time|
    ensures forall k :: 0 <= k < |time| ==> d[k] == Abs(time[k] - t)
  {
    seq(|time|, k requires 0 <= k < |time| => Abs(time[k] - t))
  }

  /** The chosen cadence and whether a nearest time was substituted for a
      missing exact one (the source prints a warning and carries on). */
  datatype Lookup = Lookup(index: nat, approximated: bool)

  /** argmin |time - t|; an empty time array makes numpy's argmin fail. */
  function FindImageIndex(time: seq<real>, t: real): (r: Result<Lookup>)
    ensures r.Err? <==> |time| == 0
    ensures r.Ok? ==> IsNearestCadence(time, t, r.value.index)
    ensures r.Ok? ==> (r.value.approximated <==> forall k :: 0 <= k < |time| ==> time[k] != t)
  {
    if |time| == 0 then Err(EmptyReduction)
    else
      var d := Distances(time, t);
      var k := ArgMin(d);
      assert d[k] == Min(d) by {
        assert Min(d) in d;
      }
      assert (exists j :: 0 <= j < |time| && time[j] == t) ==> d[k] == 0.0;
      Ok(Lookup(k, Min(d) != 0.0))
  }

  /** The nearest-cadence index is unique: any index meeting the definition
      is the one `FindImageIndex` returns. */
  lemma NearestCadenceIsFound(time: seq<real>, t: real, k: int)
    requires IsNearestCadence(time, t, k)
    ensures FindImageIndex(time, t).Ok? && FindImageIndex(time, t).value.index == k
  {
    var d := Distances(time, t);
    var r := FindImageIndex(time, t);
    assert IsFirstMinimum(d, k);
    assert IsFirstMinimum(d, r.value.index);
    FirstMinimumUnique(d, k, r.value.index);
  }

  /** The unit-test fixture: an exact time stamp gives its own index. */
  lemma ExactTimeFindsItsCadence()
    ensures FindImageIndex([90.34, 95.34, 100.34, 105.34], 100.34) == Ok(Lookup(2, false))
  {
    var time := [90.34, 95.34, 100.34, 105.34];
    assert IsNearestCadence(time, 100.34, 2);
    NearestCadenceIsFound(time, 100.34, 2);
  }

  /** The unit-test fixture: 95.5 lies nearest to 95.34, with a warning. */
  lemma NearestTimeFindsClosestCadence()
    ensures FindImageIndex([90.34, 95.34, 100.34, 105.34], 95.5) == Ok(Lookup(1, true))
  {
    var time := [90.34, 95.34, 100.34, 105.34];
    assert Abs(time[1] - 95.5) == 0.16;
    assert IsNearestCadence(time, 95.5, 1);
    NearestCadenceIsFound(time, 95.5, 1);
  }
}
