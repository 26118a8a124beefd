/** The localisation entry point (src/new/flare_localization.py): a flare
    localisation object built from a flare time and a target pixel file,
    which checks that the time lies within the file's time span and keeps
    the image of the nearest cadence. */
module Localization {
  import opened Base
  import opened Numeric
  import opened Cadence
  import opened Image

  /** The state of a localisation: the flare time, the pixel file's time
      stamps and images, the image at the flare cadence, and the flare image,
      which nothing computes yet. */
  datatype FlareLocalization = FlareLocalization(
    flareTime: real,
    time: seq<real>,
    images: seq<Grid>,
    imageAtFlare: Grid,
    flareImage: Option<Grid>)

  /** The flare time must lie in [min(time), max(time)], both ends included;
      an empty time array makes numpy's min fail first. */
  function CheckFlareTime(tFlare: real, time: seq<real>): (r: Result<()>)
    ensures |time| == 0 ==> r == Err(EmptyReduction)
    ensures 0 < |time| ==>
      (r.Ok? <==> exists i, j :: 0 <= i < |time| && 0 <= j < |time| && time[i] <= tFlare <= time[j])
    ensures 0 < |time| && r.Err? ==> r.error == FlareTimeOutOfRange
  {
    if |time| == 0 then Err(EmptyReduction)
    else if tFlare < Min(time) || tFlare > Max(time) then Err(FlareTimeOutOfRange)
    else Ok(())
  }

  /** The image of the cadence nearest to the flare time. */
  function ImageAtFlareTime(tFlare: real, time: seq<real>, images: seq<Grid>): (r: Result<Grid>)
    requires |images| == |time|
    ensures r.Err? <==> |time| == 0
    ensures r.Ok? ==> exists k :: IsNearestCadence(time, tFlare, k) && r.value == images[k]
  {
    var lookup :- FindImageIndex(time, tFlare);
    Ok(images[lookup.index])
  }

  /** The constructor as the source states it: the range check is declared
      a static method yet keeps a `self` parameter, and the call passes only
      the flare time and the time array, so Python raises a TypeError for
      the missing argument before anything is checked: no input, in range
      or not, yields a localisation. */
  function NewAsWritten(tFlare: real, time: seq<real>, images: seq<Grid>): (r: Result<FlareLocalization>)
    requires |images| == |time|
    ensures r.Err? && r.error == MissingArgument
  {
    Err(MissingArgument)
  }

  /** The constructor as intended: check the flare time, then keep the image
      at the nearest cadence; the flare image starts out absent. */
  function New(tFlare: real, time: seq<real>, images: seq<Grid>): (r: Result<FlareLocalization>)
    requires |images| == |time|
    ensures r.Ok? <==> CheckFlareTime(tFlare, time).Ok?
    ensures r.Err? ==> r.error == CheckFlareTime(tFlare, time).error
    ensures r.Ok? ==>
      && r.value.flareTime == tFlare && r.value.time == time && r.value.images == images
      && r.value.flareImage.None?
      && exists k :: IsNearestCadence(time, tFlare, k) && r.value.imageAtFlare == images[k]
  {
    var checked := CheckFlareTime(tFlare, time);
    if checked.Err? then Err(checked.error)
    else
      Ok(FlareLocalization(tFlare, time, images, ImageAtFlareTime(tFlare, time, images).value, None))
  }

  /** Every flare time inside the span of the time stamps is accepted by the
      intended constructor and rejected by the constructor as written. */
  lemma ConstructorRejectsInRangeFlare(tFlare: real, time: seq<real>, images: seq<Grid>)
    requires |images| == |time| && 0 < |time|
    requires Min(time) <= tFlare <= Max(time)
    ensures New(tFlare, time, images).Ok?
    ensures NewAsWritten(tFlare, time, images).Err?
  {
  }

  /** A flare time equal to a time stamp selects the image of the first
      cadence with that time stamp. */
  lemma ExactFlareTimeKeepsItsImage(tFlare: real, time: seq<real>, images: seq<Grid>, k: nat)
    requires |images| == |time| && k < |time| && time[k] == tFlare
    requires forall j :: 0 <= j < k ==> time[j] != tFlare
    ensures New(tFlare, time, images).Ok?
    ensures New(tFlare, time, images).value.imageAtFlare == images[k]
  {
    assert IsNearestCadence(time, tFlare, k);
    var loc := New(tFlare, time, images).value;
    var k' :| IsNearestCadence(time, tFlare, k') && loc.imageAtFlare == images[k'];
    FirstMinimumUnique(Distances(time, tFlare), k, k');
  }
}
