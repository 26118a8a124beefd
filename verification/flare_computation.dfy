/** The second flare image builder (src/flare_image_computation.py), which
    works from the cadence lists the pixel-file preparation produces: per
    pixel a cubic baseline on the fitting cadences, the scatter of the data
    about it, the baseline at the requested cadences and at the flare
    cadence, and the offset flare image. */
module FlareComputation {
  import opened Base
  import opened Numeric
  import opened Arrays
  import opened Image
  import opened Polynomial
  import opened FlareImage

  /** The order of the baseline polynomial, fixed in this builder. */
  const FitOrder: nat := 3

  datatype ComputationInput = ComputationInput(
    images: seq<Grid>,
    time: seq<real>,
    fitCadences: seq<int>,    // the cadences before and after the flare
    flareCadence: int,
    cadences: seq<int>)       // the cadences the baseline is reported at

  datatype ComputationOutput = ComputationOutput(
    variances: Grid,          // scatter about the baseline; NaN where not fitted
    meanFluxes: seq<RealGrid>,
    meanFluxFlare: RealGrid,
    flareImage: Grid,
    allImages: seq<Grid>,
    time: seq<real>)

  /** The input is a stack of nx × ny images with one time stamp each. */
  predicate WellShaped(inp: ComputationInput, nx: nat, ny: nat)
  {
    |inp.images| == |inp.time| && IsCube(inp.images, nx, ny)
  }

  /** No sample is NaN. */
  predicate AllFinite(ys: seq<Pixel>)
  {
    forall k :: 0 <= k < |ys| ==> ys[k].Some?
  }

  /** data − model for finite data. */
  function Residuals(ys: seq<Pixel>, model: seq<real>): (r: seq<real>)
    requires |ys| == |model| && AllFinite(ys)
    ensures |r| == |ys|
    ensures forall k :: 0 <= k < |ys| ==> r[k] == ys[k].value - model[k]
  {
    seq(|ys|, k requires 0 <= k < |ys| => ys[k].value - model[k])
  }

  /** numpy.std(data − model): NaN when any sample is NaN, otherwise the
      square root of the population variance of the residuals. */
  function Std(ys: seq<Pixel>, model: seq<real>, sqrt: real -> real): (r: Pixel)
    requires 0 < |ys| == |model|
    ensures r.None? <==> !AllFinite(ys)
    ensures IsSqrt(sqrt) && r.Some? ==>
      0.0 <= r.value && Square(r.value) == PopVariance(Residuals(ys, model))
  {
    if AllFinite(ys) then Some(sqrt(PopVariance(Residuals(ys, model)))) else None
  }

  /** The scatter of one pixel about its fitted baseline; NaN when the pixel
      is NaN at the gate cadence, an error when its fit fails. */
  function PixelStd(gate: Pixel, ts: seq<real>, ys: seq<Pixel>, fit: Fitter, sqrt: real -> real): (r: Result<Pixel>)
    requires 0 < |ts| == |ys|
    ensures gate.None? ==> r == Ok(None)
    ensures gate.Some? ==> (r.Ok? <==> fit(ts, ys, FitOrder).Some?)
    ensures gate.Some? && r.Ok? ==> r.value == Std(ys, EvalAll(fit(ts, ys, FitOrder).value, ts), sqrt)
  {
    if gate.None? then Ok(None)
    else
      match fit(ts, ys, FitOrder)
      case None => Err(FitFailed)
      case Some(p) => Ok(Std(ys, EvalAll(p, ts), sqrt))
  }

  /** The variance image; fails when any fitted pixel's fit fails. */
  function Variances(images: seq<Grid>, time: seq<real>, gate: Grid, fitIdx: seq<int>, nx: nat, ny: nat,
                     fit: Fitter, sqrt: real -> real): (r: Result<Grid>)
    requires |images| == |time| && IsCube(images, nx, ny) && IsGrid(gate, nx, ny)
    requires 0 < |fitIdx| && AllInBounds(fitIdx, |images|)
    ensures r.Ok? ==> IsGrid(r.value, nx, ny)
    ensures r.Ok? ==> forall i, j :: 0 <= i < nx && 0 <= j < ny ==>
      var (ts, ys) := FitSamples(images, time, fitIdx, nx, ny, i, j);
      PixelStd(gate[i][j], ts, ys, fit, sqrt) == Ok(r.value[i][j])
  {
    var cells := seq(nx, i requires 0 <= i < nx => seq(ny, j requires 0 <= j < ny =>
      var (ts, ys) := FitSamples(images, time, fitIdx, nx, ny, i, j);
      PixelStd(gate[i][j], ts, ys, fit, sqrt)));
    if exists i, j :: 0 <= i < nx && 0 <= j < ny && cells[i][j].Err? then Err(FitFailed)
    else Ok(seq(nx, i requires 0 <= i < nx => seq(ny, j requires 0 <= j < ny => cells[i][j].value)))
  }

  /** The scatter of pixel (i, j): NaN when the pixel is NaN at the gate
      cadence or at any fitting cadence, otherwise the non-negative root of
      the population variance of the data about the fitted polynomial. */
  lemma VarianceOfPixel(images: seq<Grid>, time: seq<real>, gate: Grid, fitIdx: seq<int>, nx: nat, ny: nat,
                        fit: Fitter, sqrt: real -> real, v: Grid, i: nat, j: nat)
    requires |images| == |time| && IsCube(images, nx, ny) && IsGrid(gate, nx, ny)
    requires 0 < |fitIdx| && AllInBounds(fitIdx, |images|)
    requires Variances(images, time, gate, fitIdx, nx, ny, fit, sqrt) == Ok(v)
    requires i < nx && j < ny && IsSqrt(sqrt)
    ensures gate[i][j].None? ==> v[i][j].None?
    ensures gate[i][j].Some? ==>
      var (ts, ys) := FitSamples(images, time, fitIdx, nx, ny, i, j);
      && fit(ts, ys, FitOrder).Some?
      && (v[i][j].None? <==> !AllFinite(ys))
      && (v[i][j].Some? ==>
            && 0.0 <= v[i][j].value
            && Square(v[i][j].value) == PopVariance(Residuals(ys, EvalAll(fit(ts, ys, FitOrder).value, ts))))
  {
    var (ts, ys) := FitSamples(images, time, fitIdx, nx, ny, i, j);
    assert PixelStd(gate[i][j], ts, ys, fit, sqrt) == Ok(v[i][j]);
    if gate[i][j].Some? {
      var model := EvalAll(fit(ts, ys, FitOrder).value, ts);
      assert v[i][j] == Std(ys, model, sqrt);
    }
  }

  /** A pixel whose fitting samples lie exactly on a cubic (at distinct
      times, at least four) has zero scatter, when least squares reproduces
      such data. */
  lemma ExactTrendHasNoScatter(images: seq<Grid>, time: seq<real>, gate: Grid, fitIdx: seq<int>, nx: nat, ny: nat,
                               fit: Fitter, sqrt: real -> real, v: Grid, i: nat, j: nat, trend: Poly)
    requires |images| == |time| && IsCube(images, nx, ny) && IsGrid(gate, nx, ny)
    requires 0 < |fitIdx| && AllInBounds(fitIdx, |images|)
    requires Variances(images, time, gate, fitIdx, nx, ny, fit, sqrt) == Ok(v)
    requires i < nx && j < ny && IsSqrt(sqrt) && ReproducesPolynomials(fit) && gate[i][j].Some?
    requires var (ts, ys) := FitSamples(images, time, fitIdx, nx, ny, i, j);
      Determined(ts, FitOrder) && OnPolynomial(ts, ys, trend) && |trend.coeffs| <= FitOrder + 1
    ensures v[i][j] == Some(0.0)
  {
    var (ts, ys) := FitSamples(images, time, fitIdx, nx, ny, i, j);
    var p := fit(ts, ys, FitOrder).value;
    assert SameFunction(p, trend);
    assert AllFinite(ys);
    var res := Residuals(ys, EvalAll(p, ts));
    forall k | 0 <= k < |res|
      ensures res[k] == res[0]
    {
      assert res[k] == Eval(trend, ts[k]) - Eval(p, ts[k]) == 0.0;
      assert res[0] == Eval(trend, ts[0]) - Eval(p, ts[0]) == 0.0;
    }
    SqrtOfZero(sqrt);
  }

  /** The scatter of pixel (i, j) depends only on that pixel's own values:
      two stacks that agree there give the same scatter there. */
  lemma VariancesArePixelLocal(images: seq<Grid>, images': seq<Grid>, time: seq<real>, gate: Grid, gate': Grid,
                               fitIdx: seq<int>, nx: nat, ny: nat, fit: Fitter, sqrt: real -> real,
                               v: Grid, v': Grid, i: nat, j: nat)
    requires |images| == |images'| == |time| && IsCube(images, nx, ny) && IsCube(images', nx, ny)
    requires IsGrid(gate, nx, ny) && IsGrid(gate', nx, ny)
    requires 0 < |fitIdx| && AllInBounds(fitIdx, |images|)
    requires Variances(images, time, gate, fitIdx, nx, ny, fit, sqrt) == Ok(v)
    requires Variances(images', time, gate', fitIdx, nx, ny, fit, sqrt) == Ok(v')
    requires i < nx && j < ny && gate[i][j] == gate'[i][j]
    requires forall k :: 0 <= k < |images| ==> images[k][i][j] == images'[k][i][j]
    ensures v[i][j] == v'[i][j]
  {
    var (ts, ys) := FitSamples(images, time, fitIdx, nx, ny, i, j);
    var (ts', ys') := FitSamples(images', time, fitIdx, nx, ny, i, j);
    assert ts == ts';
    assert ys == ys';
  }

  /** The baselines of pixel (i, j), at the requested cadences and at the
      flare cadence, depend only on that pixel's own values: two stacks that
      agree there (and so also at the gate cadence) give the same baselines
      there. */
  lemma MeanFluxesArePixelLocal(images: seq<Grid>, images': seq<Grid>, time: seq<real>, c: nat,
                                cadences: seq<int>, fitIdx: seq<int>, nx: nat, ny: nat, fit: Fitter,
                                q: Quiet, q': Quiet, i: nat, j: nat)
    requires c < |images| == |images'| == |time| && IsCube(images, nx, ny) && IsCube(images', nx, ny)
    requires 0 < |cadences| && AllInBounds(cadences, |images|)
    requires QuietFlux(c, images, time, cadences, fitIdx, nx, ny, FitOrder, fit) == Ok(q)
    requires QuietFlux(c, images', time, cadences, fitIdx, nx, ny, FitOrder, fit) == Ok(q')
    requires i < nx && j < ny
    requires forall k :: 0 <= k < |images| ==> images[k][i][j] == images'[k][i][j]
    ensures q.atFlare[i][j] == q'.atFlare[i][j]
    ensures |q.window| == |q'.window| == |cadences|
    ensures forall k :: 0 <= k < |cadences| ==> q.window[k][i][j] == q'.window[k][i][j]
  {
    var g := Wrap(cadences[0], |images|);
    assert images[g][i][j] == images'[g][i][j];
    if images[g][i][j].None? {
      QuietFluxSkipped(c, images, time, cadences, fitIdx, nx, ny, FitOrder, fit, q, i, j);
      QuietFluxSkipped(c, images', time, cadences, fitIdx, nx, ny, FitOrder, fit, q', i, j);
    } else {
      QuietFluxFitted(c, images, time, cadences, fitIdx, nx, ny, FitOrder, fit, q, i, j);
      QuietFluxFitted(c, images', time, cadences, fitIdx, nx, ny, FitOrder, fit, q', i, j);
      var (ts, ys) := FitSamples(images, time, fitIdx, nx, ny, i, j);
      var (ts', ys') := FitSamples(images', time, fitIdx, nx, ny, i, j);
      assert ts == ts';
      assert ys == ys';
    }
  }

  /** `processing`. The fitting cadences must select at least one image,
      and every index list and the flare cadence must be in range; the
      baseline and the flare image are built as in the other builder, gated
      on the first requested cadence. */
  function Processing(inp: ComputationInput, nx: nat, ny: nat, fit: Fitter, sqrt: real -> real)
    : (r: Result<ComputationOutput>)
    requires WellShaped(inp, nx, ny)
    ensures r.Ok? ==> 0 < |inp.fitCadences| && AllInBounds(inp.fitCadences, |inp.images|)
    ensures r.Ok? ==> 0 < |inp.cadences| && AllInBounds(inp.cadences, |inp.images|)
    ensures r.Ok? ==> InBounds(inp.flareCadence, |inp.images|)
    ensures r.Ok? ==> IsGrid(r.value.variances, nx, ny) && IsGrid(r.value.flareImage, nx, ny)
    ensures r.Ok? ==> |r.value.meanFluxes| == |inp.cadences| && IsCube(r.value.meanFluxes, nx, ny)
    ensures r.Ok? ==>
      && r.value.allImages == Take(inp.images, inp.cadences).value
      && r.value.time == Take(inp.time, inp.cadences).value
    ensures r.Ok? ==>
      QuietFlux(Wrap(inp.flareCadence, |inp.images|), inp.images, inp.time, inp.cadences, inp.fitCadences,
                nx, ny, FitOrder, fit) == Ok(Quiet(r.value.meanFluxes, r.value.meanFluxFlare))
    ensures r.Ok? ==>
      RemoveBaseline(inp.images[Wrap(inp.flareCadence, |inp.images|)], r.value.meanFluxFlare, nx, ny)
        == Ok(r.value.flareImage)
    ensures r.Ok? ==>
      Variances(inp.images, inp.time, inp.images[Wrap(inp.cadences[0], |inp.images|)], inp.fitCadences,
                nx, ny, fit, sqrt) == Ok(r.value.variances)
  {
    var n := |inp.images|;
    if |inp.fitCadences| == 0 || !AllInBounds(inp.fitCadences, n) then Err(IndexOutOfBounds)
    else if |inp.cadences| == 0 || !AllInBounds(inp.cadences, n) then Err(IndexOutOfBounds)
    else if !InBounds(inp.flareCadence, n) then Err(IndexOutOfBounds)
    else
      var f := Wrap(inp.flareCadence, n);
      var gate := inp.images[Wrap(inp.cadences[0], n)];
      var variances :- Variances(inp.images, inp.time, gate, inp.fitCadences, nx, ny, fit, sqrt);
      var quiet :- QuietFlux(f, inp.images, inp.time, inp.cadences, inp.fitCadences, nx, ny, FitOrder, fit);
      var flare :- RemoveBaseline(inp.images[f], quiet.atFlare, nx, ny);
      Ok(ComputationOutput(variances, quiet.window, quiet.atFlare, flare,
                           Take(inp.images, inp.cadences).value, Take(inp.time, inp.cadences).value))
  }
}
