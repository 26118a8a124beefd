/** The flare image builder (src/image_processing.py): a cubic quiescent
    baseline is fitted per pixel on the window around the flare with the flare
    band left out, evaluated on the stride-two window and at the flare
    cadence, subtracted from the image at the flare cadence, and the result
    offset to be non-negative. */
module FlareImage {
  import opened Base
  import opened Arrays
  import opened Config
  import opened Cadence
  import opened Windows
  import opened Image
  import opened Polynomial

  /** The baseline of one pixel: at each evaluation cadence and at the flare. */
  datatype Baseline = Baseline(window: seq<real>, atFlare: real)

  /** The quiescent flux images: `window[k]` at the k-th evaluation cadence. */
  datatype Quiet = Quiet(window: seq<RealGrid>, atFlare: RealGrid)

  /** What the detrending step hands back. */
  datatype Detrended = Detrended(
    flareImage: Grid,
    quietAtFlare: RealGrid,
    quietWindow: seq<RealGrid>,
    windowImages: seq<Grid>,
    windowTimes: seq<real>)

  /** The builder's output: the raw image at the flare cadence and the rest. */
  datatype FlareImageOutput = FlareImageOutput(imageAtFlare: Grid, detrended: Detrended)

  function Zeros(nx: nat, ny: nat): (g: RealGrid)
    ensures IsGrid(g, nx, ny)
    ensures forall i, j :: 0 <= i < nx && 0 <= j < ny ==> g[i][j] == 0.0
  {
    seq(nx, i => seq(ny, j => 0.0))
  }

  /** The baselines when every pixel is skipped. */
  function ZeroQuiet(nw: nat, nx: nat, ny: nat): (q: Quiet)
    ensures IsGrid(q.atFlare, nx, ny) && |q.window| == nw && IsCube(q.window, nx, ny)
    ensures forall i, j :: 0 <= i < nx && 0 <= j < ny ==> q.atFlare[i][j] == 0.0
    ensures forall k, i, j :: 0 <= k < nw && 0 <= i < nx && 0 <= j < ny ==> q.window[k][i][j] == 0.0
  {
    Quiet(seq(nw, k => Zeros(nx, ny)), Zeros(nx, ny))
  }

  /** One pixel's baseline. A NaN at the gate cadence skips the fit and
      leaves the zeros the arrays were created with; otherwise the fitted
      polynomial is evaluated, and a failing fit is an error. */
  function PixelQuiet(gate: Pixel, fitTimes: seq<real>, fitColumn: seq<Pixel>, windowTimes: seq<real>,
                      tFlare: real, order: nat, fit: Fitter): (r: Result<Baseline>)
    ensures r.Ok? ==> |r.value.window| == |windowTimes|
    ensures gate.None? ==> r.Ok? && r.value.atFlare == 0.0
                           && forall k :: 0 <= k < |windowTimes| ==> r.value.window[k] == 0.0
    ensures gate.Some? ==> (r.Ok? <==> fit(fitTimes, fitColumn, order).Some?)
    ensures gate.Some? && r.Ok? ==>
      var p := fit(fitTimes, fitColumn, order).value;
      && r.value.atFlare == Eval(p, tFlare)
      && forall k :: 0 <= k < |windowTimes| ==> r.value.window[k] == Eval(p, windowTimes[k])
  {
    if gate.None? then Ok(Baseline(seq(|windowTimes|, k => 0.0), 0.0))
    else
      match fit(fitTimes, fitColumn, order)
      case None => Err(FitFailed)
      case Some(p) => Ok(Baseline(EvalAll(p, windowTimes), Eval(p, tFlare)))
  }

  /** Assembles per-pixel baselines into images; any failed fit fails all. */
  function Assemble(cells: seq<seq<Result<Baseline>>>, nx: nat, ny: nat, nw: nat): (r: Result<Quiet>)
    requires IsGrid(cells, nx, ny)
    requires forall i, j :: 0 <= i < nx && 0 <= j < ny && cells[i][j].Ok? ==> |cells[i][j].value.window| == nw
    ensures r.Ok? <==> forall i, j :: 0 <= i < nx && 0 <= j < ny ==> cells[i][j].Ok?
    ensures r.Ok? ==> IsGrid(r.value.atFlare, nx, ny) && |r.value.window| == nw && IsCube(r.value.window, nx, ny)
    ensures r.Ok? ==> forall i, j :: 0 <= i < nx && 0 <= j < ny ==> r.value.atFlare[i][j] == cells[i][j].value.atFlare
    ensures r.Ok? ==> forall k, i, j :: 0 <= k < nw && 0 <= i < nx && 0 <= j < ny ==>
      r.value.window[k][i][j] == cells[i][j].value.window[k]
  {
    if exists i, j :: 0 <= i < nx && 0 <= j < ny && cells[i][j].Err? then Err(FitFailed)
    else
      Ok(Quiet(
        seq(nw, k requires 0 <= k < nw => seq(nx, i requires 0 <= i < nx => seq(ny, j requires 0 <= j < ny => cells[i][j].value.window[k]))),
        seq(nx, i requires 0 <= i < nx => seq(ny, j requires 0 <= j < ny => cells[i][j].value.atFlare))))
  }

  /** Selecting whole images from a stack keeps their shape. */
  lemma TakeKeepsCube<T>(images: seq<seq<seq<T>>>, idx: seq<int>, nx: nat, ny: nat)
    requires IsCube(images, nx, ny) && Take(images, idx).Ok?
    ensures IsCube(Take(images, idx).value, nx, ny)
  {
  }

  /** The fitting times and the fitting samples of pixel (i, j). */
  function FitSamples(images: seq<Grid>, time: seq<real>, withoutIdx: seq<int>, nx: nat, ny: nat, i: nat, j: nat)
    : (r: (seq<real>, seq<Pixel>))
    requires |images| == |time| && IsCube(images, nx, ny) && i < nx && j < ny
    requires AllInBounds(withoutIdx, |images|)
    ensures |r.0| == |r.1| == |withoutIdx|
    ensures forall k :: 0 <= k < |withoutIdx| ==>
      r.0[k] == time[Wrap(withoutIdx[k], |time|)] && r.1[k] == images[Wrap(withoutIdx[k], |images|)][i][j]
  {
    var fitImages := Take(images, withoutIdx).value;
    TakeKeepsCube(images, withoutIdx, nx, ny);
    (Take(time, withoutIdx).value, Column(fitImages, nx, ny, i, j))
  }

  /** The polynomial fitted to pixel (i, j) on the fitting cadences. */
  function PixelFit(images: seq<Grid>, time: seq<real>, withoutIdx: seq<int>, nx: nat, ny: nat, i: nat, j: nat,
                    order: nat, fit: Fitter): Option<Poly>
    requires |images| == |time| && IsCube(images, nx, ny) && i < nx && j < ny
    requires AllInBounds(withoutIdx, |images|)
  {
    var (ts, ys) := FitSamples(images, time, withoutIdx, nx, ny, i, j);
    fit(ts, ys, order)
  }

  /** Some pixel that is finite at the gate cadence cannot be fitted. */
  predicate SomeFitFails(images: seq<Grid>, time: seq<real>, gate: Grid, withoutIdx: seq<int>, nx: nat, ny: nat,
                         order: nat, fit: Fitter)
    requires |images| == |time| && IsCube(images, nx, ny) && IsGrid(gate, nx, ny)
    requires AllInBounds(withoutIdx, |images|)
  {
    exists i, j :: 0 <= i < nx && 0 <= j < ny && gate[i][j].Some? &&
      PixelFit(images, time, withoutIdx, nx, ny, i, j, order, fit).None?
  }

  /** The baselines of the whole image, gated on the first evaluation
      cadence: one baseline image per evaluation cadence and one at the
      flare cadence. The computation fails if and only if some gate pixel is
      finite and either the fitting cadences are out of range or that
      pixel's fit fails; an all-NaN gate image is never fitted. */
  function QuietFlux(c: nat, images: seq<Grid>, time: seq<real>, withIdx: seq<int>, withoutIdx: seq<int>,
                     nx: nat, ny: nat, order: nat, fit: Fitter): (r: Result<Quiet>)
    requires c < |images| == |time| && IsCube(images, nx, ny)
    requires 0 < |withIdx| && AllInBounds(withIdx, |images|)
    ensures r.Ok? ==> IsGrid(r.value.atFlare, nx, ny) && |r.value.window| == |withIdx| && IsCube(r.value.window, nx, ny)
    ensures var gate := images[Wrap(withIdx[0], |images|)];
      r.Err? <==> !AllNaN(gate) && (!AllInBounds(withoutIdx, |images|) ||
                                    SomeFitFails(images, time, gate, withoutIdx, nx, ny, order, fit))
  {
    var gate := images[Wrap(withIdx[0], |images|)];
    if AllNaN(gate) then
      Ok(ZeroQuiet(|withIdx|, nx, ny))
    else if !AllInBounds(withoutIdx, |images|) then
      Err(IndexOutOfBounds)
    else
      Assemble(QuietCells(c, images, time, withIdx, withoutIdx, nx, ny, order, fit), nx, ny, |withIdx|)
  }

  /** The per-pixel baselines before assembly. */
  function QuietCells(c: nat, images: seq<Grid>, time: seq<real>, withIdx: seq<int>, withoutIdx: seq<int>,
                      nx: nat, ny: nat, order: nat, fit: Fitter): (cells: seq<seq<Result<Baseline>>>)
    requires c < |images| == |time| && IsCube(images, nx, ny)
    requires 0 < |withIdx| && AllInBounds(withIdx, |images|) && AllInBounds(withoutIdx, |images|)
    ensures IsGrid(cells, nx, ny)
    ensures forall i, j :: 0 <= i < nx && 0 <= j < ny ==>
      cells[i][j] == var (ts, ys) := FitSamples(images, time, withoutIdx, nx, ny, i, j);
        PixelQuiet(images[Wrap(withIdx[0], |images|)][i][j], ts, ys, Take(time, withIdx).value, time[c], order, fit)
  {
    var gate := images[Wrap(withIdx[0], |images|)];
    var windowTimes := Take(time, withIdx).value;
    seq(nx, i requires 0 <= i < nx => seq(ny, j requires 0 <= j < ny =>
      var (ts, ys) := FitSamples(images, time, withoutIdx, nx, ny, i, j);
      PixelQuiet(gate[i][j], ts, ys, windowTimes, time[c], order, fit)))
  }

  /** A pixel NaN at the gate cadence has a zero baseline everywhere. */
  lemma QuietFluxSkipped(c: nat, images: seq<Grid>, time: seq<real>, withIdx: seq<int>, withoutIdx: seq<int>,
                         nx: nat, ny: nat, order: nat, fit: Fitter, q: Quiet, i: nat, j: nat)
    requires c < |images| == |time| && IsCube(images, nx, ny)
    requires 0 < |withIdx| && AllInBounds(withIdx, |images|)
    requires QuietFlux(c, images, time, withIdx, withoutIdx, nx, ny, order, fit) == Ok(q)
    requires i < nx && j < ny && images[Wrap(withIdx[0], |images|)][i][j].None?
    ensures q.atFlare[i][j] == 0.0
    ensures |q.window| == |withIdx| && forall k :: 0 <= k < |withIdx| ==> q.window[k][i][j] == 0.0
  {
    var gate := images[Wrap(withIdx[0], |images|)];
    if !AllNaN(gate) {
      var cells: seq<seq<Result<Baseline>>> := QuietCells(c, images, time, withIdx, withoutIdx, nx, ny, order, fit);
      assert cells[i][j].Ok?;
    }
  }

  /** A pixel finite at the gate cadence has the fitted polynomial's values
      at the evaluation cadences and at the flare cadence as its baseline. */
  lemma QuietFluxFitted(c: nat, images: seq<Grid>, time: seq<real>, withIdx: seq<int>, withoutIdx: seq<int>,
                        nx: nat, ny: nat, order: nat, fit: Fitter, q: Quiet, i: nat, j: nat)
    requires c < |images| == |time| && IsCube(images, nx, ny)
    requires 0 < |withIdx| && AllInBounds(withIdx, |images|)
    requires QuietFlux(c, images, time, withIdx, withoutIdx, nx, ny, order, fit) == Ok(q)
    requires i < nx && j < ny && images[Wrap(withIdx[0], |images|)][i][j].Some?
    ensures AllInBounds(withoutIdx, |images|)
    ensures var p := PixelFit(images, time, withoutIdx, nx, ny, i, j, order, fit);
      && p.Some?
      && q.atFlare[i][j] == Eval(p.value, time[c])
      && |q.window| == |withIdx|
      && forall k :: 0 <= k < |withIdx| ==> q.window[k][i][j] == Eval(p.value, time[Wrap(withIdx[k], |time|)])
  {
    var cells: seq<seq<Result<Baseline>>> := QuietCells(c, images, time, withIdx, withoutIdx, nx, ny, order, fit);
    assert cells[i][j].Ok?;
  }

  /** A pixel whose fitting samples lie exactly on a polynomial of at most
      the fitted order (at distinct times, enough of them) gets that
      polynomial as its baseline, when least squares reproduces such data. */
  lemma QuietFluxReproducesPolynomial(c: nat, images: seq<Grid>, time: seq<real>, withIdx: seq<int>,
                                      withoutIdx: seq<int>, nx: nat, ny: nat, order: nat, fit: Fitter,
                                      q: Quiet, i: nat, j: nat, trend: Poly)
    requires c < |images| == |time| && IsCube(images, nx, ny)
    requires 0 < |withIdx| && AllInBounds(withIdx, |images|) && AllInBounds(withoutIdx, |images|)
    requires QuietFlux(c, images, time, withIdx, withoutIdx, nx, ny, order, fit) == Ok(q)
    requires i < nx && j < ny && images[Wrap(withIdx[0], |images|)][i][j].Some?
    requires ReproducesPolynomials(fit)
    requires var (ts, ys) := FitSamples(images, time, withoutIdx, nx, ny, i, j);
      Determined(ts, order) && OnPolynomial(ts, ys, trend) && |trend.coeffs| <= order + 1
    ensures q.atFlare[i][j] == Eval(trend, time[c])
    ensures |q.window| == |withIdx|
    ensures forall k :: 0 <= k < |withIdx| ==> q.window[k][i][j] == Eval(trend, time[Wrap(withIdx[k], |time|)])
  {
    QuietFluxFitted(c, images, time, withIdx, withoutIdx, nx, ny, order, fit, q, i, j);
    var (ts, ys) := FitSamples(images, time, withoutIdx, nx, ny, i, j);
    assert SameFunction(fit(ts, ys, order).value, trend);
  }

  /** `_compute_flare_image` for flare cadence c and half-length w. */
  function ComputeFlareImage(c: nat, images: seq<Grid>, time: seq<real>, w: int, nx: nat, ny: nat,
                             cfg: Settings, fit: Fitter): (r: Result<Detrended>)
    requires c < |images| == |time| && IsCube(images, nx, ny)
    ensures r.Ok? ==> 3 <= w
    ensures r.Ok? ==> |r.value.windowImages| == w + 1 && |r.value.windowTimes| == w + 1
    ensures r.Ok? ==> WithFlareIndices(c, w).Ok? && AllInBounds(WithFlareIndices(c, w).value, |images|)
    ensures r.Ok? ==> r.value.windowImages == Take(images, WithFlareIndices(c, w).value).value
    ensures r.Ok? ==> r.value.windowTimes == Take(time, WithFlareIndices(c, w).value).value
    ensures r.Ok? ==> IsGrid(r.value.flareImage, nx, ny) && IsGrid(r.value.quietAtFlare, nx, ny)
    ensures r.Ok? ==> |r.value.quietWindow| == w + 1 && IsCube(r.value.quietWindow, nx, ny)
    ensures r.Ok? ==> WithoutFlareIndices(c, w, cfg).Ok? && WithFlareIndices(c, w).value[0] == c - w
    ensures r.Ok? ==>
      QuietFlux(c, images, time, WithFlareIndices(c, w).value, WithoutFlareIndices(c, w, cfg).value,
                nx, ny, cfg.polynomialOrder, fit)
        == Ok(Quiet(r.value.quietWindow, r.value.quietAtFlare))
    ensures r.Ok? ==> RemoveBaseline(images[c], r.value.quietAtFlare, nx, ny) == Ok(r.value.flareImage)
  {
    var withIdx :- WithFlareIndices(c, w);
    var withoutIdx :- WithoutFlareIndices(c, w, cfg);
    if !AllInBounds(withIdx, |images|) then Err(IndexOutOfBounds)
    else
      var quiet :- QuietFlux(c, images, time, withIdx, withoutIdx, nx, ny, cfg.polynomialOrder, fit);
      var flare :- RemoveBaseline(images[c], quiet.atFlare, nx, ny);
      Ok(Detrended(flare, quiet.atFlare, quiet.window, Take(images, withIdx).value, Take(time, withIdx).value))
  }

  /** The returned window holds every other cadence from c - w to c + w:
      the k-th image and time stamp are those of cadence c - w + 2k. */
  lemma EvaluationWindowStridesTwo(c: nat, images: seq<Grid>, time: seq<real>, w: int, nx: nat, ny: nat,
                                   cfg: Settings, fit: Fitter)
    requires c < |images| == |time| && IsCube(images, nx, ny)
    requires ComputeFlareImage(c, images, time, w, nx, ny, cfg, fit).Ok?
    ensures var d := ComputeFlareImage(c, images, time, w, nx, ny, cfg, fit).value;
      && |d.windowImages| == w + 1 && |d.windowTimes| == w + 1
      && forall k :: 0 <= k <= w ==>
           && InBounds(c - w + 2 * k, |images|)
           && d.windowImages[k] == images[Wrap(c - w + 2 * k, |images|)]
           && d.windowTimes[k] == time[Wrap(c - w + 2 * k, |images|)]
  {
    TakeStrideTwo(images, c, w);
    TakeStrideTwo(time, c, w);
  }

  lemma TakeStrideTwo<T>(s: seq<T>, c: int, w: int)
    requires WithFlareIndices(c, w).Ok? && AllInBounds(WithFlareIndices(c, w).value, |s|)
    ensures |Take(s, WithFlareIndices(c, w).value).value| == w + 1
    ensures forall k :: 0 <= k <= w ==>
      InBounds(c - w + 2 * k, |s|) && Take(s, WithFlareIndices(c, w).value).value[k] == s[Wrap(c - w + 2 * k, |s|)]
  {
    var idx := WithFlareIndices(c, w).value;
    forall k | 0 <= k <= w
      ensures InBounds(c - w + 2 * k, |s|)
    {
      assert idx[k] == c - w + 2 * k;
    }
  }

  /** The stride-two window is in range exactly when both its ends are,
      and then so is the fitting set of the default settings. */
  lemma WindowInRangeIffEnds(c: int, w: int, n: int)
    requires 3 <= w
    ensures WithFlareIndices(c, w).Ok? && WithoutFlareIndices(c, w, Default).Ok?
    ensures AllInBounds(WithFlareIndices(c, w).value, n) <==> InBounds(c - w, n) && InBounds(c + w, n)
    ensures InBounds(c - w, n) && InBounds(c + w, n) ==> AllInBounds(WithoutFlareIndices(c, w, Default).value, n)
  {
    var idx := WithFlareIndices(c, w).value;
    assert idx[0] == c - w && idx[w] == c + w;
    WithoutFlareExcludesBand(c, w);
  }

  /** With the default settings and a fit that always succeeds, the flare
      image fails exactly when the window is shorter than 3 cadences, when
      it reaches past either end of the data, or when the image at the flare
      cadence has no finite pixel. */
  lemma FlareImageFailsOnlyAt(c: nat, images: seq<Grid>, time: seq<real>, w: int, nx: nat, ny: nat, fit: Fitter)
    requires c < |images| == |time| && IsCube(images, nx, ny)
    requires forall ts, ys, order :: fit(ts, ys, order).Some?
    ensures ComputeFlareImage(c, images, time, w, nx, ny, Default, fit).Err?
        <==> (w < 3 || !InBounds(c - w, |images|) || !InBounds(c + w, |images|) || AllNaN(images[c]))
  {
    if 3 <= w {
      WindowInRangeIffEnds(c, w, |images|);
      var withIdx := WithFlareIndices(c, w).value;
      var withoutIdx := WithoutFlareIndices(c, w, Default).value;
      if InBounds(c - w, |images|) && InBounds(c + w, |images|) {
        var q := QuietFlux(c, images, time, withIdx, withoutIdx, nx, ny, Default.polynomialOrder, fit);
        assert q.Ok?;
        assert RemoveBaseline(images[c], q.value.atFlare, nx, ny).Err? <==> AllNaN(images[c]);
      }
    }
  }

  /** `processing`: the window half-length from the hours, the cadence
      nearest the flare time, the raw image there and the detrended images. */
  function Processing(images: seq<Grid>, time: seq<real>, tFlare: real, hours: real, nx: nat, ny: nat,
                      cfg: Settings, fit: Fitter): (r: Result<FlareImageOutput>)
    requires |images| == |time| && IsCube(images, nx, ny)
    ensures |time| == 0 ==> r.Err?
    ensures r.Ok? ==> exists k :: IsNearestCadence(time, tFlare, k) && r.value.imageAtFlare == images[k]
    ensures r.Ok? ==> |r.value.detrended.windowImages| == WindowLength(hours, cfg) + 1
    ensures r.Err? <==>
      (|time| == 0 ||
       ComputeFlareImage(FindImageIndex(time, tFlare).value.index, images, time, WindowLength(hours, cfg),
                         nx, ny, cfg, fit).Err?)
    ensures r.Ok? ==>
      && r.value.imageAtFlare == images[FindImageIndex(time, tFlare).value.index]
      && ComputeFlareImage(FindImageIndex(time, tFlare).value.index, images, time, WindowLength(hours, cfg),
                           nx, ny, cfg, fit) == Ok(r.value.detrended)
  {
    var w := WindowLength(hours, cfg);
    var lookup :- FindImageIndex(time, tFlare);
    var detrended :- ComputeFlareImage(lookup.index, images, time, w, nx, ny, cfg, fit);
    Ok(FlareImageOutput(images[lookup.index], detrended))
  }
}
