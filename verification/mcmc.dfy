/** The MCMC localisation of the flare (src/mcmc.py): the four fitted
    parameters and their starting values, the log prior (flat within open
    bounds, Gaussian about the starting centre), the Poisson log likelihood
    of a PRF model plus a flat offset, the burn-in cut and flattening of the
    walkers' chains, the re-centred second run and the percentile summary.
    The sampler itself, the PRF model and the elementary functions are
    parameters. */
module Mcmc {
  import opened Base
  import opened Numeric
  import opened Image

  /** numpy.pi. */
  const Pi: real := 3.141592653589793

  /** The number of walkers the sampler is started with. */
  const Walkers: nat := 32

  /** A fitted parameter: open bounds, the prior centre, the start value of
      the sampler and a width. `None` is Python's None. */
  datatype Parameter = Parameter(min: real, max: real, value: Option<real>, initValue: Option<real>, err: real)

  datatype FittingParameters = FittingParameters(flux: Parameter, col: Parameter, row: Parameter, offset: Parameter)

  /** One point of parameter space, in the sampler's order. */
  datatype Theta = Theta(col: real, row: real, flux: real, offset: real)

  datatype Coordinate = Col | Row | Flux | Offset

  function Coord(t: Theta, c: Coordinate): real
  {
    match c
    case Col => t.col
    case Row => t.row
    case Flux => t.flux
    case Offset => t.offset
  }

  /** One coordinate of every sample of a flat chain. */
  function Values(flat: seq<Theta>, c: Coordinate): (r: seq<real>)
    ensures |r| == |flat|
    ensures forall k :: 0 <= k < |flat| ==> r[k] == Coord(flat[k], c)
  {
    seq(|flat|, k requires 0 <= k < |flat| => Coord(flat[k], c))
  }

  datatype McmcInput = McmcInput(
    flareImage: Grid,
    column: int,          // the pixel file's first column on the detector
    row: int,             // the pixel file's first row on the detector
    maskPixels: nat,      // pixels in the pipeline aperture
    nSteps: nat,
    nDiscard: int)

  datatype McmcOutput = McmcOutput(chain: seq<Theta>, parameters: FittingParameters, model: RealGrid, data: Grid)

  /** The Gaussian priors need a centre for the column, the row and the offset. */
  predicate Centred(p: FittingParameters)
  {
    p.col.value.Some? && p.row.value.Some? && p.offset.value.Some?
  }

  /** The sampler's start needs a start value for every parameter. */
  predicate Seeded(p: FittingParameters)
  {
    p.col.initValue.Some? && p.row.initValue.Some? && p.flux.initValue.Some? && p.offset.initValue.Some?
  }

  function Start(p: FittingParameters): Theta
    requires Seeded(p)
  {
    Theta(p.col.initValue.value, p.row.initValue.value, p.flux.initValue.value, p.offset.initValue.value)
  }

  /** The starting parameters. The flux lies in (0, 2·total) and starts at
      the total finite flux; column and row span the image on the detector
      and start at the target's pixel position; the offset is bounded below
      by 0 and starts at the mean finite flux with the flux scatter as its
      width. numpy's max over the finite pixels fails when there are none. */
  function InitialParameters(inp: McmcInput, nx: nat, ny: nat, centreRow: real, centreCol: real, sqrt: real -> real)
    : (r: Result<FittingParameters>)
    requires IsGrid(inp.flareImage, nx, ny)
    ensures r.Err? <==> AllNaN(inp.flareImage)
    ensures r.Err? ==> r.error == EmptyReduction
    ensures r.Ok? ==> Seeded(r.value) && Centred(r.value)
    ensures r.Ok? ==>
      var v := Finite(inp.flareImage);
      var p := r.value;
      && p.flux.min == 0.0 && p.flux.initValue == Some(Sum(v)) && p.flux.max == 2.0 * Sum(v)
      && p.col.min == inp.column as real && p.row.min == inp.row as real
      && p.col.max - p.col.min == ny as real && p.row.max - p.row.min == nx as real
      && p.col.initValue == p.col.value == Some(p.col.min + centreCol)
      && p.row.initValue == p.row.value == Some(p.row.min + centreRow)
      && p.col.err == p.row.err == 0.5
      && p.offset.min == 0.0 && p.offset.value == p.offset.initValue == Some(Mean(v))
      && Min(v) <= p.offset.initValue.value <= p.offset.max == Max(v)
    ensures r.Ok? && IsSqrt(sqrt) ==>
      0.0 <= r.value.offset.err && Square(r.value.offset.err) == PopVariance(Finite(inp.flareImage))
  {
    var v := Finite(inp.flareImage);
    FiniteEmptyIffAllNaN(inp.flareImage);
    if |v| == 0 then Err(EmptyReduction)
    else
      var total := Sum(v);
      var flux := Parameter(0.0, 2.0 * total, None, Some(total), sqrt(inp.maskPixels as real / Pi) / 5.0);
      var colStart := centreCol + inp.column as real;
      var col := Parameter(inp.column as real, ny as real + inp.column as real, Some(colStart), Some(colStart), 0.5);
      var rowStart := centreRow + inp.row as real;
      var row := Parameter(inp.row as real, nx as real + inp.row as real, Some(rowStart), Some(rowStart), 0.5);
      var offset := Parameter(0.0, Max(v), Some(Mean(v)), Some(Mean(v)), sqrt(PopVariance(v)));
      Ok(FittingParameters(flux, col, row, offset))
  }

  /** The prior's bounds on one coordinate: an open lower bound and an open
      upper bound, which the offset does not have. */
  function Bounds(p: FittingParameters, c: Coordinate): (real, Option<real>)
  {
    match c
    case Col => (p.col.min, Some(p.col.max))
    case Row => (p.row.min, Some(p.row.max))
    case Flux => (p.flux.min, Some(p.flux.max))
    case Offset => (p.offset.min, None)
  }

  predicate WithinBounds(x: real, b: (real, Option<real>))
  {
    b.0 < x && (b.1.None? || x < b.1.value)
  }

  /** The open box outside which the prior is −∞, tested in the source's
      order: flux, column, row, offset (bounded below only). */
  function InSupport(t: Theta, p: FittingParameters): (r: bool)
    ensures r <==> forall c: Coordinate :: WithinBounds(Coord(t, c), Bounds(p, c))
  {
    assert WithinBounds(Coord(t, Col), Bounds(p, Col)) <==> p.col.min < t.col < p.col.max;
    assert WithinBounds(Coord(t, Row), Bounds(p, Row)) <==> p.row.min < t.row < p.row.max;
    assert WithinBounds(Coord(t, Flux), Bounds(p, Flux)) <==> p.flux.min < t.flux < p.flux.max;
    assert WithinBounds(Coord(t, Offset), Bounds(p, Offset)) <==> p.offset.min < t.offset;
    && p.flux.min < t.flux < p.flux.max
    && p.col.min < t.col < p.col.max
    && p.row.min < t.row < p.row.max
    && p.offset.min < t.offset
  }

  /** A positive total flux and a target position strictly inside the image
      put the sampler's start inside the prior's support. */
  lemma InitialStartInSupport(inp: McmcInput, nx: nat, ny: nat, centreRow: real, centreCol: real, sqrt: real -> real)
    requires IsGrid(inp.flareImage, nx, ny)
    requires InitialParameters(inp, nx, ny, centreRow, centreCol, sqrt).Ok?
    requires 0.0 < Sum(Finite(inp.flareImage))
    requires 0.0 < centreCol < ny as real && 0.0 < centreRow < nx as real
    ensures var p := InitialParameters(inp, nx, ny, centreRow, centreCol, sqrt).value;
      InSupport(Start(p), p)
  {
    var v := Finite(inp.flareImage);
    var p := InitialParameters(inp, nx, ny, centreRow, centreCol, sqrt).value;
    MeanPositive(v);
  }

  /** log N(x; centre, ·) as the source writes it: the normalisation uses
      `err`, the quadratic term divides by `scale`². A non-positive
      normalisation or a zero scale makes the term NaN or infinite (`None`). */
  function GaussTerm(x: real, centre: real, err: real, scale: real, sqrt: real -> real, log: real -> real)
    : (r: Option<real>)
    ensures r.Some? <==> 0.0 < sqrt(2.0 * Pi) * err && scale != 0.0
  {
    var d := sqrt(2.0 * Pi) * err;
    if d <= 0.0 || scale == 0.0 then None
    else Some(log(1.0 / d) - 0.5 * (x - centre) * (x - centre) / (scale * scale))
  }

  /** A sum that is NaN or infinite as soon as one term is. */
  function Add3(a: Option<real>, b: Option<real>, c: Option<real>): (r: Option<real>)
    ensures r.Some? <==> a.Some? && b.Some? && c.Some?
    ensures r.Some? ==> r.value == a.value + b.value + c.value
  {
    if a.Some? && b.Some? && c.Some? then Some(0.0 + a.value + b.value + c.value) else None
  }

  /** With a genuine square root, a positive width gives a positive
      normalisation √(2π)·err. */
  lemma NormalisationPositive(sqrt: real -> real, err: real)
    ensures IsSqrt(sqrt) && 0.0 < err ==> 0.0 < sqrt(2.0 * Pi) * err
  {
    if IsSqrt(sqrt) && 0.0 < err {
      var s := sqrt(2.0 * Pi);
      assert 0.0 <= s && s * s == 2.0 * Pi;
      PositiveProduct(s, err);
    }
  }

  /** The widths the Gaussian terms are normalised by are positive. */
  predicate PositiveWidths(p: FittingParameters)
  {
    0.0 < p.col.err && 0.0 < p.row.err && 0.0 < p.offset.err
  }

  /** The log prior as the source writes it: the row term divides by the
      square of the row's centre instead of its width. It is finite only
      inside the support and away from a zero row centre, and it agrees with
      the intended prior when the row centre happens to equal the width. */
  function LogPriorAsWritten(t: Theta, p: FittingParameters, sqrt: real -> real, log: real -> real): (r: Option<real>)
    requires Centred(p)
    ensures !InSupport(t, p) ==> r.None?
    ensures IsSqrt(sqrt) && PositiveWidths(p) ==> (r.Some? <==> InSupport(t, p) && p.row.value.value != 0.0)
    ensures p.row.value == Some(p.row.err) ==> r == LogPrior(t, p, sqrt, log)
  {
    NormalisationPositive(sqrt, p.col.err);
    NormalisationPositive(sqrt, p.row.err);
    NormalisationPositive(sqrt, p.offset.err);
    if !InSupport(t, p) then None
    else
      Add3(GaussTerm(t.col, p.col.value.value, p.col.err, p.col.err, sqrt, log),
           GaussTerm(t.row, p.row.value.value, p.row.err, p.row.value.value, sqrt, log),
           GaussTerm(t.offset, p.offset.value.value, p.offset.err, p.offset.err, sqrt, log))
  }

  /** The log prior as intended: −∞ outside the support, otherwise the sum
      of Gaussian terms in column, row and offset, each scaled by its own
      width. `None` is a non-finite value; with a genuine square root and
      positive widths the prior is finite exactly inside the support. */
  function LogPrior(t: Theta, p: FittingParameters, sqrt: real -> real, log: real -> real): (r: Option<real>)
    requires Centred(p)
    ensures !InSupport(t, p) ==> r.None?
    ensures IsSqrt(sqrt) && PositiveWidths(p) ==> (r.Some? <==> InSupport(t, p))
    ensures r.Some? ==>
      && GaussTerm(t.col, p.col.value.value, p.col.err, p.col.err, sqrt, log).Some?
      && GaussTerm(t.row, p.row.value.value, p.row.err, p.row.err, sqrt, log).Some?
      && GaussTerm(t.offset, p.offset.value.value, p.offset.err, p.offset.err, sqrt, log).Some?
      && r.value == GaussTerm(t.col, p.col.value.value, p.col.err, p.col.err, sqrt, log).value
                  + GaussTerm(t.row, p.row.value.value, p.row.err, p.row.err, sqrt, log).value
                  + GaussTerm(t.offset, p.offset.value.value, p.offset.err, p.offset.err, sqrt, log).value
  {
    NormalisationPositive(sqrt, p.col.err);
    NormalisationPositive(sqrt, p.row.err);
    NormalisationPositive(sqrt, p.offset.err);
    if !InSupport(t, p) then None
    else
      Add3(GaussTerm(t.col, p.col.value.value, p.col.err, p.col.err, sqrt, log),
           GaussTerm(t.row, p.row.value.value, p.row.err, p.row.err, sqrt, log),
           GaussTerm(t.offset, p.offset.value.value, p.offset.err, p.offset.err, sqrt, log))
  }

  /** One width away from its centre, a parameter's Gaussian term drops by
      exactly 1/2. */
  lemma OneWidthCostsHalf(x: real, centre: real, err: real, sqrt: real -> real, log: real -> real)
    requires GaussTerm(centre, centre, err, err, sqrt, log).Some?
    ensures GaussTerm(centre + err, centre, err, err, sqrt, log).Some?
    ensures GaussTerm(centre + err, centre, err, err, sqrt, log).value
         == GaussTerm(centre, centre, err, err, sqrt, log).value - 0.5
  {
    assert (centre + err - centre) * (centre + err - centre) / (err * err) == 1.0;
  }

  /** The prior as written, for a row centre of 100 (a typical detector
      row) and a row width of 0.5 pixel: half a pixel from the centre the
      row term drops by 0.0000125 instead of 0.5, so the prior as written
      exceeds the intended one by 0.5 − 0.0000125 and the row prior is
      nearly flat. */
  lemma RowPriorIgnoresWidth(t: Theta, p: FittingParameters, sqrt: real -> real, log: real -> real)
    requires Centred(p) && InSupport(t, p) && 0.0 < sqrt(2.0 * Pi)
    requires 0.0 < p.col.err && 0.0 < p.offset.err
    requires p.row.value == Some(100.0) && p.row.err == 0.5 && t.row == 100.5
    ensures LogPriorAsWritten(t, p, sqrt, log).Some? && LogPrior(t, p, sqrt, log).Some?
    ensures LogPriorAsWritten(t, p, sqrt, log).value == LogPrior(t, p, sqrt, log).value + (0.5 - 0.0000125)
  {
    var s := sqrt(2.0 * Pi);
    PositiveProduct(s, p.col.err);
    PositiveProduct(s, 0.5);
    PositiveProduct(s, p.offset.err);
    var norm := log(1.0 / (s * 0.5));
    assert GaussTerm(100.5, 100.0, 0.5, 100.0, sqrt, log) == Some(norm - 0.0000125);
    assert GaussTerm(100.5, 100.0, 0.5, 0.5, sqrt, log) == Some(norm - 0.5);
  }

  /** The PRF model maps (column, row, flux) to an nx × ny image. */
  ghost predicate PrfShape(prf: (real, real, real) -> RealGrid, nx: nat, ny: nat)
  {
    forall c, r, f :: IsGrid(prf(c, r, f), nx, ny)
  }

  /** The PRF of a source at (column, row) with the given flux, plus the
      flat offset. */
  function ComputeModel(prf: (real, real, real) -> RealGrid, t: Theta, nx: nat, ny: nat): (r: RealGrid)
    requires IsGrid(prf(t.col, t.row, t.flux), nx, ny)
    ensures IsGrid(r, nx, ny)
    ensures forall i, j :: 0 <= i < nx && 0 <= j < ny ==> r[i][j] == prf(t.col, t.row, t.flux)[i][j] + t.offset
  {
    var star := prf(t.col, t.row, t.flux);
    seq(nx, i requires 0 <= i < nx => seq(ny, j requires 0 <= j < ny => star[i][j] + t.offset))
  }

  /** model − data·log(model) at one pixel where it is a finite number.
      It is NaN where the data are NaN, where the model is negative (numpy's
      log is NaN there) and where both model and data are 0 (0·(−∞) is NaN);
      `nansum` drops all of these. Where the model is 0 and the data are not,
      the term is infinite: see `InfiniteTerm`. */
  function PoissonTerm(d: Pixel, m: real, log: real -> real): (r: Pixel)
    ensures r.Some? <==> d.Some? && 0.0 < m
    ensures r.Some? ==> r.value == m - d.value * log(m)
  {
    if d.Some? && 0.0 < m then Some(m - d.value * log(m)) else None
  }

  /** The finite terms of the sum, NaN everywhere else. */
  function PoissonTerms(data: Grid, model: RealGrid, log: real -> real, nx: nat, ny: nat): (r: Grid)
    requires IsGrid(data, nx, ny) && IsGrid(model, nx, ny)
    ensures IsGrid(r, nx, ny)
    ensures forall i, j :: 0 <= i < nx && 0 <= j < ny ==>
      r[i][j] == PoissonTerm(data[i][j], model[i][j], log)
  {
    seq(nx, i requires 0 <= i < nx => seq(ny, j requires 0 <= j < ny => PoissonTerm(data[i][j], model[i][j], log)))
  }

  /** Where the model is 0, log(model) is −∞, so model − data·log(model) is
      +∞ for positive data and −∞ for negative data. */
  predicate InfiniteTerm(d: Pixel, m: real, positive: bool)
  {
    d.Some? && m == 0.0 && (if positive then 0.0 < d.value else d.value < 0.0)
  }

  /** Some pixel's term is +∞ (`positive`) or −∞ (not `positive`). */
  predicate SomeInfiniteTerm(data: Grid, model: RealGrid, nx: nat, ny: nat, positive: bool)
    requires IsGrid(data, nx, ny) && IsGrid(model, nx, ny)
  {
    exists i, j :: 0 <= i < nx && 0 <= j < ny && InfiniteTerm(data[i][j], model[i][j], positive)
  }

  /** A log value as a double: NaN, −∞, +∞ or a finite number. */
  datatype LogValue = NaN | NegInf | PosInf | Real(value: real)

  /** −nansum(model − data·log(model)). `nansum` skips NaN terms; a +∞ term
      makes the sum +∞ and the likelihood −∞, a −∞ term the reverse, and
      both together make it NaN (∞ − ∞). */
  function PoissonLogLikelihood(t: Theta, data: Grid, prf: (real, real, real) -> RealGrid, nx: nat, ny: nat,
                                log: real -> real): (r: LogValue)
    requires IsGrid(data, nx, ny) && PrfShape(prf, nx, ny)
    ensures var model := ComputeModel(prf, t, nx, ny);
      && (r.NegInf? <==> SomeInfiniteTerm(data, model, nx, ny, true) && !SomeInfiniteTerm(data, model, nx, ny, false))
      && (r.PosInf? <==> !SomeInfiniteTerm(data, model, nx, ny, true) && SomeInfiniteTerm(data, model, nx, ny, false))
      && (r.NaN? <==> SomeInfiniteTerm(data, model, nx, ny, true) && SomeInfiniteTerm(data, model, nx, ny, false))
      && (r.Real? ==> r.value == -Sum(Finite(PoissonTerms(data, model, log, nx, ny))))
    ensures AllNaN(data) ==> r == Real(0.0)
    ensures (forall i, j :: 0 <= i < nx && 0 <= j < ny ==> 0.0 < ComputeModel(prf, t, nx, ny)[i][j]) ==> r.Real?
  {
    var model := ComputeModel(prf, t, nx, ny);
    var terms := PoissonTerms(data, model, log, nx, ny);
    AllNaNTermsSumToZero(data, terms, nx, ny);
    var plus := SomeInfiniteTerm(data, model, nx, ny, true);
    var minus := SomeInfiniteTerm(data, model, nx, ny, false);
    if plus && minus then NaN
    else if plus then NegInf
    else if minus then PosInf
    else Real(-Sum(Finite(terms)))
  }

  lemma AllNaNTermsSumToZero(data: Grid, terms: Grid, nx: nat, ny: nat)
    requires IsGrid(data, nx, ny) && IsGrid(terms, nx, ny)
    requires forall i, j :: 0 <= i < nx && 0 <= j < ny ==> (data[i][j].None? ==> terms[i][j].None?)
    ensures AllNaN(data) ==> Sum(Finite(terms)) == 0.0
  {
    if AllNaN(data) {
      assert AllNaN(terms);
      FiniteEmptyIffAllNaN(terms);
    }
  }

  /** −∞ unless the prior is finite; then prior plus likelihood, in double
      arithmetic: a finite prior leaves an infinite or NaN likelihood as it is. */
  function LogProbability(t: Theta, data: Grid, p: FittingParameters, prf: (real, real, real) -> RealGrid,
                          nx: nat, ny: nat, sqrt: real -> real, log: real -> real): (r: LogValue)
    requires Centred(p) && IsGrid(data, nx, ny) && PrfShape(prf, nx, ny)
    ensures r.NegInf? <==>
      LogPrior(t, p, sqrt, log).None? || PoissonLogLikelihood(t, data, prf, nx, ny, log).NegInf?
    ensures !InSupport(t, p) ==> r == NegInf
    ensures LogPrior(t, p, sqrt, log).Some? && !PoissonLogLikelihood(t, data, prf, nx, ny, log).Real? ==>
      r == PoissonLogLikelihood(t, data, prf, nx, ny, log)
    ensures r.Real? <==>
      LogPrior(t, p, sqrt, log).Some? && PoissonLogLikelihood(t, data, prf, nx, ny, log).Real?
    ensures r.Real? ==>
      r.value == LogPrior(t, p, sqrt, log).value + PoissonLogLikelihood(t, data, prf, nx, ny, log).value
  {
    match LogPrior(t, p, sqrt, log)
    case None => NegInf
    case Some(lp) =>
      match PoissonLogLikelihood(t, data, prf, nx, ny, log)
      case Real(l) => Real(lp + l)
      case other => other
  }

  /** The log probability as the sampler's callback. */
  function LogProbabilityOf(data: Grid, p: FittingParameters, prf: (real, real, real) -> RealGrid,
                            nx: nat, ny: nat, sqrt: real -> real, log: real -> real): Theta -> LogValue
    requires Centred(p) && IsGrid(data, nx, ny) && PrfShape(prf, nx, ny)
  {
    t => LogProbability(t, data, p, prf, nx, ny, sqrt, log)
  }

  /** Without a finite data pixel the posterior is the prior. */
  lemma NaNDataLeavesPrior(t: Theta, data: Grid, p: FittingParameters, prf: (real, real, real) -> RealGrid,
                           nx: nat, ny: nat, sqrt: real -> real, log: real -> real)
    requires Centred(p) && IsGrid(data, nx, ny) && PrfShape(prf, nx, ny) && AllNaN(data)
    ensures LogPrior(t, p, sqrt, log).Some? ==>
      LogProbability(t, data, p, prf, nx, ny, sqrt, log) == Real(LogPrior(t, p, sqrt, log).value)
  {
  }

  /** A model pixel of 0 under a positive data pixel sends the log
      probability to −∞ even inside the prior's support, unless another
      pixel's term is −∞ as well. */
  lemma ZeroModelRejects(t: Theta, data: Grid, p: FittingParameters, prf: (real, real, real) -> RealGrid,
                         nx: nat, ny: nat, sqrt: real -> real, log: real -> real, i: nat, j: nat)
    requires Centred(p) && IsGrid(data, nx, ny) && PrfShape(prf, nx, ny)
    requires i < nx && j < ny && data[i][j].Some? && 0.0 < data[i][j].value
    requires ComputeModel(prf, t, nx, ny)[i][j] == 0.0
    requires forall a, b :: 0 <= a < nx && 0 <= b < ny ==> data[a][b].None? || 0.0 <= data[a][b].value
    ensures LogProbability(t, data, p, prf, nx, ny, sqrt, log) == NegInf
  {
    var model := ComputeModel(prf, t, nx, ny);
    assert InfiniteTerm(data[i][j], model[i][j], true);
  }

  /** The ensemble sampler: from a start point, a log probability and a step
      count it returns one chain per walker. */
  type Sampler = (Theta, Theta -> LogValue, nat) -> seq<seq<Theta>>

  /** `Walkers` chains of `n` steps each. */
  predicate IsChain(c: seq<seq<Theta>>, n: nat)
  {
    |c| == Walkers && forall w :: 0 <= w < |c| ==> |c[w]| == n
  }

  /** Python's `s[n:]`: a negative start counts from the end, a start past
      the end gives the empty list. */
  function SliceFrom<T>(s: seq<T>, n: int): (r: seq<T>)
    ensures |r| == (if 0 <= n then (if n <= |s| then |s| - n else 0) else (if -n <= |s| then -n else |s|))
    ensures r == s[|s| - |r|..]
  {
    if 0 <= n then (if n <= |s| then s[n..] else [])
    else if -n <= |s| then s[|s| + n..] else s
  }

  /** `chain[:, n_discard:, :]`: the burn-in cut of every walker. */
  function Discard(chain: seq<seq<Theta>>, n: int): (r: seq<seq<Theta>>)
    ensures |r| == |chain|
    ensures forall w :: 0 <= w < |chain| ==> r[w] == SliceFrom(chain[w], n)
  {
    seq(|chain|, w requires 0 <= w < |chain| => SliceFrom(chain[w], n))
  }

  /** The walkers' chains one after another (a C-order reshape): a sample
      is in the flat chain exactly when it is in one of the walkers' chains. */
  function Flatten<T(!new)>(c: seq<seq<T>>): (r: seq<T>)
    ensures forall x :: x in r <==> exists w :: 0 <= w < |c| && x in c[w]
  {
    if |c| == 0 then []
    else
      var rest := Flatten(c[1..]);
      assert forall x :: x in c[0] + rest <==> exists w :: 0 <= w < |c| && x in c[w] by {
        forall x
          ensures x in c[0] + rest <==> exists w :: 0 <= w < |c| && x in c[w]
        {
          if x in rest {
            var w :| 0 <= w < |c| - 1 && x in c[1..][w];
            assert x in c[w + 1];
          }
          if exists w :: 0 <= w < |c| && x in c[w] {
            var w :| 0 <= w < |c| && x in c[w];
            if w > 0 {
              assert x in c[1..][w - 1];
            }
          }
        }
      }
      c[0] + rest
  }

  /** Flattening chains of one length L gives |c|·L samples. */
  lemma {:induction false} FlattenLength<T(!new)>(c: seq<seq<T>>, len: nat)
    requires forall w :: 0 <= w < |c| ==> |c[w]| == len
    ensures |Flatten(c)| == |c| * len
  {
    if |c| > 0 {
      FlattenLength(c[1..], len);
      assert |c| * len == len + (|c| - 1) * len;
    }
  }

  /** ... and puts step k of walker w at w·L + k. */
  lemma {:induction false} FlattenAt<T(!new)>(c: seq<seq<T>>, len: nat, w: nat, k: nat)
    requires forall v :: 0 <= v < |c| ==> |c[v]| == len
    requires w < |c| && k < len
    ensures w * len + k < |Flatten(c)| && Flatten(c)[w * len + k] == c[w][k]
  {
    FlattenLength(c, len);
    if 0 < w {
      FlattenAt(c[1..], len, w - 1, k);
      assert w * len + k == len + ((w - 1) * len + k);
    }
  }

  /** One sampler run: start at the parameters' start values, cut the burn-in
      and flatten. For a chain of the expected shape the result holds the
      kept steps of every walker, walker after walker. */
  function RunSampler(p: FittingParameters, data: Grid, prf: (real, real, real) -> RealGrid, nx: nat, ny: nat,
                      nSteps: nat, nDiscard: int, sampler: Sampler, sqrt: real -> real, log: real -> real)
    : (r: seq<Theta>)
    requires Seeded(p) && Centred(p) && IsGrid(data, nx, ny) && PrfShape(prf, nx, ny)
    ensures var chain := sampler(Start(p), LogProbabilityOf(data, p, prf, nx, ny, sqrt, log), nSteps);
      && (forall x :: x in r <==> exists w :: 0 <= w < |chain| && x in SliceFrom(chain[w], nDiscard))
      && (IsChain(chain, nSteps) ==>
            && |r| == Walkers * |SliceFrom(chain[0], nDiscard)|
            && (0 <= nDiscard <= nSteps ==> |r| == Walkers * (nSteps - nDiscard)))
  {
    var chain := sampler(Start(p), LogProbabilityOf(data, p, prf, nx, ny, sqrt, log), nSteps);
    var cut := Discard(chain, nDiscard);
    assert forall x :: x in Flatten(cut) <==> exists w :: 0 <= w < |chain| && x in SliceFrom(chain[w], nDiscard) by {
      assert forall w :: 0 <= w < |chain| ==> cut[w] == SliceFrom(chain[w], nDiscard);
    }
    if IsChain(chain, nSteps) then
      UniformCut(chain, nSteps, nDiscard);
      FlattenLength(cut, |SliceFrom(chain[0], nDiscard)|);
      Flatten(cut)
    else
      Flatten(cut)
  }

  /** Cutting every walker of a well-shaped chain leaves equally long chains. */
  lemma UniformCut(chain: seq<seq<Theta>>, nSteps: nat, nDiscard: int)
    requires IsChain(chain, nSteps)
    ensures forall v :: 0 <= v < |chain| ==>
      |Discard(chain, nDiscard)[v]| == |SliceFrom(chain[0], nDiscard)| && |chain[v]| == nSteps
  {
  }

  /** For chains of the expected shape, the flat chain holds the kept steps
      of every walker, walker after walker: step k after the burn-in of
      walker w sits at w·kept + k. */
  lemma FlatChainLayout(chain: seq<seq<Theta>>, nSteps: nat, nDiscard: int, w: nat, k: nat)
    requires IsChain(chain, nSteps) && w < Walkers
    requires k < |SliceFrom(chain[0], nDiscard)|
    ensures var kept := |SliceFrom(chain[0], nDiscard)|;
      && |Flatten(Discard(chain, nDiscard))| == Walkers * kept
      && w * kept + k < |Flatten(Discard(chain, nDiscard))| && |chain[w]| == nSteps && kept <= nSteps
      && Flatten(Discard(chain, nDiscard))[w * kept + k] == chain[w][nSteps - kept + k]
  {
    var cut := Discard(chain, nDiscard);
    var kept := |SliceFrom(chain[0], nDiscard)|;
    UniformCut(chain, nSteps, nDiscard);
    FlattenLength(cut, kept);
    FlattenAt(cut, kept, w, k);
    assert cut[w] == SliceFrom(chain[w], nDiscard);
    SliceFromAt(chain[w], nDiscard, k);
  }

  /** Step k of `s[n:]` is step |s| − |s[n:]| + k of `s`. */
  lemma SliceFromAt<T>(s: seq<T>, n: int, k: nat)
    requires k < |SliceFrom(s, n)|
    ensures |SliceFrom(s, n)| <= |s| && SliceFrom(s, n)[k] == s[|s| - |SliceFrom(s, n)| + k]
  {
  }

  /** The start of the second run: the mean of every coordinate over the
      first run's samples; nothing else changes. */
  function Recenter(p: FittingParameters, flat: seq<Theta>): (r: Result<FittingParameters>)
    ensures r.Err? <==> |flat| == 0
    ensures r.Err? ==> r.error == EmptyChain
    ensures r.Ok? ==>
      && r.value.col == p.col.(initValue := Some(Mean(Values(flat, Col))))
      && r.value.row == p.row.(initValue := Some(Mean(Values(flat, Row))))
      && r.value.flux == p.flux.(initValue := Some(Mean(Values(flat, Flux))))
      && r.value.offset == p.offset.(initValue := Some(Mean(Values(flat, Offset))))
  {
    if |flat| == 0 then Err(EmptyChain)
    else
      Ok(FittingParameters(
        p.flux.(initValue := Some(Mean(Values(flat, Flux)))),
        p.col.(initValue := Some(Mean(Values(flat, Col)))),
        p.row.(initValue := Some(Mean(Values(flat, Row)))),
        p.offset.(initValue := Some(Mean(Values(flat, Offset))))))
  }

  /** The mean of samples that all lie strictly above `lo` lies above it. */
  lemma MeanAbove(s: seq<real>, lo: real)
    requires 0 < |s| && forall k :: 0 <= k < |s| ==> lo < s[k]
    ensures lo < Mean(s)
  {
    var m := Min(s);
    assert m in s;
  }

  lemma MeanBelow(s: seq<real>, hi: real)
    requires 0 < |s| && forall k :: 0 <= k < |s| ==> s[k] < hi
    ensures Mean(s) < hi
  {
    var m := Max(s);
    assert m in s;
  }

  /** The support is a box, so when every sample of the first run lies in it
      the re-centred start does too. */
  lemma RecenteredStartInSupport(p: FittingParameters, flat: seq<Theta>)
    requires 0 < |flat| && forall k :: 0 <= k < |flat| ==> InSupport(flat[k], p)
    ensures Seeded(Recenter(p, flat).value)
    ensures InSupport(Start(Recenter(p, flat).value), p)
  {
    var q := Recenter(p, flat).value;
    var col, row, flux, off := Values(flat, Col), Values(flat, Row), Values(flat, Flux), Values(flat, Offset);
    MeanAbove(col, p.col.min);
    MeanBelow(col, p.col.max);
    MeanAbove(row, p.row.min);
    MeanBelow(row, p.row.max);
    MeanAbove(flux, p.flux.min);
    MeanBelow(flux, p.flux.max);
    MeanAbove(off, p.offset.min);
  }

  /** Re-centring moves only the start, so the second run samples the same
      posterior as the first. */
  lemma RecenterKeepsPosterior(p: FittingParameters, flat: seq<Theta>, data: Grid,
                               prf: (real, real, real) -> RealGrid, nx: nat, ny: nat,
                               sqrt: real -> real, log: real -> real, t: Theta)
    requires 0 < |flat| && Centred(p) && IsGrid(data, nx, ny) && PrfShape(prf, nx, ny)
    ensures Centred(Recenter(p, flat).value)
    ensures LogProbability(t, data, Recenter(p, flat).value, prf, nx, ny, sqrt, log)
         == LogProbability(t, data, p, prf, nx, ny, sqrt, log)
  {
    var q := Recenter(p, flat).value;
    assert InSupport(t, q) <==> InSupport(t, p);
  }

  /** The percentile primitive: within the data's range and non-decreasing
      in the level. */
  ghost predicate IsPercentile(pct: (seq<real>, real) -> real)
  {
    && (forall s, q :: 0 < |s| && 0.0 <= q <= 100.0 ==> Min(s) <= pct(s, q) <= Max(s))
    && (forall s, q, q' :: 0 < |s| && 0.0 <= q <= q' <= 100.0 ==> pct(s, q) <= pct(s, q'))
  }

  /** The median with its 16th-84th percentile interval: the bounds are the
      two percentiles and the width is the interval's length. */
  function Summarise(s: seq<real>, pct: (seq<real>, real) -> real): (r: Parameter)
    requires 0 < |s|
    ensures r.min == pct(s, 16.0) && r.max == pct(s, 84.0)
    ensures r.value == Some(pct(s, 50.0)) && r.initValue.None?
    ensures r.err == r.max - r.min
    ensures IsPercentile(pct) ==>
      Min(s) <= r.min <= r.value.value <= r.max <= Max(s) && 0.0 <= r.err
  {
    var p16, p50, p84 := pct(s, 16.0), pct(s, 50.0), pct(s, 84.0);
    var q0, q1 := p50 - p16, p84 - p50;
    Parameter(p50 - q0, p50 + q1, Some(p50), None, q0 + q1)
  }

  /** Column and row samples moved by half a pixel (pixel centres to pixel
      corners); flux and offset unchanged. */
  function ShiftToCorner(flat: seq<Theta>): (r: seq<Theta>)
    ensures |r| == |flat|
    ensures Values(r, Col) == ShiftAll(Values(flat, Col), -0.5)
    ensures Values(r, Row) == ShiftAll(Values(flat, Row), -0.5)
    ensures Values(r, Flux) == Values(flat, Flux) && Values(r, Offset) == Values(flat, Offset)
  {
    seq(|flat|, k requires 0 <= k < |flat| => flat[k].(col := flat[k].col - 0.5, row := flat[k].row - 0.5))
  }

  /** The shifted chain and the summary of each coordinate. numpy's
      percentile of an empty chain fails. */
  function Extract(flat: seq<Theta>, pct: (seq<real>, real) -> real): (r: Result<(seq<Theta>, FittingParameters)>)
    ensures r.Err? <==> |flat| == 0
    ensures r.Err? ==> r.error == EmptyChain
    ensures r.Ok? ==> r.value.0 == ShiftToCorner(flat)
    ensures r.Ok? ==>
      var s := ShiftToCorner(flat);
      var p := r.value.1;
      && p.col == Summarise(Values(s, Col), pct) && p.row == Summarise(Values(s, Row), pct)
      && p.flux == Summarise(Values(s, Flux), pct) && p.offset == Summarise(Values(s, Offset), pct)
      && Centred(p)
  {
    if |flat| == 0 then Err(EmptyChain)
    else
      var s := ShiftToCorner(flat);
      Ok((s, FittingParameters(Summarise(Values(s, Flux), pct), Summarise(Values(s, Col), pct),
                               Summarise(Values(s, Row), pct), Summarise(Values(s, Offset), pct))))
  }

  /** Every value moved by d. */
  function ShiftAll(s: seq<real>, d: real): (r: seq<real>)
    ensures |r| == |s|
    ensures forall k :: 0 <= k < |s| ==> r[k] == s[k] + d
  {
    seq(|s|, k requires 0 <= k < |s| => s[k] + d)
  }

  /** Percentiles commute with moving every value by the same amount. */
  ghost predicate ShiftEquivariant(pct: (seq<real>, real) -> real)
  {
    forall s, d, q :: 0 < |s| ==> pct(ShiftAll(s, d), q) == pct(s, q) + d
  }

  /** The reported median column and row are half a pixel below the medians
      of the sampled ones. */
  lemma ReportedPositionIsShiftedMedian(flat: seq<Theta>, pct: (seq<real>, real) -> real)
    requires 0 < |flat| && ShiftEquivariant(pct)
    ensures Extract(flat, pct).value.1.col.value == Some(pct(Values(flat, Col), 50.0) - 0.5)
    ensures Extract(flat, pct).value.1.row.value == Some(pct(Values(flat, Row), 50.0) - 0.5)
  {
    var s := ShiftToCorner(flat);
    assert Values(s, Col) == ShiftAll(Values(flat, Col), -0.5);
    assert Values(s, Row) == ShiftAll(Values(flat, Row), -0.5);
  }

  /** `run`: initial parameters, a first run, a second run from the mean of
      the first, and the summary of the second with the model image at the
      medians. */
  function Run(inp: McmcInput, nx: nat, ny: nat, centreRow: real, centreCol: real,
               prf: (real, real, real) -> RealGrid, sampler: Sampler, pct: (seq<real>, real) -> real,
               sqrt: real -> real, log: real -> real): (r: Result<McmcOutput>)
    requires IsGrid(inp.flareImage, nx, ny) && PrfShape(prf, nx, ny)
    ensures AllNaN(inp.flareImage) ==> r == Err(EmptyReduction)
    ensures !AllNaN(inp.flareImage) && r.Err? ==> r.error == EmptyChain
    ensures r.Ok? ==>
      var p := r.value.parameters;
      && r.value.data == inp.flareImage
      && Centred(p) && p.flux.value.Some?
      && IsGrid(r.value.model, nx, ny)
      && r.value.model == ComputeModel(prf, Theta(p.col.value.value, p.row.value.value, p.flux.value.value,
                                                  p.offset.value.value), nx, ny)
      && (IsPercentile(pct) ==>
            && p.col.min <= p.col.value.value <= p.col.max
            && p.row.min <= p.row.value.value <= p.row.max)
    ensures r.Ok? ==>
      var c, p := r.value.chain, r.value.parameters;
      && 0 < |c|
      && p.col == Summarise(Values(c, Col), pct) && p.row == Summarise(Values(c, Row), pct)
      && p.flux == Summarise(Values(c, Flux), pct) && p.offset == Summarise(Values(c, Offset), pct)
    ensures r.Ok? ==> InitialParameters(inp, nx, ny, centreRow, centreCol, sqrt).Ok?
    ensures r.Ok? ==>
      var p0 := InitialParameters(inp, nx, ny, centreRow, centreCol, sqrt).value;
      var first := RunSampler(p0, inp.flareImage, prf, nx, ny, inp.nSteps, inp.nDiscard, sampler, sqrt, log);
      && Recenter(p0, first).Ok?
      && r.value.chain == ShiftToCorner(RunSampler(Recenter(p0, first).value, inp.flareImage, prf, nx, ny,
                                                   inp.nSteps, inp.nDiscard, sampler, sqrt, log))
  {
    var initial := InitialParameters(inp, nx, ny, centreRow, centreCol, sqrt);
    if initial.Err? then Err(initial.error)
    else
      var first := RunSampler(initial.value, inp.flareImage, prf, nx, ny, inp.nSteps, inp.nDiscard, sampler, sqrt, log);
      var recentred := Recenter(initial.value, first);
      if recentred.Err? then Err(recentred.error)
      else
        var last := RunSampler(recentred.value, inp.flareImage, prf, nx, ny, inp.nSteps, inp.nDiscard,
                               sampler, sqrt, log);
        var extracted := Extract(last, pct);
        if extracted.Err? then Err(extracted.error)
        else
          var p := extracted.value.1;
          var best := Theta(p.col.value.value, p.row.value.value, p.flux.value.value, p.offset.value.value);
          Ok(McmcOutput(extracted.value.0, p, ComputeModel(prf, best, nx, ny), inp.flareImage))
  }

  /** The sampler returns `Walkers` chains of the requested length. */
  ghost predicate SamplerShape(sampler: Sampler)
  {
    forall p0, lp, n :: IsChain(sampler(p0, lp, n), n)
  }

  /** With a finite pixel and a burn-in shorter than the run, `run` succeeds. */
  lemma RunSucceeds(inp: McmcInput, nx: nat, ny: nat, centreRow: real, centreCol: real,
                    prf: (real, real, real) -> RealGrid, sampler: Sampler, pct: (seq<real>, real) -> real,
                    sqrt: real -> real, log: real -> real)
    requires IsGrid(inp.flareImage, nx, ny) && PrfShape(prf, nx, ny) && SamplerShape(sampler)
    requires !AllNaN(inp.flareImage) && 0 <= inp.nDiscard < inp.nSteps
    ensures Run(inp, nx, ny, centreRow, centreCol, prf, sampler, pct, sqrt, log).Ok?
  {
    var initial := InitialParameters(inp, nx, ny, centreRow, centreCol, sqrt).value;
    var first := RunSampler(initial, inp.flareImage, prf, nx, ny, inp.nSteps, inp.nDiscard, sampler, sqrt, log);
    var recentred := Recenter(initial, first).value;
    var last := RunSampler(recentred, inp.flareImage, prf, nx, ny, inp.nSteps, inp.nDiscard, sampler, sqrt, log);
  }
}
