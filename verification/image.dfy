/** Pixel images with NaN-flagged pixels, and the step both flare image
    builders share: subtract the quiescent baseline at the flare cadence and
    add the global offset |min finite residual| so that every finite pixel
    becomes non-negative. */
module Image {
  import opened Base
  import opened Numeric

  /** One pixel value; `None` is a NaN pixel. */
  type Pixel = Option<real>

  /** An image indexed [row][column]. */
  type Grid = seq<seq<Pixel>>

  /** An image without NaN pixels (baseline evaluations). */
  type RealGrid = seq<seq<real>>

  /** `g` is an nx × ny array. */
  predicate IsGrid<T>(g: seq<seq<T>>, nx: nat, ny: nat)
  {
    |g| == nx && forall i :: 0 <= i < nx ==> |g[i]| == ny
  }

  /** Every image of the stack is nx × ny. */
  predicate IsCube<T>(c: seq<seq<seq<T>>>, nx: nat, ny: nat)
  {
    forall k :: 0 <= k < |c| ==> IsGrid(c[k], nx, ny)
  }

  /** The time series of pixel (i, j) through a stack of images. */
  function Column<T>(c: seq<seq<seq<T>>>, nx: nat, ny: nat, i: nat, j: nat): (r: seq<T>)
    requires IsCube(c, nx, ny) && i < nx && j < ny
    ensures |r| == |c|
    ensures forall k :: 0 <= k < |c| ==> r[k] == c[k][i][j]
  {
    seq(|c|, k requires 0 <= k < |c| => c[k][i][j])
  }

  /** The non-NaN values of a row of pixels, in order. */
  function FiniteValues(row: seq<Pixel>): (r: seq<real>)
    ensures forall v :: v in r <==> Some(v) in row
    ensures |r| <= |row|
  {
    if |row| == 0 then []
    else
      var rest := FiniteValues(row[1..]);
      assert forall x :: x in row <==> x == row[0] || x in row[1..];
      match row[0]
      case None => rest
      case Some(v) => [v] + rest
  }

  /** The non-NaN pixel values of an image in row-major order, what
      `image[~isnan(image)]` selects. */
  function Finite(g: Grid): (r: seq<real>)
    ensures forall v :: v in r <==> exists i :: 0 <= i < |g| && Some(v) in g[i]
  {
    if |g| == 0 then []
    else
      var rest := Finite(g[1..]);
      assert forall i :: 1 <= i < |g| ==> g[i] == g[1..][i - 1];
      FiniteValues(g[0]) + rest
  }

  /** `Finite` sees exactly the non-NaN pixels. */
  lemma FiniteHoldsPixel(g: Grid, i: nat, j: nat)
    requires i < |g| && j < |g[i]| && g[i][j].Some?
    ensures g[i][j].value in Finite(g)
  {
    assert Some(g[i][j].value) in g[i];
  }

  /** The pixel a value of `Finite(g)` comes from. */
  lemma PixelHolding(g: Grid, v: real) returns (i: nat, j: nat)
    requires v in Finite(g)
    ensures i < |g| && j < |g[i]| && g[i][j] == Some(v)
  {
    var i' :| 0 <= i' < |g| && Some(v) in g[i'];
    var j' :| 0 <= j' < |g[i']| && g[i'][j'] == Some(v);
    i, j := i', j';
  }

  /** `g` has no finite pixel at all. */
  predicate AllNaN(g: Grid)
  {
    forall i, j :: 0 <= i < |g| && 0 <= j < |g[i]| ==> g[i][j].None?
  }

  lemma FiniteEmptyIffAllNaN(g: Grid)
    ensures |Finite(g)| == 0 <==> AllNaN(g)
  {
    if !AllNaN(g) {
      var i, j :| 0 <= i < |g| && 0 <= j < |g[i]| && g[i][j].Some?;
      FiniteHoldsPixel(g, i, j);
    }
    if |Finite(g)| > 0 {
      var v := Finite(g)[0];
      assert v in Finite(g);
      var i :| 0 <= i < |g| && Some(v) in g[i];
      var j :| 0 <= j < |g[i]| && g[i][j] == Some(v);
    }
  }

  /** raw − baseline pixel by pixel; a NaN pixel stays NaN. */
  function Subtract(raw: Grid, base: RealGrid, nx: nat, ny: nat): (r: Grid)
    requires IsGrid(raw, nx, ny) && IsGrid(base, nx, ny)
    ensures IsGrid(r, nx, ny)
    ensures forall i, j :: 0 <= i < nx && 0 <= j < ny ==>
      r[i][j] == (if raw[i][j].None? then None else Some(raw[i][j].value - base[i][j]))
  {
    seq(nx, i requires 0 <= i < nx =>
      seq(ny, j requires 0 <= j < ny =>
        if raw[i][j].None? then None else Some(raw[i][j].value - base[i][j])))
  }

  /** g + offset pixel by pixel; a NaN pixel stays NaN. */
  function Shift(g: Grid, offset: real, nx: nat, ny: nat): (r: Grid)
    requires IsGrid(g, nx, ny)
    ensures IsGrid(r, nx, ny)
    ensures forall i, j :: 0 <= i < nx && 0 <= j < ny ==>
      r[i][j] == (if g[i][j].None? then None else Some(g[i][j].value + offset))
  {
    seq(nx, i requires 0 <= i < nx =>
      seq(ny, j requires 0 <= j < ny =>
        if g[i][j].None? then None else Some(g[i][j].value + offset)))
  }

  /** |min of the finite pixels|; numpy's min fails when none is finite. */
  function AbsMinFinite(g: Grid): (r: Result<real>)
    ensures r.Err? <==> AllNaN(g)
    ensures r.Ok? ==> 0.0 <= r.value
  {
    FiniteEmptyIffAllNaN(g);
    if |Finite(g)| == 0 then Err(EmptyReduction) else Ok(Abs(Min(Finite(g))))
  }

  /** The global offset added to the residual image: |min finite residual|. */
  function FlareOffset(raw: Grid, base: RealGrid, nx: nat, ny: nat): (r: Result<real>)
    requires IsGrid(raw, nx, ny) && IsGrid(base, nx, ny)
    ensures r.Err? <==> AllNaN(raw)
    ensures r.Ok? ==> 0.0 <= r.value
  {
    SubtractKeepsNaN(raw, base, nx, ny);
    AbsMinFinite(Subtract(raw, base, nx, ny))
  }

  /** The flare image: raw flux at the flare cadence minus the baseline
      there, shifted by the offset. Fails exactly when the raw image has no
      finite pixel. */
  function RemoveBaseline(raw: Grid, base: RealGrid, nx: nat, ny: nat): (r: Result<Grid>)
    requires IsGrid(raw, nx, ny) && IsGrid(base, nx, ny)
    ensures r.Err? <==> AllNaN(raw)
    ensures r.Ok? ==> IsGrid(r.value, nx, ny)
    ensures r.Ok? ==>
      && FlareOffset(raw, base, nx, ny).Ok?
      && r.value == ShiftedResidual(raw, base, FlareOffset(raw, base, nx, ny).value, nx, ny)
  {
    var offset := FlareOffset(raw, base, nx, ny);
    if offset.Err? then Err(offset.error)
    else Ok(ShiftedResidual(raw, base, offset.value, nx, ny))
  }

  /** raw − base + offset at every finite pixel. */
  function ShiftedResidual(raw: Grid, base: RealGrid, offset: real, nx: nat, ny: nat): (r: Grid)
    requires IsGrid(raw, nx, ny) && IsGrid(base, nx, ny)
    ensures IsGrid(r, nx, ny)
    ensures forall i, j :: 0 <= i < nx && 0 <= j < ny ==>
      r[i][j] == (if raw[i][j].None? then None else Some(raw[i][j].value - base[i][j] + offset))
  {
    Shift(Subtract(raw, base, nx, ny), offset, nx, ny)
  }

  /** One pixel of a flare image: NaN exactly where the raw image is NaN,
      otherwise raw − baseline + offset, which is never negative. */
  lemma FlarePixel(raw: Grid, base: RealGrid, flare: Grid, nx: nat, ny: nat, i: nat, j: nat)
    requires IsGrid(raw, nx, ny) && IsGrid(base, nx, ny)
    requires RemoveBaseline(raw, base, nx, ny) == Ok(flare) && i < nx && j < ny
    ensures raw[i][j].None? <==> flare[i][j].None?
    ensures raw[i][j].Some? ==>
      && flare[i][j] == Some(raw[i][j].value - base[i][j] + FlareOffset(raw, base, nx, ny).value)
      && 0.0 <= flare[i][j].value
  {
    OffsetMakesNonNegative(raw, base, nx, ny);
  }

  lemma SubtractKeepsNaN(raw: Grid, base: RealGrid, nx: nat, ny: nat)
    requires IsGrid(raw, nx, ny) && IsGrid(base, nx, ny)
    ensures AllNaN(Subtract(raw, base, nx, ny)) <==> AllNaN(raw)
  {
    var residual: Grid := Subtract(raw, base, nx, ny);
    if !AllNaN(raw) {
      var i, j :| 0 <= i < |raw| && 0 <= j < |raw[i]| && raw[i][j].Some?;
      assert residual[i][j].Some?;
    }
    if !AllNaN(residual) {
      var i, j :| 0 <= i < |residual| && 0 <= j < |residual[i]| && residual[i][j].Some?;
      assert raw[i][j].Some?;
    }
  }

  /** After the offset NaN pixels stay NaN and every finite pixel is
      non-negative. */
  lemma OffsetMakesNonNegative(raw: Grid, base: RealGrid, nx: nat, ny: nat)
    requires IsGrid(raw, nx, ny) && IsGrid(base, nx, ny)
    requires RemoveBaseline(raw, base, nx, ny).Ok?
    ensures var f := RemoveBaseline(raw, base, nx, ny).value;
      && (forall i, j :: 0 <= i < nx && 0 <= j < ny ==> (f[i][j].None? <==> raw[i][j].None?))
      && (forall i, j :: 0 <= i < nx && 0 <= j < ny && f[i][j].Some? ==> 0.0 <= f[i][j].value)
  {
    var residual: Grid := Subtract(raw, base, nx, ny);
    var m := Min(Finite(residual));
    var f: Grid := RemoveBaseline(raw, base, nx, ny).value;
    assert FlareOffset(raw, base, nx, ny).value == Abs(m);
    forall i, j | 0 <= i < nx && 0 <= j < ny && f[i][j].Some?
      ensures 0.0 <= f[i][j].value
    {
      FiniteHoldsPixel(residual, i, j);
    }
  }

  /** When the least residual is not positive, the pixel holding it becomes
      exactly 0 in the flare image. */
  lemma OffsetReachesZero(raw: Grid, base: RealGrid, nx: nat, ny: nat)
    requires IsGrid(raw, nx, ny) && IsGrid(base, nx, ny)
    requires RemoveBaseline(raw, base, nx, ny).Ok?
    requires Min(Finite(Subtract(raw, base, nx, ny))) <= 0.0
    ensures exists i, j :: 0 <= i < nx && 0 <= j < ny && RemoveBaseline(raw, base, nx, ny).value[i][j] == Some(0.0)
  {
    var residual: Grid := Subtract(raw, base, nx, ny);
    var m := Min(Finite(residual));
    var f: Grid := RemoveBaseline(raw, base, nx, ny).value;
    assert FlareOffset(raw, base, nx, ny).value == Abs(m);
    var i, j := PixelHolding(residual, m);
    assert f[i][j] == Some(m + Abs(m));
    assert 0 <= i < nx && 0 <= j < ny && f[i][j] == Some(0.0);
  }
}
