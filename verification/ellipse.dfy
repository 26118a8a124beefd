/** Confidence ellipses of the flare position and the catalogue stars they
    hold (src/confidence_ellipce_estimation.py): the sample covariance of
    the column and row samples, its eigen-decomposition sorted by decreasing
    eigenvalue, ellipses at the 68 %, 95 % and 99.9 % levels, and the stars
    inside the widest one, or the nearest star when none is inside.
    The eigen-solver and the trigonometric functions are parameters. */
module Ellipse {
  import opened Base
  import opened Numeric
  import opened Mcmc

  /** The confidence levels and the chi-square quantiles (two degrees of
      freedom) the ellipses are drawn at. */
  const Levels: seq<real> := [0.68, 0.95, 0.999]
  const Chi2Values: seq<real> := [2.27887, 5.99146, 13.81551]

  datatype Point = Point(x: real, y: real)

  /** The chi-square quantile of a level; any other level leaves the scale
      unbound (UnboundLocalError). */
  function Chi2(level: real): (r: Result<real>)
    ensures r.Ok? <==> level in Levels
    ensures r.Err? ==> r.error == UnknownConfidenceLevel
    ensures forall k :: 0 <= k < |Levels| && level == Levels[k] ==> r == Ok(Chi2Values[k])
  {
    if level == Levels[0] then Ok(Chi2Values[0])
    else if level == Levels[1] then Ok(Chi2Values[1])
    else if level == Levels[2] then Ok(Chi2Values[2])
    else Err(UnknownConfidenceLevel)
  }

  /** A symmetric 2 × 2 matrix [[xx, xy], [xy, yy]]. */
  datatype Cov = Cov(xx: real, xy: real, yy: real)

  /** Positive semi-definite: both variances non-negative and the
      correlation at most one in magnitude. */
  predicate SemiDefinite(c: Cov)
  {
    0.0 <= c.xx && 0.0 <= c.yy && c.xy * c.xy <= c.xx * c.yy
  }

  /** Each value minus the mean. */
  function Deviations(s: seq<real>): (r: seq<real>)
    requires 0 < |s|
    ensures |r| == |s|
    ensures forall k :: 0 <= k < |s| ==> r[k] == s[k] - Mean(s)
  {
    seq(|s|, k requires 0 <= k < |s| => s[k] - Mean(s))
  }

  /** numpy.cov(x, y): the sample covariance with divisor n − 1. With fewer
      than two samples numpy does not raise: it warns that the degrees of
      freedom are not positive and returns a NaN matrix, on which the
      eigen-decomposition that follows fails. That later failure is reported
      here, as an error of the covariance. */
  function Covariance(x: seq<real>, y: seq<real>): (r: Result<Cov>)
    requires |x| == |y|
    ensures r.Err? <==> |x| < 2
    ensures r.Err? ==> r.error == TooFewSamples
    ensures r.Ok? ==> SemiDefinite(r.value)
    ensures r.Ok? ==>
      var dx, dy, m := Deviations(x), Deviations(y), (|x| - 1) as real;
      && r.value.xx == SumProd(dx, dx) / m
      && r.value.xy == SumProd(dx, dy) / m
      && r.value.yy == SumProd(dy, dy) / m
  {
    if |x| < 2 then Err(TooFewSamples)
    else
      var dx, dy, m := Deviations(x), Deviations(y), (|x| - 1) as real;
      SampleCovarianceSemiDefinite(dx, dy, m);
      Ok(Cov(SumProd(dx, dx) / m, SumProd(dx, dy) / m, SumProd(dy, dy) / m))
  }

  /** Cauchy-Schwarz makes the scaled Gram matrix of two deviation vectors
      semi-definite. */
  lemma SampleCovarianceSemiDefinite(dx: seq<real>, dy: seq<real>, m: real)
    requires |dx| == |dy| && 0.0 < m
    ensures SemiDefinite(Cov(SumProd(dx, dx) / m, SumProd(dx, dy) / m, SumProd(dy, dy) / m))
  {
    SelfProductNonNegative(dx);
    SelfProductNonNegative(dy);
    CauchySchwarz(dx, dy);
    ScaledSemiDefinite(SumProd(dx, dx), SumProd(dx, dy), SumProd(dy, dy), m);
  }

  lemma SelfProductNonNegative(a: seq<real>)
    ensures 0.0 <= SumProd(a, a)
  {
    SumSquaredCombinationExpands(a, a, 0.0, 1.0);
  }

  /** Scaling a semi-definite matrix by a positive factor keeps it so. */
  lemma ScaledProducts(a: real, c: real, b: real, r: real)
    requires 0.0 <= a && 0.0 <= b && c * c <= a * b && 0.0 < r
    ensures 0.0 <= a * r && 0.0 <= b * r && (c * r) * (c * r) <= (a * r) * (b * r)
  {
  }

  /** ... and so does dividing it by a positive number. */
  lemma ScaledSemiDefinite(a: real, c: real, b: real, m: real)
    requires 0.0 <= a && 0.0 <= b && c * c <= a * b && 0.0 < m
    ensures SemiDefinite(Cov(a / m, c / m, b / m))
  {
    var r := 1.0 / m;
    DivIsMulRecip(a, m);
    DivIsMulRecip(b, m);
    DivIsMulRecip(c, m);
    ScaledProducts(a, c, b, r);
    MulCongruence(c / m, c / m, c * r, c * r);
    MulCongruence(a / m, b / m, a * r, b * r);
  }

  /** Two eigenvalues with their unit eigenvectors, in the order given. */
  datatype Eigen = Eigen(val0: real, val1: real, vec0: Point, vec1: Point)

  /** c·v == λ·v for a unit vector v. */
  predicate IsEigenPair(c: Cov, lambda: real, v: Point)
  {
    && c.xx * v.x + c.xy * v.y == lambda * v.x
    && c.xy * v.x + c.yy * v.y == lambda * v.y
    && v.x * v.x + v.y * v.y == 1.0
  }

  /** numpy.linalg.eigh on a symmetric 2 × 2 matrix: eigen-pairs in
      ascending order of eigenvalue. */
  ghost predicate IsEigh(eigh: Cov -> Eigen)
  {
    forall c :: eigh(c).val0 <= eigh(c).val1
      && IsEigenPair(c, eigh(c).val0, eigh(c).vec0) && IsEigenPair(c, eigh(c).val1, eigh(c).vec1)
  }

  /** `_eigsorted`: the reversed ascending argsort, so the larger eigenvalue
      comes first; equal eigenvalues are swapped. The pairs stay together. */
  function EigSorted(e: Eigen): (r: Eigen)
    ensures r.val1 <= r.val0
    ensures r == e || r == Eigen(e.val1, e.val0, e.vec1, e.vec0)
    ensures e.val0 <= e.val1 ==> r == Eigen(e.val1, e.val0, e.vec1, e.vec0)
  {
    if e.val1 < e.val0 then e else Eigen(e.val1, e.val0, e.vec1, e.vec0)
  }

  /** An eigenvalue of a semi-definite matrix is never negative. */
  lemma EigenvalueNonNegative(c: Cov, lambda: real, v: Point)
    requires SemiDefinite(c) && IsEigenPair(c, lambda, v)
    ensures 0.0 <= lambda
  {
    var q := c.xx * v.x * v.x + 2.0 * c.xy * v.x * v.y + c.yy * v.y * v.y;
    assert lambda * (v.x * v.x + v.y * v.y) == v.x * (lambda * v.x) + v.y * (lambda * v.y);
    assert lambda == q;
    if c.xx == 0.0 {
      assert c.xy * c.xy <= 0.0;
      if c.xy != 0.0 {
        SquarePositive(c.xy);
      }
      SquareNonNegative(v.y);
      assert q == c.yy * (v.y * v.y);
    } else {
      var u := c.xx * v.x + c.xy * v.y;
      assert c.xx * q == u * u + (c.xx * c.yy - c.xy * c.xy) * (v.y * v.y);
      SquareNonNegative(u);
      SquareNonNegative(v.y);
      assert 0.0 <= (c.xx * c.yy - c.xy * c.xy) * (v.y * v.y);
      PositiveFactor(c.xx, q);
    }
  }

  /** The primitives the ellipses are drawn with. */
  datatype Tools = Tools(
    sqrt: real -> real,
    eigh: Cov -> Eigen,
    atan2Deg: (real, real) -> real,    // degrees(arctan2(y, x))
    cosDeg: real -> real,              // cos(radians(a))
    sinDeg: real -> real)              // sin(radians(a))

  ghost predicate Lawful(t: Tools)
  {
    IsSqrt(t.sqrt) && IsEigh(t.eigh)
  }

  datatype FlareEllipse = FlareEllipse(width: real, height: real, centre: Point, theta: real)

  /** One full axis of an ellipse: 2·sqrt(chi2)·sqrt(λ). */
  function Axis(chi2: real, lambda: real, sqrt: real -> real): real
  {
    2.0 * sqrt(chi2) * sqrt(lambda)
  }

  /** `_generateEllipse`: centred on the sample means, oriented along the
      eigenvector of the larger eigenvalue, with full axes 2·sqrt(chi2·λ).
      The covariance fails first, then an unknown level. */
  function GenerateEllipse(x: seq<real>, y: seq<real>, level: real, t: Tools): (r: Result<FlareEllipse>)
    requires |x| == |y|
    ensures r.Err? <==> |x| < 2 || level !in Levels
    ensures r.Err? ==> r.error == (if |x| < 2 then TooFewSamples else UnknownConfidenceLevel)
    ensures r.Ok? ==> Covariance(x, y).Ok? && Chi2(level).Ok?
    ensures r.Ok? ==>
      var e := EigSorted(t.eigh(Covariance(x, y).value));
      && r.value.centre == Point(Mean(x), Mean(y))
      && r.value.theta == t.atan2Deg(e.vec0.y, e.vec0.x)
      && r.value.width == Axis(Chi2(level).value, e.val0, t.sqrt)
      && r.value.height == Axis(Chi2(level).value, e.val1, t.sqrt)
  {
    var cov := Covariance(x, y);
    if cov.Err? then Err(cov.error)
    else
      var e := EigSorted(t.eigh(cov.value));
      var theta := t.atan2Deg(e.vec0.y, e.vec0.x);
      var chi2 := Chi2(level);
      if chi2.Err? then Err(chi2.error)
      else
        Ok(FlareEllipse(Axis(chi2.value, e.val0, t.sqrt), Axis(chi2.value, e.val1, t.sqrt), Point(Mean(x), Mean(y)), theta))
  }

  /** A genuine square root is monotone. */
  lemma SqrtMonotone(sqrt: real -> real, a: real, b: real)
    requires IsSqrt(sqrt) && 0.0 <= a <= b
    ensures 0.0 <= sqrt(a) <= sqrt(b)
  {
    if sqrt(b) < sqrt(a) {
      SquareMonotone(sqrt(a), sqrt(b));
    }
  }

  /** ... and so is squaring its results back. */
  lemma SqrtReflectsOrder(sqrt: real -> real, a: real, b: real)
    requires IsSqrt(sqrt) && 0.0 <= a && 0.0 <= b && sqrt(a) <= sqrt(b)
    ensures a <= b
  {
    var ra, rb := sqrt(a), sqrt(b);
    assert 0.0 <= ra <= rb;
    SquareMonotoneWeak(rb, ra);
    assert ra * ra == a && rb * rb == b;
  }

  lemma ProductMonotone(a: real, b: real, c: real)
    requires 0.0 <= a <= b && 0.0 <= c
    ensures 0.0 <= a * c <= b * c
  {
  }

  /** With a genuine square root an axis grows with both the quantile and
      the eigenvalue, and is never negative. */
  lemma AxisMonotone(sqrt: real -> real, c1: real, c2: real, l1: real, l2: real)
    requires IsSqrt(sqrt) && 0.0 <= c1 <= c2 && 0.0 <= l1 <= l2
    ensures 0.0 <= Axis(c1, l1, sqrt) <= Axis(c2, l2, sqrt)
  {
    SqrtMonotone(sqrt, c1, c2);
    SqrtMonotone(sqrt, l1, l2);
    ScaledProductMonotone(sqrt(c1), sqrt(c2), sqrt(l1), sqrt(l2));
  }

  lemma ScaledProductMonotone(r1: real, r2: real, u1: real, u2: real)
    requires 0.0 <= r1 <= r2 && 0.0 <= u1 <= u2
    ensures 0.0 <= 2.0 * r1 * u1 <= 2.0 * r2 * u2
  {
    var s1, s2 := 2.0 * r1, 2.0 * r2;
    ProductMonotone(s1, s2, u1);
    ProductMonotone(u1, u2, s2);
  }

  /** The eigenvalues of the sorted decomposition of a sample covariance:
      the larger first, neither negative. */
  lemma SortedEigenvalues(x: seq<real>, y: seq<real>, t: Tools)
    requires |x| == |y| && 2 <= |x| && Lawful(t)
    ensures var e := EigSorted(t.eigh(Covariance(x, y).value));
      0.0 <= e.val1 <= e.val0
  {
    var c := Covariance(x, y).value;
    var raw := t.eigh(c);
    EigenvalueNonNegative(c, raw.val0, raw.vec0);
    EigenvalueNonNegative(c, raw.val1, raw.vec1);
  }

  /** The two axes of an ellipse: the major axis first, neither negative. */
  lemma AxesOrdered(x: seq<real>, y: seq<real>, level: real, t: Tools)
    requires |x| == |y| && Lawful(t) && GenerateEllipse(x, y, level, t).Ok?
    ensures var e := GenerateEllipse(x, y, level, t).value;
      0.0 <= e.height <= e.width
  {
    var e := EigSorted(t.eigh(Covariance(x, y).value));
    SortedEigenvalues(x, y, t);
    var chi2 := Chi2(level).value;
    assert 0.0 <= chi2;
    AxisMonotone(t.sqrt, chi2, chi2, e.val1, e.val0);
  }

  /** The three ellipses share centre and orientation, and each level's axes
      are at least those of the lower level. */
  lemma EllipsesNest(x: seq<real>, y: seq<real>, t: Tools, lo: nat, hi: nat)
    requires |x| == |y| && 2 <= |x| && Lawful(t) && lo <= hi < |Levels|
    ensures var a, b := GenerateEllipse(x, y, Levels[lo], t), GenerateEllipse(x, y, Levels[hi], t);
      && a.Ok? && b.Ok?
      && a.value.centre == b.value.centre && a.value.theta == b.value.theta
      && a.value.width <= b.value.width && a.value.height <= b.value.height
  {
    var e := EigSorted(t.eigh(Covariance(x, y).value));
    SortedEigenvalues(x, y, t);
    var c1, c2 := Chi2Values[lo], Chi2Values[hi];
    assert Chi2(Levels[lo]) == Ok(c1) && Chi2(Levels[hi]) == Ok(c2);
    assert 0.0 <= c1 <= c2;
    AxisMonotone(t.sqrt, c1, c2, e.val0, e.val0);
    AxisMonotone(t.sqrt, c1, c2, e.val1, e.val1);
  }

  /** The star's offset from the centre, rotated by 180° − θ. */
  function Rotated(ell: FlareEllipse, p: Point, t: Tools): Point
  {
    var c, s := t.cosDeg(180.0 - ell.theta), t.sinDeg(180.0 - ell.theta);
    var xc, yc := p.x - ell.centre.x, p.y - ell.centre.y;
    Point(xc * c - yc * s, xc * s + yc * c)
  }

  /** rad = (x'/(w/2))² + (y'/(h/2))² for a rotated offset (x', y'). */
  function Rad(q: Point, w: real, h: real): real
    requires w != 0.0 && h != 0.0
  {
    (q.x / (w / 2.0)) * (q.x / (w / 2.0)) + (q.y / (h / 2.0)) * (q.y / (h / 2.0))
  }

  /** The star's offset from the centre of the ellipse is zero, whatever
      the orientation. */
  lemma CentreRotatesToOrigin(ell: FlareEllipse, t: Tools)
    ensures Rotated(ell, ell.centre, t) == Point(0.0, 0.0)
  {
    var c, s := t.cosDeg(180.0 - ell.theta), t.sinDeg(180.0 - ell.theta);
    assert Rotated(ell, ell.centre, t) == Point(0.0 * c - 0.0 * s, 0.0 * s + 0.0 * c);
  }

  /** rad ≤ 1, boundary included. A zero axis makes rad NaN or infinite,
      which never compares ≤ 1, so no star is inside such an ellipse; a star
      at the centre of an ellipse with non-zero axes is inside it. */
  function IsInside(ell: FlareEllipse, p: Point, t: Tools): (r: bool)
    ensures r ==> ell.width != 0.0 && ell.height != 0.0
    ensures p == ell.centre && ell.width != 0.0 && ell.height != 0.0 ==> r
  {
    CentreRotatesToOrigin(ell, t);
    && ell.width != 0.0 && ell.height != 0.0
    && Rad(Rotated(ell, p, t), ell.width, ell.height) <= 1.0
  }

  /** A catalogue star: its G magnitude and its pixel position. */
  datatype Star = Star(gmag: real, pos: Point)

  /** numpy.argwhere on a flag list: the flagged positions, ascending. */
  function Select(flags: seq<bool>): (r: seq<nat>)
    ensures forall k: nat :: k in r <==> k < |flags| && flags[k]
    ensures forall i, j :: 0 <= i < j < |r| ==> r[i] < r[j]
    ensures forall i :: 0 <= i < |r| ==> r[i] < |flags|
  {
    if |flags| == 0 then []
    else
      var rest := Select(flags[..|flags| - 1]);
      if flags[|flags| - 1] then rest + [|flags| - 1] else rest
  }

  /** The distance of a star from the ellipse centre, unrotated. */
  function Distance(ell: FlareEllipse, p: Point, sqrt: real -> real): real
  {
    sqrt(Square(p.x - ell.centre.x) + Square(p.y - ell.centre.y))
  }

  function Distances(stars: seq<Star>, ell: FlareEllipse, sqrt: real -> real): (r: seq<real>)
    ensures |r| == |stars|
    ensures forall k :: 0 <= k < |stars| ==> r[k] == Distance(ell, stars[k].pos, sqrt)
  {
    seq(|stars|, k requires 0 <= k < |stars| => Distance(ell, stars[k].pos, sqrt))
  }

  function InsideFlags(stars: seq<Star>, ell: FlareEllipse, t: Tools): (r: seq<bool>)
    ensures |r| == |stars|
    ensures forall k :: 0 <= k < |stars| ==> r[k] == IsInside(ell, stars[k].pos, t)
  {
    seq(|stars|, k requires 0 <= k < |stars| => IsInside(ell, stars[k].pos, t))
  }

  /** The stars inside the ellipse with their distances, in catalogue order,
      or, when there are none, the nearest star. */
  datatype StarReport =
    | Within(gmags: seq<real>, distances: seq<real>)
    | Nearest(gmag: real, distance: real)

  /** `_checkIsStarInTheErrorEllipse` at the 99.9 % level. With no star
      inside, numpy's argmin over an empty catalogue fails. */
  function CheckStars(stars: seq<Star>, ell: FlareEllipse, t: Tools): (r: Result<StarReport>)
    ensures r.Err? <==> |stars| == 0
    ensures r.Err? ==> r.error == EmptyReduction
    ensures r.Ok? && r.value.Within? ==>
      var idx := Select(InsideFlags(stars, ell, t));
      && 0 < |idx| && |r.value.gmags| == |idx| == |r.value.distances|
      && (forall i :: 0 <= i < |idx| ==>
            r.value.gmags[i] == stars[idx[i]].gmag
            && r.value.distances[i] == Distance(ell, stars[idx[i]].pos, t.sqrt))
      && (forall k :: 0 <= k < |stars| ==> (IsInside(ell, stars[k].pos, t) <==> k in idx))
    ensures r.Ok? ==> (r.value.Within? <==> exists k :: 0 <= k < |stars| && IsInside(ell, stars[k].pos, t))
    ensures r.Ok? && r.value.Nearest? ==>
      && (forall k :: 0 <= k < |stars| ==> !IsInside(ell, stars[k].pos, t))
      && exists k :: IsFirstMinimum(Distances(stars, ell, t.sqrt), k)
           && r.value == Nearest(stars[k].gmag, Distance(ell, stars[k].pos, t.sqrt))
  {
    var flags := InsideFlags(stars, ell, t);
    var idx := Select(flags);
    var dist := Distances(stars, ell, t.sqrt);
    if 0 < |idx| then
      assert flags[idx[0]];
      Ok(Within(seq(|idx|, i requires 0 <= i < |idx| => stars[idx[i]].gmag),
                seq(|idx|, i requires 0 <= i < |idx| => dist[idx[i]])))
    else if |stars| == 0 then Err(EmptyReduction)
    else
      var k := ArgMin(dist);
      Ok(Nearest(stars[k].gmag, dist[k]))
  }

  /** With a genuine square root the nearest star has the least squared
      offset from the centre. */
  lemma NearestHasLeastOffset(stars: seq<Star>, ell: FlareEllipse, t: Tools, k: nat, j: nat)
    requires IsSqrt(t.sqrt) && IsFirstMinimum(Distances(stars, ell, t.sqrt), k) && j < |stars|
    ensures var a, b := stars[k].pos, stars[j].pos;
      Square(a.x - ell.centre.x) + Square(a.y - ell.centre.y)
        <= Square(b.x - ell.centre.x) + Square(b.y - ell.centre.y)
  {
    var a, b := stars[k].pos, stars[j].pos;
    var sa := Square(a.x - ell.centre.x) + Square(a.y - ell.centre.y);
    var sb := Square(b.x - ell.centre.x) + Square(b.y - ell.centre.y);
    SquareNonNegative(a.x - ell.centre.x);
    SquareNonNegative(a.y - ell.centre.y);
    SquareNonNegative(b.x - ell.centre.x);
    SquareNonNegative(b.y - ell.centre.y);
    assert Distance(ell, a, t.sqrt) == t.sqrt(sa);
    assert Distance(ell, b, t.sqrt) == t.sqrt(sb);
    SqrtReflectsOrder(t.sqrt, sa, sb);
  }

  datatype EllipseOutput = EllipseOutput(e68: FlareEllipse, e95: FlareEllipse, e999: FlareEllipse, stars: StarReport)

  /** `run`: the three ellipses of the column and row samples, then the stars
      of the 99.9 % ellipse. */
  function Run(chain: seq<Theta>, stars: seq<Star>, t: Tools): (r: Result<EllipseOutput>)
    ensures r.Err? <==> |chain| < 2 || |stars| == 0
    ensures r.Err? ==> r.error == (if |chain| < 2 then TooFewSamples else EmptyReduction)
    ensures r.Ok? ==>
      var x, y := Values(chain, Col), Values(chain, Row);
      && GenerateEllipse(x, y, Levels[0], t) == Ok(r.value.e68)
      && GenerateEllipse(x, y, Levels[1], t) == Ok(r.value.e95)
      && GenerateEllipse(x, y, Levels[2], t) == Ok(r.value.e999)
      && CheckStars(stars, r.value.e999, t) == Ok(r.value.stars)
  {
    var x, y := Values(chain, Col), Values(chain, Row);
    var e68 := GenerateEllipse(x, y, Levels[0], t);
    if e68.Err? then Err(e68.error)
    else
      var e95 := GenerateEllipse(x, y, Levels[1], t).value;
      var e999 := GenerateEllipse(x, y, Levels[2], t).value;
      var report := CheckStars(stars, e999, t);
      if report.Err? then Err(report.error)
      else Ok(EllipseOutput(e68.value, e95, e999, report.value))
  }
}
