/** The quiescent-flux polynomial: numpy.poly1d evaluation, and the
    least-squares fit `numpy.polyfit` taken as a parameter together with the
    one law the model relies on: samples lying exactly on a polynomial of the
    fitted order are reproduced. */
module Polynomial {
  import opened Base
  import opened Image

  /** numpy.poly1d: coefficients from the highest power down to the constant. */
  datatype Poly = Poly(coeffs: seq<real>)

  function Power(t: real, k: nat): real
  {
    if k == 0 then 1.0 else t * Power(t, k - 1)
  }

  /** Reference meaning of a coefficient list: Σ cs[k]·t^(n-1-k). */
  function PowerSum(cs: seq<real>, t: real): real
  {
    if |cs| == 0 then 0.0 else cs[0] * Power(t, |cs| - 1) + PowerSum(cs[1..], t)
  }

  /** Horner's scheme, the way poly1d evaluates. */
  function Horner(cs: seq<real>, t: real): real
  {
    if |cs| == 0 then 0.0 else Horner(cs[..|cs| - 1], t) * t + cs[|cs| - 1]
  }

  lemma {:induction false} PowerSumSnoc(cs: seq<real>, c: real, t: real)
    ensures PowerSum(cs + [c], t) == PowerSum(cs, t) * t + c
  {
    if |cs| == 0 {
      assert cs + [c] == [c];
    } else {
      assert (cs + [c])[1..] == cs[1..] + [c];
      PowerSumSnoc(cs[1..], c, t);
      var a, p, rest := cs[0], Power(t, |cs| - 1), PowerSum(cs[1..], t);
      assert Power(t, |cs|) == t * p;
      assert a * (t * p) + (rest * t + c) == (a * p + rest) * t + c;
    }
  }

  lemma {:induction false} HornerIsPowerSum(cs: seq<real>, t: real)
    ensures Horner(cs, t) == PowerSum(cs, t)
  {
    if |cs| > 0 {
      var init := cs[..|cs| - 1];
      HornerIsPowerSum(init, t);
      assert init + [cs[|cs| - 1]] == cs;
      PowerSumSnoc(init, cs[|cs| - 1], t);
    }
  }

  /** The value of the polynomial at t; Horner's scheme agrees with the sum
      of coefficient times power. */
  function Eval(p: Poly, t: real): (v: real)
    ensures v == PowerSum(p.coeffs, t)
  {
    HornerIsPowerSum(p.coeffs, t);
    Horner(p.coeffs, t)
  }

  /** The polynomial at each time of a list. */
  function EvalAll(p: Poly, ts: seq<real>): (r: seq<real>)
    ensures |r| == |ts|
    ensures forall k :: 0 <= k < |ts| ==> r[k] == Eval(p, ts[k])
  {
    seq(|ts|, k requires 0 <= k < |ts| => Eval(p, ts[k]))
  }

  /** The cubic of the test fixture, t³ − 0.5·t² + 10·t + 4, in poly1d's order. */
  lemma CubicCoefficients(a: real, b: real, c: real, d: real, t: real)
    ensures Eval(Poly([a, b, c, d]), t) == a * (t * t * t) + b * (t * t) + c * t + d
  {
    assert [a, b, c, d][1..] == [b, c, d];
    assert [b, c, d][1..] == [c, d];
    assert [c, d][1..] == [d];
    assert Power(t, 1) == t;
    assert Power(t, 2) == t * t;
    assert Power(t, 3) == t * (t * t);
    assert PowerSum([d], t) == d;
    assert PowerSum([c, d], t) == c * t + d;
    assert PowerSum([b, c, d], t) == b * (t * t) + c * t + d;
    assert PowerSum([a, b, c, d], t) == a * (t * (t * t)) + b * (t * t) + c * t + d;
  }

  /** numpy.polyfit(x, y, order); `None` when numpy raises. */
  type Fitter = (seq<real>, seq<Pixel>, nat) -> Option<Poly>

  /** Distinct sample times, at least order + 1 of them. */
  predicate Determined(ts: seq<real>, order: nat)
  {
    && order < |ts|
    && forall a, b :: 0 <= a < b < |ts| ==> ts[a] != ts[b]
  }

  /** The samples lie exactly on q. */
  predicate OnPolynomial(ts: seq<real>, ys: seq<Pixel>, q: Poly)
  {
    |ts| == |ys| && forall k :: 0 <= k < |ts| ==> ys[k] == Some(Eval(q, ts[k]))
  }

  /** Least squares reproduces a polynomial of at most the fitted order that
      passes through all of its determining samples. */
  ghost predicate ReproducesPolynomials(fit: Fitter)
  {
    forall ts: seq<real>, ys: seq<Pixel>, order: nat, q: Poly ::
      Determined(ts, order) && |q.coeffs| <= order + 1 && OnPolynomial(ts, ys, q) ==>
        fit(ts, ys, order).Some? && SameFunction(fit(ts, ys, order).value, q)
  }

  /** p and q take the same value everywhere. */
  ghost predicate SameFunction(p: Poly, q: Poly)
  {
    forall t :: Eval(p, t) == Eval(q, t)
  }
}
