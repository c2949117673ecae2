/**
 * Parametric Value-at-Risk thresholds and the Kupiec unconditional-coverage
 * likelihood-ratio test.
 *
 * The library numerics are parameters: `normPpf` stands for the normal
 * quantile function, `tPpf(alpha, nu)` for the Student-t quantile, `ln` for
 * the natural logarithm and `chi2Cdf` for the chi-squared distribution
 * function with one degree of freedom.
 */
module Var {
  import opened Base

  /** Gaussian VaR threshold `mu - sigma * normPpf(alpha)`. */
  function GaussianVar(mu: real, sigma: real, alpha: real, normPpf: real -> real): (r: real)
    ensures sigma == 0.0 ==> r == mu
    ensures sigma >= 0.0 && normPpf(alpha) > 0.0 ==> r <= mu
  {
    mu - sigma * normPpf(alpha)
  }

  /** Student-t VaR threshold `mu - sigma * tPpf(alpha, nu)`. */
  function StudentTVar(mu: real, sigma: real, nu: real, alpha: real, tPpf: (real, real) -> real): (r: real)
    ensures sigma == 0.0 ==> r == mu
    ensures sigma >= 0.0 && tPpf(alpha, nu) > 0.0 ==> r <= mu
  {
    mu - sigma * tPpf(alpha, nu)
  }

  lemma ProductNonNegative(a: real, b: real)
    requires a >= 0.0 && b >= 0.0
    ensures a * b >= 0.0
  {
  }

  /** With a positive quantile, a larger scale never raises the threshold. */
  lemma GaussianVarMonotone(mu: real, s1: real, s2: real, alpha: real, normPpf: real -> real)
    requires normPpf(alpha) > 0.0 && s1 <= s2
    ensures GaussianVar(mu, s2, alpha, normPpf) <= GaussianVar(mu, s1, alpha, normPpf)
  {
    ProductNonNegative(s2 - s1, normPpf(alpha));
  }

  lemma StudentTVarMonotone(mu: real, s1: real, s2: real, nu: real, alpha: real, tPpf: (real, real) -> real)
    requires tPpf(alpha, nu) > 0.0 && s1 <= s2
    ensures StudentTVar(mu, s2, nu, alpha, tPpf) <= StudentTVar(mu, s1, nu, alpha, tPpf)
  {
    ProductNonNegative(s2 - s1, tPpf(alpha, nu));
  }

  /** A level with a larger quantile (99% against 95%) gives the deeper threshold. */
  lemma GaussianVarDeeperAtHigherLevel(mu: real, sigma: real, a1: real, a2: real, normPpf: real -> real)
    requires sigma >= 0.0 && normPpf(a1) >= normPpf(a2)
    ensures GaussianVar(mu, sigma, a1, normPpf) <= GaussianVar(mu, sigma, a2, normPpf)
  {
    ProductNonNegative(sigma, normPpf(a1) - normPpf(a2));
  }

  lemma StudentTVarDeeperAtHigherLevel(mu: real, sigma: real, nu: real, a1: real, a2: real, tPpf: (real, real) -> real)
    requires sigma >= 0.0 && tPpf(a1, nu) >= tPpf(a2, nu)
    ensures StudentTVar(mu, sigma, nu, a1, tPpf) <= StudentTVar(mu, sigma, nu, a2, tPpf)
  {
    ProductNonNegative(sigma, tPpf(a1, nu) - tPpf(a2, nu));
  }

  /** Both thresholds have the same affine form: equal quantiles give equal thresholds. */
  lemma StudentTMatchesGaussian(mu: real, sigma: real, nu: real, alpha: real,
                                normPpf: real -> real, tPpf: (real, real) -> real)
    requires tPpf(alpha, nu) == normPpf(alpha)
    ensures StudentTVar(mu, sigma, nu, alpha, tPpf) == GaussianVar(mu, sigma, alpha, normPpf)
  {
  }

  /** The clipping bound `1e-12`. */
  const Eps: real := 0.000000000001

  /** `np.clip(v, lo, hi)`. */
  function Clip(v: real, lo: real, hi: real): (r: real)
    requires lo <= hi
    ensures lo <= r <= hi
    ensures lo <= v <= hi ==> r == v
    ensures v < lo ==> r == lo
    ensures v > hi ==> r == hi
  {
    if v < lo then lo else if v > hi then hi else v
  }

  lemma ClipIdempotent(v: real, lo: real, hi: real)
    requires lo <= hi
    ensures Clip(Clip(v, lo, hi), lo, hi) == Clip(v, lo, hi)
  {
  }

  /** The nominal violation probability after clipping. */
  function ClippedAlpha(alpha: real): (r: real)
    ensures Eps <= r <= 1.0 - Eps
    ensures 0.0 < r < 1.0 && 0.0 < 1.0 - r < 1.0
  {
    Clip(alpha, Eps, 1.0 - Eps)
  }

  /** The observed violation rate `x / T` after clipping (Python true division). */
  function ClippedRate(x: int, T: int): (r: real)
    requires T != 0
    ensures Eps <= r <= 1.0 - Eps
    ensures 0.0 < r < 1.0 && 0.0 < 1.0 - r < 1.0
  {
    Clip(x as real / T as real, Eps, 1.0 - Eps)
  }

  /** Bernoulli log-likelihood of `x` violations in `T` trials at rate `p`. */
  function LogLikelihood(x: int, T: int, p: real, ln: real -> real): real
  {
    (T - x) as real * ln(1.0 - p) + x as real * ln(p)
  }

  /** The pair `(LR, p_value)` that `LRuc` returns. */
  datatype Coverage = Coverage(lr: real, pValue: real)

  /** `x / T` with `T == 0` raises `ZeroDivisionError`. */
  datatype CoverageError = ZeroDivision

  /** `LRuc(alpha, x, T)`. */
  function Lruc(alpha: real, x: int, T: int, ln: real -> real, chi2Cdf: real -> real): (r: Result<Coverage, CoverageError>)
    ensures r.Failure? <==> T == 0
    ensures r.Success? ==> r.value.pValue == 1.0 - chi2Cdf(r.value.lr)
  {
    if T == 0 then Failure(ZeroDivision)
    else
      var a := ClippedAlpha(alpha);
      var pHat := ClippedRate(x, T);
      var nullLl := LogLikelihood(x, T, a, ln);
      var altLl := LogLikelihood(x, T, pHat, ln);
      var lr := -2.0 * (nullLl - altLl);
      Success(Coverage(lr, 1.0 - chi2Cdf(lr)))
  }

  /** Null and alternative share their weights, so equal clipped rates give LR = 0. */
  lemma LrucZeroWhenRatesCoincide(alpha: real, x: int, T: int, ln: real -> real, chi2Cdf: real -> real)
    requires T != 0 && ClippedRate(x, T) == ClippedAlpha(alpha)
    ensures Lruc(alpha, x, T, ln, chi2Cdf) == Success(Coverage(0.0, 1.0 - chi2Cdf(0.0)))
  {
  }

  /** The statistic sees `alpha` only through its clipped value. */
  lemma LrucClipInvariant(alpha: real, x: int, T: int, ln: real -> real, chi2Cdf: real -> real)
    ensures Lruc(ClippedAlpha(alpha), x, T, ln, chi2Cdf) == Lruc(alpha, x, T, ln, chi2Cdf)
  {
    ClipIdempotent(alpha, Eps, 1.0 - Eps);
  }

  /** No violations: the rate is clipped up to `1e-12` instead of `log(0)`. */
  lemma NoViolationsClipToEps(T: int)
    requires T != 0
    ensures ClippedRate(0, T) == Eps
  {
  }

  /** Every trial a violation: the rate is clipped down to `1 - 1e-12`. */
  lemma AllViolationsClipBelowOne(T: int)
    requires T != 0
    ensures ClippedRate(T, T) == 1.0 - Eps
  {
    assert T as real / T as real == 1.0;
  }

  lemma NonNegativeFactor(a: real, t: real)
    requires t > 0.0 && a * t >= 0.0
    ensures a >= 0.0
  {
  }

  /** Strictly between the boundaries, and with fewer than 10^12 trials, clipping leaves `x / T` alone. */
  lemma InteriorRateUnclipped(x: int, T: int)
    requires 0 < x < T <= 1_000_000_000_000
    ensures ClippedRate(x, T) == x as real / T as real
  {
    var t := T as real;
    var q := x as real / t;
    assert q * t == x as real;
    assert q * t >= 1.0;
    assert Eps * t <= 1.0;
    assert (q - Eps) * t >= 0.0;
    NonNegativeFactor(q - Eps, t);
    var rest := 1.0 - q;
    assert rest * t == (T - x) as real;
    assert rest * t >= 1.0;
    assert (rest - Eps) * t >= 0.0;
    NonNegativeFactor(rest - Eps, t);
  }
}
