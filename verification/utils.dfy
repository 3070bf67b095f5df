/**
 * The numerical primitives the policies call but whose code is not part of
 * this model (`utils.ftrlOptimize`, `utils.MadowSample`, `math.exp`). Each
 * is passed to a policy as a function value; the predicates here state the
 * contract the policy's creator must meet. For `MadowSample` and `math.exp`
 * that is what their documentation promises. `ftrlOptimize` is called but
 * defined nowhere in the repository; its contract is what any
 * entropy-regularised FTRL step over the k-subset polytope returns: a point
 * of that polytope.
 */
module Utils {

  import opened Vectors

  /**
   * A point of the fractional k-subset polytope: N coordinates, each in
   * [0, 1], summing to k.
   */
  predicate IsInclusionVector(p: seq<real>, N: int, k: int)
  {
    |p| == N &&
    (forall i :: 0 <= i < |p| ==> 0.0 <= p[i] <= 1.0) &&
    RealSum(p) == k as real
  }

  /** Every entry is an element of the ground set 1..N. */
  predicate InGroundSet(s: seq<int>, N: int)
  {
    forall i :: 0 <= i < |s| ==> 1 <= s[i] <= N
  }

  /** No entry occurs twice. */
  predicate Distinct(s: seq<int>)
  {
    forall i, j :: 0 <= i < j < |s| ==> s[i] != s[j]
  }

  /** A list of exactly k distinct elements of 1..N. */
  predicate IsKSubset(s: seq<int>, N: int, k: int)
  {
    |s| == k && InGroundSet(s, N) && Distinct(s)
  }

  /** `utils.ftrlOptimize(cumulativeGradient, N, k, eta)`. */
  type FtrlOptimizer = (seq<int>, int, int, real) -> seq<real>

  /** The characteristic vector of a k-element subset of 1..N: N entries in {0, 1}, k of them 1. */
  predicate IsCharacteristicVector(s: seq<int>, N: int, k: int)
  {
    |s| == N && IsBinary(s) && Sum(s) == k
  }

  /** `utils.MadowSample(p, N, k)`. */
  type Sampler = (seq<real>, int, int) -> seq<int>

  /**
   * The entropy-regularised optimiser returns an inclusion vector for every
   * gradient: a point of the k-subset polytope it optimises over, with
   * coordinates in [0, 1] summing to k.
   */
  ghost predicate FtrlContract(ftrl: FtrlOptimizer, N: int, k: int)
  {
    forall g: seq<int>, eta: real :: |g| == N ==> IsInclusionVector(ftrl(g, N, k, eta), N, k)
  }

  /**
   * Madow's sampler returns the characteristic vector of a k-element
   * subset for every inclusion vector.
   */
  ghost predicate SamplerContract(sample: Sampler, N: int, k: int)
  {
    forall p: seq<real> :: IsInclusionVector(p, N, k) ==> IsCharacteristicVector(sample(p, N, k), N, k)
  }

  /** What the model uses of `math.exp`: it is positive, 1 at 0 and above 1 for positive arguments. */
  ghost predicate ExpContract(exp: real -> real)
  {
    exp(0.0) == 1.0 &&
    (forall x :: exp(x) > 0.0) &&
    (forall x :: x > 0.0 ==> exp(x) > 1.0)
  }
}
