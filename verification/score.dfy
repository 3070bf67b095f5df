/**
 * The SCore policy: follow-the-regularised-leader over the k-subset polytope
 * with an entropic regulariser. It ignores hints, takes the first element of
 * each reward list as the observed 1-core vertex, and keeps the inclusion
 * vector `p` equal to the regularised optimum of the cumulative gradient.
 */
module SCore {

  import opened Vectors
  import opened Utils

  /** The initial inclusion vector: every coordinate k/N. */
  function Uniform(N: nat, k: nat): (u: seq<real>)
    requires N > 0
    ensures |u| == N
    ensures forall i, j :: 0 <= i < N && 0 <= j < N ==> u[i] == u[j]
    ensures RealSum(u) == k as real
  {
    RealSumConstant(N, k as real / N as real);
    seq(N, _ => k as real / N as real)
  }

  /**
   * Whether sqrt(k ln(N/k) / (2 G^2 time_horizon)) evaluates without raising:
   * N/k and the outer quotient need nonzero divisors, the logarithm a
   * positive argument, and the square root a non-negative one. With k == N
   * the numerator is 0.0, so any nonzero horizon gives 0.0 or -0.0.
   */
  predicate EtaDefined(N: int, k: int, G: real, timeHorizon: int)
  {
    0 < k && 0 < N && G != 0.0 && timeHorizon != 0 &&
    (k == N || (k < N && timeHorizon > 0) || (k > N && timeHorizon < 0))
  }

  /** The uniform vector k/N lies in the k-subset polytope whenever 0 < k <= N. */
  lemma UniformIsInclusionVector(N: nat, k: nat)
    requires 0 < k <= N
    ensures IsInclusionVector(Uniform(N, k), N, k)
  {
  }

  class SCore {
    const N: nat
    const k: nat
    /** Upper bound on the L2 norms of 1-core vectors. */
    const G: real
    const timeHorizon: int
    /** The learning rate, fixed at construction. */
    const eta: real
    const ftrlOptimize: FtrlOptimizer
    const madowSample: Sampler

    var p: seq<real>
    var cumulativeGradient: seq<int>
    /** Rounds fed so far (starts at 0 here; see the round counter in module Policy). */
    var T: int

    ghost predicate Valid()
      reads this
    {
      0 < k <= N &&
      FtrlContract(ftrlOptimize, N, k) &&
      SamplerContract(madowSample, N, k) &&
      IsInclusionVector(p, N, k) &&
      |cumulativeGradient| == N &&
      NonNegative(cumulativeGradient) &&
      Sum(cumulativeGradient) == T
    }

    /**
     * `eta` is the value of sqrt(k ln(N/k) / (2 G^2 time_horizon)), given
     * here because the floating-point formula is not modelled; the formula
     * raises unless `EtaDefined`. Only k <= N keeps p = k/N in the polytope.
     */
    constructor (N: nat, k: nat, G: real, timeHorizon: int, eta: real,
                 ftrlOptimize: FtrlOptimizer, madowSample: Sampler)
      requires EtaDefined(N, k, G, timeHorizon) && k <= N && eta >= 0.0
      requires FtrlContract(ftrlOptimize, N, k)
      requires SamplerContract(madowSample, N, k)
      ensures Valid()
      ensures this.N == N && this.k == k && this.G == G && this.timeHorizon == timeHorizon
      ensures this.eta == eta && this.ftrlOptimize == ftrlOptimize && this.madowSample == madowSample
      ensures p == Uniform(N, k)
      ensures cumulativeGradient == seq(N, _ => 0)
      ensures T == 0
    {
      this.N := N;
      this.k := k;
      this.G := G;
      this.timeHorizon := timeHorizon;
      this.eta := eta;
      this.ftrlOptimize := ftrlOptimize;
      this.madowSample := madowSample;
      p := Uniform(N, k);
      cumulativeGradient := seq(N, _ => 0);
      T := 0;
      new;
      UniformIsInclusionVector(N, k);
      ZeroVectorSum(N);
    }

    /** Samples the next subset from `p`; the hint plays no part. */
    method GetKSet(hint: seq<int>) returns (s: seq<int>)
      requires Valid()
      ensures s == madowSample(p, N, k)
      ensures IsCharacteristicVector(s, N, k)
    {
      s := madowSample(p, N, k);
    }

    /**
     * Adds the basis vector of `reward[0]` to the gradient and moves `p` to
     * the regularised optimum of the new gradient; the hint plays no part.
     */
    method FeedReward(reward: seq<int>, hint: seq<int>)
      requires Valid()
      requires |reward| > 0 && 1 <= reward[0] <= N
      modifies this
      ensures Valid()
      ensures T == old(T) + 1
      ensures cumulativeGradient == old(cumulativeGradient)[reward[0] - 1 := old(cumulativeGradient)[reward[0] - 1] + 1]
      ensures p == ftrlOptimize(cumulativeGradient, N, k, eta)
    {
      var element := reward[0];
      var g := new int[N](_ => 0);
      g[element - 1] := 1;
      assert g[..] == Basis(N, element - 1);
      AddBasis(cumulativeGradient, element - 1);
      var gradient := Add(cumulativeGradient, g[..]);
      T, cumulativeGradient, p := T + 1, gradient, ftrlOptimize(gradient, N, k, eta);
    }
  }

  /** How many reward lists of a run start with element `e`. */
  function FirstElementCount(rewards: seq<seq<int>>, e: int): nat
  {
    if rewards == [] then 0
    else
      var last := rewards[|rewards| - 1];
      FirstElementCount(rewards[..|rewards| - 1], e) + (if |last| > 0 && last[0] == e then 1 else 0)
  }

  /**
   * A run of the driver loop restricted to SCore: a fresh policy is fed the
   * reward lists one round at a time. The round counter ends at the number
   * of rounds, and each gradient coordinate counts the rounds whose reward
   * list started with that element.
   */
  method RunRounds(N: nat, k: nat, G: real, timeHorizon: int, eta: real,
                   ftrlOptimize: FtrlOptimizer, madowSample: Sampler,
                   rewards: seq<seq<int>>)
    returns (rounds: int, gradient: seq<int>)
    requires EtaDefined(N, k, G, timeHorizon) && k <= N && eta >= 0.0
    requires FtrlContract(ftrlOptimize, N, k)
    requires SamplerContract(madowSample, N, k)
    requires forall t :: 0 <= t < |rewards| ==> |rewards[t]| > 0 && 1 <= rewards[t][0] <= N
    ensures rounds == |rewards|
    ensures |gradient| == N && Sum(gradient) == |rewards|
    ensures forall i :: 0 <= i < N ==> gradient[i] == FirstElementCount(rewards, i + 1)
  {
    var policy := new SCore(N, k, G, timeHorizon, eta, ftrlOptimize, madowSample);
    var t := 0;
    while t < |rewards|
      invariant 0 <= t <= |rewards|
      invariant policy.Valid() && policy.N == N && policy.T == t
      invariant forall i :: 0 <= i < N ==> policy.cumulativeGradient[i] == FirstElementCount(rewards[..t], i + 1)
    {
      ghost var before := policy.cumulativeGradient;
      policy.FeedReward(rewards[t], []);
      ghost var prefix := rewards[..t + 1];
      assert prefix[..t] == rewards[..t] && prefix[t] == rewards[t];
      forall i | 0 <= i < N
        ensures policy.cumulativeGradient[i] == FirstElementCount(prefix, i + 1)
      {
        assert policy.cumulativeGradient[i] == before[i] + (if rewards[t][0] == i + 1 then 1 else 0);
      }
      t := t + 1;
    }
    assert rewards[..t] == rewards;
    rounds := policy.T;
    gradient := policy.cumulativeGradient;
  }
}
