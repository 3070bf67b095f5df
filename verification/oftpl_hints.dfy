/**
 * The optimistic follow-the-perturbed-leader policy with hints. Each round it
 * picks, among the standard basis vectors of the reward elements (the
 * vertices of the 1-core), one closest in L1 distance to the hint, adds it
 * to the cumulative gradient and accumulates the squared hint error.
 */
module OFTPLHints {

  import opened Wrappers
  import opened Vectors
  import opened Utils

  /** `C >= 11` and `2*C <= N`, the conditions the constructor enforces. */
  predicate ValidConfig(N: int, C: int)
    ensures ValidConfig(N, C) ==> N >= 22 && 11 <= C <= N / 2
  {
    C >= 11 && 2 * C <= N
  }

  /** The `ValueError` the constructor raises on a bad configuration. */
  datatype ConfigError = ConfigError(message: string)

  /** Whether the hint contains reward element `e` (`hint[e - 1]` is truthy). */
  predicate Hinted(hint: seq<int>, e: int)
    requires 1 <= e <= |hint|
  {
    hint[e - 1] != 0
  }

  /** The position in `reward` of the first element the hint contains, if any. */
  function FirstHinted(reward: seq<int>, hint: seq<int>): (r: Option<nat>)
    requires InGroundSet(reward, |hint|)
    ensures r.Some? ==> r.value < |reward| && Hinted(hint, reward[r.value])
    ensures r.Some? ==> forall j :: 0 <= j < r.value ==> !Hinted(hint, reward[j])
    ensures r.None? ==> forall j :: 0 <= j < |reward| ==> !Hinted(hint, reward[j])
  {
    if reward == [] then None
    else if Hinted(hint, reward[0]) then Some(0)
    else
      match FirstHinted(reward[1..], hint)
      case None => None
      case Some(i) => Some(i + 1)
  }

  /**
   * The element whose basis vector the scan picks: the first reward element
   * the hint contains, otherwise the last reward element.
   */
  function ClosestElement(reward: seq<int>, hint: seq<int>): (e: int)
    requires |reward| > 0 && InGroundSet(reward, |hint|)
    ensures e in reward && 1 <= e <= |hint|
    ensures !Hinted(hint, e) ==> e == reward[|reward| - 1]
  {
    match FirstHinted(reward, hint)
    case Some(i) => reward[i]
    case None => reward[|reward| - 1]
  }

  /** The closed-form L1 distance recorded for the picked vertex. */
  function L1Dist(reward: seq<int>, hint: seq<int>): (d: int)
    requires InGroundSet(reward, |hint|)
    ensures d == Norm(hint) - 1 || d == Norm(hint) + 1
    ensures |reward| > 0 ==> (d == Norm(hint) - 1 <==> Hinted(hint, ClosestElement(reward, hint)))
  {
    if FirstHinted(reward, hint).Some? then Norm(hint) - 1 else Norm(hint) + 1
  }

  /**
   * For a 0/1 hint, the picked basis vector is at distance `L1Dist` from the
   * hint, and no basis vector of another reward element is closer.
   */
  lemma ClosestIsNearest(reward: seq<int>, hint: seq<int>)
    requires |reward| > 0 && InGroundSet(reward, |hint|)
    requires IsBinary(hint)
    ensures VertexToHint(hint, ClosestElement(reward, hint)) == L1Dist(reward, hint)
    ensures forall i :: 0 <= i < |reward| ==>
      VertexToHint(hint, ClosestElement(reward, hint)) <= VertexToHint(hint, reward[i])
  {
    var c := ClosestElement(reward, hint);
    VertexDistance(hint, c);
    forall i | 0 <= i < |reward|
      ensures L1Dist(reward, hint) <= VertexToHint(hint, reward[i])
    {
      VertexDistance(hint, reward[i]);
      if FirstHinted(reward, hint).None? {
        assert !Hinted(hint, reward[i]);
      }
    }
  }

  /** The L1 distance from the basis vector of element `e` to the hint. */
  function VertexToHint(hint: seq<int>, e: int): int
    requires 1 <= e <= |hint|
  {
    Distance(Basis(|hint|, e - 1), hint)
  }

  /** The closed form of `VertexToHint` for a 0/1 hint. */
  lemma VertexDistance(hint: seq<int>, e: int)
    requires 1 <= e <= |hint| && IsBinary(hint)
    ensures VertexToHint(hint, e) == if Hinted(hint, e) then Norm(hint) - 1 else Norm(hint) + 1
  {
    BasisDistance(hint, e - 1);
  }

  /**
   * The recorded distance is never negative for an integer hint: a hint that
   * contains a reward element has norm at least 1.
   */
  lemma L1DistNonNegative(reward: seq<int>, hint: seq<int>)
    requires InGroundSet(reward, |hint|)
    ensures L1Dist(reward, hint) >= 0
  {
    NormNonNegative(hint);
    match FirstHinted(reward, hint)
    case Some(i) => NormBoundsCoordinate(hint, reward[i] - 1);
    case None =>
  }

  class OFTPLHints {
    const N: int
    const k: int
    const C: int
    /** The perturbation vector, one standard-normal draw per element. */
    const gamma: seq<real>
    /** The factor that turns the accumulated hint error into `eta`. */
    const scale: real

    var p: seq<real>
    var eta: real
    var cumulativeGradient: seq<int>
    /** The square of `l1errors`, the sum of the per-round closed-form distances. */
    var l1errorsSquared: int
    /** Rounds fed so far (starts at 0 here; see the round counter in module Policy). */
    var T: int

    ghost predicate Valid()
      reads this
    {
      ValidConfig(N, C) &&
      |gamma| == N &&
      |cumulativeGradient| == N &&
      NonNegative(cumulativeGradient) &&
      Sum(cumulativeGradient) == T &&
      l1errorsSquared >= 0
    }

    /**
     * `gamma` is the seeded normal draw and `scale` the value of
     * (1.3/sqrt(C)) * (1/ln(N e / C))^(1/4); neither formula is modelled.
     */
    constructor (N: int, k: int, C: int, gamma: seq<real>, scale: real)
      requires ValidConfig(N, C) && |gamma| == N
      ensures Valid()
      ensures this.N == N && this.k == k && this.C == C && this.gamma == gamma && this.scale == scale
      ensures p == seq(N, _ => 0.0) && eta == 0.0
      ensures cumulativeGradient == seq(N, _ => 0)
      ensures l1errorsSquared == 0 && T == 0
    {
      this.N := N;
      this.k := k;
      this.C := C;
      this.gamma := gamma;
      this.scale := scale;
      p := seq(N, _ => 0.0);
      eta := 0.0;
      cumulativeGradient := seq(N, _ => 0);
      l1errorsSquared := 0;
      T := 0;
      new;
      ZeroVectorSum(N);
    }

    /**
     * One round of feedback: pick the closest 1-core vertex to the hint,
     * add it to the gradient and add its distance to the squared error.
     */
    method FeedReward(reward: seq<int>, hint: seq<int>)
      requires Valid()
      requires |hint| == N
      requires |reward| > 0 && InGroundSet(reward, N)
      modifies this
      ensures Valid()
      ensures T == old(T) + 1
      ensures var c := ClosestElement(reward, hint);
        cumulativeGradient == old(cumulativeGradient)[c - 1 := old(cumulativeGradient)[c - 1] + 1]
      ensures l1errorsSquared == old(l1errorsSquared) + L1Dist(reward, hint)
      ensures l1errorsSquared >= old(l1errorsSquared)
      ensures p == old(p) && eta == old(eta)
    {
      var closestElement, l1dist := ScanReward(reward, hint);
      var g := new int[N](_ => 0);
      g[closestElement - 1] := 1;
      assert g[..] == Basis(N, closestElement - 1);
      AddBasis(cumulativeGradient, closestElement - 1);
      L1DistNonNegative(reward, hint);

      var gradient := Add(cumulativeGradient, g[..]);
      assert gradient == cumulativeGradient[closestElement - 1 := cumulativeGradient[closestElement - 1] + 1];
      assert NonNegative(gradient) && Sum(gradient) == T + 1;
      T, l1errorsSquared, cumulativeGradient := T + 1, l1errorsSquared + l1dist, gradient;
    }
  }

  /**
   * The scan of feedReward over the reward list: stops at the first element
   * the hint contains, otherwise ends on the last element.
   */
  method ScanReward(reward: seq<int>, hint: seq<int>) returns (closestElement: int, l1dist: int)
    requires |reward| > 0 && InGroundSet(reward, |hint|)
    ensures closestElement == ClosestElement(reward, hint)
    ensures l1dist == L1Dist(reward, hint)
  {
    var dist: Option<int> := None;
    var closest: Option<int> := None;
    var l1hint := Norm(hint);
    var i := 0;
    while i < |reward|
      invariant 0 <= i <= |reward|
      invariant forall j :: 0 <= j < i ==> !Hinted(hint, reward[j])
      invariant i == 0 ==> closest == None && dist == None
      invariant i > 0 ==> closest == Some(reward[i - 1]) && dist == Some(l1hint + 1)
    {
      var element := reward[i];
      closest := Some(element);
      if hint[element - 1] != 0 {
        dist := Some(l1hint - 1);
        break;
      } else {
        dist := Some(l1hint + 1);
      }
      i := i + 1;
    }
    assert dist.Some? && closest.Some?;
    closestElement, l1dist := closest.value, dist.value;
  }

  /**
   * Construction with the configuration check: a `ValueError` exactly when
   * `C < 11` or `2*C > N`, otherwise a fresh policy in its initial state.
   */
  method Create(N: int, k: int, C: int, gamma: seq<real>, scale: real)
    returns (r: Result<OFTPLHints, ConfigError>)
    requires ValidConfig(N, C) ==> |gamma| == N
    ensures r.Failure? <==> C < 11 || 2 * C > N
    ensures r.Success? ==> fresh(r.value) && r.value.Valid() && r.value.N == N && r.value.C == C && r.value.T == 0
    ensures r.Success? ==> r.value.cumulativeGradient == seq(N, _ => 0) && r.value.l1errorsSquared == 0 && r.value.eta == 0.0
  {
    if C < 11 || 2 * C > N {
      return Failure(ConfigError("The conditions C >= 11 and 2*C <= N must be satisfied!"));
    }
    var policy := new OFTPLHints(N, k, C, gamma, scale);
    r := Success(policy);
  }
}
