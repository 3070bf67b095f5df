/**
 * The ranked-bandits policy: k EXP3 bandits, one per rank of the predicted
 * list. Each round every bandit draws an arm; an arm already placed at an
 * earlier rank is replaced by the lowest-numbered element not yet placed.
 * On feedback, the first rank whose unsubstituted prediction was clicked
 * rewards its bandit with 1 and every other bandit with 0.
 */
module RankedBandits {

  import opened Vectors
  import opened Utils

  // ---------------------------------------------------------------------------
  // EXP3 arm probabilities

  /**
   * Whether sqrt(N ln N / ((e - 1) time_horizon)) evaluates without raising:
   * the logarithm needs N >= 1, the quotient a nonzero horizon, and the
   * square root a non-negative argument. With N == 1 the numerator is 0.0,
   * so a negative horizon gives -0.0.
   */
  predicate RateDefined(N: int, timeHorizon: int)
  {
    N >= 1 && (timeHorizon > 0 || (N == 1 && timeHorizon < 0))
  }

  /** `min(1, rate)`: the exploration rate of a bandit. */
  function ExplorationRate(rate: real): (gamma: real)
    requires rate >= 0.0
    ensures 0.0 <= gamma <= 1.0
    ensures gamma == rate || (gamma == 1.0 && rate >= 1.0)
  {
    if rate < 1.0 then rate else 1.0
  }

  /** `((1 - gamma) / sum(weights)) * weights + gamma / N`. */
  function ArmProbabilities(weights: seq<real>, gamma: real): (p: seq<real>)
    requires |weights| > 0 && AllPositive(weights)
    ensures |p| == |weights|
    ensures gamma <= 1.0 ==> forall i :: 0 <= i < |p| ==> p[i] >= gamma / (|weights| as real)
  {
    RealSumPositive(weights);
    Affine(weights, (1.0 - gamma) / RealSum(weights), gamma / (|weights| as real))
  }

  /**
   * For positive weights and 0 <= gamma <= 1 the arm probabilities form a
   * distribution over the N arms in which every arm has positive probability.
   */
  lemma ArmProbabilitiesDistribution(weights: seq<real>, gamma: real)
    requires |weights| > 0 && AllPositive(weights)
    requires 0.0 <= gamma <= 1.0
    ensures |ArmProbabilities(weights, gamma)| == |weights|
    ensures AllPositive(ArmProbabilities(weights, gamma))
    ensures RealSum(ArmProbabilities(weights, gamma)) == 1.0
  {
    ArmProbabilitiesSum(weights, gamma);
    ArmProbabilitiesPositive(weights, gamma);
  }

  /** The arm probabilities add up to 1. */
  lemma ArmProbabilitiesSum(weights: seq<real>, gamma: real)
    requires |weights| > 0 && AllPositive(weights)
    ensures RealSum(ArmProbabilities(weights, gamma)) == 1.0
  {
    RealSumPositive(weights);
    var total := RealSum(weights);
    var n := |weights| as real;
    var a := (1.0 - gamma) / total;
    var b := gamma / n;
    RealSumAffine(weights, a, b);
    Normalised(total, n, gamma, a, b);
  }

  /** For 0 <= gamma <= 1 every arm has positive probability. */
  lemma ArmProbabilitiesPositive(weights: seq<real>, gamma: real)
    requires |weights| > 0 && AllPositive(weights)
    requires 0.0 <= gamma <= 1.0
    ensures AllPositive(ArmProbabilities(weights, gamma))
  {
    RealSumPositive(weights);
    var p := ArmProbabilities(weights, gamma);
    if gamma == 0.0 {
      var a := 1.0 / RealSum(weights);
      forall i | 0 <= i < |p|
        ensures p[i] > 0.0
      {
        assert p[i] == a * weights[i];
        assert a * weights[i] > 0.0;
      }
    } else {
      assert gamma / (|weights| as real) > 0.0;
    }
  }

  /** The two parts of the EXP3 mixture carry weights 1 - gamma and gamma. */
  lemma Normalised(total: real, n: real, gamma: real, a: real, b: real)
    requires total > 0.0 && n > 0.0
    requires a == (1.0 - gamma) / total && b == gamma / n
    ensures a * total + n * b == 1.0
  {
  }

  // ---------------------------------------------------------------------------
  // Placement of the drawn arms into a duplicate-free list

  /** Some element of 1..N is not in `chosen`. */
  predicate SomeUnchosen(chosen: seq<int>, N: int)
  {
    exists x :: 1 <= x <= N && x !in chosen
  }

  /**
   * The least element of `x..N` not in `chosen`, or 1 when every one of
   * them is chosen.
   */
  function LeastUnchosenFrom(chosen: seq<int>, x: int, N: int): (e: int)
    requires 1 <= x && 1 <= N
    requires forall y :: 1 <= y < x && y <= N ==> y in chosen
    ensures 1 <= e <= N
    ensures SomeUnchosen(chosen, N) ==> e !in chosen && forall y :: 1 <= y < e ==> y in chosen
    ensures !SomeUnchosen(chosen, N) ==> e == 1
    decreases N - x
  {
    if x > N then 1
    else if x !in chosen then x
    else LeastUnchosenFrom(chosen, x + 1, N)
  }

  /**
   * `np.argmin(selectedDocuments) + 1`: the lowest-numbered element not yet
   * chosen, or 1 when all N are chosen.
   */
  function LeastUnchosen(chosen: seq<int>, N: int): (e: int)
    requires 1 <= N
    ensures 1 <= e <= N
    ensures SomeUnchosen(chosen, N) ==> e !in chosen && forall y :: 1 <= y < e ==> y in chosen
    ensures !SomeUnchosen(chosen, N) ==> e == 1
  {
    LeastUnchosenFrom(chosen, 1, N)
  }

  /**
   * The predicted list for a sequence of drawn arms: rank by rank, the
   * rank's arm when it is new, otherwise the least element not yet placed.
   */
  function Placement(arms: seq<int>, N: int): (s: seq<int>)
    requires 1 <= N
    ensures |s| == |arms|
  {
    if arms == [] then []
    else
      var prefix := Placement(arms[..|arms| - 1], N);
      var a := arms[|arms| - 1];
      prefix + [if a in prefix then LeastUnchosen(prefix, N) else a]
  }

  /** Placing one more rank appends that rank's element. */
  lemma PlacementStep(arms: seq<int>, N: int, i: nat)
    requires 1 <= N && i < |arms|
    ensures var prefix := Placement(arms[..i], N);
      Placement(arms[..i + 1], N) == prefix + [if arms[i] in prefix then LeastUnchosen(prefix, N) else arms[i]]
  {
    assert arms[..i + 1][..i] == arms[..i];
  }

  /** The placement of a prefix of the arms is a prefix of the placement. */
  lemma {:induction false} PlacementPrefix(arms: seq<int>, N: int, i: nat)
    requires 1 <= N && i <= |arms|
    ensures Placement(arms, N)[..i] == Placement(arms[..i], N)
    decreases |arms|
  {
    if i < |arms| {
      var n := |arms| - 1;
      assert Placement(arms, N)[..i] == Placement(arms[..n], N)[..i];
      PlacementPrefix(arms[..n], N, i);
      assert arms[..n][..i] == arms[..i];
    } else {
      assert arms[..i] == arms;
    }
  }

  /**
   * What rank i holds: its own arm if that arm is not already in the
   * prefix, otherwise the least element the prefix lacks.
   */
  lemma PlacementRank(arms: seq<int>, N: int, i: nat)
    requires 1 <= N && i < |arms|
    ensures var s := Placement(arms, N);
      s[i] == if arms[i] in s[..i] then LeastUnchosen(s[..i], N) else arms[i]
  {
    PlacementPrefix(arms, N, i + 1);
    PlacementPrefix(arms, N, i);
    var s := Placement(arms, N);
    assert arms[..i + 1][..i] == arms[..i];
    assert s[..i + 1] == s[..i] + [s[i]];
  }

  /** With arms drawn from 1..N, every placed element is in 1..N. */
  lemma PlacementInRange(arms: seq<int>, N: int)
    requires 1 <= N && InGroundSet(arms, N)
    ensures InGroundSet(Placement(arms, N), N)
  {
    var s := Placement(arms, N);
    forall i | 0 <= i < |arms|
      ensures 1 <= s[i] <= N
    {
      PlacementRank(arms, N, i);
    }
  }

  /** `s` with every occurrence of `v` removed. */
  function RemoveAll(s: seq<int>, v: int): (r: seq<int>)
    ensures |r| <= |s| && (v in s ==> |r| < |s|)
    ensures forall x :: x in r <==> x in s && x != v
  {
    if s == [] then []
    else
      var rest := RemoveAll(s[..|s| - 1], v);
      var last := s[|s| - 1];
      assert forall x :: x in s <==> x in s[..|s| - 1] || x == last;
      if last == v then rest else rest + [last]
  }

  /** A list that contains every element of 1..N has at least N entries. */
  lemma {:induction false} CoverHasLength(s: seq<int>, N: nat)
    requires forall x :: 1 <= x <= N ==> x in s
    ensures |s| >= N
    decreases N
  {
    if N > 0 {
      CoverHasLength(RemoveAll(s, N), N - 1);
    }
  }

  /**
   * With at most N ranks and arms drawn from 1..N, the predicted list has
   * no duplicate.
   */
  lemma {:induction false} PlacementDistinct(arms: seq<int>, N: int)
    requires 1 <= N && |arms| <= N && InGroundSet(arms, N)
    ensures Distinct(Placement(arms, N))
  {
    if arms != [] {
      var n := |arms| - 1;
      var prefix := Placement(arms[..n], N);
      PlacementDistinct(arms[..n], N);
      if !SomeUnchosen(prefix, N) {
        CoverHasLength(prefix, N);
      }
    }
  }

  /**
   * A rank whose arm was already placed (within the first N ranks) holds a
   * substitute that differs from its arm.
   */
  lemma SubstituteDiffersFromArm(arms: seq<int>, N: int, i: nat)
    requires 1 <= N && i < |arms| && i < N && InGroundSet(arms, N)
    requires arms[i] in Placement(arms, N)[..i]
    ensures Placement(arms, N)[i] != arms[i]
  {
    var s := Placement(arms, N);
    PlacementRank(arms, N, i);
    if !SomeUnchosen(s[..i], N) {
      CoverHasLength(s[..i], N);
    }
  }

  // ---------------------------------------------------------------------------
  // Reward attribution

  /** Rank i's prediction was clicked and is the bandit's own arm. */
  predicate Relevant(predicted: seq<int>, arms: seq<int>, reward: seq<int>, i: int)
    requires |predicted| == |arms| && 0 <= i < |predicted|
  {
    predicted[i] in reward && predicted[i] == arms[i]
  }

  /** Rank i is the first relevant rank. */
  predicate FirstRelevant(predicted: seq<int>, arms: seq<int>, reward: seq<int>, i: int)
    requires |predicted| == |arms| && 0 <= i < |predicted|
  {
    Relevant(predicted, arms, reward, i) &&
    forall j :: 0 <= j < i ==> !Relevant(predicted, arms, reward, j)
  }

  /** The reward each rank's bandit receives: 1 for the first relevant rank, 0 otherwise. */
  function ClickRewards(predicted: seq<int>, arms: seq<int>, reward: seq<int>): (r: seq<int>)
    requires |predicted| == |arms|
    ensures |r| == |predicted|
    ensures forall i :: 0 <= i < |r| ==> r[i] == 0 || r[i] == 1
    ensures forall i :: 0 <= i < |r| && r[i] == 1 ==> predicted[i] in reward && predicted[i] == arms[i]
  {
    seq(|predicted|, i requires 0 <= i < |predicted| =>
      if FirstRelevant(predicted, arms, reward, i) then 1 else 0)
  }

  /**
   * One step of the click scan: rank i is rewarded exactly when it is
   * relevant and no earlier rank was.
   */
  lemma ClickStep(predicted: seq<int>, arms: seq<int>, reward: seq<int>, i: nat, clicked: bool)
    requires |predicted| == |arms| && i < |predicted|
    requires clicked <==> exists j :: 0 <= j < i && Relevant(predicted, arms, reward, j)
    ensures ClickRewards(predicted, arms, reward)[i] == if !clicked && Relevant(predicted, arms, reward, i) then 1 else 0
    ensures (clicked || Relevant(predicted, arms, reward, i)) <==>
      exists j :: 0 <= j < i + 1 && Relevant(predicted, arms, reward, j)
  {
  }

  /**
   * At most one bandit is rewarded: the rewards add up to 1 when some rank
   * is relevant and to 0 otherwise.
   */
  lemma {:induction false} ClickRewardsTotal(predicted: seq<int>, arms: seq<int>, reward: seq<int>)
    requires |predicted| == |arms|
    ensures Sum(ClickRewards(predicted, arms, reward)) ==
      if exists i :: 0 <= i < |predicted| && Relevant(predicted, arms, reward, i) then 1 else 0
  {
    var r := ClickRewards(predicted, arms, reward);
    var n := |predicted|;
    if n > 0 {
      var m := n - 1;
      assert r[..m] == ClickRewards(predicted[..m], arms[..m], reward) by {
        forall i | 0 <= i < m
          ensures FirstRelevant(predicted, arms, reward, i) == FirstRelevant(predicted[..m], arms[..m], reward, i)
        {
          assert forall j :: 0 <= j <= i ==>
            Relevant(predicted, arms, reward, j) == Relevant(predicted[..m], arms[..m], reward, j);
        }
      }
      ClickRewardsTotal(predicted[..m], arms[..m], reward);
      if exists i :: 0 <= i < m && Relevant(predicted, arms, reward, i) {
        var i :| 0 <= i < m && Relevant(predicted, arms, reward, i);
        assert Relevant(predicted[..m], arms[..m], reward, i);
        assert r[m] == 0;
      } else {
        forall j | 0 <= j < m
          ensures !Relevant(predicted[..m], arms[..m], reward, j)
        {
          assert !Relevant(predicted, arms, reward, j);
          assert predicted[..m][j] == predicted[j] && arms[..m][j] == arms[j];
        }
      }
    }
  }

  /**
   * Within the first N ranks, a rank whose prediction was substituted is
   * never rewarded.
   */
  lemma SubstitutedRankUnrewarded(arms: seq<int>, N: int, reward: seq<int>, i: nat)
    requires 1 <= N && i < |arms| && i < N && InGroundSet(arms, N)
    requires arms[i] in Placement(arms, N)[..i]
    ensures ClickRewards(Placement(arms, N), arms, reward)[i] == 0
  {
    SubstituteDiffersFromArm(arms, N, i);
  }

  // ---------------------------------------------------------------------------
  // np.argmin

  /** `np.argmin`: the first index holding the least value. */
  method ArgMin(a: array<int>) returns (m: nat)
    requires a.Length > 0
    ensures m < a.Length
    ensures forall j :: 0 <= j < a.Length ==> a[m] <= a[j]
    ensures forall j :: 0 <= j < m ==> a[j] > a[m]
  {
    m := 0;
    var j := 1;
    while j < a.Length
      invariant 1 <= j <= a.Length && m < j
      invariant forall i :: 0 <= i < j ==> a[m] <= a[i]
      invariant forall i :: 0 <= i < m ==> a[i] > a[m]
    {
      if a[j] < a[m] {
        m := j;
      }
      j := j + 1;
    }
  }

  /** The 0/1 selection bitmap marks exactly the chosen elements. */
  ghost predicate MarksChosen(bits: seq<int>, chosen: seq<int>)
  {
    forall j :: 0 <= j < |bits| ==> (bits[j] == 0 || bits[j] == 1) && (bits[j] == 1 <==> j + 1 in chosen)
  }

  /** The argmin of the selection bitmap is the least unchosen element (less one). */
  lemma ArgMinIsLeastUnchosen(bits: seq<int>, chosen: seq<int>, m: nat)
    requires |bits| >= 1 && m < |bits| && MarksChosen(bits, chosen)
    requires forall j :: 0 <= j < |bits| ==> bits[m] <= bits[j]
    requires forall j :: 0 <= j < m ==> bits[j] > bits[m]
    ensures m + 1 == LeastUnchosen(chosen, |bits|)
  {
    var N := |bits|;
    var e := LeastUnchosen(chosen, N);
    if SomeUnchosen(chosen, N) {
      assert bits[e - 1] == 0;
      assert bits[m] == 0;
      assert m + 1 !in chosen;
      assert m + 1 >= e;
      assert e - 1 >= m;
    } else {
      assert bits[0] == 1 && bits[m] == 1;
      assert m == 0;
    }
  }

  /**
   * One rank of `getKSet` after the draw: place `arm` if it is new,
   * otherwise the element `np.argmin` finds unselected, and mark the placed
   * element in the bitmap.
   */
  method SelectDocument(selectedDocuments: array<int>, chosen: seq<int>, arm: int) returns (next: seq<int>)
    requires selectedDocuments.Length >= 1 && 1 <= arm <= selectedDocuments.Length
    requires MarksChosen(selectedDocuments[..], chosen)
    modifies selectedDocuments
    ensures next == chosen + [if arm in chosen then LeastUnchosen(chosen, selectedDocuments.Length) else arm]
    ensures MarksChosen(selectedDocuments[..], next)
  {
    if arm in chosen {
      var unselectedDocumentIndex := ArgMin(selectedDocuments);
      ArgMinIsLeastUnchosen(selectedDocuments[..], chosen, unselectedDocumentIndex);
      selectedDocuments[unselectedDocumentIndex] := 1;
      next := chosen + [unselectedDocumentIndex + 1];
    } else {
      selectedDocuments[arm - 1] := 1;
      next := chosen + [arm];
    }
  }

  /**
   * The selection loop of getKSet: walks the ranks in order with a 0/1
   * bitmap of the elements chosen so far.
   */
  method PlaceArms(arms: array<int>, N: nat) returns (predicted: seq<int>)
    requires 1 <= N && InGroundSet(arms[..], N)
    ensures predicted == Placement(arms[..], N)
  {
    var selectedDocuments := new int[N](_ => 0);
    predicted := [];
    var i := 0;
    while i < arms.Length
      invariant 0 <= i <= arms.Length
      invariant predicted == Placement(arms[..i], N)
      invariant MarksChosen(selectedDocuments[..], predicted)
    {
      PlacementStep(arms[..], N, i);
      predicted := SelectDocument(selectedDocuments, predicted, arms[i]);
      i := i + 1;
    }
    assert arms[..i] == arms[..];
  }

  // ---------------------------------------------------------------------------
  // The bandits

  /** One EXP3 bandit over the arms 1..N. */
  class MultiArmedBandit {
    const N: nat
    const timeHorizon: int
    const gamma: real
    /** `math.exp`. */
    const exp: real -> real
    const weights: array<real>
    var p: seq<real>

    /** The probabilities form a distribution over the N arms. */
    ghost predicate Consistent()
      reads this
    {
      1 <= N && |p| == N && 0.0 <= gamma <= 1.0 && ExpContract(exp) &&
      AllPositive(p) && RealSum(p) == 1.0
    }

    ghost predicate Valid()
      reads this, weights
    {
      Consistent() && weights.Length == N && AllPositive(weights[..])
    }

    /**
     * `rate` is the value of sqrt(N ln N / ((e - 1) time_horizon)); the
     * formula itself is not modelled, only when it raises (`RateDefined`).
     */
    constructor (N: nat, timeHorizon: int, rate: real, exp: real -> real)
      requires RateDefined(N, timeHorizon) && rate >= 0.0 && ExpContract(exp)
      ensures Valid() && fresh(weights)
      ensures this.N == N && this.timeHorizon == timeHorizon && this.exp == exp
      ensures gamma == ExplorationRate(rate)
      ensures weights[..] == seq(N, _ => 1.0)
      ensures p == seq(N, _ => 1.0 / N as real)
    {
      this.N := N;
      this.timeHorizon := timeHorizon;
      this.exp := exp;
      gamma := ExplorationRate(rate);
      weights := new real[N](_ => 1.0);
      p := seq(N, _ => 1.0 / N as real);
      new;
      RealSumConstant(N, 1.0 / N as real);
    }

    /** The probabilities were recomputed from the current weights. */
    ghost predicate ProbabilitiesCurrent()
      reads this, weights
    {
      Valid() && p == ArmProbabilities(weights[..], gamma)
    }

    /**
     * Recomputes the arm probabilities and plays the arm numpy drew:
     * `draw` is the index `np.random.choice` returns.
     */
    method SelectArm(draw: int) returns (arm: int)
      requires Valid() && 0 <= draw < N
      modifies this
      ensures Valid() && ProbabilitiesCurrent()
      ensures p == ArmProbabilities(weights[..], gamma)
      ensures arm == draw + 1 && 1 <= arm <= N
    {
      ArmProbabilitiesDistribution(weights[..], gamma);
      p := ArmProbabilities(weights[..], gamma);
      arm := draw + 1;
    }

    /** The importance-weighted multiplier `exp(reward * gamma / (p[arm-1] * N))`. */
    function UpdateFactor(arm: int, reward: int): (f: real)
      reads this
      requires Consistent() && 1 <= arm <= N
      ensures f > 0.0
      ensures reward == 0 ==> f == 1.0
      ensures reward > 0 && gamma > 0.0 ==> f > 1.0
    {
      var x := reward as real * gamma / (p[arm - 1] * N as real);
      assert reward > 0 && gamma > 0.0 ==> x > 0.0;
      exp(x)
    }

    /** The weights `w` after the EXP3 update of `arm` with `reward`. */
    function Updated(w: seq<real>, arm: int, reward: int): (r: seq<real>)
      reads this
      requires Consistent() && |w| == N && 1 <= arm <= N
      ensures |r| == N
      ensures r[arm - 1] == w[arm - 1] * UpdateFactor(arm, reward)
      ensures forall j :: 0 <= j < N && j != arm - 1 ==> r[j] == w[j]
      ensures AllPositive(w) ==> AllPositive(r)
      ensures reward == 0 ==> r == w
    {
      w[arm - 1 := w[arm - 1] * UpdateFactor(arm, reward)]
    }

    /** The EXP3 update: multiplies the played arm's weight in place. */
    method Update(arm: int, reward: int)
      requires Valid() && 1 <= arm <= N
      modifies weights
      ensures Valid()
      ensures weights[..] == old(Updated(weights[..], arm, reward))
      ensures reward == 0 ==> weights[..] == old(weights[..])
      ensures reward > 0 && gamma > 0.0 ==> weights[arm - 1] > old(weights[arm - 1])
    {
      var factor := UpdateFactor(arm, reward);
      var w := weights[arm - 1];
      ghost var before := weights[..];
      ghost var target := Updated(before, arm, reward);
      assert target[arm - 1] == w * factor;
      assert forall i :: 0 <= i < N && i != arm - 1 ==> target[i] == before[i];
      assert factor > 0.0 && w * factor > 0.0;
      if reward > 0 && gamma > 0.0 {
        assert factor > 1.0;
        assert w * factor > w;
      }
      weights[arm - 1] := w * factor;
      assert weights[..] == target;
    }
  }

  /** The weight vectors of the bandits. */
  ghost function WeightsOf(bandits: seq<MultiArmedBandit>): set<array<real>>
  {
    if bandits == [] then {}
    else WeightsOf(bandits[..|bandits| - 1]) + {bandits[|bandits| - 1].weights}
  }

  /**
   * The k freshly created bandits of the policy, one per rank, with the set
   * of them and the set of their weight vectors.
   */
  method NewBandits(N: nat, k: nat, timeHorizon: int, rate: real, exp: real -> real)
    returns (bandits: seq<MultiArmedBandit>, ghost banditSet: set<MultiArmedBandit>, ghost weightSet: set<array<real>>)
    requires RateDefined(N, timeHorizon) && rate >= 0.0 && ExpContract(exp)
    ensures |bandits| == k
    ensures forall i :: 0 <= i < k ==>
      bandits[i].N == N && bandits[i].Valid() && fresh(bandits[i].weights) &&
      bandits[i].weights[..] == seq(N, _ => 1.0) && bandits[i].gamma == ExplorationRate(rate)
    ensures forall i, j :: 0 <= i < j < k ==> bandits[i] != bandits[j] && bandits[i].weights != bandits[j].weights
    ensures forall m :: m in banditSet <==> m in bandits
    ensures forall i :: 0 <= i < k ==> bandits[i].weights in weightSet
    ensures weightSet == WeightsOf(bandits)
    ensures fresh(banditSet) && fresh(weightSet)
  {
    bandits, banditSet, weightSet := [], {}, {};
    while |bandits| < k
      invariant |bandits| <= k
      invariant forall i :: 0 <= i < |bandits| ==>
        bandits[i].N == N && bandits[i].Valid() && fresh(bandits[i].weights) &&
        bandits[i].weights[..] == seq(N, _ => 1.0) && bandits[i].gamma == ExplorationRate(rate)
      invariant forall i, j :: 0 <= i < j < |bandits| ==> bandits[i] != bandits[j] && bandits[i].weights != bandits[j].weights
      invariant forall m :: m in banditSet <==> m in bandits
      invariant forall i :: 0 <= i < |bandits| ==> bandits[i].weights in weightSet
      invariant weightSet == WeightsOf(bandits)
      invariant fresh(banditSet) && fresh(weightSet)
    {
      var m := new MultiArmedBandit(N, timeHorizon, rate, exp);
      ghost var previous := bandits;
      bandits, banditSet, weightSet := bandits + [m], banditSet + {m}, weightSet + {m.weights};
      assert bandits[..|previous|] == previous;
    }
  }

  // ---------------------------------------------------------------------------
  // The policy

  class RankedBandits {
    const N: nat
    const k: nat
    const timeHorizon: int
    /** One bandit per rank. */
    const mabs: seq<MultiArmedBandit>
    /** The arm each rank's bandit drew this round. */
    const arms: array<int>
    var predictedSet: seq<int>
    /** Rounds fed so far (starts at 0 here; see the round counter in module Policy). */
    var T: int

    /** The bandits, and their weight vectors. */
    ghost const Bandits: set<MultiArmedBandit>
    ghost const Weights: set<array<real>>

    /** The k bandits are valid, share N, and own distinct weight vectors. */
    ghost predicate BanditsValid()
      reads Bandits, Weights
    {
      |mabs| == k &&
      (forall i :: 0 <= i < k ==> mabs[i] in Bandits && mabs[i].weights in Weights) &&
      (forall i :: 0 <= i < k ==> mabs[i].N == N && mabs[i].Valid()) &&
      (forall i, j :: 0 <= i < j < k ==> mabs[i] != mabs[j] && mabs[i].weights != mabs[j].weights)
    }

    ghost predicate Valid()
      reads this, arms, Bandits, Weights
    {
      1 <= N && arms.Length == k && BanditsValid() &&
      (|predictedSet| == k ==> InGroundSet(arms[..], N) && predictedSet == Placement(arms[..], N))
    }

    /** Creates the k bandits, each with all weights 1, and an empty prediction. */
    constructor (N: nat, k: nat, timeHorizon: int, rate: real, exp: real -> real)
      requires RateDefined(N, timeHorizon) && rate >= 0.0 && ExpContract(exp)
      ensures Valid()
      ensures this.N == N && this.k == k && this.timeHorizon == timeHorizon
      ensures forall i :: 0 <= i < k ==> mabs[i].weights[..] == seq(N, _ => 1.0) && mabs[i].gamma == ExplorationRate(rate)
      ensures predictedSet == [] && T == 0
      ensures arms[..] == seq(k, _ => 0)
      ensures fresh(arms) && fresh(Bandits) && fresh(Weights)
    {
      var ranks := new int[k](_ => 0);
      assert ranks[..] == seq(k, _ => 0);
      arms := ranks;
      var bandits, banditSet, weightSet := NewBandits(N, k, timeHorizon, rate, exp);
      this.N := N;
      this.k := k;
      this.timeHorizon := timeHorizon;
      mabs := bandits;
      Bandits := banditSet;
      Weights := weightSet;
      predictedSet := [];
      T := 0;
    }

    /** The bandits are valid and the first `i` of them have drawn this round. */
    ghost predicate DrawnUpTo(i: nat)
      reads Bandits, Weights
    {
      BanditsValid() && i <= k &&
      forall j :: 0 <= j < i ==> mabs[j].ProbabilitiesCurrent()
    }

    /** Rank i's bandit recomputes its probabilities and plays the drawn arm. */
    method DrawRank(i: nat, draw: int)
      requires DrawnUpTo(i) && arms.Length == k && i < k && 0 <= draw < N
      modifies arms, mabs[i]
      ensures DrawnUpTo(i + 1)
      ensures arms[..] == old(arms[..])[i := draw + 1]
    {
      arms[i] := mabs[i].SelectArm(draw);
    }

    /**
     * Builds this round's predicted list from the bandits' draws (`draws[i]`
     * is the index numpy drew for rank i).
     */
    method GetKSet(draws: seq<int>) returns (s: seq<int>)
      requires Valid()
      requires |draws| == k && forall i :: 0 <= i < k ==> 0 <= draws[i] < N
      modifies this`predictedSet, arms, Bandits
      ensures Valid() && T == old(T)
      ensures forall i :: 0 <= i < k ==> arms[i] == draws[i] + 1
      ensures s == predictedSet && s == Placement(arms[..], N)
      ensures forall i :: 0 <= i < k ==> mabs[i].ProbabilitiesCurrent()
      ensures |s| == k && InGroundSet(s, N)
      ensures k <= N ==> IsKSubset(s, N, k)
    {
      var i := 0;
      while i < k
        invariant 0 <= i <= k
        invariant forall j :: 0 <= j < i ==> arms[j] == draws[j] + 1
        invariant DrawnUpTo(i)
      {
        DrawRank(i, draws[i]);
        i := i + 1;
      }
      assert arms[..k] == arms[..];
      predictedSet := PlaceArms(arms, N);
      s := predictedSet;
      PlacementInRange(arms[..], N);
      if k <= N {
        PlacementDistinct(arms[..], N);
      }
    }

    /** Each bandit's weights after the EXP3 update of its own arm with `rewards`. */
    ghost function Targets(rewards: seq<int>): (t: seq<seq<real>>)
      reads this, arms, Bandits, Weights
      requires BanditsValid() && arms.Length == k && InGroundSet(arms[..], N) && |rewards| == k
      ensures |t| == k
      ensures forall j :: 0 <= j < k ==> t[j] == mabs[j].Updated(mabs[j].weights[..], arms[j], rewards[j])
    {
      seq(k, j requires 0 <= j < k && BanditsValid() && arms.Length == k && InGroundSet(arms[..], N)
                reads this, arms, Bandits, Weights =>
        mabs[j].Updated(mabs[j].weights[..], arms[j], rewards[j]))
    }

    /**
     * One iteration of feedReward's loop: rank i's bandit is rewarded with 1
     * when its prediction is relevant and no earlier one was, else with 0.
     */
    method RewardRank(i: nat, reward: seq<int>, userClicked: bool, ghost target: seq<real>) returns (clicked: bool)
      requires BanditsValid() && arms.Length == k && |predictedSet| == k && i < k && 1 <= arms[i] <= N
      requires userClicked <==> exists j :: 0 <= j < i && Relevant(predictedSet, arms[..], reward, j)
      requires target == mabs[i].Updated(mabs[i].weights[..], arms[i], ClickRewards(predictedSet, arms[..], reward)[i])
      modifies mabs[i].weights
      ensures BanditsValid()
      ensures clicked <==> exists j :: 0 <= j < i + 1 && Relevant(predictedSet, arms[..], reward, j)
      ensures mabs[i].weights[..] == target
      ensures forall j :: 0 <= j < k && j != i ==> mabs[j].weights[..] == old(mabs[j].weights[..])
    {
      ClickStep(predictedSet, arms[..], reward, i, userClicked);
      clicked := userClicked;
      var ithPrediction := predictedSet[i];
      var mabReward;
      if !userClicked && ithPrediction in reward && ithPrediction == arms[i] {
        clicked := true;
        mabReward := 1;
      } else {
        mabReward := 0;
      }
      mabs[i].Update(arms[i], mabReward);
      assert arms[..] == old(arms[..]);
    }

    /**
     * The loop of feedReward: rewards the first rank whose unsubstituted
     * prediction was clicked with 1 and every other rank with 0, updating
     * each bandit once with its own arm.
     */
    method RewardRanks(reward: seq<int>)
      requires Valid() && |predictedSet| == k
      modifies Weights
      ensures Valid()
      ensures forall i :: 0 <= i < k ==>
        mabs[i].weights[..] == old(mabs[i].Updated(mabs[i].weights[..], arms[i], ClickRewards(predictedSet, arms[..], reward)[i]))
    {
      ghost var rewards := ClickRewards(predictedSet, arms[..], reward);
      ghost var targets := Targets(rewards);
      var userClicked := false;
      var i := 0;
      while i < k
        invariant 0 <= i <= k
        invariant userClicked <==> exists j :: 0 <= j < i && Relevant(predictedSet, arms[..], reward, j)
        invariant BanditsValid()
        invariant forall j :: 0 <= j < i ==> mabs[j].weights[..] == targets[j]
        invariant forall j :: i <= j < k ==> mabs[j].weights[..] == old(mabs[j].weights[..])
      {
        assert targets[i] == mabs[i].Updated(mabs[i].weights[..], arms[i], rewards[i]);
        userClicked := RewardRank(i, reward, userClicked, targets[i]);
        i := i + 1;
      }
    }

    /** One round of feedback: counts the round and updates every bandit. */
    method FeedReward(reward: seq<int>)
      requires Valid() && |predictedSet| == k
      modifies this`T, Weights
      ensures T == old(T) + 1
      ensures Valid()
      ensures forall i :: 0 <= i < k ==>
        mabs[i].weights[..] == old(mabs[i].Updated(mabs[i].weights[..], arms[i], ClickRewards(predictedSet, arms[..], reward)[i]))
    {
      ghost var targets := Targets(ClickRewards(predictedSet, arms[..], reward));
      T := T + 1;
      RewardRanks(reward);
    }
  }
}
