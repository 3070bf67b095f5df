# score-with-hints: per-round bookkeeping of three subset-selection policies

The repository runs online subset selection. Each round, every policy
predicts k of the N elements (movies). It then sees the reward set (the
movies the user rated) and updates its state. This project models the
state each policy keeps between rounds, and proves what that state
promises:

- **RankedBandits** (`ranked_bandits.dfy`) keeps one EXP3 bandit per rank.
  - `getKSet` turns the k drawn arms into a duplicate-free list. An arm
    already taken is replaced by the lowest-numbered element not yet
    taken, which the code finds with `np.argmin` over a 0/1 bitmap.
  - `feedReward` rewards only the first rank whose own, unsubstituted
    arm was clicked.
  - The EXP3 `update` multiplies one weight in place.
  - The classes keep the source's arrays (`weights`, `arms`,
    `selectedDocuments`) and its loops. Each method is proved against a
    specification function (`Placement`, `ClickRewards`, `Updated`).
- **OFTPLHints** (`oftpl_hints.dfy`) checks its configuration when it is
  built. `feedReward` scans the reward list for the 1-core vertex (a
  standard basis vector) nearest to the hint. It adds that vertex to the
  integer gradient and adds its closed-form L1 distance to the squared
  error `l1errors²`.
- **SCore** (`score.dfy`) starts from the uniform inclusion vector k/N.
  `feedReward` adds the basis vector of the first reward element to the
  gradient and re-optimises `p`.
- **Policy** (`policy.dfy`) models the round counter `T`. The base class
  never assigns `T`, so the counter is modelled both as written and as
  intended (see Findings).
- `vectors.dfy` holds sums, L1 norms, basis vectors and their lemmas.
  `utils.dfy` states the contracts of the numerical helpers the policies
  call. `wrappers.dfy` holds `Option` and `Result`.

Randomness and floating-point formulas are inputs:

- The arm each bandit draws is a method argument. It is the index that
  `np.random.choice` returns.
- The perturbation vector, the bandits' exploration `rate`, OFTPLHints'
  `scale` and SCore's `eta` are constructor arguments. OFTPLHints' own
  learning rate, scale · l1errors, is computed only in getKSet, which is
  not modelled (see below).
- `math.exp`, `utils.ftrlOptimize` and `utils.MadowSample` are function
  values passed to the constructors. Each comes with a predicate stating
  what the model relies on. For `math.exp` and `MadowSample` that is
  what their documentation promises. `ftrlOptimize` is called at
  SCore.py:41 but defined nowhere in the repository; `Utils.FtrlContract`
  assumes what any entropy-regularised FTRL step over the k-subset
  polytope returns: a point of that polytope (coordinates in [0, 1]
  summing to k).

## Model

| member | source | states |
|---|---|---|
| Vectors.BasisDistance | OFTPLHints.py:49-51 | For a 0/1 hint, the L1 distance from basis vector e_j to the hint is ‖hint‖₁ − 1 when hint[j] = 1 and ‖hint‖₁ + 1 otherwise. |
| Vectors.AddBasis | SCore.py:36-38 | Adding the basis vector g of element j changes only coordinate j, by +1, and raises the sum by exactly 1. |
| Vectors.ZeroVectorSum | SCore.py:23 | The all-zero initial gradient sums to 0, the number of rounds fed so far. |
| Vectors.RealSumAffine | RankedBandits.py:82 | Summing a·w[i] + b over n coordinates gives a·Σw + n·b. |
| SCore.UniformIsInclusionVector | SCore.py:22 | For 0 < k ≤ N, the vector with every coordinate k/N has coordinates in [0,1] summing to k. |
| SCore.Uniform | SCore.py:22 | The initial p has N equal coordinates summing to k. |
| SCore.SCore.constructor | SCore.py:18-24 | Starts with p uniform at k/N, an all-zero gradient, T = 0 and the given eta. |
| SCore.SCore.GetKSet | SCore.py:26-27 | The result is MadowSample(p, N, k), a characteristic vector with k ones. The hint plays no part. |
| SCore.SCore.FeedReward | SCore.py:29-41 | Needs a nonempty reward with reward[0] in 1..N. Only reward[0] is used. The gradient gains +1 at reward[0]−1 and nowhere else. T grows by 1. p becomes ftrlOptimize(gradient, N, k, eta). eta never changes. |
| SCore.RunRounds | m5-1m.py:34-48 | A fresh SCore fed n reward lists has T = n. Its gradient sums to n. Coordinate i counts the lists that start with element i+1. |
| OFTPLHints.Create | OFTPLHints.py:30-39 | Fails with ValueError exactly when C < 11 or 2·C > N. Otherwise the new policy has a zero gradient, l1errors = 0, eta = 0 and T = 0. |
| OFTPLHints.ValidConfig | OFTPLHints.py:31 | A configuration the constructor accepts has 11 ≤ C ≤ N/2, so N ≥ 22. |
| OFTPLHints.OFTPLHints.constructor | OFTPLHints.py:33-39 | A valid configuration gives p = 0, eta = 0, an all-zero gradient, l1errors² = 0 and the given gamma and scale. |
| OFTPLHints.FirstHinted | OFTPLHints.py:56-63 | Returns the position of the first reward element the hint contains, or None when the hint contains none of them. |
| OFTPLHints.ClosestElement | OFTPLHints.py:56-65 | closestElement after the scan is a reward element in 1..N. When the hint does not contain it, it is the last reward element. |
| OFTPLHints.L1Dist | OFTPLHints.py:54-65 | l1dist after the scan is ‖hint‖₁ − 1 or ‖hint‖₁ + 1. It is ‖hint‖₁ − 1 exactly when the hint contains closestElement. |
| OFTPLHints.ScanReward | OFTPLHints.py:52-68 | The loop over reward yields exactly ClosestElement and L1Dist. |
| OFTPLHints.VertexDistance | OFTPLHints.py:57-65 | For a 0/1 hint, the distance from an element's basis vector to the hint is the closed form the loop records for that element. |
| OFTPLHints.ClosestIsNearest | OFTPLHints.py:49-65 | For a 0/1 hint, the chosen vertex is at distance l1dist from the hint. No basis vector of any reward element is closer. |
| OFTPLHints.L1DistNonNegative | OFTPLHints.py:54-65 | l1dist ≥ 0 for an integer hint, so l1errors never decreases. |
| OFTPLHints.OFTPLHints.FeedReward | OFTPLHints.py:46-75 | Chooses the first reward element the hint contains, or else the last element. The gradient gains +1 at that element only. l1errors² grows by exactly l1dist, so it never decreases. T grows by 1. p, eta, gamma, scale and C are untouched. |
| Policy.InitAsWritten | Policy.py:8-15 | The base constructor sets N and k and leaves T unassigned. |
| Policy.Tick | SCore.py:30 | `self.T = self.T + 1` raises AttributeError exactly when T is unassigned. Otherwise it adds 1 and leaves N and k alone. |
| Policy.Ticks | SCore.py:29-30 | n successive feedReward calls fail exactly when n > 0 and T is unassigned, always with AttributeError on T. N and k never change. |
| Policy.FirstTickRaises | Policy.py:14-15 | As written, any run of one or more feedReward calls fails at the first one with AttributeError on T. |
| Policy.Init | Policy.py:8-15 | The intended constructor sets N, k and T = 0. |
| Policy.TicksCount | RankedBandits.py:49 | Once T is assigned, n rounds never raise and add exactly n to T. |
| Policy.RoundsCounted | OFTPLHints.py:47 | With the intended constructor, T equals the number of rounds fed. |
| RankedBandits.ExplorationRate | RankedBandits.py:74 | gamma = min(1, rate) lies in [0, 1]. |
| RankedBandits.ArmProbabilities | RankedBandits.py:82 | selectArm's p has one entry per arm. For gamma ≤ 1 every arm has probability at least gamma/N, the exploration floor. |
| RankedBandits.ArmProbabilitiesSum | RankedBandits.py:82 | For positive weights, the entries of p add up to 1. |
| RankedBandits.ArmProbabilitiesPositive | RankedBandits.py:82 | For positive weights and 0 ≤ gamma ≤ 1, every entry of p is positive. |
| RankedBandits.ArmProbabilitiesDistribution | RankedBandits.py:82 | For positive weights and 0 ≤ gamma ≤ 1, selectArm's p has N entries, all positive, summing to 1. |
| RankedBandits.LeastUnchosenFrom | RankedBandits.py:38 | Returns the least element from x upward that is not chosen, in 1..N, or 1 when every element is chosen (argmin of an all-ones bitmap). |
| RankedBandits.LeastUnchosen | RankedBandits.py:38 | argmin + 1 over the bitmap: an element of 1..N. If some element is unchosen, it is unchosen and every smaller element is chosen. Otherwise it is 1. |
| RankedBandits.Placement | RankedBandits.py:31-44 | The predicted list has one entry per rank. |
| RankedBandits.PlacementStep | RankedBandits.py:36-44 | Placing rank i appends rank i's arm when the prefix lacks it. Otherwise it appends the least unchosen element. |
| RankedBandits.PlacementPrefix | RankedBandits.py:32-44 | The first i entries of the list depend only on the first i arms. |
| RankedBandits.PlacementRank | RankedBandits.py:36-44 | predictedSet[i] == arms[i] when arms[i] is not among the earlier entries. Otherwise it is the least element the earlier entries lack. |
| RankedBandits.PlacementInRange | RankedBandits.py:29-46 | With arms in 1..N, every entry of the list is in 1..N. |
| RankedBandits.RemoveAll | RankedBandits.py:38 | Removing a value keeps exactly the other elements and shortens a list that held it. This is the counting step behind argmin finding a free element. |
| RankedBandits.CoverHasLength | RankedBandits.py:38 | A list containing every element of 1..N has at least N entries. |
| RankedBandits.PlacementDistinct | RankedBandits.py:36-44 | With at most N ranks and arms in 1..N, the list has no duplicate. |
| RankedBandits.SubstituteDiffersFromArm | RankedBandits.py:36-40 | Within the first N ranks, a substituted entry differs from that rank's arm. |
| RankedBandits.ClickStep | RankedBandits.py:54-58 | One step of the userClicked scan. Rank i gets 1 exactly when it is relevant and no earlier rank was. The flag then records whether any rank up to i was relevant. |
| RankedBandits.ClickRewards | RankedBandits.py:51-58 | One reward per rank, each 0 or 1. A rank gets 1 only if its prediction is in reward and equals its own arm. |
| RankedBandits.ClickRewardsTotal | RankedBandits.py:51-58 | The rewards sum to 1 when some rank's own arm was clicked and to 0 otherwise, so at most one bandit gets 1. |
| RankedBandits.SubstitutedRankUnrewarded | RankedBandits.py:54 | Within the first N ranks, a substituted rank always gets reward 0. |
| RankedBandits.ArgMin | RankedBandits.py:38 | np.argmin returns the first index of a least value. |
| RankedBandits.ArgMinIsLeastUnchosen | RankedBandits.py:30-40 | On a bitmap marking the chosen elements, argmin+1 is the least unchosen element, or 1 when all are chosen. |
| RankedBandits.SelectDocument | RankedBandits.py:36-44 | One rank of getKSet. It appends the arm, or the least unchosen element when the arm is taken, and keeps the bitmap marking exactly the chosen elements. |
| RankedBandits.PlaceArms | RankedBandits.py:30-45 | The bitmap loop builds exactly Placement(arms). |
| RankedBandits.NewBandits | RankedBandits.py:25 | Creates k distinct fresh bandits with distinct weight arrays, each with all weights 1, together with exactly the set of those bandits and the set of their weight arrays, both freshly allocated. |
| RankedBandits.MultiArmedBandit.constructor | RankedBandits.py:65-76 | Weights all 1, p uniform at 1/N, gamma = min(1, rate). |
| RankedBandits.MultiArmedBandit.SelectArm | RankedBandits.py:78-83 | Recomputes p from the current weights. p is a positive distribution. Returns draw + 1, which is in 1..N. |
| RankedBandits.MultiArmedBandit.UpdateFactor | RankedBandits.py:92 | The factor exp(reward·gamma/(p[arm−1]·N)) is positive. It is 1 for reward 0 and above 1 for a positive reward with gamma > 0. |
| RankedBandits.MultiArmedBandit.Updated | RankedBandits.py:92 | Weight arm−1 is multiplied by the factor and no other weight changes. Positive weights stay positive. Reward 0 leaves the weights unchanged. |
| RankedBandits.MultiArmedBandit.Update | RankedBandits.py:85-92 | Only weights[arm−1] changes: it is multiplied by the factor. Weights stay positive. Reward 0 changes nothing. A positive reward with gamma > 0 raises the weight. |
| RankedBandits.RankedBandits.constructor | RankedBandits.py:10-27 | k bandits with all weights 1, all k arms 0 (`np.zeros`), an empty prediction and T = 0; the arms array, the bandits and their weight arrays are all freshly allocated, so the new policy shares no state with its caller. |
| RankedBandits.RankedBandits.DrawRank | RankedBandits.py:34 | Rank i's bandit recomputes p and sets arms[i] = draw + 1. No other arm changes. |
| RankedBandits.RankedBandits.GetKSet | RankedBandits.py:29-46 | arms[i] = draws[i]+1 and every bandit's p is current. predictedSet = Placement(arms) has k entries in 1..N. For k ≤ N it is a duplicate-free k-subset. T is unchanged. |
| RankedBandits.RankedBandits.RewardRank | RankedBandits.py:52-59 | One iteration of feedReward's loop. Rank i's bandit gets reward 1 exactly when rank i is the first relevant rank. The other bandits are untouched. |
| RankedBandits.RankedBandits.RewardRanks | RankedBandits.py:51-59 | Each of the k bandits is updated exactly once, with its own arm and with reward ClickRewards[i]. |
| RankedBandits.RankedBandits.FeedReward | RankedBandits.py:48-59 | T grows by 1. Every bandit's weights become its EXP3 update with its own arm and its click reward. |

## Left out

- Random draws are inputs. The arm each bandit draws with
  `np.random.choice` (RankedBandits.py:83) is a method argument. The
  seeded normal perturbation vector (OFTPLHints.py:36) is a constructor
  argument.
- Floating-point formulas are inputs. gamma's square root
  (RankedBandits.py:74), eta (SCore.py:24) and scale (OFTPLHints.py:39)
  are given as reals. Real arithmetic is exact, not IEEE double.
- `math.exp` is a function parameter. Only the properties the model uses
  are assumed: exp(0) = 1, exp > 0, and exp(x) > 1 for x > 0.
- `utils.ftrlOptimize` is called at SCore.py:41 but defined nowhere in the
  repository (utils.py has no such function). It is a function parameter.
  `Utils.FtrlContract` assumes what any entropy-regularised FTRL step
  over the k-subset polytope returns: an inclusion vector, that is a
  point of that polytope (coordinates in [0, 1] summing to k).
- `utils.MadowSample` is a stub (utils.py:16-30). It is a function
  parameter assumed to return the characteristic vector of a k-subset,
  as its docstring says.
- OFTPLHints.getKSet (OFTPLHints.py:41-44) is not modelled. It calls the
  stub `utils.linearOptimize` with three arguments, but that function
  takes one (utils.py:1). It has no logic beyond the call.
- `l1errors` is modelled by its square, so `math.sqrt` (OFTPLHints.py:74)
  is left out.
- The driver m5-1m.py is left out: pickle loading, plotting and the
  regret computation. `utils.setIntersection` is not part of this model.
  Only its feeding loop appears, in SCore.RunRounds. m5-1m-preprocess.py
  (CSV parsing) is left out.
- Policy.getKSet and Policy.feedReward are abstract. Their N and k are
  fields of each class.
- SCore.SCore.FeedReward: requires 1 ≤ reward[0] ≤ N. With reward[0] = 0,
  Python's g[-1] would silently mark element N.
- OFTPLHints.OFTPLHints.FeedReward: requires every reward element to be
  in 1..N. The source only indexes the hint with the elements it scans
  and asserts the range of the chosen one (OFTPLHints.py:67-68).
- RankedBandits.RankedBandits.FeedReward: requires a prediction from an
  earlier getKSet. Without one, the source raises IndexError at
  `predictedSet[i]`.
- RankedBandits.RankedBandits.GetKSet: all k arms are drawn first, then
  placed, whereas the source interleaves the two per rank. The draws are
  inputs and placing touches no bandit, so the resulting state is the
  same.
- RankedBandits.RankedBandits.GetKSet: distinctness is proved only for
  k ≤ N. The source does not reject k > N. There argmin of an all-ones
  bitmap yields element 1 again, and a substituted rank can equal its
  own arm (N = 2, arms 2, 2, 1).
- RankedBandits.SubstitutedRankUnrewarded: stated only for ranks below N,
  for the same reason.
- Number widths: `cumulativeGradient` is a float64 array in the source
  (`np.zeros(shape=self.N)` at SCore.py:23 and OFTPLHints.py:37, still
  float64 after `+ g`). The model keeps it as an exact int. The two agree
  while every coordinate is below 2⁵³. The `np.int_` arrays `g` and
  `selectedDocuments` hold only 0 and 1, so they cannot overflow.
- SCore.SCore.constructor: requires `SCore.EtaDefined`, exactly the
  inputs on which the eta formula at SCore.py:24 does not raise (no
  division by zero, no log of zero or of a negative number, no sqrt of a
  negative number): 0 < k, 0 < N, G ≠ 0, time_horizon ≠ 0, and either
  k = N (eta is ±0 for any nonzero horizon), or k < N with
  time_horizon > 0, or k > N with time_horizon < 0. The formula itself is
  not modelled. It also requires k ≤ N, which excludes k > N with a
  negative horizon although the source accepts it there: the initial
  vector k/N then has coordinates above 1 and is no inclusion vector, so
  the sampler contract does not apply. SCore.RunRounds requires the same.
- RankedBandits.MultiArmedBandit.constructor: requires
  `RankedBandits.RateDefined`, exactly the inputs on which the gamma
  formula at RankedBandits.py:74 does not raise (no log of zero, no
  division by zero, no sqrt of a negative number): N ≥ 1 and either
  time_horizon > 0, or N = 1 with time_horizon < 0 (gamma is then -0.0).
  RankedBandits.RankedBandits.constructor and RankedBandits.NewBandits
  pass on the same requirement, because for k ≥ 1 the bandits are built
  with that formula (RankedBandits.py:25). With k = 0 the source builds
  no bandit and accepts any N and horizon; the model excludes that case.

## Findings

| source | as written | input that shows it | evidently intended | confidence | as-written member | corrected member |
|---|---|---|---|---|---|---|
| Policy.py:14-15 | `__init__` assigns only N and k, yet every feedReward begins with `self.T = self.T + 1` (RankedBandits.py:49, OFTPLHints.py:47, SCore.py:30) | the first feedReward of any policy, e.g. `SCore(N, k, G, h).feedReward([1])`, raises AttributeError | T starts at 0 and counts the rounds fed | high; not executed | Policy.FirstTickRaises | Policy.RoundsCounted |

The policy classes use the corrected counter. Their constructors set T = 0
and each feedReward adds 1.
