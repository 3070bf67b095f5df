/**
 * Integer and real vectors as numpy holds them: sums, norms, standard basis
 * vectors and element-wise addition, with the arithmetic facts the policies need.
 */
module Vectors {

  function Abs(x: int): int { if x < 0 then -x else x }

  /** `np.sum` of an integer vector. */
  function Sum(s: seq<int>): int
  {
    if s == [] then 0 else Sum(s[..|s| - 1]) + s[|s| - 1]
  }

  /** `np.sum` of a real vector. */
  function RealSum(s: seq<real>): real
  {
    if s == [] then 0.0 else RealSum(s[..|s| - 1]) + s[|s| - 1]
  }

  /** The L1 norm `np.linalg.norm(v, ord=1)`. */
  function Norm(v: seq<int>): int
  {
    if v == [] then 0 else Norm(v[..|v| - 1]) + Abs(v[|v| - 1])
  }

  /** The L1 distance between two vectors of one length. */
  function Distance(u: seq<int>, v: seq<int>): int
    requires |u| == |v|
  {
    if u == [] then 0 else Distance(u[..|u| - 1], v[..|v| - 1]) + Abs(u[|u| - 1] - v[|v| - 1])
  }

  /** The standard basis vector of length `n` with its one at index `j`. */
  function Basis(n: nat, j: int): seq<int>
  {
    seq(n, i => if i == j then 1 else 0)
  }

  /** Element-wise vector addition. */
  function Add(u: seq<int>, v: seq<int>): seq<int>
    requires |u| == |v|
  {
    seq(|u|, i requires 0 <= i < |u| => u[i] + v[i])
  }

  predicate NonNegative(s: seq<int>)
  {
    forall i :: 0 <= i < |s| ==> s[i] >= 0
  }

  /** Every coordinate of a hint is 0 or 1. */
  predicate IsBinary(v: seq<int>)
  {
    forall i :: 0 <= i < |v| ==> v[i] == 0 || v[i] == 1
  }

  /** The zero vector sums to 0. */
  lemma {:induction false} ZeroVectorSum(n: nat)
    ensures Sum(seq(n, _ => 0)) == 0
  {
    if n > 0 {
      assert seq(n, _ => 0)[..n - 1] == seq(n - 1, _ => 0);
      ZeroVectorSum(n - 1);
    }
  }

  /** Adding `d` at one coordinate adds `d` to the sum. */
  lemma {:induction false} SumUpdate(s: seq<int>, i: nat, d: int)
    requires i < |s|
    ensures Sum(s[i := s[i] + d]) == Sum(s) + d
  {
    var t := s[i := s[i] + d];
    var n := |s| - 1;
    if i == n {
      assert t[..n] == s[..n];
    } else {
      assert t[..n] == s[..n][i := s[i] + d];
      SumUpdate(s[..n], i, d);
    }
  }

  /** Adding a basis vector increments exactly one coordinate. */
  lemma AddBasis(u: seq<int>, j: nat)
    requires j < |u|
    ensures Add(u, Basis(|u|, j)) == u[j := u[j] + 1]
    ensures Sum(Add(u, Basis(|u|, j))) == Sum(u) + 1
  {
    var r := Add(u, Basis(|u|, j));
    assert |r| == |u|;
    forall i | 0 <= i < |u|
      ensures r[i] == u[j := u[j] + 1][i]
    {
    }
    assert r == u[j := u[j] + 1];
    SumUpdate(u, j, 1);
  }

  /** The sum of `n` copies of `c` is `n * c`. */
  lemma {:induction false} RealSumConstant(n: nat, c: real)
    ensures RealSum(seq(n, _ => c)) == n as real * c
  {
    if n > 0 {
      assert seq(n, _ => c)[..n - 1] == seq(n - 1, _ => c);
      RealSumConstant(n - 1, c);
    }
  }

  /** The vector with coordinates `a * w[i] + b`. */
  function Affine(w: seq<real>, a: real, b: real): seq<real>
  {
    seq(|w|, i requires 0 <= i < |w| => a * w[i] + b)
  }

  /** The sum of `a * w[i] + b` is `a * sum(w) + |w| * b`. */
  lemma {:induction false} RealSumAffine(w: seq<real>, a: real, b: real)
    ensures RealSum(Affine(w, a, b)) == a * RealSum(w) + |w| as real * b
  {
    if w != [] {
      var n := |w| - 1;
      var s := Affine(w, a, b);
      forall i | 0 <= i < n
        ensures s[..n][i] == Affine(w[..n], a, b)[i]
      {
      }
      assert s[..n] == Affine(w[..n], a, b);
      RealSumAffine(w[..n], a, b);
      assert RealSum(s) == RealSum(s[..n]) + (a * w[n] + b);
      assert a * RealSum(w) == a * RealSum(w[..n]) + a * w[n];
    }
  }

  /** Every coordinate is positive. */
  predicate AllPositive(w: seq<real>)
  {
    forall i :: 0 <= i < |w| ==> w[i] > 0.0
  }

  /** A nonempty vector of positive reals has a positive sum. */
  lemma {:induction false} RealSumPositive(w: seq<real>)
    requires |w| > 0
    requires AllPositive(w)
    ensures RealSum(w) > 0.0
  {
    if |w| > 1 {
      RealSumPositive(w[..|w| - 1]);
    }
  }

  /** The norm bounds the magnitude of every coordinate. */
  lemma {:induction false} NormBoundsCoordinate(v: seq<int>, j: nat)
    requires j < |v|
    ensures Norm(v) >= Abs(v[j])
  {
    var n := |v| - 1;
    NormNonNegative(v[..n]);
    if j < n {
      NormBoundsCoordinate(v[..n], j);
    }
  }

  lemma {:induction false} NormNonNegative(v: seq<int>)
    ensures Norm(v) >= 0
  {
    if v != [] {
      NormNonNegative(v[..|v| - 1]);
    }
  }

  /** The distance from the zero vector is the norm. */
  lemma {:induction false} DistanceFromZero(v: seq<int>)
    ensures Distance(seq(|v|, _ => 0), v) == Norm(v)
  {
    if v != [] {
      var n := |v| - 1;
      assert seq(|v|, _ => 0)[..n] == seq(n, _ => 0);
      DistanceFromZero(v[..n]);
    }
  }

  /**
   * The closed form behind the 1-core scan: for a hint whose coordinate `j`
   * is 0 or 1, the basis vector at `j` lies at L1 distance ||hint||_1 - 1 from
   * the hint when that coordinate is set, and ||hint||_1 + 1 otherwise.
   */
  lemma {:induction false} BasisDistance(hint: seq<int>, j: nat)
    requires j < |hint|
    requires hint[j] == 0 || hint[j] == 1
    ensures Distance(Basis(|hint|, j), hint) == if hint[j] == 1 then Norm(hint) - 1 else Norm(hint) + 1
  {
    var b := Basis(|hint|, j);
    var n := |hint| - 1;
    if j == n {
      assert b[..n] == seq(n, _ => 0);
      DistanceFromZero(hint[..n]);
    } else {
      assert b[..n] == Basis(n, j);
      BasisDistance(hint[..n], j);
    }
  }
}
