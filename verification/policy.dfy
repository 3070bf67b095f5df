/**
 * The abstract base class `Policy`: it stores N and k and nothing else.
 * The three policies count rounds with `self.T = self.T + 1`, but no
 * constructor ever assigns `T`, so the first read of the attribute raises.
 * This module models the attribute as written and as evidently intended;
 * the policy classes of the other modules use the intended version.
 */
module Policy {
  import opened Wrappers

  /** A Python instance attribute: absent until it is first assigned. */
  datatype Attribute = Absent | Present(value: int)

  datatype AttributeError = AttributeError(name: string)

  /** The instance state that the round counter touches. */
  datatype PolicyState = PolicyState(N: int, k: int, T: Attribute)

  /** `Policy.__init__` as written: sets N and k, leaves T unassigned. */
  function InitAsWritten(N: int, k: int): (s: PolicyState)
    ensures s.N == N && s.k == k && !s.T.Present?
  {
    PolicyState(N, k, Absent)
  }

  /** The constructor as intended: the round counter starts at 0. */
  function Init(N: int, k: int): (s: PolicyState)
    ensures s.N == N && s.k == k && s.T == Present(0)
  {
    PolicyState(N, k, Present(0))
  }

  /** `self.T = self.T + 1`: reading an absent attribute raises AttributeError. */
  function Tick(s: PolicyState): (r: Result<PolicyState, AttributeError>)
    ensures r.Failure? <==> s.T == Absent
    ensures r.Success? ==> r.value.N == s.N && r.value.k == s.k && r.value.T == Present(s.T.value + 1)
  {
    match s.T
    case Absent => Failure(AttributeError("T"))
    case Present(t) => Success(PolicyState(s.N, s.k, Present(t + 1)))
  }

  /** `n` consecutive calls of feedReward, stopping at the first exception. */
  function Ticks(s: PolicyState, n: nat): (r: Result<PolicyState, AttributeError>)
    ensures r.Failure? <==> n > 0 && s.T == Absent
    ensures r.Failure? ==> r.error == AttributeError("T")
    ensures r.Success? ==> r.value.N == s.N && r.value.k == s.k
    decreases n
  {
    if n == 0 then Success(s)
    else match Tick(s)
      case Failure(e) => Failure(e)
      case Success(s') => Ticks(s', n - 1)
  }

  /** As written, the very first feedReward of every policy raises. */
  lemma FirstTickRaises(N: int, k: int, n: nat)
    requires n >= 1
    ensures Ticks(InitAsWritten(N, k), n) == Failure(AttributeError("T"))
  {
  }

  /** With the counter assigned, `n` rounds add exactly `n` and never raise. */
  lemma {:induction false} TicksCount(s: PolicyState, n: nat)
    requires s.T.Present?
    ensures Ticks(s, n) == Success(PolicyState(s.N, s.k, Present(s.T.value + n)))
    decreases n
  {
    if n > 0 {
      var s' := PolicyState(s.N, s.k, Present(s.T.value + 1));
      assert Tick(s) == Success(s');
      TicksCount(s', n - 1);
    }
  }

  /** As intended, after `n` rounds the counter reads `n`. */
  lemma RoundsCounted(N: int, k: int, n: nat)
    ensures Ticks(Init(N, k), n) == Success(PolicyState(N, k, Present(n)))
  {
    TicksCount(Init(N, k), n);
  }
}
