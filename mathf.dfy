/** The parts of Unity's Mathf that the controller uses, on reals. */
module Mathf {

  function Abs(f: real): real {
    if f < 0.0 then -f else f
  }

  /** r lies between a and b, both included, whichever of them is larger. */
  predicate Between(a: real, b: real, r: real) {
    (a <= r <= b) || (b <= r <= a)
  }

  /**
   * Mathf.MoveTowards: step from current toward target by maxDelta, and land
   * exactly on target once it is within reach. Out of reach, the step is
   * current + Mathf.Sign(target - current) * maxDelta, where Mathf.Sign is 1
   * for zero and for positive values and -1 for negative ones.
   */
  function MoveTowards(current: real, target: real, maxDelta: real): real {
    if Abs(target - current) <= maxDelta then target
    else if target - current >= 0.0 then current + maxDelta
    else current - maxDelta
  }

  /**
   * A non-negative step never overshoots: the result lies between current
   * and target, is at most maxDelta away from current, and is the target
   * exactly when the target was within reach. Any result other than the
   * target is a full step away; with a negative maxDelta that step leads away
   * from the target.
   */
  lemma MoveTowardsBounds(current: real, target: real, maxDelta: real)
    ensures var r := MoveTowards(current, target, maxDelta);
      (maxDelta >= 0.0 ==> Between(current, target, r) && Abs(r - current) <= maxDelta) &&
      (maxDelta >= 0.0 ==> (r == target <==> Abs(target - current) <= maxDelta)) &&
      (r != target ==> Abs(r - current) == Abs(maxDelta)) &&
      (maxDelta < 0.0 ==> Abs(target - r) == Abs(target - current) - maxDelta)
  {
  }

  /** A non-negative step keeps the value within any bound that start and target respect. */
  lemma MoveTowardsKeepsBound(current: real, target: real, maxDelta: real, bound: real)
    requires maxDelta >= 0.0 && -bound <= current <= bound && -bound <= target <= bound
    ensures -bound <= MoveTowards(current, target, maxDelta) <= bound
  {
    MoveTowardsBounds(current, target, maxDelta);
  }

  /** The value after n successive MoveTowards steps of the same size. */
  function Approach(current: real, target: real, maxDelta: real, n: nat): real
    decreases n
  {
    if n == 0 then current
    else Approach(MoveTowards(current, target, maxDelta), target, maxDelta, n - 1)
  }

  /** Once the target is reached, further steps stay on it. */
  lemma {:induction false} ApproachStaysAtTarget(target: real, maxDelta: real, n: nat)
    requires maxDelta >= 0.0
    ensures Approach(target, target, maxDelta, n) == target
    decreases n
  {
    if n > 0 {
      ApproachStaysAtTarget(target, maxDelta, n - 1);
    }
  }

  /**
   * Acceleration-limited approach reaches its target: n steps of size
   * maxDelta land exactly on the target as soon as n * maxDelta covers the
   * initial distance.
   */
  lemma {:induction false} ApproachReachesTarget(current: real, target: real, maxDelta: real, n: nat)
    requires maxDelta >= 0.0
    requires n as real * maxDelta >= Abs(target - current)
    ensures Approach(current, target, maxDelta, n) == target
    decreases n
  {
    if n > 0 {
      var next := MoveTowards(current, target, maxDelta);
      MoveTowardsBounds(current, target, maxDelta);
      if Abs(target - current) <= maxDelta {
        ApproachStaysAtTarget(target, maxDelta, n - 1);
      } else {
        assert Abs(target - next) == Abs(target - current) - maxDelta;
        assert (n - 1) as real * maxDelta == n as real * maxDelta - maxDelta;
        ApproachReachesTarget(next, target, maxDelta, n - 1);
      }
    }
  }

  /** Every intermediate value of an approach stays between the start and the target. */
  lemma {:induction false} ApproachStaysBetween(current: real, target: real, maxDelta: real, n: nat)
    requires maxDelta >= 0.0
    ensures Between(current, target, Approach(current, target, maxDelta, n))
    decreases n
  {
    if n > 0 {
      MoveTowardsBounds(current, target, maxDelta);
      ApproachStaysBetween(MoveTowards(current, target, maxDelta), target, maxDelta, n - 1);
    }
  }
}
