/** Unity's scalar Mathf helpers used by the mover, over mathematical reals. */
module Mathf {

  function Abs(f: real): (r: real)
    ensures r >= 0.0 && (r == f || r == -f)
  {
    if f < 0.0 then -f else f
  }

  /** Mathf.Sign: 1 for zero and for positive values, -1 for negative ones. */
  function Sign(f: real): real {
    if f >= 0.0 then 1.0 else -1.0
  }

  /** r lies on the closed segment between a and b. */
  predicate Between(a: real, b: real, r: real) {
    (a <= b ==> a <= r <= b) && (b <= a ==> b <= r <= a)
  }

  /** The distance left to cover after trying to close `distance` with a step of
      at most `step`. */
  function Shortfall(distance: real, step: real): real {
    if distance <= step then 0.0 else distance - step
  }

  /** Mathf.MoveTowards: the target when it is within maxDelta of current,
      otherwise current moved by maxDelta in the direction of the target. */
  function MoveTowards(current: real, target: real, maxDelta: real): (r: real)
    ensures Abs(target - current) <= maxDelta ==> r == target
    ensures maxDelta >= 0.0 ==> Abs(r - current) <= maxDelta
    ensures maxDelta >= 0.0 ==> Between(current, target, r)
    ensures maxDelta >= 0.0 ==> Abs(target - r) == Shortfall(Abs(target - current), maxDelta)
  {
    if Abs(target - current) <= maxDelta then target
    else current + Sign(target - current) * maxDelta
  }

  /** n successive MoveTowards steps of maxDelta towards a fixed target. */
  function Approach(current: real, target: real, maxDelta: real, n: nat): real
    decreases n
  {
    if n == 0 then current
    else Approach(MoveTowards(current, target, maxDelta), target, maxDelta, n - 1)
  }

  /** Closing a gap first by `first` and then by `second` leaves what closing it
      by `first + second` at once would leave. */
  lemma ShortfallAdds(distance: real, first: real, second: real)
    requires first >= 0.0 && second >= 0.0
    ensures Shortfall(Shortfall(distance, first), second) == Shortfall(distance, first + second)
  {
  }

  /** The distance n steps of maxDelta can cover: n * maxDelta, written as a sum
      so that the lemmas about it stay linear. */
  function Covered(n: nat, maxDelta: real): (r: real)
    ensures maxDelta >= 0.0 ==> r >= 0.0
  {
    if n == 0 then 0.0 else maxDelta + Covered(n - 1, maxDelta)
  }

  /** Covered is the product n * maxDelta. */
  lemma {:induction false} CoveredIsProduct(n: nat, maxDelta: real)
    ensures Covered(n, maxDelta) == (n as real) * maxDelta
  {
    if n > 0 {
      CoveredIsProduct(n - 1, maxDelta);
      var m := (n - 1) as real;
      assert (m + 1.0) * maxDelta == m * maxDelta + maxDelta;
    }
  }

  /** A point between current and a point between current and the target is
      itself between current and the target. */
  lemma BetweenTransitive(current: real, target: real, next: real, r: real)
    requires Between(current, target, next) && Between(next, target, r)
    ensures Between(current, target, r)
  {
  }

  /** Repeated steps towards a fixed target never overshoot it and close the gap
      by maxDelta per step, so the target is reached once n * maxDelta covers the
      initial distance. */
  lemma {:induction false} ApproachConverges(current: real, target: real, maxDelta: real, n: nat)
    requires maxDelta >= 0.0
    ensures Between(current, target, Approach(current, target, maxDelta, n))
    ensures Abs(target - Approach(current, target, maxDelta, n))
            == Shortfall(Abs(target - current), Covered(n, maxDelta))
    decreases n
  {
    if n > 0 {
      var next := MoveTowards(current, target, maxDelta);
      var r := Approach(next, target, maxDelta, n - 1);
      ApproachConverges(next, target, maxDelta, n - 1);
      BetweenTransitive(current, target, next, r);
      ShortfallAdds(Abs(target - current), maxDelta, Covered(n - 1, maxDelta));
    }
  }
}
