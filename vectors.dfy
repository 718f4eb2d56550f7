/** Unity's Vector2/Vector3 over mathematical reals (no float rounding), and the
    engine's Vector3.MoveTowards.  Vector3.magnitude needs a square root, which
    Dafny's reals cannot compute; the engine's square root is therefore passed in
    as a function `sqrt` that satisfies IsSqrt. */
module Vectors {

  import Mathf

  datatype Vec2 = Vec2(x: real, y: real)

  datatype Vec3 = Vec3(x: real, y: real, z: real)

  const Zero: Vec3 := Vec3(0.0, 0.0, 0.0)

  /** Vector3.up */
  const Up: Vec3 := Vec3(0.0, 1.0, 0.0)

  function Add(a: Vec3, b: Vec3): Vec3 {
    Vec3(a.x + b.x, a.y + b.y, a.z + b.z)
  }

  function Sub(a: Vec3, b: Vec3): Vec3 {
    Vec3(a.x - b.x, a.y - b.y, a.z - b.z)
  }

  function Scale(a: Vec3, k: real): Vec3 {
    Vec3(a.x * k, a.y * k, a.z * k)
  }

  /** Vector3.sqrMagnitude */
  function SqrMagnitude(a: Vec3): (r: real)
    ensures r >= 0.0
  {
    a.x * a.x + a.y * a.y + a.z * a.z
  }

  /** sqrt(s) squared.  It names the product so that the squaring law in IsSqrt
      is used only where a proof mentions it. */
  ghost function SquareOfRoot(sqrt: real -> real, s: real): real {
    sqrt(s) * sqrt(s)
  }

  /** `sqrt` is a square root on the non-negative reals (Mathf.Sqrt without
      rounding): its results are non-negative and square back to the argument. */
  ghost predicate IsSqrt(sqrt: real -> real) {
    && (forall s: real :: s >= 0.0 ==> sqrt(s) >= 0.0)
    && (forall s: real {:trigger SquareOfRoot(sqrt, s)} :: s >= 0.0 ==> SquareOfRoot(sqrt, s) == s)
  }

  /** Two non-negative reals with equal squares are equal. */
  lemma SquareUnique(a: real, b: real)
    requires a >= 0.0 && b >= 0.0 && a * a == b * b
    ensures a == b
  {
    var difference := a - b;
    var sum := a + b;
    assert difference * sum == a * a - b * b;
  }

  /** Among non-negative reals, the larger square belongs to the larger number. */
  lemma SquareMonotone(a: real, b: real)
    requires a >= 0.0 && b >= 0.0 && a * a > b * b
    ensures a > b
  {
    var difference := a - b;
    var sum := a + b;
    assert difference * sum == a * a - b * b;
  }

  /** Among non-negative reals, the larger number has the larger square. */
  lemma SquareIncreasing(a: real, b: real)
    requires 0.0 <= b < a
    ensures b * b < a * a
  {
    var difference := a - b;
    var sum := a + b;
    assert difference * sum == a * a - b * b;
    assert difference * sum > 0.0;
  }

  /** (c * c) * (d * d) == (c * d) * (c * d) */
  lemma SquareOfProduct(c: real, d: real)
    ensures c * c * (d * d) == (c * d) * (c * d)
  {
  }

  /** The non-negative square root is unique: sqrt(x * x) is x itself. */
  lemma SqrtOfSquare(sqrt: real -> real, x: real)
    requires IsSqrt(sqrt)
    requires x >= 0.0
    ensures sqrt(x * x) == x
  {
    assert x * x >= 0.0;
    assert SquareOfRoot(sqrt, x * x) == x * x;
    SquareUnique(sqrt(x * x), x);
  }

  /** Vector3.magnitude: the Euclidean length. */
  function Magnitude(a: Vec3, sqrt: real -> real): (r: real)
    requires IsSqrt(sqrt)
    ensures r >= 0.0
  {
    sqrt(SqrMagnitude(a))
  }

  /** The magnitude squared is the squared magnitude. */
  lemma MagnitudeSquared(a: Vec3, sqrt: real -> real)
    requires IsSqrt(sqrt)
    ensures Magnitude(a, sqrt) * Magnitude(a, sqrt) == SqrMagnitude(a)
  {
    assert SquareOfRoot(sqrt, SqrMagnitude(a)) == SqrMagnitude(a);
  }

  /** Scaling a vector by k scales its squared length by k * k. */
  lemma ScaleSqrMagnitude(a: Vec3, k: real)
    ensures SqrMagnitude(Scale(a, k)) == k * k * SqrMagnitude(a)
  {
    calc {
      SqrMagnitude(Scale(a, k));
      (a.x * k) * (a.x * k) + (a.y * k) * (a.y * k) + (a.z * k) * (a.z * k);
      k * k * (a.x * a.x) + k * k * (a.y * a.y) + k * k * (a.z * a.z);
    }
  }

  /** Vector3.MoveTowards: the target itself when it lies within maxDistanceDelta
      (or coincides with current), otherwise the point maxDistanceDelta along the
      straight line from current to target. */
  function MoveTowards(current: Vec3, target: Vec3, maxDistanceDelta: real, sqrt: real -> real): (r: Vec3)
    requires IsSqrt(sqrt)
    ensures current.y == 0.0 && target.y == 0.0 ==> r.y == 0.0
  {
    var toVector := Sub(target, current);
    var sqdist := SqrMagnitude(toVector);
    if sqdist == 0.0 || (maxDistanceDelta >= 0.0 && sqdist <= maxDistanceDelta * maxDistanceDelta) then
      target
    else
      var dist := sqrt(sqdist);
      assert SquareOfRoot(sqrt, sqdist) == sqdist;
      StepLength(toVector, dist, maxDistanceDelta);
      Add(current, Scale(toVector, maxDistanceDelta / dist))
  }

  /** The step taken by MoveTowards when the target is out of reach has length
      exactly maxDistanceDelta. */
  lemma StepLength(toVector: Vec3, dist: real, maxDistanceDelta: real)
    requires dist > 0.0 && dist * dist == SqrMagnitude(toVector)
    ensures SqrMagnitude(Scale(toVector, maxDistanceDelta / dist)) == maxDistanceDelta * maxDistanceDelta
  {
    var k := maxDistanceDelta / dist;
    ScaleSqrMagnitude(toVector, k);
    SquareOfProduct(k, dist);
    assert k * dist == maxDistanceDelta;
  }

  /** What is left after a step of maxDistanceDelta along toVector has length
      dist - maxDistanceDelta. */
  lemma RemainingLength(toVector: Vec3, dist: real, maxDistanceDelta: real)
    requires dist > 0.0 && dist * dist == SqrMagnitude(toVector)
    ensures SqrMagnitude(Scale(toVector, 1.0 - maxDistanceDelta / dist))
            == (dist - maxDistanceDelta) * (dist - maxDistanceDelta)
  {
    var k := maxDistanceDelta / dist;
    assert k * dist == maxDistanceDelta;
    var c := 1.0 - k;
    assert c * dist == dist - k * dist;
    ScaleSqrMagnitude(toVector, c);
    SquareOfProduct(c, dist);
  }

  /** When the target is out of reach, MoveTowards brings current exactly
      maxDistanceDelta closer to it: no overshoot and no shortfall. */
  lemma MoveTowardsOutOfReach(current: Vec3, target: Vec3, maxDistanceDelta: real, sqrt: real -> real)
    requires IsSqrt(sqrt)
    requires maxDistanceDelta >= 0.0
    requires SqrMagnitude(Sub(target, current)) > maxDistanceDelta * maxDistanceDelta
    ensures Magnitude(Sub(target, current), sqrt) > maxDistanceDelta
    ensures Magnitude(Sub(target, MoveTowards(current, target, maxDistanceDelta, sqrt)), sqrt)
            == Magnitude(Sub(target, current), sqrt) - maxDistanceDelta
  {
    var toVector := Sub(target, current);
    var dist := Magnitude(toVector, sqrt);
    MagnitudeSquared(toVector, sqrt);
    SquareMonotone(dist, maxDistanceDelta);
    var r := MoveTowards(current, target, maxDistanceDelta, sqrt);
    assert r == Add(current, Scale(toVector, maxDistanceDelta / dist));
    assert Sub(target, r) == Scale(toVector, 1.0 - maxDistanceDelta / dist);
    RemainingLength(toVector, dist, maxDistanceDelta);
    var remaining := dist - maxDistanceDelta;
    SqrtOfSquare(sqrt, remaining);
    var left := SqrMagnitude(Sub(target, r));
    assert left == remaining * remaining;
    assert sqrt(left) == sqrt(remaining * remaining);
  }

  /** A target within reach is at most maxDistanceDelta away, and once reached
      it is at distance zero. */
  lemma WithinReach(current: Vec3, target: Vec3, maxDistanceDelta: real, sqrt: real -> real)
    requires IsSqrt(sqrt)
    requires maxDistanceDelta >= 0.0
    requires SqrMagnitude(Sub(target, current)) <= maxDistanceDelta * maxDistanceDelta
    ensures Magnitude(Sub(target, current), sqrt) <= maxDistanceDelta
    ensures MoveTowards(current, target, maxDistanceDelta, sqrt) == target
    ensures Magnitude(Sub(target, MoveTowards(current, target, maxDistanceDelta, sqrt)), sqrt) == 0.0
  {
    var dist := Magnitude(Sub(target, current), sqrt);
    MagnitudeSquared(Sub(target, current), sqrt);
    if dist > maxDistanceDelta {
      SquareIncreasing(dist, maxDistanceDelta);
    }
    assert Sub(target, target) == Zero;
    SqrtOfSquare(sqrt, 0.0);
  }

  /** A point already at the target stays there. */
  lemma MoveTowardsAtTarget(target: Vec3, maxDistanceDelta: real, sqrt: real -> real)
    requires IsSqrt(sqrt)
    ensures MoveTowards(target, target, maxDistanceDelta, sqrt) == target
  {
    assert SqrMagnitude(Sub(target, target)) == 0.0;
  }

  /** MoveTowards never moves current by more than maxDistanceDelta. */
  lemma MoveTowardsStepBound(current: Vec3, target: Vec3, maxDistanceDelta: real, sqrt: real -> real)
    requires IsSqrt(sqrt)
    requires maxDistanceDelta >= 0.0
    ensures Magnitude(Sub(MoveTowards(current, target, maxDistanceDelta, sqrt), current), sqrt) <= maxDistanceDelta
  {
    var reach := maxDistanceDelta * maxDistanceDelta;
    if SqrMagnitude(Sub(target, current)) <= reach {
      WithinReach(current, target, maxDistanceDelta, sqrt);
      assert Sub(target, current) == Sub(MoveTowards(current, target, maxDistanceDelta, sqrt), current);
    } else {
      var toVector := Sub(target, current);
      var dist := Magnitude(toVector, sqrt);
      MoveTowardsOutOfReach(current, target, maxDistanceDelta, sqrt);
      MagnitudeSquared(toVector, sqrt);
      var step := Scale(toVector, maxDistanceDelta / dist);
      assert Sub(MoveTowards(current, target, maxDistanceDelta, sqrt), current) == step;
      StepLength(toVector, dist, maxDistanceDelta);
      SqrtOfSquare(sqrt, maxDistanceDelta);
      var length := SqrMagnitude(step);
      assert length == reach;
      assert sqrt(length) == sqrt(reach);
    }
  }

  /** One MoveTowards step leaves the distance to the target reduced by
      maxDistanceDelta, or zero when the target was within reach. */
  lemma MoveTowardsProgress(current: Vec3, target: Vec3, maxDistanceDelta: real, sqrt: real -> real)
    requires IsSqrt(sqrt)
    requires maxDistanceDelta >= 0.0
    ensures Magnitude(Sub(target, MoveTowards(current, target, maxDistanceDelta, sqrt)), sqrt)
            == Mathf.Shortfall(Magnitude(Sub(target, current), sqrt), maxDistanceDelta)
  {
    var reach := maxDistanceDelta * maxDistanceDelta;
    if SqrMagnitude(Sub(target, current)) <= reach {
      WithinReach(current, target, maxDistanceDelta, sqrt);
    } else {
      MoveTowardsOutOfReach(current, target, maxDistanceDelta, sqrt);
    }
  }
}
