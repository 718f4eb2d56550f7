/** The character controller's behaviour as pure transitions on a value: ground
    sensing, the timed jump, speed smoothing, root-motion translation and air
    control.  The class Mover.AnimatorMover performs these same transitions in
    place; its methods are specified by the functions here. */
module Locomotion {

  import opened Vectors
  import Mathf

  /** Time.deltaTime and Time.fixedDeltaTime: elapsed time is never negative. */
  type Duration = t: real | t >= 0.0

  datatype Option<T> = None | Some(value: T)

  /** How fast the smoothed direction may approach the joystick input, per second. */
  const TurnRate: real := 8.0
  /** Speed reached for a unit-length movement direction. */
  const SpeedScale: real := 1.4
  /** A speed at or below this counts as standing still. */
  const MovingThreshold: real := 0.01
  /** Impulse magnitude per unit of JumpForce. */
  const JumpImpulseScale: real := 200.0
  /** Delay after which a jump is switched off again, in seconds. */
  const JumpCooldown: real := 0.3
  /** Calibration factor from a per-step root-motion displacement to a velocity. */
  const RootMotionScale: real := 5000.0

  /** An impulse handed to the rigidbody (AddForce with ForceMode.Impulse). */
  datatype Impulse = Impulse(direction: Vec3, magnitude: real)

  /** The mover's own state.  DisableJumpAt is the time at which the pending
      Invoke of DisableJump fires, if one is pending; Impulses lists the impulses
      the mover has sent to its rigidbody, oldest first. */
  datatype MoverState = MoverState(
    IsGrounded: bool,
    IsJumping: bool,
    DisableJumpAt: Option<real>,
    MovementDirection: Vec3,
    MovementSpeed: real,
    IsMoving: bool,
    Impulses: seq<Impulse>)

  /** Never grounded and jumping at once. */
  predicate Exclusive(s: MoverState) {
    s.IsJumping ==> !s.IsGrounded
  }

  /** The invariant every reachable state keeps. */
  predicate Valid(s: MoverState) {
    && Exclusive(s)
    && (s.IsJumping <==> s.DisableJumpAt.Some?)
    && s.MovementSpeed >= 0.0
    && (s.IsMoving <==> s.MovementSpeed > MovingThreshold)
    && s.MovementDirection.y == 0.0
  }

  /** The state of a freshly created mover: grounded, not jumping, at rest, nothing
      scheduled; `impulses` is whatever the rigidbody had already received. */
  function Start(impulses: seq<Impulse>): (s: MoverState)
    ensures Valid(s) && s.IsGrounded && !s.IsJumping && s.MovementSpeed == 0.0
  {
    MoverState(true, false, None, Zero, 0.0, false, impulses)
  }

  /** The movement part of the state is the same in s and r. */
  predicate SameMovement(s: MoverState, r: MoverState) {
    s.MovementDirection == r.MovementDirection && s.MovementSpeed == r.MovementSpeed && s.IsMoving == r.IsMoving
  }

  /** GroundCheck: grounded exactly when the ground query hit something and no
      jump is active.  Nothing else changes, and whatever the previous state the
      result is never grounded and jumping at once. */
  function GroundCheck(s: MoverState, hitCount: nat): (r: MoverState)
    ensures r.IsGrounded <==> hitCount != 0 && !s.IsJumping
    ensures r.IsJumping == s.IsJumping && r.DisableJumpAt == s.DisableJumpAt && r.Impulses == s.Impulses
    ensures SameMovement(s, r)
    ensures Exclusive(r)
    ensures Valid(s) ==> Valid(r)
  {
    if hitCount != 0 && !s.IsJumping then s.(IsGrounded := true) else s.(IsGrounded := false)
  }

  /** Jump's two guards: not already jumping, and grounded. */
  predicate CanJump(s: MoverState) {
    !s.IsJumping && s.IsGrounded
  }

  /** The impulse a jump applies: along the transform's up axis, of magnitude
      200 * JumpForce. */
  function JumpImpulse(up: Vec3, jumpForce: real): Impulse {
    Impulse(up, JumpImpulseScale * jumpForce)
  }

  /** Jump at time `now`: when a guard fails nothing changes; otherwise the
      mover leaves the ground, starts jumping, applies one upward impulse and
      schedules DisableJump for now + 0.3. */
  function Jump(s: MoverState, now: real, up: Vec3, jumpForce: real): (r: MoverState)
    ensures !CanJump(s) ==> r == s
    ensures CanJump(s) ==> && !r.IsGrounded && r.IsJumping
                           && r.DisableJumpAt == Some(now + JumpCooldown)
                           && r.Impulses == s.Impulses + [JumpImpulse(up, jumpForce)]
    ensures SameMovement(s, r)
    ensures Valid(s) ==> Valid(r)
  {
    if s.IsJumping then s
    else if !s.IsGrounded then s
    else
      s.(IsGrounded := false, IsJumping := true,
         DisableJumpAt := Some(now + JumpCooldown),
         Impulses := s.Impulses + [JumpImpulse(up, jumpForce)])
  }

  /** DisableJump: only the jump flag is cleared; the ground is not checked
      again. */
  function DisableJump(s: MoverState): (r: MoverState)
    ensures !r.IsJumping && Exclusive(r)
    ensures r.IsGrounded == s.IsGrounded && r.DisableJumpAt == s.DisableJumpAt && r.Impulses == s.Impulses
    ensures SameMovement(s, r)
  {
    s.(IsJumping := false)
  }

  /** The scheduled DisableJump is due at time `now`. */
  predicate CooldownOver(s: MoverState, now: real) {
    s.DisableJumpAt.Some? && s.DisableJumpAt.value <= now
  }

  /** The scheduler at time `now`: runs the pending DisableJump once its time has
      come and forgets it; before that, or with nothing pending, nothing
      changes. */
  function Tick(s: MoverState, now: real): (r: MoverState)
    ensures r.IsJumping <==> s.IsJumping && !CooldownOver(s, now)
    ensures CooldownOver(s, now) ==> r.DisableJumpAt == None
    ensures !CooldownOver(s, now) ==> r == s
    ensures r.IsGrounded == s.IsGrounded && r.Impulses == s.Impulses
    ensures SameMovement(s, r)
    ensures Valid(s) ==> Valid(r)
  {
    if CooldownOver(s, now) then DisableJump(s).(DisableJumpAt := None) else s
  }

  /** The joystick's 2D direction laid into the horizontal plane. */
  function Planar(input: Vec2): (v: Vec3)
    ensures v.y == 0.0
  {
    Vec3(input.x, 0.0, input.y)
  }

  /** The speed the mover heads for with smoothed direction `direction`. */
  function TargetSpeed(direction: Vec3, sqrt: real -> real): (r: real)
    requires IsSqrt(sqrt)
    ensures r >= 0.0
  {
    Magnitude(direction, sqrt) * SpeedScale
  }

  /** The movement part of Update: the smoothed direction moves at most 8 * dt
      towards the planar input, the speed moves at most dt towards
      |direction| * 1.4 without overshooting it, and IsMoving is whether the
      speed exceeds 0.01.  Ground and jump state are untouched. */
  function SpeedStep(s: MoverState, input: Vec2, dt: Duration, sqrt: real -> real): (r: MoverState)
    requires IsSqrt(sqrt)
    ensures r.IsMoving <==> r.MovementSpeed > MovingThreshold
    ensures Mathf.Abs(r.MovementSpeed - s.MovementSpeed) <= dt
    ensures Mathf.Between(s.MovementSpeed, TargetSpeed(r.MovementDirection, sqrt), r.MovementSpeed)
    ensures Mathf.Abs(TargetSpeed(r.MovementDirection, sqrt) - r.MovementSpeed)
            == Mathf.Shortfall(Mathf.Abs(TargetSpeed(r.MovementDirection, sqrt) - s.MovementSpeed), dt)
    ensures s.MovementSpeed >= 0.0 ==> r.MovementSpeed >= 0.0
    ensures s.MovementDirection.y == 0.0 ==> r.MovementDirection.y == 0.0
    ensures r.IsGrounded == s.IsGrounded && r.IsJumping == s.IsJumping
    ensures r.DisableJumpAt == s.DisableJumpAt && r.Impulses == s.Impulses
    ensures Valid(s) ==> Valid(r)
  {
    var direction := Vectors.MoveTowards(s.MovementDirection, Planar(input), dt * TurnRate, sqrt);
    var speed := Mathf.MoveTowards(s.MovementSpeed, TargetSpeed(direction, sqrt), dt);
    s.(MovementDirection := direction, MovementSpeed := speed, IsMoving := !(speed <= MovingThreshold))
  }

  /** Whether one Update fires a jump: the key went down, the ground check of
      that same frame found ground, and no jump was active. */
  predicate JumpFires(s: MoverState, jumpPressed: bool, hitCount: nat) {
    jumpPressed && hitCount != 0 && !s.IsJumping
  }

  /** Update: ground check first, then the speed step, then the jump attempt
      (only when the key went down and no jump is active). */
  function Frame(s: MoverState, input: Vec2, dt: Duration, jumpPressed: bool, hitCount: nat,
                 now: real, up: Vec3, jumpForce: real, sqrt: real -> real): (r: MoverState)
    requires IsSqrt(sqrt)
    ensures r.IsGrounded <==> hitCount != 0 && !s.IsJumping && !jumpPressed
    ensures r.IsJumping <==> s.IsJumping || JumpFires(s, jumpPressed, hitCount)
    ensures r.Impulses == s.Impulses + (if JumpFires(s, jumpPressed, hitCount) then [JumpImpulse(up, jumpForce)] else [])
    ensures r.DisableJumpAt == if JumpFires(s, jumpPressed, hitCount) then Some(now + JumpCooldown) else s.DisableJumpAt
    ensures r.IsMoving <==> r.MovementSpeed > MovingThreshold
    ensures Mathf.Abs(r.MovementSpeed - s.MovementSpeed) <= dt
    ensures Mathf.Between(s.MovementSpeed, TargetSpeed(r.MovementDirection, sqrt), r.MovementSpeed)
    ensures Mathf.Abs(TargetSpeed(r.MovementDirection, sqrt) - r.MovementSpeed)
            == Mathf.Shortfall(Mathf.Abs(TargetSpeed(r.MovementDirection, sqrt) - s.MovementSpeed), dt)
    ensures Valid(s) ==> Valid(r)
  {
    var grounded := GroundCheck(s, hitCount);
    var moved := SpeedStep(grounded, input, dt, sqrt);
    if jumpPressed && !moved.IsJumping then Jump(moved, now, up, jumpForce) else moved
  }

  /** What reaches the mover: a rendered frame (Update) or the scheduler's check
      at time `now` for the pending DisableJump. */
  datatype Event =
    | Update(input: Vec2, dt: Duration, jumpPressed: bool, hitCount: nat, now: real, up: Vec3)
    | Timer(now: real)

  function Step(s: MoverState, e: Event, jumpForce: real, sqrt: real -> real): MoverState
    requires IsSqrt(sqrt)
  {
    match e
    case Update(input, dt, jumpPressed, hitCount, now, up) =>
      Frame(s, input, dt, jumpPressed, hitCount, now, up, jumpForce, sqrt)
    case Timer(now) => Tick(s, now)
  }

  /** The state after a sequence of events, in order. */
  function Run(s: MoverState, events: seq<Event>, jumpForce: real, sqrt: real -> real): MoverState
    requires IsSqrt(sqrt)
    decreases |events|
  {
    if events == [] then s else Run(Step(s, events[0], jumpForce, sqrt), events[1..], jumpForce, sqrt)
  }

  /** Every event sequence keeps the invariant. */
  lemma {:induction false} RunKeepsValid(s: MoverState, events: seq<Event>, jumpForce: real, sqrt: real -> real)
    requires IsSqrt(sqrt) && Valid(s)
    ensures Valid(Run(s, events, jumpForce, sqrt))
    decreases |events|
  {
    if events != [] {
      RunKeepsValid(Step(s, events[0], jumpForce, sqrt), events[1..], jumpForce, sqrt);
    }
  }

  /** No sequence of frames and timer checks from a fresh mover ever makes it
      grounded and jumping at once. */
  lemma ReachableStatesExclusive(impulses: seq<Impulse>, events: seq<Event>, jumpForce: real, sqrt: real -> real)
    requires IsSqrt(sqrt)
    ensures Exclusive(Run(Start(impulses), events, jumpForce, sqrt))
  {
    RunKeepsValid(Start(impulses), events, jumpForce, sqrt);
  }

  /** Every timer check in `events` happens before `deadline`. */
  predicate TimersBefore(events: seq<Event>, deadline: real) {
    forall i :: 0 <= i < |events| && events[i].Timer? ==> events[i].now < deadline
  }

  /** While the cooldown has not elapsed, nothing ends the jump: whatever frames
      arrive, with or without ground contact or jump presses, the mover stays
      jumping and airborne, keeps its deadline and applies no further impulse. */
  lemma {:induction false} JumpLastsUntilDeadline(s: MoverState, events: seq<Event>, jumpForce: real, sqrt: real -> real)
    requires IsSqrt(sqrt) && Valid(s) && s.IsJumping
    requires TimersBefore(events, s.DisableJumpAt.value)
    ensures var r := Run(s, events, jumpForce, sqrt);
            r.IsJumping && !r.IsGrounded && r.DisableJumpAt == s.DisableJumpAt && r.Impulses == s.Impulses
    decreases |events|
  {
    if events != [] {
      var next := Step(s, events[0], jumpForce, sqrt);
      assert TimersBefore(events[1..], s.DisableJumpAt.value) by {
        forall i | 0 <= i < |events[1..]| && events[1..][i].Timer?
          ensures events[1..][i].now < s.DisableJumpAt.value
        {
          assert events[1..][i] == events[i + 1];
        }
      }
      JumpLastsUntilDeadline(next, events[1..], jumpForce, sqrt);
    }
  }

  /** A jump from the ground at time t: it fires, lasts through any events that
      come before t + 0.3, and the first timer check at or after t + 0.3 ends it
      while leaving the mover airborne until a later ground check. */
  lemma JumpScenario(s: MoverState, input: Vec2, dt: Duration, hitCount: nat, t: real, up: Vec3,
                     events: seq<Event>, later: real, jumpForce: real, sqrt: real -> real)
    requires IsSqrt(sqrt) && Valid(s) && !s.IsJumping && hitCount != 0
    requires TimersBefore(events, t + JumpCooldown) && later >= t + JumpCooldown
    ensures var jumped := Frame(s, input, dt, true, hitCount, t, up, jumpForce, sqrt);
            && jumped.IsJumping && !jumped.IsGrounded
            && jumped.Impulses == s.Impulses + [JumpImpulse(up, jumpForce)]
            && var during := Run(jumped, events, jumpForce, sqrt);
               && during.IsJumping && !during.IsGrounded && during.Impulses == jumped.Impulses
               && var after := Tick(during, later);
                  !after.IsJumping && !after.IsGrounded && after.DisableJumpAt == None
  {
    var jumped := Frame(s, input, dt, true, hitCount, t, up, jumpForce, sqrt);
    JumpLastsUntilDeadline(jumped, events, jumpForce, sqrt);
  }

  /** The movement part of a frame is the speed step alone: neither the ground
      check before it nor the jump after it touches direction or speed. */
  lemma FrameMovement(s: MoverState, input: Vec2, dt: Duration, jumpPressed: bool, hitCount: nat,
                      now: real, up: Vec3, jumpForce: real, sqrt: real -> real)
    requires IsSqrt(sqrt)
    ensures SameMovement(Frame(s, input, dt, jumpPressed, hitCount, now, up, jumpForce, sqrt),
                         SpeedStep(s, input, dt, sqrt))
  {
    var grounded := GroundCheck(s, hitCount);
    assert SameMovement(s, grounded);
    assert SpeedStep(grounded, input, dt, sqrt).MovementDirection == SpeedStep(s, input, dt, sqrt).MovementDirection;
  }

  /** Once the smoothed direction has reached a steady joystick input it stays
      there, and the speed then moves towards the fixed target |input| * 1.4. */
  lemma SteadyInput(s: MoverState, input: Vec2, dt: Duration, jumpPressed: bool, hitCount: nat,
                    now: real, up: Vec3, jumpForce: real, sqrt: real -> real)
    requires IsSqrt(sqrt) && s.MovementDirection == Planar(input)
    ensures var r := Frame(s, input, dt, jumpPressed, hitCount, now, up, jumpForce, sqrt);
            && r.MovementDirection == Planar(input)
            && r.MovementSpeed == Mathf.MoveTowards(s.MovementSpeed, TargetSpeed(Planar(input), sqrt), dt)
  {
    FrameMovement(s, input, dt, jumpPressed, hitCount, now, up, jumpForce, sqrt);
    Vectors.MoveTowardsAtTarget(Planar(input), dt * TurnRate, sqrt);
  }

  /** One Update brings the smoothed direction 8 * dt closer to the joystick
      input, or onto it. */
  lemma DirectionApproachesInput(s: MoverState, input: Vec2, dt: Duration, jumpPressed: bool, hitCount: nat,
                                 now: real, up: Vec3, jumpForce: real, sqrt: real -> real)
    requires IsSqrt(sqrt)
    ensures var r := Frame(s, input, dt, jumpPressed, hitCount, now, up, jumpForce, sqrt);
            Magnitude(Sub(Planar(input), r.MovementDirection), sqrt)
            == Mathf.Shortfall(Magnitude(Sub(Planar(input), s.MovementDirection), sqrt), dt * TurnRate)
  {
    FrameMovement(s, input, dt, jumpPressed, hitCount, now, up, jumpForce, sqrt);
    Vectors.MoveTowardsProgress(s.MovementDirection, Planar(input), dt * TurnRate, sqrt);
  }

  /** One Update turns the smoothed direction by at most 8 * dt. */
  lemma TurnRateBound(s: MoverState, input: Vec2, dt: Duration, jumpPressed: bool, hitCount: nat,
                      now: real, up: Vec3, jumpForce: real, sqrt: real -> real)
    requires IsSqrt(sqrt)
    ensures var r := Frame(s, input, dt, jumpPressed, hitCount, now, up, jumpForce, sqrt);
            Magnitude(Sub(r.MovementDirection, s.MovementDirection), sqrt) <= dt * TurnRate
  {
    FrameMovement(s, input, dt, jumpPressed, hitCount, now, up, jumpForce, sqrt);
    Vectors.MoveTowardsStepBound(s.MovementDirection, Planar(input), dt * TurnRate, sqrt);
  }

  /** OnAnimatorMove's result: the root-motion displacement it stores and the
      velocity it gives the rigidbody. */
  datatype RootMotionResult = RootMotionResult(deltaPosition: Vec3, velocity: Vec3)

  /** OnAnimatorMove: the animation's displacement scaled by the physics step,
      with its vertical part dropped; the new velocity is that displacement
      times 5000 * RootMotionSpeed horizontally, and the old vertical velocity. */
  function RootMotion(animationDelta: Vec3, fixedDeltaTime: real, rootMotionSpeed: real, velocity: Vec3): (r: RootMotionResult)
    ensures r.deltaPosition == Vec3(animationDelta.x * fixedDeltaTime, 0.0, animationDelta.z * fixedDeltaTime)
    ensures r.velocity.y == velocity.y
    ensures r.velocity.x == animationDelta.x * fixedDeltaTime * RootMotionScale * rootMotionSpeed
    ensures r.velocity.z == animationDelta.z * fixedDeltaTime * RootMotionScale * rootMotionSpeed
  {
    var delta := Scale(animationDelta, fixedDeltaTime).(y := 0.0);
    RootMotionResult(delta, Add(Scale(Scale(delta, RootMotionScale), rootMotionSpeed), Scale(Up, velocity.y)))
  }

  /** The animation's vertical displacement never reaches the rigidbody: two
      samples that differ only vertically give the same result. */
  lemma RootMotionIgnoresAnimationHeight(a: Vec3, b: Vec3, fixedDeltaTime: real, rootMotionSpeed: real, velocity: Vec3)
    requires a.x == b.x && a.z == b.z
    ensures RootMotion(a, fixedDeltaTime, rootMotionSpeed, velocity) == RootMotion(b, fixedDeltaTime, rootMotionSpeed, velocity)
  {
  }

  /** InAirMovementControl: the transform moves only while airborne and moving;
      it then moves dt down its own up axis (Translate in Space.Self) and
      AirInfluenceControll / 2 * dt along its forward axis (Space.World). */
  function AirControl(isGrounded: bool, isMoving: bool, position: Vec3, up: Vec3, forward: Vec3,
                      airInfluence: real, dt: real): (r: Vec3)
    ensures isGrounded || !isMoving ==> r == position
    ensures !isGrounded && isMoving ==>
              Sub(r, position) == Add(Scale(up, -1.0 * dt), Scale(forward, airInfluence / 2.0 * dt))
  {
    if !isGrounded then
      if isMoving then
        Add(Add(position, Scale(up, -1.0 * dt)), Scale(Scale(forward, airInfluence / 2.0), dt))
      else position
    else position
  }

  /** For an upright character (local up is world up) whose forward axis is
      horizontal, air control lowers it by exactly dt. */
  lemma AirControlSinks(position: Vec3, forward: Vec3, airInfluence: real, dt: real)
    requires forward.y == 0.0
    ensures AirControl(false, true, position, Up, forward, airInfluence, dt).y == position.y - dt
  {
  }
}
