/** The AnimatorMover component: a character whose fields are updated in place
    once per rendered frame (Update), once per physics step (FixedUpdate) and
    whenever the animator has computed a pose (OnAnimatorMove).  Each method is
    specified by the matching transition in Locomotion. */
module Mover {

  import opened Vectors
  import Mathf
  import L = Locomotion

  /** The part of the rigidbody the mover touches: its linear velocity, and the
      impulses it has been given (the physics engine turns those into velocity
      on its own schedule). */
  class Rigidbody {
    var velocity: Vec3
    ghost var impulses: seq<L.Impulse>

    constructor (velocity: Vec3)
      ensures this.velocity == velocity && impulses == []
    {
      this.velocity := velocity;
      impulses := [];
    }

    /** AddForce(direction * magnitude, ForceMode.Impulse). */
    method AddImpulse(direction: Vec3, magnitude: real)
      modifies this`impulses
      ensures impulses == old(impulses) + [L.Impulse(direction, magnitude)]
    {
      impulses := impulses + [L.Impulse(direction, magnitude)];
    }
  }

  /** The character's transform: its position and its local axes in world
      space.  The axes change only through rotations, which are not part of this
      model. */
  class Transform {
    var position: Vec3
    var right: Vec3
    var up: Vec3
    var forward: Vec3

    constructor (position: Vec3, right: Vec3, up: Vec3, forward: Vec3)
      ensures this.position == position && this.right == right && this.up == up && this.forward == forward
    {
      this.position := position;
      this.right := right;
      this.up := up;
      this.forward := forward;
    }

    /** Translate(translation) in Space.Self: the translation is read along the
        transform's own axes. */
    method Translate(translation: Vec3)
      modifies this`position
      ensures position == Add(old(position), Add(Add(Scale(right, translation.x), Scale(up, translation.y)),
                                                 Scale(forward, translation.z)))
    {
      position := Add(position, Add(Add(Scale(right, translation.x), Scale(up, translation.y)),
                                    Scale(forward, translation.z)));
    }

    /** Translate(translation, Space.World). */
    method TranslateWorld(translation: Vec3)
      modifies this`position
      ensures position == Add(old(position), translation)
    {
      position := Add(position, translation);
    }
  }

  class AnimatorMover {
    // Configuration, set before the component starts.
    const RootMotionSpeed: real
    const JumpForce: real
    const AirInfluenceControll: real

    // The components the mover drives.
    const body: Rigidbody
    const transform: Transform

    var RootMotionDeltaPosition: Vec3
    var MovementSpeed: real
    var IsJumping: bool
    var IsGrounded: bool
    var IsMoving: bool
    var movementDirection: Vec3
    /** When the DisableJump scheduled by Jump is due, if one is pending. */
    var disableJumpAt: L.Option<real>

    // The values last written to the animator's parameters.
    ghost var animatorSpeed: real
    ghost var animatorGrounded: bool
    ghost var animatorJumping: bool

    /** The mover's state as a value. */
    ghost function State(): L.MoverState
      reads this, body
    {
      L.MoverState(IsGrounded, IsJumping, disableJumpAt, movementDirection, MovementSpeed, IsMoving, body.impulses)
    }

    ghost predicate Valid()
      reads this, body
    {
      L.Valid(State()) && RootMotionDeltaPosition.y == 0.0
    }

    /** A new mover with the field initialisers of the component: grounded, at
        rest, not jumping. */
    constructor (rootMotionSpeed: real, jumpForce: real, airInfluenceControll: real,
                 body: Rigidbody, transform: Transform)
      ensures Valid() && State() == L.Start(body.impulses) && RootMotionDeltaPosition == Zero
      ensures RootMotionSpeed == rootMotionSpeed && JumpForce == jumpForce
      ensures AirInfluenceControll == airInfluenceControll
      ensures this.body == body && this.transform == transform
    {
      RootMotionSpeed := rootMotionSpeed;
      JumpForce := jumpForce;
      AirInfluenceControll := airInfluenceControll;
      this.body := body;
      this.transform := transform;
      RootMotionDeltaPosition := Zero;
      MovementSpeed := 0.0;
      IsJumping := false;
      IsGrounded := true;
      IsMoving := false;
      movementDirection := Zero;
      disableJumpAt := L.None;
    }

    /** One rendered frame: ground check, animator flags, direction and speed
        smoothing, then the jump attempt.  `input` is the joystick direction,
        `jumpPressed` whether the jump key went down this frame, `hitCount` the
        number of ground colliders the overlap box found, `now` the game time and
        `sqrt` the engine's square root. */
    method Update(input: Vec2, dt: L.Duration, jumpPressed: bool, hitCount: nat, now: real, sqrt: real -> real)
      requires Valid() && IsSqrt(sqrt)
      modifies this, body`impulses
      ensures Valid()
      ensures State() == L.Frame(old(State()), input, dt, jumpPressed, hitCount, now, transform.up, JumpForce, sqrt)
      ensures RootMotionDeltaPosition == old(RootMotionDeltaPosition)
      ensures animatorGrounded == L.GroundCheck(old(State()), hitCount).IsGrounded
      ensures animatorJumping == old(IsJumping) && animatorSpeed == MovementSpeed
    {
      GroundCheck(hitCount);
      SetAnimatorParameters();
      SmoothMovement(input, dt, sqrt);
      if jumpPressed && !IsJumping {
        Jump(now);
      }
    }

    /** The movement part of Update: the smoothed direction heads for the planar
        joystick input at 8 units per second, the speed for 1.4 times the
        direction's length at 1 unit per second, and the animator's Speed and
        IsMoving follow the new speed. */
    method SmoothMovement(input: Vec2, dt: L.Duration, sqrt: real -> real)
      requires Valid() && IsSqrt(sqrt)
      modifies this`movementDirection, this`MovementSpeed, this`IsMoving, this`animatorSpeed
      ensures Valid()
      ensures State() == L.SpeedStep(old(State()), input, dt, sqrt)
      ensures animatorSpeed == MovementSpeed
    {
      ghost var start := State();
      assert L.Valid(L.SpeedStep(start, input, dt, sqrt));
      var target := L.Planar(input);
      movementDirection := Vectors.MoveTowards(movementDirection, target, dt * L.TurnRate, sqrt);
      MovementSpeed := Mathf.MoveTowards(MovementSpeed, Magnitude(movementDirection, sqrt) * L.SpeedScale, dt);
      animatorSpeed := MovementSpeed;
      IsMoving := true;

      if MovementSpeed <= L.MovingThreshold {
        IsMoving := false;
      }
      assert State() == L.SpeedStep(start, input, dt, sqrt);
    }

    /** One physics step of length dt. */
    method FixedUpdate(dt: L.Duration)
      modifies transform`position
      ensures transform.position
              == L.AirControl(IsGrounded, IsMoving, old(transform.position), transform.up, transform.forward,
                              AirInfluenceControll, dt)
    {
      InAirMovementControl(dt);
    }

    /** While airborne and moving, nudge the transform down and forward. */
    method InAirMovementControl(dt: real)
      modifies transform`position
      ensures transform.position
              == L.AirControl(IsGrounded, IsMoving, old(transform.position), transform.up, transform.forward,
                              AirInfluenceControll, dt)
    {
      if !IsGrounded {
        if IsMoving {
          transform.Translate(Vec3(0.0, -1.0 * dt, 0.0));
          transform.TranslateWorld(Scale(Scale(transform.forward, AirInfluenceControll / 2.0), dt));
        }
      }
    }

    /** Record the ground and jump flags as the animator's Grounded and Jumping
        parameters. */
    method SetAnimatorParameters()
      modifies this`animatorGrounded, this`animatorJumping
      ensures animatorGrounded == IsGrounded && animatorJumping == IsJumping
    {
      animatorGrounded := IsGrounded;
      animatorJumping := IsJumping;
    }

    /** Grounded exactly when the overlap box found ground and no jump is
        active. */
    method GroundCheck(hitCount: nat)
      requires Valid()
      modifies this`IsGrounded
      ensures Valid()
      ensures State() == L.GroundCheck(old(State()), hitCount)
    {
      if hitCount != 0 && !IsJumping {
        IsGrounded := true;
      } else {
        IsGrounded := false;
      }
    }

    /** Leave the ground with one impulse along the transform's up axis and
        schedule DisableJump 0.3 seconds after `now`; a no-op while jumping or
        airborne. */
    method Jump(now: real)
      requires Valid()
      modifies this`IsGrounded, this`IsJumping, this`disableJumpAt, body`impulses
      ensures Valid()
      ensures State() == L.Jump(old(State()), now, transform.up, JumpForce)
    {
      if IsJumping {
        return;
      }
      if !IsGrounded {
        return;
      }

      IsGrounded := false;
      IsJumping := true;

      body.AddImpulse(transform.up, L.JumpImpulseScale * JumpForce);
      disableJumpAt := L.Some(now + L.JumpCooldown);
    }

    /** Clear the jump flag, and nothing else.  The only caller is Tick, which
        forgets the pending deadline first; on its own this method would leave
        a deadline pending for a jump that has ended, so it does not promise
        Valid(). */
    method DisableJump()
      modifies this`IsJumping
      ensures !IsJumping
    {
      IsJumping := false;
    }

    /** The engine's scheduler at game time `now`: once the DisableJump that Jump
        scheduled is due, it runs and is no longer pending. */
    method Tick(now: real)
      requires Valid()
      modifies this`IsJumping, this`disableJumpAt
      ensures Valid()
      ensures State() == L.Tick(old(State()), now)
    {
      if disableJumpAt.Some? && disableJumpAt.value <= now {
        disableJumpAt := L.None;
        DisableJump();
      }
    }

    /** The animator has computed this physics step's pose: keep its horizontal
        displacement, scaled by the step, and turn it into the rigidbody's
        horizontal velocity, keeping the rigidbody's vertical velocity. */
    method OnAnimatorMove(animationDelta: Vec3, fixedDeltaTime: real)
      requires Valid()
      modifies this`RootMotionDeltaPosition, body`velocity
      ensures Valid()
      ensures L.RootMotionResult(RootMotionDeltaPosition, body.velocity)
              == L.RootMotion(animationDelta, fixedDeltaTime, RootMotionSpeed, old(body.velocity))
    {
      var delta := Scale(animationDelta, fixedDeltaTime);
      delta := delta.(y := 0.0);
      RootMotionDeltaPosition := delta;

      body.velocity := Add(Scale(Scale(RootMotionDeltaPosition, L.RootMotionScale), RootMotionSpeed),
                           Scale(Up, body.velocity.y));
    }
  }
}
