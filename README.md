# AnimatorMover in Dafny

A model of the Unity component `AnimatorMover` (`Assets/AnimatorMover.cs`), a
root-motion character controller. The model covers the following parts of the
component:

- the ground/jump state machine: `GroundCheck`, the twice-guarded `Jump`, and
  `DisableJump`, which runs 0.3 s after a jump;
- the smoothing in `Update`: the movement direction heads for the joystick
  input with `Vector3.MoveTowards`, the speed heads for `|direction| * 1.4`
  with `Mathf.MoveTowards`, and `IsMoving` is set when the speed is above
  0.01;
- `OnAnimatorMove`: it turns the animation's displacement into a horizontal
  velocity and keeps the rigidbody's vertical velocity;
- `InAirMovementControl`: it nudges an airborne, moving character down and
  forward.

The model has four modules:

- `Mathf`: `Mathf.MoveTowards` over reals, and how repeated steps approach a
  target.
- `Vectors`: `Vector3` arithmetic and `Vector3.MoveTowards`, with lemmas on
  how far one step moves and how much closer it gets.
- `Locomotion`: the mover's state as a value (`MoverState`), with one pure
  transition per operation. `Frame` is one `Update`, `Tick` is the engine's
  scheduler, `Run` is a sequence of frames and timer checks. The invariant
  `Valid` holds on every reachable state and includes "never grounded and
  jumping at once". Each jump lasts until the first timer check at or after
  its deadline (`JumpLastsUntilDeadline`, `JumpScenario`).
- `Mover`: the component itself. `AnimatorMover` is a class whose methods
  update its fields in place. Each method is specified by the matching
  `Locomotion` transition through `State()`. `Rigidbody` and `Transform` are
  small classes for the parts of the engine objects the component writes.

Engine inputs become parameters:

- the overlap-box query is a hit count;
- `Input.GetKeyDown(KeyCode.Space)` is a boolean;
- the joystick is a 2D vector;
- `Time.deltaTime` and `Time.fixedDeltaTime` are durations;
- the game time is `now`.

`Invoke(nameof(DisableJump), 0.3f)` is modelled as a stored deadline
(`disableJumpAt`). A `Tick(now)` call fires it once it is due. Impulses sent to
the rigidbody are kept as a ghost log of (direction, magnitude) pairs.
`Vector3.magnitude` needs a square root, which Dafny's reals cannot compute. The
engine's square root is therefore a function parameter `sqrt`, and the predicate
`IsSqrt` pins down what it must satisfy.

Two details of the code shape the model:

- The direction step is `Vector3.MoveTowards` (`Assets/AnimatorMover.cs:51`):
  a straight-line step of Euclidean length at most `8 * dt` towards the
  input, not a per-component clamp.
- The downward air-control move (`Assets/AnimatorMover.cs:95`) is
  `transform.Translate(0, -dt, 0)` in `Space.Self`, so it moves along the
  character's own up axis. The height drops by exactly `dt` only when that
  axis is world up (`Locomotion.AirControlSinks`).

## Model

| member | source | states |
|---|---|---|
| Mathf.MoveTowards | Assets/AnimatorMover.cs:52 | returns the target when it is within maxDelta; otherwise moves at most maxDelta, stays between current and target, and leaves exactly the distance minus maxDelta |
| Mathf.ApproachConverges | Assets/AnimatorMover.cs:52 | n frames of speed smoothing towards a fixed target never overshoot it, and close the gap by maxDelta per frame until the target is reached |
| Vectors.MoveTowards | Assets/AnimatorMover.cs:51 | Vector3.MoveTowards keeps a horizontal vector horizontal when it steps towards a horizontal target |
| Vectors.WithinReach | Assets/AnimatorMover.cs:51 | when the target is within maxDistanceDelta, MoveTowards returns the target itself, which is at distance zero |
| Vectors.MoveTowardsOutOfReach | Assets/AnimatorMover.cs:51 | when the target is out of reach, one step brings current exactly maxDistanceDelta closer, with no overshoot |
| Vectors.MoveTowardsAtTarget | Assets/AnimatorMover.cs:51 | a direction that already equals the input stays there |
| Vectors.MoveTowardsStepBound | Assets/AnimatorMover.cs:51 | one step moves current by at most maxDistanceDelta |
| Vectors.MoveTowardsProgress | Assets/AnimatorMover.cs:51 | after one step, the distance to the target is the old distance minus maxDistanceDelta, or zero |
| Locomotion.Start | Assets/AnimatorMover.cs:18-27 | a new mover is grounded, not jumping, at rest, with nothing scheduled, and satisfies the invariant |
| Locomotion.GroundCheck | Assets/AnimatorMover.cs:108-117 | grounded iff the query hit something and no jump is active; nothing else changes; the result is never grounded and jumping at once |
| Locomotion.Jump | Assets/AnimatorMover.cs:119-129 | when already jumping or not grounded, nothing changes; otherwise leaves the ground, starts jumping, logs one impulse of 200 * JumpForce along up, and sets the deadline now + 0.3 |
| Locomotion.DisableJump | Assets/AnimatorMover.cs:131-134 | clears only the jump flag and does not re-check the ground |
| Locomotion.Tick | Assets/AnimatorMover.cs:128 | the scheduled DisableJump runs exactly when its deadline has passed, and is then forgotten; before that nothing changes |
| Locomotion.Planar | Assets/AnimatorMover.cs:50 | the joystick input laid into the horizontal plane |
| Locomotion.TargetSpeed | Assets/AnimatorMover.cs:52 | the speed target, 1.4 times the direction's length, is never negative |
| Locomotion.SpeedStep | Assets/AnimatorMover.cs:50-59 | IsMoving iff speed > 0.01; speed moves at most dt, never passes its target, closes the gap to it by dt or reaches it, and stays non-negative; the direction stays horizontal; jump state is untouched; the invariant is kept |
| Locomotion.Frame | Assets/AnimatorMover.cs:44-77 | one Update: grounded iff ground was hit, no jump was active and no jump fired; a jump fires iff the key went down, ground was hit and no jump was active, and then adds exactly one impulse and the deadline; the speed moves at most dt, never passes 1.4 times the direction's length, and closes the gap to it by dt or reaches it; the invariant is kept |
| Locomotion.RunKeepsValid | Assets/AnimatorMover.cs:44-134 | every sequence of frames and timer checks keeps the invariant |
| Locomotion.ReachableStatesExclusive | Assets/AnimatorMover.cs:21 | no state reachable from a new mover is grounded and jumping at once |
| Locomotion.JumpLastsUntilDeadline | Assets/AnimatorMover.cs:113-128 | until the deadline, no frame (with or without ground hits or key presses) ends the jump, grounds the mover, moves the deadline, or adds an impulse |
| Locomotion.JumpScenario | Assets/AnimatorMover.cs:73-134 | a jump from the ground fires one impulse, lasts through every event before now + 0.3, and the first timer check at or after it ends the jump and leaves the mover airborne |
| Locomotion.FrameMovement | Assets/AnimatorMover.cs:44-77 | the ground check and the jump attempt do not touch direction or speed |
| Locomotion.SteadyInput | Assets/AnimatorMover.cs:51-52 | once the direction equals a steady input it stays there, and the speed heads for the fixed target |
| Locomotion.DirectionApproachesInput | Assets/AnimatorMover.cs:51 | one Update brings the direction 8 * dt closer to the input, or onto it |
| Locomotion.TurnRateBound | Assets/AnimatorMover.cs:51 | one Update moves the direction by at most 8 * dt |
| Locomotion.RootMotion | Assets/AnimatorMover.cs:137-143 | the stored displacement is the animation delta times fixedDeltaTime, with y set to zero; the horizontal velocity is that times 5000 * RootMotionSpeed; the vertical velocity is kept |
| Locomotion.RootMotionIgnoresAnimationHeight | Assets/AnimatorMover.cs:139-143 | two animation deltas that differ only in height give the same result |
| Locomotion.AirControl | Assets/AnimatorMover.cs:89-100 | the position changes only when airborne and moving; it then moves dt down the up axis and AirInfluenceControll / 2 * dt along forward |
| Locomotion.AirControlSinks | Assets/AnimatorMover.cs:95-96 | for an upright character with a horizontal forward axis, air control lowers the height by exactly dt |
| Mover.Rigidbody.AddImpulse | Assets/AnimatorMover.cs:127 | the impulse is appended to the rigidbody's log |
| Mover.Transform.Translate | Assets/AnimatorMover.cs:95 | a Space.Self translation moves the position along the transform's own axes |
| Mover.Transform.TranslateWorld | Assets/AnimatorMover.cs:96-97 | a Space.World translation adds the vector to the position |
| Mover.AnimatorMover.constructor | Assets/AnimatorMover.cs:18-27 | the field initialisers give the Locomotion.Start state and the invariant |
| Mover.AnimatorMover.Update | Assets/AnimatorMover.cs:44-77 | the new state is Locomotion.Frame of the old one; the animator receives the checked ground flag, the old jump flag and the new speed; the invariant is kept |
| Mover.AnimatorMover.SmoothMovement | Assets/AnimatorMover.cs:50-59 | the new state is Locomotion.SpeedStep of the old one, and the animator's Speed is the new speed |
| Mover.AnimatorMover.FixedUpdate | Assets/AnimatorMover.cs:79-87 | the physics step applies air control and nothing else |
| Mover.AnimatorMover.InAirMovementControl | Assets/AnimatorMover.cs:89-100 | the transform's new position is Locomotion.AirControl of the old one |
| Mover.AnimatorMover.SetAnimatorParameters | Assets/AnimatorMover.cs:102-106 | the animator's Grounded and Jumping equal the current flags |
| Mover.AnimatorMover.GroundCheck | Assets/AnimatorMover.cs:108-117 | the new state is Locomotion.GroundCheck of the old one |
| Mover.AnimatorMover.Jump | Assets/AnimatorMover.cs:119-129 | the new state is Locomotion.Jump of the old one, with the impulse sent to the rigidbody |
| Mover.AnimatorMover.DisableJump | Assets/AnimatorMover.cs:131-134 | clears the jump flag and may change nothing else |
| Mover.AnimatorMover.Tick | Assets/AnimatorMover.cs:128 | the new state is Locomotion.Tick of the old one |
| Mover.AnimatorMover.OnAnimatorMove | Assets/AnimatorMover.cs:137-143 | the stored displacement and the new velocity are Locomotion.RootMotion of the animation delta and the old velocity |

## Left out

- Mover.AnimatorMover.Update: the turn blend (`_bodyRotation`, `Vector3.SignedAngle`, `Mathf.LerpAngle` and the `MovingTurn` parameter, lines 61-71) is not modelled. It is angle arithmetic in floats whose library semantics are not visible.
- Mover.AnimatorMover.OnAnimatorMove: `transform.Rotate(_animator.deltaRotation.eulerAngles)` (line 144) is not modelled. It is a quaternion/Euler conversion.
- Mover.AnimatorMover.GroundCheck: the geometry of `Physics.OverlapBox` (lines 110-111) is not modelled; the caller supplies the number of hits.
- Locomotion.DirectionApproachesInput: only the one-step progress of the vector smoothing is proved. Convergence over many steps is proved for iterated `Mathf.MoveTowards` (`Mathf.ApproachConverges`). No lemma chains `SteadyInput` over a whole run of frames to show that the mover's speed follows that sequence.
- `Awake` (lines 36-42) only wires engine components and sets animator options; the model passes the rigidbody and transform to the constructor instead.
- Animator writes are kept only as the last values written (ghost fields); the animator's own behaviour is not modelled.
- Unity's `Invoke` scheduler is a stored deadline that an explicit `Tick(now)` checks; real timing is not modelled.
- Floats are mathematical reals, so rounding is not modelled. `Mathf.Sqrt` is the `sqrt` parameter, and nothing is claimed about float square roots.
- The physics engine's integration of impulses and velocity is not modelled. Impulses are only logged.
- The configuration fields (`RootMotionSpeed`, `JumpForce`, `AirInfluenceControll`) are treated as constants after construction. The ground-check fields (`WhatIsGround`, `GroundCheckRadius`, `GroundCheckHeightOffset`, `GroundCheckSize`) only feed the overlap box.
- The commented-out code in `FixedUpdate` (lines 81-84) is not modelled, and neither is the unused `JumpInert` parameter (line 89).
