# Platformer character controller, modelled in Dafny

This project models the `Controller` component of a 2D platformer
(`Assets/Scripts/Controller.cs`). Every frame, `Update` does the following,
in order:

1. It reads the horizontal axis, the slide key and the jump button.
2. It starts a slide (`PerformSlide`).
3. It gates the jump: a ground jump grants one double jump, and an air jump
   spends it.
4. It steers the horizontal velocity with acceleration-limited
   `Mathf.MoveTowards` steps, unless a slide is on.
5. It adds gravity.
6. It translates the character.
7. It walks the colliders returned by the overlap query. Each overlapped
   collider pushes the character out, and `grounded` is recomputed from the
   contacts.

A slide also schedules the `StopSlide` coroutine. When that coroutine
completes, it takes one deceleration step and ends the slide.

Modules:

- **`Vectors`** (vectors.dfy) has `Vector2` as a pair of reals, with a sum
  of a list of vectors.
- **`Mathf`** (mathf.dfy) has `Mathf.MoveTowards` with Unity's semantics.
  `Mathf.Sign(0)` is 1. It also has `Approach`, which repeats that step n
  times, and the lemmas about both.
- **`Collision`** (collision.dfy) has the contact loop as a function.
  - `Resolve` folds the loop body `ResolveOne` over the collider list in
    order.
  - `Collider2D.Distance` is called inside the loop, after the earlier
    pushes. So each collider carries its report as a function of the
    character's position at that moment.
- **`Motion`** (motion.dfy) holds the tuning fields (with their declared
  defaults), the input snapshot and the component's state as a value.
  - The phase functions follow `Update`'s order of work.
  - `Tick` states a whole frame case by case.
  - `PhasesMakeTick` proves that the phases compose to `Tick`.
- **`CharacterController`** (controller.dfy) is the component as a class.
  - `velocity`, `grounded`, `enableDoubleJump`, `enableSlide` and
    `transform.position` are mutable fields.
  - `Update`, `PerformSlide`, `Jump` and `StopSlide` are methods that change
    them. Each is proved against the functions of `Motion`.
  - The contact loop is a `while` loop in `ResolveContacts`, proved against
    `Resolve`.
  - The coroutines that have been started and have not yet completed are
    counted in the ghost field `pendingStopSlides`.
- **`MotionProperties`** (motion_properties.dfy) holds what one frame, and a
  run of frames, guarantees:
  - the jump gate, the slide and steering steps, the speed bound and the
    grounded condition;
  - the sum of pushes;
  - the double-jump budget over a flight;
  - that the frame-by-frame integration of a jump never rises above
    `jumpHeight`, and that at its apex frame it comes within
    dt * jump / 2 of it;
  - that a held input in the air reaches the target speed.

Engine services are parameters:

- the input snapshot (`Input`);
- `Time.deltaTime` (`dt`);
- `Physics2D.gravity.y` (`gravityY`);
- the value of `Mathf.Sqrt(2 * jumpHeight * |gravityY|)` (`jumpImpulse`),
  constrained by `IsJumpImpulse` in the frames that jump;
- the result of `Physics2D.OverlapBoxAll` (`hits`).

The code guards nothing when `jumpHeight` is negative. It takes
`Mathf.Sqrt` of the product directly, which is what the model follows.
With a negative `jumpHeight` and a nonzero `gravityY`, a jump is then not
representable on reals: `IsJumpImpulse` has no solution. Such a frame lies
outside the model; see "Left out". With a zero `gravityY` the impulse is 0.

## Model

| member | source | states |
|---|---|---|
| Mathf.MoveTowardsBounds | Assets/Scripts/Controller.cs:88-93 | With a non-negative step the result lies between current and target and is at most maxDelta from current. It equals the target exactly when the target was within maxDelta. Any other result is a full step away. With a negative maxDelta the step leads away from the target. |
| Mathf.MoveTowardsKeepsBound | Assets/Scripts/Controller.cs:88-93 | A non-negative step keeps the value inside any symmetric bound that both the start and the target respect. |
| Mathf.ApproachStaysAtTarget | Assets/Scripts/Controller.cs:88 | Once the velocity equals its target, further steps of any non-negative size leave it there. |
| Mathf.ApproachReachesTarget | Assets/Scripts/Controller.cs:88 | n steps of size maxDelta land exactly on the target once n * maxDelta covers the initial distance. |
| Mathf.ApproachStaysBetween | Assets/Scripts/Controller.cs:88 | Every intermediate value of repeated steps stays between the start and the target. |
| Collision.Resolve | Assets/Scripts/Controller.cs:103-121 | The contact loop, with grounded reset first. Its contract states that a character moving up (vy > 0) is never grounded. |
| Collision.ResolveGroundedIff | Assets/Scripts/Controller.cs:103-121 | After the loop, grounded holds if and only if some collider meets all of these conditions, checked at the position the earlier pushes left: it is not the character's own, it overlaps, its normal is less than 90 degrees from up, and vy <= 0. |
| Collision.ResolveMovesBySumOfPushes | Assets/Scripts/Controller.cs:105-115 | The loop moves the character by exactly the sum of pointA - pointB over the overlapped colliders other than its own, taken in list order. Each push is taken at the position the earlier pushes left. |
| Collision.ResolveWithoutOverlap | Assets/Scripts/Controller.cs:103-121 | Colliders that overlap nothing (or are the character's own) leave the position unchanged and the character not grounded. |
| CharacterController.ResolveContacts | Assets/Scripts/Controller.cs:103-121 | The foreach loop over the hits computes exactly the position and grounded flag of Resolve. |
| Motion.PhasesMakeTick | Assets/Scripts/Controller.cs:49-122 | Update's order of work composes to the case-by-case frame Tick. The phases are slide, jump gate, steering, gravity plus translation, and contacts. |
| CharacterController.Controller.constructor | Assets/Scripts/Controller.cs:35-41 | A new component has zero velocity, is not grounded, has no double jump, is not sliding and has no pending StopSlide. |
| CharacterController.Controller.Update | Assets/Scripts/Controller.cs:49-122 | One frame changes the fields to exactly Tick of the old fields. It schedules one StopSlide per slide press. |
| CharacterController.Controller.JumpGate | Assets/Scripts/Controller.cs:61-80 | On the ground, vy is reset to 0; a jump press sets the impulse and grants the double jump. In the air, a press spends an available double jump; otherwise the press is dropped. |
| CharacterController.Controller.Steer | Assets/Scripts/Controller.cs:82-94 | Unless sliding, vx takes one MoveTowards step toward speed * moveInput at the walk or air acceleration. With no input, it steps toward 0 at the ground deceleration, which is 0 in the air. |
| CharacterController.Controller.PerformSlide | Assets/Scripts/Controller.cs:124-129 | vx takes one step toward slideSpeed * moveInput at slideAcceleration * dt, and one more StopSlide is pending. Nothing else changes. |
| CharacterController.Controller.Jump | Assets/Scripts/Controller.cs:131-135 | vy becomes the jump impulse, and nothing else changes. |
| CharacterController.Controller.StopSlide | Assets/Scripts/Controller.cs:137-142 | A pending completion takes vx one step toward 0 at slideDeceleration * dt and turns the slide off, even if a later slide is still pending. |
| MotionProperties.TickWithoutContacts | Assets/Scripts/Controller.cs:96-103 | A frame with no colliders translates the character by the new velocity times dt and leaves it airborne. |
| MotionProperties.JumpGateOnGround | Assets/Scripts/Controller.cs:61-69 | Starting grounded, the new vy is (jump impulse if jump pressed, else 0) + gravityY * dt. The double jump is granted by a jump, and otherwise kept as it was. |
| MotionProperties.JumpGateInAir | Assets/Scripts/Controller.cs:73-80 | In the air, an impulse is applied only with the double jump available, and it spends it. Without it, a jump press changes neither vy (before gravity) nor the flag. |
| MotionProperties.NoDoubleJumpGrantedInAir | Assets/Scripts/Controller.cs:61-80 | A frame that starts in the air never turns the double jump on. |
| MotionProperties.SlidePress | Assets/Scripts/Controller.cs:54-58 | A slide press moves vx toward slideSpeed * moveInput by at most slideAcceleration * dt, without overshooting. vx lands on the target exactly when it was within reach. |
| MotionProperties.SlidingKeepsHorizontalVelocity | Assets/Scripts/Controller.cs:85-94 | While a slide is on and not re-pressed, the frame leaves vx unchanged and the slide stays on. |
| MotionProperties.NoAirDrag | Assets/Scripts/Controller.cs:83-94 | In the air, not sliding and with zero input, vx is unchanged. |
| MotionProperties.SteeringApproach | Assets/Scripts/Controller.cs:82-94 | When not sliding, vx moves toward speed * moveInput (or 0 with no input) by at most the ground or air rate times dt, without overshooting. It lands on the target exactly when the target was within reach. |
| MotionProperties.HorizontalSpeedBounded | Assets/Scripts/Controller.cs:54-94 | Suppose a bound holds for the old vx and for both speed * moveInput and slideSpeed * moveInput. Then it still holds for vx after the frame, in every branch. |
| MotionProperties.DefaultSpeedBounded | Assets/Scripts/Controller.cs:9-31 | With the declared defaults (speed 9, slideSpeed 12, rates 75/30/70/800/800), an axis in [-1, 1] and dt >= 0, a vx within [-12, 12] stays within [-12, 12] after any frame. |
| MotionProperties.StopSlideEndsSlide | Assets/Scripts/Controller.cs:137-142 | The StopSlide completion ends the slide. It moves vx toward 0 by at most slideDeceleration * dt, without overshooting, and changes nothing else. |
| MotionProperties.TickMovesThenPushes | Assets/Scripts/Controller.cs:96-121 | Gravity is added after the jump gate. The character is translated by the post-gravity velocity times dt and then moved by the sum of the contact pushes. |
| MotionProperties.TickGroundedIff | Assets/Scripts/Controller.cs:101-121 | After a frame, grounded holds if and only if the new vy <= 0 and some collider grounds the character at the position the earlier pushes left. |
| MotionProperties.AirborneJumpBudget | Assets/Scripts/Controller.cs:73-80 | Over frames that all start airborne, the impulses applied plus the double jump still available equal the double jump available at the start. |
| MotionProperties.AtMostTwoJumpsPerFlight | Assets/Scripts/Controller.cs:61-80 | A ground jump followed by airborne frames applies between one and two jump impulses. |
| MotionProperties.FreeFlightRise | Assets/Scripts/Controller.cs:96-98 | Consider frames with no colliders, no jump press, and the same dt and gravity. The character rises by exactly Rise, in which gravity is added before each translation, and it stays airborne. |
| MotionProperties.RiseClosedForm | Assets/Scripts/Controller.cs:96-98 | That integration in closed form: 2 * Rise == dt * (2 * n * vy + gravityY * dt * n * (n + 1)). |
| MotionProperties.JumpApexAtMostJumpHeight | Assets/Scripts/Controller.cs:131-135 | With the impulse sqrt(2 * jumpHeight * \|gravityY\|) and gravity pointing down, n frames of that integration never rise more than jumpHeight. JumpApexNearJumpHeight is the matching lower bound. |
| MotionProperties.ApexFrame | Assets/Scripts/Controller.cs:96-98 | The number m of frames after which gravity has used up the impulse: \|gravityY\| * dt * m <= jump <= \|gravityY\| * dt * (m + 1). |
| MotionProperties.JumpApexNearJumpHeight | Assets/Scripts/Controller.cs:131-135 | After ApexFrame frames, that integration has risen at least jumpHeight - dt * jump / 2. So the highest frame of the jump comes within dt * jump / 2 of jumpHeight. |
| MotionProperties.JumpFlightRise | Assets/Scripts/Controller.cs:61-98 | Consider a ground jump followed by free flight. The character rises by exactly Rise from the jump impulse. |
| MotionProperties.JumpFlightApex | Assets/Scripts/Controller.cs:131-135 | A ground jump followed by free flight never takes the character more than jumpHeight above the take-off height. JumpFlightNearApex is the matching lower bound. |
| MotionProperties.JumpFlightNearApex | Assets/Scripts/Controller.cs:61-98 | A ground jump followed by at least ApexFrame frames of free flight takes the character, after ApexFrame frames, at least jumpHeight - dt * jump / 2 above the take-off height. |
| MotionProperties.AirSteeringRun | Assets/Scripts/Controller.cs:82-88 | Holding an input in the air, not sliding and with no colliders, vx follows repeated MoveTowards steps of airAcceleration * dt toward speed * moveInput. |

## Left out

- Engine calls are parameters and are not modelled:
  - `Input.GetAxisRaw`, `GetKeyDown` and `GetButtonDown`. Their edge triggering happens in the engine, so holding a key is just `false` after the first frame's `true`.
  - `Physics2D.OverlapBoxAll`, `Collider2D.Distance` and `Vector2.Angle`. The geometry of the box query, the collider offset, and the idempotence of a resolved overlap belong to the physics engine.
  - `GetComponent` in `Awake`.
- The timing of the `StopSlide` coroutine is not modelled: the 0.5 s `WaitForSeconds` and the frame on which the coroutine resumes. Only its completion body (`StopSlide`) and a ghost count of pending completions are modelled. Which frame a completion lands on is the caller's choice.
- Floating-point arithmetic is not modelled. Velocities and positions are reals. So `Mathf.Sqrt` is not computed: the jump impulse is a parameter with `IsJumpImpulse` (j >= 0 and j * j == 2 * jumpHeight * |gravityY|). Frames that take a jump with a negative jumpHeight and a nonzero gravityY, where the code would store NaN, are outside the model.
- The transform is taken as unrotated and unscaled. `transform.Translate` then moves `transform.position` by its argument.
- MotionProperties.JumpApexAtMostJumpHeight: the integration is frame by frame, so its highest frame can lie below jumpHeight, and exactly reaching jumpHeight is not promised. The lower bound proved beside it (JumpApexNearJumpHeight) is jumpHeight - dt * jump / 2, which also bounds the gap to at most dt * (jump + |gravityY| * dt) / 2.
- MotionProperties.JumpFlightApex: the same holds for a whole flight; JumpFlightNearApex states the lower bound.
- CharacterController.Controller.Update: the jump block, the horizontal-movement block and the contact loop are written as the helper methods `JumpGate`, `Steer` and `ResolveContacts`. They are statement for statement the same as the inline code in `Update`.
- The `[SerializeField]` and `Tooltip` attributes are editor configuration. The declared defaults are kept as `Motion.DefaultTuning`.
