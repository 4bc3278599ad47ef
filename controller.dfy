/**
 * The Controller component: its fields change in place every frame. Engine
 * queries (input, frame time, gravity, the overlap query) arrive as
 * parameters; transform.position is the field position.
 */
module CharacterController {
  import opened Vectors
  import opened Mathf
  import opened Collision
  import opened Motion

  /**
   * The collision block at the end of Update: grounded starts false, then
   * each collider in query order, other than the character's own, pushes the
   * character out by pointA - pointB when its report says they overlap, and
   * grounds it when the contact normal is less than 90 degrees from up and
   * the character is not moving up (vy <= 0).
   */
  method ResolveContacts(start: Vec2, hits: seq<Hit>, vy: real) returns (position: Vec2, grounded: bool)
    ensures Resolution(position, grounded) == Resolve(start, hits, vy)
  {
    position := start;
    grounded := false;
    var i := 0;
    while i < |hits|
      invariant 0 <= i <= |hits|
      invariant Resolution(position, grounded) == Resolve(start, hits[..i], vy)
    {
      var hit := hits[i];
      if !hit.isSelf {
        var colliderDistance := hit.distance(position);
        if colliderDistance.isOverlapped {
          position := Add(position, Sub(colliderDistance.pointA, colliderDistance.pointB));
          if colliderDistance.normalAngleFromUp < 90.0 && vy <= 0.0 {
            grounded := true;
          }
        }
      }
      assert hits[..i + 1][..i] == hits[..i];
      i := i + 1;
    }
    assert hits[..i] == hits;
  }

  /** A steering step written with the branch's own target and rate is SteerVelocityX. */
  lemma SteerStep(c: Tuning, vx: real, moveInput: real, grounded: bool, dt: real, target: real, rate: real)
    requires target == SteerTarget(c, moveInput) && rate == SteerRate(c, moveInput, grounded)
    ensures MoveTowards(vx, target, rate * dt) == SteerVelocityX(c, vx, moveInput, grounded, dt)
  {
  }

  class Controller {
    const tuning: Tuning

    var velocity: Vec2
    var position: Vec2
    var grounded: bool
    var enableDoubleJump: bool
    var enableSlide: bool

    /** StopSlide coroutines started and not yet completed. */
    ghost var pendingStopSlides: nat

    /** The fields as a value, for the specification. */
    function State(): MotionState
      reads this
    {
      MotionState(velocity, position, grounded, enableDoubleJump, enableSlide)
    }

    /** A fresh component at rest: no velocity, airborne, no double jump, not sliding. */
    constructor (tuning: Tuning, position: Vec2)
      ensures this.tuning == tuning
      ensures State() == MotionState(Zero, position, false, false, false)
      ensures pendingStopSlides == 0
    {
      this.tuning := tuning;
      this.position := position;
      velocity := Zero;
      grounded, enableDoubleJump, enableSlide := false, false, false;
      pendingStopSlides := 0;
    }

    /**
     * One frame. jumpImpulse is Mathf.Sqrt(2 * jumpHeight * |gravityY|),
     * which matters only in a frame that takes a jump.
     */
    method Update(input: Input, dt: real, gravityY: real, jumpImpulse: real, hits: seq<Hit>)
      requires JumpTaken(State(), input) ==> IsJumpImpulse(jumpImpulse, tuning.jumpHeight, gravityY)
      modifies this
      ensures State() == Tick(tuning, old(State()), input, dt, gravityY, jumpImpulse, hits)
      ensures pendingStopSlides == old(pendingStopSlides) + (if input.slidePressed then 1 else 0)
    {
      ghost var before := State();
      var moveInput := input.moveInput;

      // Sliding
      if input.slidePressed {
        PerformSlide(moveInput, tuning.slideSpeed, dt);
        enableSlide := true;
      }
      ghost var slid := State();
      assert slid == SlidePhase(tuning, before, input, dt);

      // Jumping
      JumpGate(input.jumpPressed, jumpImpulse, gravityY);
      ghost var jumped := State();

      // Horizontal movement
      Steer(moveInput, dt);
      ghost var steered := State();

      velocity := velocity.(y := velocity.y + gravityY * dt);

      position := Add(position, Scale(velocity, dt));
      ghost var moved := State();
      assert moved == MovePhase(steered, dt, gravityY);

      // Collisions
      position, grounded := ResolveContacts(position, hits, velocity.y);
      assert State() == CollidePhase(moved, hits);
      PhasesMakeTick(tuning, before, input, dt, gravityY, jumpImpulse, hits);
    }

    /**
     * The jump block of Update: on the ground the vertical velocity is reset
     * and a jump grants the double jump; in the air an available double jump
     * is spent by a jump; otherwise a jump press is dropped.
     */
    method JumpGate(jumpPressed: bool, jumpImpulse: real, gravityY: real)
      requires jumpPressed && (grounded || enableDoubleJump) ==> IsJumpImpulse(jumpImpulse, tuning.jumpHeight, gravityY)
      modifies this
      ensures State() == JumpPhase(old(State()), jumpPressed, jumpImpulse)
      ensures pendingStopSlides == old(pendingStopSlides)
    {
      if grounded {
        velocity := velocity.(y := 0.0);
        if jumpPressed {
          Jump(jumpImpulse, gravityY);
          enableDoubleJump := true;
        }
      } else if enableDoubleJump {
        if jumpPressed {
          Jump(jumpImpulse, gravityY);
          enableDoubleJump := false;
        }
      }
    }

    /**
     * The horizontal-movement block of Update: unless sliding, steer toward
     * speed * moveInput with the walk or air acceleration, or with no input
     * slow down with the ground deceleration (none in the air).
     */
    method Steer(moveInput: real, dt: real)
      modifies this
      ensures State() == SteerPhase(tuning, old(State()), moveInput, dt)
      ensures pendingStopSlides == old(pendingStopSlides)
    {
      var acceleration := if grounded then tuning.walkAcceleration else tuning.airAcceleration;
      var deceleration := if grounded then tuning.groundDeceleration else 0.0;

      if moveInput != 0.0 {
        if !enableSlide {
          SteerStep(tuning, velocity.x, moveInput, grounded, dt, tuning.speed * moveInput, acceleration);
          velocity := velocity.(x := MoveTowards(velocity.x, tuning.speed * moveInput, acceleration * dt));
        }
      } else {
        if !enableSlide {
          SteerStep(tuning, velocity.x, moveInput, grounded, dt, 0.0, deceleration);
          velocity := velocity.(x := MoveTowards(velocity.x, 0.0, deceleration * dt));
        }
      }
    }

    /** Start a slide: steer toward the slide speed and schedule StopSlide. */
    method PerformSlide(moveInput: real, slideSpeed: real, dt: real)
      modifies this
      ensures State() == old(State()).(velocity := Vec2(
                MoveTowards(old(velocity.x), slideSpeed * moveInput, tuning.slideAcceleration * dt),
                old(velocity.y)))
      ensures pendingStopSlides == old(pendingStopSlides) + 1
    {
      velocity := velocity.(x := MoveTowards(velocity.x, slideSpeed * moveInput, tuning.slideAcceleration * dt));
      pendingStopSlides := pendingStopSlides + 1;
    }

    /** Set the vertical velocity that reaches jumpHeight under gravityY. */
    method Jump(jumpImpulse: real, gravityY: real)
      requires IsJumpImpulse(jumpImpulse, tuning.jumpHeight, gravityY)
      modifies this
      ensures State() == old(State()).(velocity := Vec2(old(velocity.x), jumpImpulse))
      ensures pendingStopSlides == old(pendingStopSlides)
    {
      velocity := velocity.(y := jumpImpulse);
    }

    /**
     * The completion of one StopSlide coroutine: one deceleration step toward
     * zero, and the slide ends, whether or not a later slide is still pending.
     */
    method StopSlide(dt: real)
      requires pendingStopSlides > 0
      modifies this
      ensures State() == AfterStopSlide(tuning, old(State()), dt)
      ensures pendingStopSlides == old(pendingStopSlides) - 1
    {
      velocity := velocity.(x := MoveTowards(velocity.x, 0.0, tuning.slideDeceleration * dt));
      enableSlide := false;
      pendingStopSlides := pendingStopSlides - 1;
    }
  }
}
