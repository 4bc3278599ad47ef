/** What one frame, and a run of frames, of the controller guarantees. */
module MotionProperties {
  import opened Vectors
  import opened Mathf
  import opened Collision
  import opened Motion

  // ---------------------------------------------------------------- one frame

  /**
   * A frame with no colliders is a plain translation by the new velocity
   * times dt and leaves the character airborne.
   */
  lemma TickWithoutContacts(c: Tuning, s: MotionState, input: Input, dt: real, gravityY: real,
                            jump: real)
    ensures var r := Tick(c, s, input, dt, gravityY, jump, []);
      r.velocity == Vec2(FrameVelocityX(c, s, input, dt), FrameVelocityY(s, input, dt, gravityY, jump)) &&
      r.position == Add(s.position, Scale(r.velocity, dt)) && r.position.y == s.position.y + r.velocity.y * dt &&
      !r.grounded && r.enableDoubleJump == FrameDoubleJump(s, input) &&
      r.enableSlide == (input.slidePressed || s.enableSlide)
  {
  }

  /** a * b >= 0 for non-negative a and b. */
  lemma ProductNonNegative(a: real, b: real)
    requires a >= 0.0 && b >= 0.0
    ensures a * b >= 0.0
  {
  }

  /**
   * On the ground the vertical velocity is reset to 0 before gravity; a jump
   * replaces it with the jump impulse and grants the double jump.
   */
  lemma JumpGateOnGround(c: Tuning, s: MotionState, input: Input, dt: real, gravityY: real,
                         jump: real, hits: seq<Hit>)
    requires s.grounded
    ensures var r := Tick(c, s, input, dt, gravityY, jump, hits);
      r.velocity.y == (if input.jumpPressed then jump else 0.0) + gravityY * dt &&
      r.enableDoubleJump == (input.jumpPressed || s.enableDoubleJump)
  {
  }

  /**
   * In the air a jump is taken only with the double jump available, and it
   * spends it; without it a jump press changes neither the vertical velocity
   * nor the double-jump flag. Gravity is added either way.
   */
  lemma JumpGateInAir(c: Tuning, s: MotionState, input: Input, dt: real, gravityY: real,
                      jump: real, hits: seq<Hit>)
    requires !s.grounded
    ensures var r := Tick(c, s, input, dt, gravityY, jump, hits);
      r.velocity.y == (if s.enableDoubleJump && input.jumpPressed then jump else s.velocity.y)
                      + gravityY * dt &&
      r.enableDoubleJump == (s.enableDoubleJump && !input.jumpPressed)
  {
  }

  /** The double jump is never granted in the air. */
  lemma NoDoubleJumpGrantedInAir(c: Tuning, s: MotionState, input: Input, dt: real,
                                 gravityY: real, jump: real, hits: seq<Hit>)
    requires !s.grounded
    ensures Tick(c, s, input, dt, gravityY, jump, hits).enableDoubleJump ==> s.enableDoubleJump
  {
  }

  /**
   * A slide key press moves the horizontal velocity toward
   * slideSpeed * moveInput by at most slideAcceleration * dt, without
   * overshooting, and lands on it once within reach; the walk and air branch
   * is skipped in that frame.
   */
  lemma SlidePress(c: Tuning, s: MotionState, input: Input, dt: real)
    requires input.slidePressed
    requires c.slideAcceleration >= 0.0 && dt >= 0.0
    ensures var vx := FrameVelocityX(c, s, input, dt);
      var target := c.slideSpeed * input.moveInput;
      Between(s.velocity.x, target, vx) &&
      Abs(vx - s.velocity.x) <= c.slideAcceleration * dt &&
      (vx == target <==> Abs(target - s.velocity.x) <= c.slideAcceleration * dt)
  {
    ProductNonNegative(c.slideAcceleration, dt);
    MoveTowardsBounds(s.velocity.x, c.slideSpeed * input.moveInput, c.slideAcceleration * dt);
  }

  /** While a slide is on, the frame leaves the horizontal velocity as it is and the slide stays on. */
  lemma SlidingKeepsHorizontalVelocity(c: Tuning, s: MotionState, input: Input, dt: real,
                                       gravityY: real, jump: real, hits: seq<Hit>)
    requires s.enableSlide && !input.slidePressed
    ensures var r := Tick(c, s, input, dt, gravityY, jump, hits);
      r.velocity.x == s.velocity.x && r.enableSlide
  {
  }

  /** In the air, not sliding and with no input, there is no drag. */
  lemma NoAirDrag(c: Tuning, s: MotionState, input: Input, dt: real, gravityY: real,
                  jump: real, hits: seq<Hit>)
    requires !s.grounded && !s.enableSlide && !input.slidePressed && input.moveInput == 0.0
    ensures Tick(c, s, input, dt, gravityY, jump, hits).velocity.x == s.velocity.x
  {
  }

  /**
   * Not sliding, the horizontal velocity moves toward speed * moveInput (or
   * toward 0 with no input) by at most the ground or air rate times dt,
   * without overshooting, and lands on it once within reach.
   */
  lemma SteeringApproach(c: Tuning, s: MotionState, input: Input, dt: real)
    requires !s.enableSlide && !input.slidePressed
    requires NonNegativeRates(c) && dt >= 0.0
    ensures var vx := FrameVelocityX(c, s, input, dt);
      var target := SteerTarget(c, input.moveInput);
      var maxDelta := SteerRate(c, input.moveInput, s.grounded) * dt;
      Between(s.velocity.x, target, vx) && Abs(vx - s.velocity.x) <= maxDelta &&
      (vx == target <==> Abs(target - s.velocity.x) <= maxDelta)
  {
    ProductNonNegative(SteerRate(c, input.moveInput, s.grounded), dt);
    MoveTowardsBounds(s.velocity.x, SteerTarget(c, input.moveInput), SteerRate(c, input.moveInput, s.grounded) * dt);
  }

  /**
   * The horizontal speed never leaves a bound that the walking and sliding
   * targets respect, whatever the frame does.
   */
  lemma HorizontalSpeedBounded(c: Tuning, s: MotionState, input: Input, dt: real, bound: real)
    requires NonNegativeRates(c) && dt >= 0.0
    requires -bound <= s.velocity.x <= bound
    requires -bound <= c.speed * input.moveInput <= bound
    requires -bound <= c.slideSpeed * input.moveInput <= bound
    ensures -bound <= FrameVelocityX(c, s, input, dt) <= bound
  {
    if input.slidePressed {
      SlideStepKeepsBound(c, s.velocity.x, input.moveInput, dt, bound);
    } else if !s.enableSlide {
      SteerStepKeepsBound(c, s.velocity.x, input.moveInput, s.grounded, dt, bound);
    }
  }

  /**
   * With the declared tuning and a horizontal axis in [-1, 1], a horizontal
   * speed of at most slideSpeed (12) stays at most 12 whatever the frame does.
   */
  lemma DefaultSpeedBounded(s: MotionState, input: Input, dt: real)
    requires dt >= 0.0 && -1.0 <= input.moveInput <= 1.0
    requires -12.0 <= s.velocity.x <= 12.0
    ensures -12.0 <= FrameVelocityX(DefaultTuning, s, input, dt) <= 12.0
  {
    HorizontalSpeedBounded(DefaultTuning, s, input, dt, 12.0);
  }

  lemma SlideStepKeepsBound(c: Tuning, vx: real, moveInput: real, dt: real, bound: real)
    requires c.slideAcceleration >= 0.0 && dt >= 0.0
    requires -bound <= vx <= bound && -bound <= c.slideSpeed * moveInput <= bound
    ensures -bound <= SlideVelocityX(c, vx, moveInput, dt) <= bound
  {
    ProductNonNegative(c.slideAcceleration, dt);
    MoveTowardsKeepsBound(vx, c.slideSpeed * moveInput, c.slideAcceleration * dt, bound);
  }

  lemma SteerStepKeepsBound(c: Tuning, vx: real, moveInput: real, grounded: bool, dt: real, bound: real)
    requires NonNegativeRates(c) && dt >= 0.0
    requires -bound <= vx <= bound && -bound <= c.speed * moveInput <= bound
    ensures -bound <= SteerVelocityX(c, vx, moveInput, grounded, dt) <= bound
  {
    assert -bound <= SteerTarget(c, moveInput) <= bound;
    ProductNonNegative(SteerRate(c, moveInput, grounded), dt);
    MoveTowardsKeepsBound(vx, SteerTarget(c, moveInput), SteerRate(c, moveInput, grounded) * dt, bound);
  }

  /**
   * The StopSlide completion ends the slide and takes one deceleration step
   * toward 0 without overshooting; nothing else changes.
   */
  lemma StopSlideEndsSlide(c: Tuning, s: MotionState, dt: real)
    requires c.slideDeceleration >= 0.0 && dt >= 0.0
    ensures var r := AfterStopSlide(c, s, dt);
      !r.enableSlide && Between(s.velocity.x, 0.0, r.velocity.x) &&
      Abs(r.velocity.x - s.velocity.x) <= c.slideDeceleration * dt &&
      r.velocity.y == s.velocity.y && r.position == s.position &&
      r.grounded == s.grounded && r.enableDoubleJump == s.enableDoubleJump
  {
    ProductNonNegative(c.slideDeceleration, dt);
    MoveTowardsBounds(s.velocity.x, 0.0, c.slideDeceleration * dt);
  }

  /**
   * Gravity is added after the jump logic, the character is translated by
   * the resulting velocity times dt, and the contact loop then moves it by
   * the sum of its pushes.
   */
  lemma TickMovesThenPushes(c: Tuning, s: MotionState, input: Input, dt: real, gravityY: real,
                            jump: real, hits: seq<Hit>)
    ensures var r := Tick(c, s, input, dt, gravityY, jump, hits);
      var moved := Add(s.position, Scale(r.velocity, dt));
      r.velocity.y == JumpPhase(s, input.jumpPressed, jump).velocity.y + gravityY * dt &&
      r.position == Add(moved, Sum(Pushes(moved, hits, r.velocity.y)))
  {
    var r := Tick(c, s, input, dt, gravityY, jump, hits);
    ResolveMovesBySumOfPushes(Add(s.position, Scale(r.velocity, dt)), hits, r.velocity.y);
  }

  /**
   * After a frame the character is grounded exactly when some collider,
   * examined at the position the earlier pushes left, is another one,
   * overlaps, has its normal less than 90 degrees from up, and the vertical
   * velocity is not positive.
   */
  lemma TickGroundedIff(c: Tuning, s: MotionState, input: Input, dt: real, gravityY: real,
                        jump: real, hits: seq<Hit>)
    ensures var r := Tick(c, s, input, dt, gravityY, jump, hits);
      var moved := Add(s.position, Scale(r.velocity, dt));
      r.grounded <==>
        r.velocity.y <= 0.0 &&
        exists i :: 0 <= i < |hits| && Grounds(hits[i], PositionBefore(moved, hits, r.velocity.y, i), r.velocity.y)
  {
    var r := Tick(c, s, input, dt, gravityY, jump, hits);
    ResolveGroundedIff(Add(s.position, Scale(r.velocity, dt)), hits, r.velocity.y);
  }

  // ---------------------------------------------------------- runs of frames

  /** Everything one frame takes from the engine. */
  datatype Frame = Frame(input: Input, dt: real, gravityY: real, jump: real, hits: seq<Hit>)

  function Step(c: Tuning, s: MotionState, f: Frame): MotionState {
    Tick(c, s, f.input, f.dt, f.gravityY, f.jump, f.hits)
  }

  /** The state after the frames, one after another. */
  function Run(c: Tuning, s: MotionState, frames: seq<Frame>): MotionState
    decreases |frames|
  {
    if frames == [] then s else Run(c, Step(c, s, frames[0]), frames[1..])
  }

  /** One frame with no colliders, from state s, as TickWithoutContacts describes it. */
  lemma ContactFreeStep(c: Tuning, s: MotionState, f: Frame)
    requires f.hits == []
    ensures var r := Step(c, s, f);
      r.velocity == Vec2(FrameVelocityX(c, s, f.input, f.dt), FrameVelocityY(s, f.input, f.dt, f.gravityY, f.jump)) &&
      r.position == Add(s.position, Scale(r.velocity, f.dt)) &&
      !r.grounded && r.enableSlide == (f.input.slidePressed || s.enableSlide)
  {
    TickWithoutContacts(c, s, f.input, f.dt, f.gravityY, f.jump);
  }

  /**
   * One frame with no colliders whose vertical velocity before gravity is
   * vy: the character rises by (vy + gravityY * dt) * dt and stays airborne.
   */
  lemma ContactFreeRise(c: Tuning, s: MotionState, f: Frame, vy: real, dt: real, gravityY: real)
    requires f.hits == [] && f.dt == dt && f.gravityY == gravityY
    requires vy == (if JumpTaken(s, f.input) then f.jump else if s.grounded then 0.0 else s.velocity.y)
    ensures var r := Step(c, s, f);
      r.velocity.y == vy + gravityY * dt &&
      r.position.y == s.position.y + (vy + gravityY * dt) * dt &&
      !r.grounded
  {
    ContactFreeStep(c, s, f);
  }

  /** Every frame of the run starts airborne. */
  predicate StaysAirborne(c: Tuning, s: MotionState, frames: seq<Frame>)
    decreases |frames|
  {
    frames == [] || (!s.grounded && StaysAirborne(c, Step(c, s, frames[0]), frames[1..]))
  }

  /** How many frames of the run apply a jump impulse. */
  function JumpCount(c: Tuning, s: MotionState, frames: seq<Frame>): nat
    decreases |frames|
  {
    if frames == [] then 0
    else (if JumpTaken(s, frames[0].input) then 1 else 0) + JumpCount(c, Step(c, s, frames[0]), frames[1..])
  }

  /**
   * The double-jump budget: over frames that all start airborne, the double
   * jump that was available is either still available at the end or was
   * spent by exactly one jump; without it no jump happens at all.
   */
  lemma {:induction false} AirborneJumpBudget(c: Tuning, s: MotionState, frames: seq<Frame>)
    requires StaysAirborne(c, s, frames)
    ensures JumpCount(c, s, frames) + (if Run(c, s, frames).enableDoubleJump then 1 else 0)
         == (if s.enableDoubleJump then 1 else 0)
    decreases |frames|
  {
    if frames != [] {
      var f := frames[0];
      JumpGateInAir(c, s, f.input, f.dt, f.gravityY, f.jump, f.hits);
      AirborneJumpBudget(c, Step(c, s, f), frames[1..]);
    }
  }

  /**
   * A jump from the ground followed by frames in the air applies at most two
   * jump impulses: the ground jump and one double jump.
   */
  lemma AtMostTwoJumpsPerFlight(c: Tuning, s: MotionState, frames: seq<Frame>)
    requires frames != [] && s.grounded && frames[0].input.jumpPressed
    requires StaysAirborne(c, Step(c, s, frames[0]), frames[1..])
    ensures 1 <= JumpCount(c, s, frames) <= 2
  {
    AirborneJumpBudget(c, Step(c, s, frames[0]), frames[1..]);
  }

  // ------------------------------------------------------------ jump apex

  /**
   * Height gained over n frames in free flight that start with vertical
   * velocity vy: each frame adds gravity first and then moves by the new
   * velocity times dt.
   */
  function Rise(vy: real, gravityY: real, dt: real, n: nat): real
    decreases n
  {
    if n == 0 then 0.0
    else (vy + gravityY * dt) * dt + Rise(vy + gravityY * dt, gravityY, dt, n - 1)
  }

  /** Free flight: no colliders, no jump press, the same dt and gravity every frame. */
  predicate FreeFlight(frames: seq<Frame>, dt: real, gravityY: real) {
    forall i :: 0 <= i < |frames| ==>
      frames[i].hits == [] && !frames[i].input.jumpPressed &&
      frames[i].dt == dt && frames[i].gravityY == gravityY
  }

  /** In free flight the controller rises by exactly Rise and stays airborne. */
  lemma {:induction false} FreeFlightRise(c: Tuning, s: MotionState, frames: seq<Frame>, dt: real,
                                          gravityY: real)
    requires !s.grounded && FreeFlight(frames, dt, gravityY)
    ensures Run(c, s, frames).position.y == s.position.y + Rise(s.velocity.y, gravityY, dt, |frames|)
    ensures !Run(c, s, frames).grounded
    decreases |frames|
  {
    if frames != [] {
      var f := frames[0];
      var next := Step(c, s, f);
      assert f.dt == dt && f.gravityY == gravityY && f.hits == [] && !f.input.jumpPressed;
      ContactFreeRise(c, s, f, s.velocity.y, dt, gravityY);
      assert FreeFlight(frames[1..], dt, gravityY) by {
        forall i | 0 <= i < |frames[1..]| ensures frames[1..][i] == frames[i + 1] { }
      }
      FreeFlightRise(c, next, frames[1..], dt, gravityY);
      assert Run(c, s, frames) == Run(c, next, frames[1..]);
      RiseFirstFrame(s.position.y, next.position.y, s.velocity.y, gravityY, dt, |frames|);
    }
  }

  /**
   * Rise in closed form, with m the frame count as a real:
   * 2 * Rise == dt * (2 * m * vy + gravityY * dt * m * (m + 1)).
   */
  lemma {:induction false} RiseClosedForm(vy: real, gravityY: real, dt: real, n: nat, m: real)
    requires m == n as real
    ensures 2.0 * Rise(vy, gravityY, dt, n) == dt * (2.0 * m * vy + gravityY * dt * m * (m + 1.0))
    decreases n
  {
    if n > 0 {
      RiseClosedForm(vy + gravityY * dt, gravityY, dt, n - 1, m - 1.0);
      RiseStepAlgebra(vy, gravityY, dt, m - 1.0, m, vy + gravityY * dt,
                      Rise(vy + gravityY * dt, gravityY, dt, n - 1));
    }
  }

  /** The inductive step of RiseClosedForm, as algebra on reals. */
  lemma RiseStepAlgebra(vy: real, gravityY: real, dt: real, k: real, m: real, v: real, rest: real)
    requires m == k + 1.0 && v == vy + gravityY * dt
    requires 2.0 * rest == dt * (2.0 * k * v + gravityY * dt * k * (k + 1.0))
    ensures 2.0 * (v * dt + rest) == dt * (2.0 * m * vy + gravityY * dt * m * (m + 1.0))
  {
    calc {
      2.0 * (v * dt + rest);
      2.0 * v * dt + dt * (2.0 * k * v + gravityY * dt * k * (k + 1.0));
      dt * (2.0 * (k + 1.0) * v + gravityY * dt * k * (k + 1.0));
      dt * (2.0 * (k + 1.0) * vy + gravityY * dt * (k + 1.0) * (k + 2.0));
    }
  }

  /**
   * The jump impulse never carries the character higher than jumpHeight: the
   * frame-by-frame integration stays at or below the ballistic apex.
   */
  lemma JumpApexAtMostJumpHeight(jumpHeight: real, gravityY: real, dt: real, jump: real, n: nat)
    requires gravityY < 0.0 && IsJumpImpulse(jump, jumpHeight, gravityY)
    ensures Rise(jump, gravityY, dt, n) <= jumpHeight
  {
    RiseClosedForm(jump, gravityY, dt, n, n as real);
    var g := -gravityY;
    var a := g * dt;
    var m := n as real;
    var h := Rise(jump, gravityY, dt, n);
    ApexAlgebra(jump, g, dt, m, h, jumpHeight);
  }

  /**
   * The frame at which the frame-by-frame apex is taken: the number of
   * frames a gravity step of |gravityY| * dt fits into the jump impulse.
   */
  function ApexFrame(jump: real, gravityY: real, dt: real): (m: nat)
    requires gravityY < 0.0 && dt > 0.0 && jump >= 0.0
    ensures -gravityY * dt * (m as real) <= jump <= -gravityY * dt * (m as real + 1.0)
  {
    var a := -gravityY * dt;
    var x := jump / a;
    assert x * a == jump;
    assert x >= 0.0 by {
      if x < 0.0 {
        ProductNonNegative(-x, a);
      }
    }
    var m := x.Floor;
    assert m as real <= x < m as real + 1.0;
    ProductNonNegative(x - m as real, a);
    ProductNonNegative(m as real + 1.0 - x, a);
    assert a * (m as real) <= jump <= a * (m as real + 1.0);
    m as nat
  }

  /**
   * The jump impulse does achieve the target height up to the frame
   * granularity: after ApexFrame frames the integration is within
   * dt * jump / 2 of jumpHeight.
   */
  lemma JumpApexNearJumpHeight(jumpHeight: real, gravityY: real, dt: real, jump: real)
    requires gravityY < 0.0 && dt > 0.0 && IsJumpImpulse(jump, jumpHeight, gravityY)
    ensures Rise(jump, gravityY, dt, ApexFrame(jump, gravityY, dt)) >= jumpHeight - dt * jump / 2.0
  {
    var n := ApexFrame(jump, gravityY, dt);
    RiseClosedForm(jump, gravityY, dt, n, n as real);
    ApexLowerAlgebra(jump, -gravityY, dt, n as real, Rise(jump, gravityY, dt, n), jumpHeight);
  }

  /**
   * The algebra behind the apex bounds, with g = |gravityY| and a = g * dt:
   * 2 * g * (jumpHeight - h) == (jump - a * m)^2 + a^2 * m.
   */
  lemma ApexIdentity(jump: real, g: real, dt: real, m: real, h: real, jumpHeight: real)
    requires 2.0 * h == dt * (2.0 * m * jump - g * dt * m * (m + 1.0))
    requires jump * jump == 2.0 * jumpHeight * g
    ensures 2.0 * g * (jumpHeight - h) == (jump - g * dt * m) * (jump - g * dt * m) + (g * dt) * (g * dt) * m
  {
    var a := g * dt;
    assert 2.0 * g * h == 2.0 * m * jump * a - a * a * m * (m + 1.0);
    var e := jump - a * m;
    assert e * e == jump * jump - 2.0 * m * jump * a + a * a * m * m;
  }

  /** Upper half: h <= jumpHeight after any number m >= 0 of frames. */
  lemma ApexAlgebra(jump: real, g: real, dt: real, m: real, h: real, jumpHeight: real)
    requires g > 0.0 && m >= 0.0
    requires 2.0 * h == dt * (2.0 * m * jump - g * dt * m * (m + 1.0))
    requires jump * jump == 2.0 * jumpHeight * g
    ensures h <= jumpHeight
  {
    ApexIdentity(jump, g, dt, m, h, jumpHeight);
    var a := g * dt;
    var e := jump - a * m;
    SquareNonNegative(e);
    SquareNonNegative(a);
    ProductNonNegative(a * a, m);
    assert g * (jumpHeight - h) >= 0.0;
  }

  /**
   * Lower half: when a * m <= jump <= a * (m + 1), the height after m frames
   * falls short of jumpHeight by at most dt * jump / 2.
   */
  lemma ApexLowerAlgebra(jump: real, g: real, dt: real, m: real, h: real, jumpHeight: real)
    requires g > 0.0 && dt > 0.0 && m >= 0.0
    requires g * dt * m <= jump <= g * dt * (m + 1.0)
    requires 2.0 * h == dt * (2.0 * m * jump - g * dt * m * (m + 1.0))
    requires jump * jump == 2.0 * jumpHeight * g
    ensures jumpHeight - h <= dt * jump / 2.0
  {
    ApexIdentity(jump, g, dt, m, h, jumpHeight);
    var a := g * dt;
    var e := jump - a * m;
    assert 0.0 <= e <= a;
    ProductNonNegative(a - e, e);
    assert e * e <= a * e;
    assert a * e + a * a * m == a * jump;
    assert 2.0 * g * (jumpHeight - h) <= g * (dt * jump);
    HalveByPositive(g, jumpHeight - h, dt * jump);
  }

  /** 2 * g * x <= g * y with g > 0 gives x <= y / 2. */
  lemma HalveByPositive(g: real, x: real, y: real)
    requires g > 0.0 && 2.0 * g * x <= g * y
    ensures x <= y / 2.0
  {
  }

  lemma SquareNonNegative(x: real)
    ensures x * x >= 0.0
  {
  }

  /** A ground jump followed by free flight rises by Rise from the jump impulse. */
  lemma JumpFlightRise(c: Tuning, s: MotionState, frames: seq<Frame>, dt: real, gravityY: real)
    requires s.grounded && frames != []
    requires frames[0].input.jumpPressed && frames[0].hits == []
    requires frames[0].dt == dt && frames[0].gravityY == gravityY
    requires FreeFlight(frames[1..], dt, gravityY)
    ensures Run(c, s, frames).position.y == s.position.y + Rise(frames[0].jump, gravityY, dt, |frames|)
  {
    var f := frames[0];
    var next := Step(c, s, f);
    ContactFreeRise(c, s, f, f.jump, dt, gravityY);
    FreeFlightRise(c, next, frames[1..], dt, gravityY);
    assert Run(c, s, frames) == Run(c, next, frames[1..]);
    RiseFirstFrame(s.position.y, next.position.y, f.jump, gravityY, dt, |frames|);
  }

  /** The first frame of a rise followed by the rest of it. */
  lemma RiseFirstFrame(y0: real, y1: real, vy: real, gravityY: real, dt: real, n: nat)
    requires n > 0 && y1 == y0 + (vy + gravityY * dt) * dt
    ensures y1 + Rise(vy + gravityY * dt, gravityY, dt, n - 1) == y0 + Rise(vy, gravityY, dt, n)
  {
  }

  /**
   * A ground jump followed by free flight never rises more than jumpHeight
   * above the take-off position.
   */
  lemma JumpFlightApex(c: Tuning, s: MotionState, frames: seq<Frame>, dt: real, gravityY: real)
    requires gravityY < 0.0
    requires s.grounded && frames != []
    requires frames[0].input.jumpPressed && frames[0].hits == []
    requires frames[0].dt == dt && frames[0].gravityY == gravityY
    requires IsJumpImpulse(frames[0].jump, c.jumpHeight, gravityY)
    requires FreeFlight(frames[1..], dt, gravityY)
    ensures Run(c, s, frames).position.y <= s.position.y + c.jumpHeight
  {
    JumpFlightRise(c, s, frames, dt, gravityY);
    JumpApexAtMostJumpHeight(c.jumpHeight, gravityY, dt, frames[0].jump, |frames|);
  }

  /**
   * The other half of the jump promise: a ground jump followed by enough
   * free flight reaches, after ApexFrame frames, a height within
   * dt * jump / 2 of jumpHeight above the take-off position.
   */
  lemma JumpFlightNearApex(c: Tuning, s: MotionState, frames: seq<Frame>, dt: real, gravityY: real)
    requires gravityY < 0.0 && dt > 0.0
    requires s.grounded && frames != []
    requires frames[0].input.jumpPressed && frames[0].hits == []
    requires frames[0].dt == dt && frames[0].gravityY == gravityY
    requires IsJumpImpulse(frames[0].jump, c.jumpHeight, gravityY)
    requires FreeFlight(frames[1..], dt, gravityY)
    requires ApexFrame(frames[0].jump, gravityY, dt) <= |frames|
    ensures Run(c, s, frames[..ApexFrame(frames[0].jump, gravityY, dt)]).position.y
         >= s.position.y + c.jumpHeight - dt * frames[0].jump / 2.0
  {
    var n := ApexFrame(frames[0].jump, gravityY, dt);
    JumpApexNearJumpHeight(c.jumpHeight, gravityY, dt, frames[0].jump);
    JumpFlightPrefixRise(c, s, frames, dt, gravityY, n);
  }

  /** The first n frames of a jump flight rise by the closed form of n frames. */
  lemma JumpFlightPrefixRise(c: Tuning, s: MotionState, frames: seq<Frame>, dt: real, gravityY: real,
                             n: nat)
    requires s.grounded && frames != []
    requires frames[0].input.jumpPressed && frames[0].hits == []
    requires frames[0].dt == dt && frames[0].gravityY == gravityY
    requires FreeFlight(frames[1..], dt, gravityY)
    requires n <= |frames|
    ensures Run(c, s, frames[..n]).position.y == s.position.y + Rise(frames[0].jump, gravityY, dt, n)
  {
    if n == 0 {
      assert frames[..n] == [];
    } else {
      var pre := frames[..n];
      assert pre[0] == frames[0];
      assert FreeFlight(pre[1..], dt, gravityY) by {
        forall i | 0 <= i < |pre[1..]| ensures pre[1..][i] == frames[1..][i] { }
      }
      JumpFlightRise(c, s, pre, dt, gravityY);
      assert |pre| == n;
    }
  }

  /**
   * Holding a horizontal input in the air (not sliding, no colliders) drives
   * the horizontal velocity along MoveTowards steps of airAcceleration * dt,
   * so it reaches speed * moveInput once the steps cover the gap.
   */
  lemma {:induction false} AirSteeringRun(c: Tuning, s: MotionState, frames: seq<Frame>,
                                          moveInput: real, dt: real)
    requires !s.grounded && !s.enableSlide && moveInput != 0.0
    requires forall i :: 0 <= i < |frames| ==>
      frames[i].hits == [] && frames[i].dt == dt &&
      frames[i].input.moveInput == moveInput && !frames[i].input.slidePressed
    ensures Run(c, s, frames).velocity.x
         == Approach(s.velocity.x, c.speed * moveInput, c.airAcceleration * dt, |frames|)
    decreases |frames|
  {
    if frames != [] {
      var f := frames[0];
      var next := Step(c, s, f);
      ContactFreeStep(c, s, f);
      assert next.velocity.x == MoveTowards(s.velocity.x, c.speed * moveInput, c.airAcceleration * dt);
      assert !next.grounded && !next.enableSlide;
      assert forall i :: 0 <= i < |frames[1..]| ==> frames[1..][i] == frames[i + 1];
      AirSteeringRun(c, next, frames[1..], moveInput, dt);
    }
  }
}
