/**
 * One frame of the platformer controller as a function of the state before
 * it: slide, jump gating, horizontal steering, gravity, translation, then the
 * collision loop.
 */
module Motion {
  import opened Vectors
  import opened Mathf
  import opened Collision

  /** The eight serialized tuning fields; they do not change at run time. */
  datatype Tuning = Tuning(
    speed: real,               // max walking speed, units per second
    walkAcceleration: real,    // acceleration while grounded
    airAcceleration: real,     // acceleration while in the air
    groundDeceleration: real,  // deceleration when grounded with no input
    jumpHeight: real,
    slideSpeed: real,
    slideAcceleration: real,
    slideDeceleration: real)

  /** The values the fields are declared with. */
  const DefaultTuning := Tuning(9.0, 75.0, 30.0, 70.0, 4.0, 12.0, 800.0, 800.0)

  /** All accelerations and decelerations are non-negative, as the defaults are. */
  predicate NonNegativeRates(c: Tuning) {
    c.walkAcceleration >= 0.0 && c.airAcceleration >= 0.0 && c.groundDeceleration >= 0.0 &&
    c.slideAcceleration >= 0.0 && c.slideDeceleration >= 0.0
  }

  /**
   * The input read at the start of a frame: the raw horizontal axis and
   * whether the slide key and the jump button went down this frame.
   */
  datatype Input = Input(moveInput: real, slidePressed: bool, jumpPressed: bool)

  /** The controller's mutable fields, with transform.position beside them. */
  datatype MotionState = MotionState(
    velocity: Vec2,
    position: Vec2,
    grounded: bool,
    enableDoubleJump: bool,
    enableSlide: bool)

  /** j is Mathf.Sqrt(2 * jumpHeight * |gravityY|). */
  predicate IsJumpImpulse(j: real, jumpHeight: real, gravityY: real) {
    j >= 0.0 && j * j == 2.0 * jumpHeight * Abs(gravityY)
  }

  /** The horizontal velocity PerformSlide leaves. */
  function SlideVelocityX(c: Tuning, vx: real, moveInput: real, dt: real): real {
    MoveTowards(vx, c.slideSpeed * moveInput, c.slideAcceleration * dt)
  }

  /** The horizontal velocity the StopSlide completion leaves. */
  function StopSlideVelocityX(c: Tuning, vx: real, dt: real): real {
    MoveTowards(vx, 0.0, c.slideDeceleration * dt)
  }

  /** The speed the walk, air and deceleration branch steers toward: none without input. */
  function SteerTarget(c: Tuning, moveInput: real): real {
    if moveInput != 0.0 then c.speed * moveInput else 0.0
  }

  /**
   * The rate of that branch: with input the walk acceleration on the ground
   * and the air acceleration in the air; without input the ground
   * deceleration on the ground and none in the air.
   */
  function SteerRate(c: Tuning, moveInput: real, grounded: bool): real {
    var acceleration := if grounded then c.walkAcceleration else c.airAcceleration;
    var deceleration := if grounded then c.groundDeceleration else 0.0;
    if moveInput != 0.0 then acceleration else deceleration
  }

  /** The walk, air and deceleration branch, taken when not sliding. */
  function SteerVelocityX(c: Tuning, vx: real, moveInput: real, grounded: bool, dt: real): real {
    MoveTowards(vx, SteerTarget(c, moveInput), SteerRate(c, moveInput, grounded) * dt)
  }

  /** This frame applies a jump impulse. */
  predicate JumpTaken(s: MotionState, input: Input) {
    input.jumpPressed && (s.grounded || s.enableDoubleJump)
  }

  /** The slide phase: a slide key press steers toward the slide speed and starts the slide. */
  function SlidePhase(c: Tuning, s: MotionState, input: Input, dt: real): MotionState {
    if input.slidePressed then
      s.(velocity := s.velocity.(x := SlideVelocityX(c, s.velocity.x, input.moveInput, dt)),
         enableSlide := true)
    else s
  }

  /**
   * The jump phase: on the ground the vertical velocity is reset and a jump
   * grants the double jump; in the air an available double jump is spent.
   */
  function JumpPhase(s: MotionState, jumpPressed: bool, jump: real): MotionState {
    if s.grounded then
      if jumpPressed then s.(velocity := s.velocity.(y := jump), enableDoubleJump := true)
      else s.(velocity := s.velocity.(y := 0.0))
    else if s.enableDoubleJump && jumpPressed then
      s.(velocity := s.velocity.(y := jump), enableDoubleJump := false)
    else s
  }

  /** The steering phase: walk, air or deceleration branch, skipped while sliding. */
  function SteerPhase(c: Tuning, s: MotionState, moveInput: real, dt: real): MotionState {
    if s.enableSlide then s
    else s.(velocity := s.velocity.(x := SteerVelocityX(c, s.velocity.x, moveInput, s.grounded, dt)))
  }

  /** Gravity, then the translation by velocity * dt. */
  function MovePhase(s: MotionState, dt: real, gravityY: real): MotionState {
    var velocity := s.velocity.(y := s.velocity.y + gravityY * dt);
    s.(velocity := velocity, position := Add(s.position, Scale(velocity, dt)))
  }

  /** The collision phase: the contact loop from the translated position. */
  function CollidePhase(s: MotionState, hits: seq<Hit>): MotionState {
    var res := Resolve(s.position, hits, s.velocity.y);
    s.(position := res.position, grounded := res.grounded)
  }

  /**
   * The horizontal velocity a frame leaves, case by case: a slide press
   * applies the slide step, an ongoing slide keeps the velocity, otherwise
   * the walk, air or deceleration step applies.
   */
  function FrameVelocityX(c: Tuning, s: MotionState, input: Input, dt: real): real {
    if input.slidePressed then SlideVelocityX(c, s.velocity.x, input.moveInput, dt)
    else if s.enableSlide then s.velocity.x
    else SteerVelocityX(c, s.velocity.x, input.moveInput, s.grounded, dt)
  }

  /**
   * The vertical velocity a frame leaves, case by case: the jump impulse when
   * a jump is taken, 0 on the ground, the old value in the air; then gravity.
   */
  function FrameVelocityY(s: MotionState, input: Input, dt: real, gravityY: real, jump: real): real {
    (if JumpTaken(s, input) then jump else if s.grounded then 0.0 else s.velocity.y) + gravityY * dt
  }

  /** The double-jump flag after a frame: a ground jump grants it, an air jump spends it. */
  function FrameDoubleJump(s: MotionState, input: Input): bool {
    if JumpTaken(s, input) then s.grounded else s.enableDoubleJump
  }

  /**
   * One frame (Update) from state s, with frame time dt, the vertical
   * gravity gravityY, the jump impulse jump, and the colliders the overlap
   * query returns at the translated position: the new velocity is
   * (FrameVelocityX, FrameVelocityY), the character is translated by it
   * times dt and the contact loop runs from there; a ground jump grants the
   * double jump, an air jump spends it, and a slide press turns the slide on.
   */
  function Tick(c: Tuning, s: MotionState, input: Input, dt: real, gravityY: real, jump: real,
                hits: seq<Hit>): MotionState
  {
    var velocity := Vec2(FrameVelocityX(c, s, input, dt), FrameVelocityY(s, input, dt, gravityY, jump));
    var res := Resolve(Add(s.position, Scale(velocity, dt)), hits, velocity.y);
    MotionState(velocity, res.position, res.grounded, FrameDoubleJump(s, input),
                input.slidePressed || s.enableSlide)
  }

  /**
   * Update's order of work, phase by phase (slide, jump gate, steering,
   * gravity and translation, contacts), yields exactly Tick.
   */
  lemma PhasesMakeTick(c: Tuning, s: MotionState, input: Input, dt: real, gravityY: real,
                       jump: real, hits: seq<Hit>)
    ensures var slid := SlidePhase(c, s, input, dt);
      var jumped := JumpPhase(slid, input.jumpPressed, jump);
      var steered := SteerPhase(c, jumped, input.moveInput, dt);
      CollidePhase(MovePhase(steered, dt, gravityY), hits) == Tick(c, s, input, dt, gravityY, jump, hits)
  {
  }

  /** The state after the delayed StopSlide completion runs. */
  function AfterStopSlide(c: Tuning, s: MotionState, dt: real): MotionState {
    s.(velocity := Vec2(StopSlideVelocityX(c, s.velocity.x, dt), s.velocity.y), enableSlide := false)
  }
}
