/**
 * The drive model of an agent: five needs (stamina, hunger, thirst, danger,
 * affinity) kept in [0, 100] by saturating increase and decrease steps,
 * threshold predicates on stamina and hunger, the agent's current leader,
 * and the species constants fixed at construction.
 */
module Drives {
  import opened Boids

  /** The value of M_PI (the double closest to pi), written as a decimal. */
  const Pi: real := 3.141592653589793

  const DriveMax: real := 100.0
  const DriveMin: real := 0.0

  /** Step used by the argument-less stamina increase and decrease. */
  const DefaultStaminaStep: real := 0.5
  /** Step used by every hunger, thirst, danger and affinity operation. */
  const DriveStep: real := 1.0

  predicate InRange(v: real)
  {
    DriveMin <= v <= DriveMax
  }

  /** `fmin(v + f, 100)`: add `f`, saturating at the upper bound. */
  function Increased(v: real, f: real): (r: real)
    ensures r <= DriveMax && r <= v + f
    ensures r == v + f || r == DriveMax
  {
    if v + f < DriveMax then v + f else DriveMax
  }

  /** `fmax(v - f, 0)`: subtract `f`, saturating at the lower bound. */
  function Decreased(v: real, f: real): (r: real)
    ensures r >= DriveMin && r >= v - f
    ensures r == v - f || r == DriveMin
  {
    if v - f > DriveMin then v - f else DriveMin
  }

  /** A non-negative step keeps a drive in range, whichever direction it goes. */
  lemma StepsKeepRange(v: real, f: real)
    requires InRange(v) && 0.0 <= f
    ensures InRange(Increased(v, f)) && InRange(Decreased(v, f))
    ensures Increased(v, f) >= v && Decreased(v, f) <= v
  {
  }

  /** A drive at the bound stays there under a further step towards it. */
  lemma StepsSaturate(f: real)
    requires 0.0 <= f
    ensures Increased(DriveMax, f) == DriveMax
    ensures Decreased(DriveMin, f) == DriveMin
  {
  }

  /** `n` consecutive increases by `f`. */
  function IncreasedTimes(v: real, f: real, n: nat): real
  {
    if n == 0 then v else Increased(IncreasedTimes(v, f, n - 1), f)
  }

  /** `n` consecutive decreases by `f`. */
  function DecreasedTimes(v: real, f: real, n: nat): real
  {
    if n == 0 then v else Decreased(DecreasedTimes(v, f, n - 1), f)
  }

  /** Repeated saturating increases equal one increase by the total, clamped once:
      the drive never overshoots the bound and never loses what it gained below it. */
  lemma {:induction false} IncreasedTimesClosedForm(v: real, f: real, n: nat)
    requires v <= DriveMax && 0.0 <= f
    ensures IncreasedTimes(v, f, n) == Increased(v, n as real * f)
  {
    if n > 0 {
      IncreasedTimesClosedForm(v, f, n - 1);
      assert n as real * f == (n - 1) as real * f + f;
    }
  }

  /** Repeated saturating decreases equal one decrease by the total, clamped once. */
  lemma {:induction false} DecreasedTimesClosedForm(v: real, f: real, n: nat)
    requires v >= DriveMin && 0.0 <= f
    ensures DecreasedTimes(v, f, n) == Decreased(v, n as real * f)
  {
    if n > 0 {
      DecreasedTimesClosedForm(v, f, n - 1);
      var done := (n - 1) as real * f;
      assert n as real * f == done + f;
      assert done >= 0.0;
      assert Decreased(Decreased(v, done), f) == Decreased(v, done + f);
    }
  }

  /** Hunger at 95 followed by ten increases of 1.0 ends at exactly 100, not 105. */
  lemma HungerFromNinetyFive()
    ensures IncreasedTimes(95.0, DriveStep, 10) == DriveMax
  {
    IncreasedTimesClosedForm(95.0, DriveStep, 10);
  }

  class MovableParameters {
    // Species constants, immutable after construction.
    const maxSpeed: real
    const maxForce: real
    const angleView: real
    const distViewSeparate: real
    const distViewCohesion: real
    const distViewMax: real
    const distStartSlowingDown: real
    const rCircleWander: real
    const distToCircle: real

    // Thresholds, fixed for every instance.
    const lowStaminaValue: real
    const highStaminaValue: real
    const lowHungerValue: real

    // Drives.
    var stamina: real
    var hunger: real
    var thirst: real
    var danger: real
    var affinity: real

    // Who this agent follows, and the agent these parameters belong to.
    var leader: MovableBoid?
    var thisBoid: MovableBoid?

    /** Every drive lies in [0, 100]. */
    predicate Valid()
      reads this
    {
      InRange(stamina) && InRange(hunger) && InRange(thirst) && InRange(danger) && InRange(affinity)
    }

    /** The fully explicit constructor. `initialStamina` stands for the random
        draw in [1, 99] the source makes here. */
    constructor (maxSpeed: real, maxForce: real, angleView: real,
                 distViewSeparate: real, distViewCohesion: real, distViewMax: real,
                 distStartSlowingDown: real, rCircleWander: real, distToCircle: real,
                 initialStamina: real)
      requires 1.0 <= initialStamina <= 99.0
      ensures this.maxSpeed == maxSpeed && this.maxForce == maxForce && this.angleView == angleView
      ensures this.distViewSeparate == distViewSeparate && this.distViewCohesion == distViewCohesion
      ensures this.distViewMax == distViewMax && this.distStartSlowingDown == distStartSlowingDown
      ensures this.rCircleWander == rCircleWander && this.distToCircle == distToCircle
      ensures hunger == 100.0 && thirst == 100.0 && danger == 0.0 && affinity == 0.0
      ensures stamina == initialStamina && 1.0 <= stamina <= 99.0
      ensures lowStaminaValue == 10.0 && highStaminaValue == 90.0 && lowHungerValue == 10.0
      ensures leader == null && thisBoid == null
      ensures Valid()
    {
      this.maxSpeed := maxSpeed;
      this.maxForce := maxForce;
      this.angleView := angleView;
      this.distViewSeparate := distViewSeparate;
      this.distViewCohesion := distViewCohesion;
      this.distViewMax := distViewMax;
      this.distStartSlowingDown := distStartSlowingDown;
      this.rCircleWander := rCircleWander;
      this.distToCircle := distToCircle;
      hunger, thirst, danger, affinity := 100.0, 100.0, 0.0, 0.0;
      lowStaminaValue, highStaminaValue, lowHungerValue := 10.0, 90.0, 10.0;
      stamina := initialStamina;
      leader, thisBoid := null, null;
    }

    /** The six-argument constructor: slowing-down distance 5, wander radius 9,
        distance to the wander circle 3. */
    constructor WithViews(maxSpeed: real, maxForce: real, angleView: real,
                          distViewSeparate: real, distViewCohesion: real, distViewMax: real,
                          initialStamina: real)
      requires 1.0 <= initialStamina <= 99.0
      ensures this.maxSpeed == maxSpeed && this.maxForce == maxForce && this.angleView == angleView
      ensures this.distViewSeparate == distViewSeparate && this.distViewCohesion == distViewCohesion
      ensures this.distViewMax == distViewMax
      ensures distStartSlowingDown == 5.0 && rCircleWander == 9.0 && distToCircle == 3.0
      ensures hunger == 100.0 && thirst == 100.0 && danger == 0.0 && affinity == 0.0
      ensures stamina == initialStamina
      ensures lowStaminaValue == 10.0 && highStaminaValue == 90.0 && lowHungerValue == 10.0
      ensures leader == null && thisBoid == null
      ensures Valid()
    {
      this.maxSpeed := maxSpeed;
      this.maxForce := maxForce;
      this.angleView := angleView;
      this.distViewSeparate := distViewSeparate;
      this.distViewCohesion := distViewCohesion;
      this.distViewMax := distViewMax;
      distStartSlowingDown, rCircleWander, distToCircle := 5.0, 9.0, 3.0;
      hunger, thirst, danger, affinity := 100.0, 100.0, 0.0, 0.0;
      lowStaminaValue, highStaminaValue, lowHungerValue := 10.0, 90.0, 10.0;
      stamina := initialStamina;
      leader, thisBoid := null, null;
    }

    /** The default constructor: max speed 3.5, max force 2, view angle 3*pi/4,
        separation/cohesion/max views 2/4/5, then the six-argument defaults. */
    constructor Default(initialStamina: real)
      requires 1.0 <= initialStamina <= 99.0
      ensures maxSpeed == 3.5 && maxForce == 2.0 && angleView == 3.0 * Pi / 4.0
      ensures distViewSeparate == 2.0 && distViewCohesion == 4.0 && distViewMax == 5.0
      ensures distStartSlowingDown == 5.0 && rCircleWander == 9.0 && distToCircle == 3.0
      ensures hunger == 100.0 && thirst == 100.0 && danger == 0.0 && affinity == 0.0
      ensures stamina == initialStamina
      ensures lowStaminaValue == 10.0 && highStaminaValue == 90.0 && lowHungerValue == 10.0
      ensures leader == null && thisBoid == null
      ensures Valid()
    {
      maxSpeed, maxForce, angleView := 3.5, 2.0, 3.0 * Pi / 4.0;
      distViewSeparate, distViewCohesion, distViewMax := 2.0, 4.0, 5.0;
      distStartSlowingDown, rCircleWander, distToCircle := 5.0, 9.0, 3.0;
      hunger, thirst, danger, affinity := 100.0, 100.0, 0.0, 0.0;
      lowStaminaValue, highStaminaValue, lowHungerValue := 10.0, 90.0, 10.0;
      stamina := initialStamina;
      leader, thisBoid := null, null;
    }

    method AssociateBoid(boid: MovableBoid?)
      modifies this`thisBoid
      ensures thisBoid == boid
    {
      thisBoid := boid;
    }

    /** `staminaIncrease(f)`; only stamina changes (the frame is that one field). */
    method StaminaIncreaseBy(f: real)
      modifies this`stamina
      ensures stamina == Increased(old(stamina), f)
      ensures old(Valid()) && 0.0 <= f ==> Valid()
    {
      stamina := if stamina + f < DriveMax then stamina + f else DriveMax;
    }

    /** `staminaIncrease()`: a step of 0.5. */
    method StaminaIncrease()
      modifies this`stamina
      ensures stamina == Increased(old(stamina), DefaultStaminaStep)
      ensures old(Valid()) ==> Valid()
    {
      StaminaIncreaseBy(DefaultStaminaStep);
    }

    method StaminaDecreaseBy(f: real)
      modifies this`stamina
      ensures stamina == Decreased(old(stamina), f)
      ensures old(Valid()) && 0.0 <= f ==> Valid()
    {
      stamina := if stamina - f > DriveMin then stamina - f else DriveMin;
    }

    /** `staminaDecrease()`: a step of 0.5. */
    method StaminaDecrease()
      modifies this`stamina
      ensures stamina == Decreased(old(stamina), DefaultStaminaStep)
      ensures old(Valid()) ==> Valid()
    {
      StaminaDecreaseBy(DefaultStaminaStep);
    }

    method HungerIncrease()
      modifies this`hunger
      ensures hunger == Increased(old(hunger), DriveStep)
      ensures old(Valid()) ==> Valid()
    {
      hunger := if hunger + DriveStep < DriveMax then hunger + DriveStep else DriveMax;
    }

    method HungerDecrease()
      modifies this`hunger
      ensures hunger == Decreased(old(hunger), DriveStep)
      ensures old(Valid()) ==> Valid()
    {
      hunger := if hunger - DriveStep > DriveMin then hunger - DriveStep else DriveMin;
    }

    method ThirstIncrease()
      modifies this`thirst
      ensures thirst == Increased(old(thirst), DriveStep)
      ensures old(Valid()) ==> Valid()
    {
      thirst := if thirst + DriveStep < DriveMax then thirst + DriveStep else DriveMax;
    }

    method ThirstDecrease()
      modifies this`thirst
      ensures thirst == Decreased(old(thirst), DriveStep)
      ensures old(Valid()) ==> Valid()
    {
      thirst := if thirst - DriveStep > DriveMin then thirst - DriveStep else DriveMin;
    }

    method DangerIncrease()
      modifies this`danger
      ensures danger == Increased(old(danger), DriveStep)
      ensures old(Valid()) ==> Valid()
    {
      danger := if danger + DriveStep < DriveMax then danger + DriveStep else DriveMax;
    }

    method DangerDecrease()
      modifies this`danger
      ensures danger == Decreased(old(danger), DriveStep)
      ensures old(Valid()) ==> Valid()
    {
      danger := if danger - DriveStep > DriveMin then danger - DriveStep else DriveMin;
    }

    method AffinityIncrease()
      modifies this`affinity
      ensures affinity == Increased(old(affinity), DriveStep)
      ensures old(Valid()) ==> Valid()
    {
      affinity := if affinity + DriveStep < DriveMax then affinity + DriveStep else DriveMax;
    }

    method AffinityDecrease()
      modifies this`affinity
      ensures affinity == Decreased(old(affinity), DriveStep)
      ensures old(Valid()) ==> Valid()
    {
      affinity := if affinity - DriveStep > DriveMin then affinity - DriveStep else DriveMin;
    }

    /** The agent leads when its leader is the boid these parameters belong to
        (two null references compare equal too). */
    predicate IsLeader()
      reads this
    {
      leader == thisBoid
    }

    function GetLeader(): MovableBoid?
      reads this
    {
      leader
    }

    method SetNewLeader(newLeader: MovableBoid?)
      modifies this`leader
      ensures GetLeader() == newLeader
      ensures IsLeader() <==> newLeader == thisBoid
    {
      leader := newLeader;
    }

    predicate IsLowStamina()
      reads this
    {
      stamina <= lowStaminaValue
    }

    predicate IsHighStamina()
      reads this
    {
      stamina >= highStaminaValue
    }

    predicate IsLowHunger()
      reads this
    {
      hunger <= lowHungerValue
    }
  }

  /** With the thresholds every constructor installs (10 and 90), stamina is never
      low and high at once, and the thresholds are the inclusive bounds 10 and 90. */
  lemma StaminaThresholds(p: MovableParameters)
    requires p.lowStaminaValue == 10.0 && p.highStaminaValue == 90.0 && p.lowHungerValue == 10.0
    ensures !(p.IsLowStamina() && p.IsHighStamina())
    ensures p.IsLowStamina() <==> p.stamina <= 10.0
    ensures p.IsHighStamina() <==> p.stamina >= 90.0
    ensures p.IsLowHunger() <==> p.hunger <= 10.0
  {
  }
}
