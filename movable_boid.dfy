/**
 * Agents of the simulation: the stationary base record (position, facing
 * angle, species tag, movability, minimum approach distance), the movable
 * agent with its kinematic state and relationship links, and the rooted
 * resource it may eat.
 *
 * Relationship links (movable prey, rooted prey, hunter, leader) are
 * non-owning nullable references, as the shared pointers of the source are.
 */
module Boids {

  /** Species tags. `Other(code)` stands for every tag other than the four the
      registry knows how to build; the full enumeration is not part of this model. */
  datatype BoidType = Wolf | Rabbit | Carrot | Tree | Other(code: int)

  /** A 3-D vector of reals (floats of the source are modelled as reals). */
  datatype Vec3 = Vec3(x: real, y: real, z: real)

  const Zero: Vec3 := Vec3(0.0, 0.0, 0.0)

  /** Squared Euclidean distance between two points. */
  function DistSq(a: Vec3, b: Vec3): (d: real)
    ensures d >= 0.0
  {
    var dx, dy, dz := a.x - b.x, a.y - b.y, a.z - b.z;
    dx * dx + dy * dy + dz * dz
  }

  /** `p` lies in the closed ball of radius `radius` centred on `center`,
      i.e. distance(center, p) <= radius, written without a square root. */
  predicate WithinCircle(center: Vec3, p: Vec3, radius: real)
  {
    0.0 <= radius && DistSq(center, p) <= radius * radius
  }

  /** Seeing within a radius is monotone in the radius. */
  lemma WithinCircleMonotone(center: Vec3, p: Vec3, r1: real, r2: real)
    requires r1 <= r2
    ensures WithinCircle(center, p, r1) ==> WithinCircle(center, p, r2)
  {
    if 0.0 <= r1 {
      assert r1 * r1 <= r1 * r2 <= r2 * r2;
    }
  }

  /** A stationary resource: food (carrot) or obstacle (tree). Its body is not
      part of this model; `foodRemaining` stands for `isFoodRemaining()`. */
  class RootedBoid {
    var location: Vec3
    const kind: BoidType
    var foodRemaining: bool

    constructor (location: Vec3, kind: BoidType)
      ensures this.location == location && this.kind == kind
      ensures foodRemaining
    {
      this.location := location;
      this.kind := kind;
      foodRemaining := true;
    }
  }

  /** A movable agent. The fields of the stationary base come first. */
  class MovableBoid {
    // Stationary base
    var location: Vec3
    var angle: real
    const kind: BoidType
    const movable: bool
    const distanceMin: real

    // Kinematics and lifecycle
    var velocity: Vec3
    var acceleration: Vec3
    var isDead: bool
    /** Results of `isFoodRemaining()` and `isDecomposed()`, whose definitions are not part of this model. */
    var foodRemaining: bool
    var decomposed: bool

    // Relationship links (non-owning)
    var movablePrey: MovableBoid?
    var rootedPrey: RootedBoid?
    var hunter: MovableBoid?
    var leader: MovableBoid?
    var predator: BoidType

    /** At most one of the two prey links is set. */
    predicate PreyExclusive()
      reads this
    {
      !(movablePrey != null && rootedPrey != null)
    }

    constructor (location: Vec3, velocity: Vec3, kind: BoidType)
      ensures this.location == location && this.velocity == velocity && this.kind == kind
      ensures movable && distanceMin == 1.0
      ensures acceleration == Zero && !isDead && foodRemaining && !decomposed
      ensures movablePrey == null && rootedPrey == null && hunter == null && leader == null
      ensures PreyExclusive()
    {
      this.location := location;
      this.kind := kind;
      movable := true;
      distanceMin := 1.0;
      this.velocity := velocity;
      acceleration := Zero;
      isDead := false;
      foodRemaining := true;
      decomposed := false;
      movablePrey := null;
      rootedPrey := null;
      hunter := null;
      leader := null;
    }

    /** Sets the acceleration to zero; nothing else changes (the frame is the one field). */
    method ResetAcceleration()
      modifies this`acceleration
      ensures acceleration == Zero
    {
      acceleration := Zero;
    }

    function GetLeader(): MovableBoid?
      reads this
    {
      leader
    }

    method SetNewLeader(newLeader: MovableBoid?)
      modifies this`leader
      ensures GetLeader() == newLeader
      ensures HasLeader() <==> newLeader != null
    {
      leader := newLeader;
    }

    predicate HasLeader()
      reads this
    {
      leader != null
    }

    function GetMovablePrey(): MovableBoid?
      reads this
    {
      movablePrey
    }

    /** Setting a movable prey is allowed only while no rooted prey is set
        (the exclusivity rule documented on the two prey fields). */
    method SetMovablePrey(boid: MovableBoid?)
      requires boid != null ==> rootedPrey == null
      requires PreyExclusive()
      modifies this`movablePrey
      ensures GetMovablePrey() == boid
      ensures PreyExclusive()
    {
      movablePrey := boid;
    }

    function GetRootedPrey(): RootedBoid?
      reads this
    {
      rootedPrey
    }

    method SetRootedPrey(boid: RootedBoid?)
      requires boid != null ==> movablePrey == null
      requires PreyExclusive()
      modifies this`rootedPrey
      ensures GetRootedPrey() == boid
      ensures PreyExclusive()
    {
      rootedPrey := boid;
    }

    function GetHunter(): MovableBoid?
      reads this
    {
      hunter
    }

    method SetHunter(boid: MovableBoid?)
      modifies this`hunter
      ensures GetHunter() == boid
    {
      hunter := boid;
    }

    method SetPredatorType(predatorType: BoidType)
      modifies this`predator
      ensures predator == predatorType
    {
      predator := predatorType;
    }

    /** Marks the boid dead; no operation of the model ever clears the flag. */
    method Kill()
      modifies this`isDead
      ensures isDead
    {
      isDead := true;
    }

    /** The boid has a movable or a rooted prey. */
    predicate HasPrey()
      reads this
    {
      movablePrey != null || rootedPrey != null
    }

    /** The other boid, at `other`, lies in the circle of radius `distView` around this boid. */
    predicate DistVision(other: Vec3, distView: real)
      reads this
    {
      WithinCircle(location, other, distView)
    }

    /** `sameSpecies(other)`, given the other boid's tag. */
    predicate SameSpecies(otherKind: BoidType)
      reads this
    {
      kind == otherKind
    }
  }

  /** Under the exclusivity invariant, having a prey means exactly one of the two links is set. */
  lemma HasPreyIsExclusiveOr(b: MovableBoid)
    requires b.PreyExclusive()
    ensures b.HasPrey() <==> ((b.GetMovablePrey() != null) != (b.GetRootedPrey() != null))
  {
  }

  /** `operator==`: two boids are equal when they have the same position. */
  predicate SamePosition(b1: MovableBoid, b2: MovableBoid)
    reads b1, b2
  {
    b1.location == b2.location
  }

  /** `operator!=`: the negation of `operator==`. */
  predicate DifferentPosition(b1: MovableBoid, b2: MovableBoid)
    reads b1, b2
  {
    !SamePosition(b1, b2)
  }

  /** Boids that compare equal see each other within every non-negative radius. */
  lemma SamePositionSeesEachOther(b1: MovableBoid, b2: MovableBoid, distView: real)
    requires SamePosition(b1, b2) && 0.0 <= distView
    ensures b1.DistVision(b2.location, distView) && b2.DistVision(b1.location, distView)
  {
    assert DistSq(b1.location, b2.location) == 0.0;
    assert 0.0 <= distView * distView;
  }

  /** Vision within a circle is symmetric: if b1 sees b2 at distView, b2 sees b1. */
  lemma DistVisionSymmetric(b1: MovableBoid, b2: MovableBoid, distView: real)
    ensures b1.DistVision(b2.location, distView) <==> b2.DistVision(b1.location, distView)
  {
  }
}
