/**
 * The agent registry: owns the ordered collections of movable boids and
 * rooted boids, builds new ones by species tag, holds the day/night flag,
 * answers neighbour queries, and sweeps expired entries at the end of a tick.
 */
module Registry {
  import opened Wrappers
  import opened Boids

  datatype Error = InvalidArgument(message: string)

  const InvalidTypeMessage: string := "valid boidType required"

  /** The sweep's removal test for a movable boid: no food left, or decomposed. */
  predicate MovableExpired(b: MovableBoid)
    reads b
  {
    !b.foodRemaining || b.decomposed
  }

  /** The sweep's removal test for a rooted boid: no food left. */
  predicate RootedExpired(b: RootedBoid)
    reads b
  {
    !b.foodRemaining
  }

  /** The removal test of each movable boid, position by position. */
  function MovableFlags(s: seq<MovableBoid>): (d: seq<bool>)
    reads s
    ensures |d| == |s|
    ensures forall i :: 0 <= i < |s| ==> d[i] == MovableExpired(s[i])
  {
    seq(|s|, i requires 0 <= i < |s| reads s => MovableExpired(s[i]))
  }

  /** The removal test of each rooted boid, position by position. */
  function RootedFlags(s: seq<RootedBoid>): (d: seq<bool>)
    reads s
    ensures |d| == |s|
    ensures forall i :: 0 <= i < |s| ==> d[i] == RootedExpired(s[i])
  {
    seq(|s|, i requires 0 <= i < |s| reads s => RootedExpired(s[i]))
  }

  /** The entries of `s` whose flag in `dead` is false, in their original order. */
  function Kept<T>(s: seq<T>, dead: seq<bool>): seq<T>
    requires |s| == |dead|
  {
    if |s| == 0 then []
    else Kept(s[..|s| - 1], dead[..|s| - 1]) + (if dead[|s| - 1] then [] else [s[|s| - 1]])
  }

  /** The entries of `s` whose flag in `dead` is true, in their original order. */
  function Dropped<T>(s: seq<T>, dead: seq<bool>): seq<T>
    requires |s| == |dead|
  {
    if |s| == 0 then []
    else Dropped(s[..|s| - 1], dead[..|s| - 1]) + (if dead[|s| - 1] then [s[|s| - 1]] else [])
  }

  /** How many of the first entries are kept: the position a kept entry lands at. */
  function KeptCount(dead: seq<bool>): nat
  {
    if |dead| == 0 then 0
    else KeptCount(dead[..|dead| - 1]) + (if dead[|dead| - 1] then 0 else 1)
  }

  /** Extending the input by one entry extends each filter by at most that entry. */
  lemma PrefixStep<T>(s: seq<T>, dead: seq<bool>, k: nat)
    requires |s| == |dead| && k < |s|
    ensures Kept(s[..k + 1], dead[..k + 1]) == Kept(s[..k], dead[..k]) + (if dead[k] then [] else [s[k]])
    ensures Dropped(s[..k + 1], dead[..k + 1]) == Dropped(s[..k], dead[..k]) + (if dead[k] then [s[k]] else [])
    ensures KeptCount(dead[..k + 1]) == KeptCount(dead[..k]) + (if dead[k] then 0 else 1)
  {
    assert s[..k + 1][..k] == s[..k] && dead[..k + 1][..k] == dead[..k];
  }

  lemma {:induction false} KeptLength<T>(s: seq<T>, dead: seq<bool>)
    requires |s| == |dead|
    ensures |Kept(s, dead)| == KeptCount(dead)
  {
    if |s| > 0 {
      KeptLength(s[..|s| - 1], dead[..|s| - 1]);
    }
  }

  /** Every entry of the filter is a flagged-live entry of the input. */
  lemma {:induction false} KeptSound<T>(s: seq<T>, dead: seq<bool>, j: nat)
    requires |s| == |dead| && j < |Kept(s, dead)|
    ensures exists i :: 0 <= i < |s| && !dead[i] && s[i] == Kept(s, dead)[j]
  {
    var n := |s| - 1;
    var k0 := Kept(s[..n], dead[..n]);
    if j < |k0| {
      KeptSound(s[..n], dead[..n], j);
      var i :| 0 <= i < n && !dead[..n][i] && s[..n][i] == k0[j];
      assert !dead[i] && s[i] == Kept(s, dead)[j];
    } else {
      assert !dead[n] && s[n] == Kept(s, dead)[j];
    }
  }

  /** Every flagged-live entry of the input is in the filter, at the place given by
      the number of live entries before it, so relative order is preserved. */
  lemma {:induction false} KeptComplete<T>(s: seq<T>, dead: seq<bool>, i: nat)
    requires |s| == |dead| && i < |s| && !dead[i]
    ensures KeptCount(dead[..i]) < |Kept(s, dead)|
    ensures Kept(s, dead)[KeptCount(dead[..i])] == s[i]
  {
    var n := |s| - 1;
    assert s == s[..n + 1] && dead == dead[..n + 1];
    PrefixStep(s, dead, n);
    if i < n {
      KeptComplete(s[..n], dead[..n], i);
      assert dead[..n][..i] == dead[..i];
    } else {
      KeptLength(s[..n], dead[..n]);
    }
  }

  /** Entries the filter keeps are counted in order: earlier live entries land earlier. */
  lemma {:induction false} KeptCountMonotone(dead: seq<bool>, i: nat, j: nat)
    requires i <= j <= |dead|
    ensures KeptCount(dead[..i]) <= KeptCount(dead[..j])
    ensures i < j && !dead[i] ==> KeptCount(dead[..i]) < KeptCount(dead[..j])
    decreases j
  {
    if i < j {
      KeptCountMonotone(dead, i, j - 1);
      assert dead[..j][..j - 1] == dead[..j - 1];
    }
  }

  /** Kept and dropped entries split the input: together they account for every entry. */
  lemma {:induction false} KeptDroppedPartition<T>(s: seq<T>, dead: seq<bool>)
    requires |s| == |dead|
    ensures |Kept(s, dead)| + |Dropped(s, dead)| == |s|
    ensures multiset(Kept(s, dead)) + multiset(Dropped(s, dead)) == multiset(s)
    ensures forall x :: x in Dropped(s, dead) ==> exists i :: 0 <= i < |s| && dead[i] && s[i] == x
  {
    if |s| > 0 {
      var n := |s| - 1;
      KeptDroppedPartition(s[..n], dead[..n]);
      assert s == s[..n] + [s[n]];
      forall x | x in Dropped(s, dead)
        ensures exists i :: 0 <= i < |s| && dead[i] && s[i] == x
      {
        if x in Dropped(s[..n], dead[..n]) {
          var i :| 0 <= i < n && dead[..n][i] && s[..n][i] == x;
          assert dead[i] && s[i] == x;
        } else {
          assert dead[n] && s[n] == x;
        }
      }
    }
  }

  /** With no entry flagged, the filter returns its input unchanged. */
  lemma {:induction false} KeptAllLive<T>(s: seq<T>, dead: seq<bool>)
    requires |s| == |dead|
    requires forall i :: 0 <= i < |dead| ==> !dead[i]
    ensures Kept(s, dead) == s
    ensures Dropped(s, dead) == []
  {
    if |s| > 0 {
      var n := |s| - 1;
      KeptAllLive(s[..n], dead[..n]);
      assert s == s[..n] + [s[n]];
    }
  }

  /** After a sweep of movable boids no expired boid is left; a second sweep with the
      same predicates keeps everything and removes nothing. */
  lemma MovableSweepIdempotent(s: seq<MovableBoid>)
    ensures forall b :: b in Kept(s, MovableFlags(s)) ==> !MovableExpired(b)
    ensures Kept(Kept(s, MovableFlags(s)), MovableFlags(Kept(s, MovableFlags(s)))) == Kept(s, MovableFlags(s))
    ensures Dropped(Kept(s, MovableFlags(s)), MovableFlags(Kept(s, MovableFlags(s)))) == []
  {
    var k := Kept(s, MovableFlags(s));
    forall b | b in k
      ensures !MovableExpired(b)
    {
      var j :| 0 <= j < |k| && k[j] == b;
      KeptSound(s, MovableFlags(s), j);
    }
    KeptAllLive(k, MovableFlags(k));
  }

  /** After a sweep of rooted boids none without food is left; a second sweep removes nothing. */
  lemma RootedSweepIdempotent(s: seq<RootedBoid>)
    ensures forall b :: b in Kept(s, RootedFlags(s)) ==> !RootedExpired(b)
    ensures Kept(Kept(s, RootedFlags(s)), RootedFlags(Kept(s, RootedFlags(s)))) == Kept(s, RootedFlags(s))
    ensures Dropped(Kept(s, RootedFlags(s)), RootedFlags(Kept(s, RootedFlags(s)))) == []
  {
    var k := Kept(s, RootedFlags(s));
    forall b | b in k
      ensures !RootedExpired(b)
    {
      var j :| 0 <= j < |k| && k[j] == b;
      KeptSound(s, RootedFlags(s), j);
    }
    KeptAllLive(k, RootedFlags(k));
  }

  /** Adding by species: only wolves and rabbits are movable species, only carrots and trees rooted ones. */
  predicate IsMovableType(t: BoidType)
  {
    t == Wolf || t == Rabbit
  }

  predicate IsRootedType(t: BoidType)
  {
    t == Carrot || t == Tree
  }

  class BoidsManager {
    var movableBoids: seq<MovableBoid>
    var rootedBoids: seq<RootedBoid>
    var isNightTime: bool
    /** The boids on which the sweep called `disapear()`, in call order. */
    ghost var vanishedMovable: seq<MovableBoid>
    ghost var vanishedRooted: seq<RootedBoid>

    /** Both collections start empty; the day/night flag is left as it is. */
    constructor ()
      ensures movableBoids == [] && rootedBoids == []
      ensures vanishedMovable == [] && vanishedRooted == []
    {
      movableBoids := [];
      rootedBoids := [];
      vanishedMovable := [];
      vanishedRooted := [];
    }

    /** Builds a wolf or a rabbit and appends it; any other tag fails with an
        invalid argument before anything is appended. */
    method AddMovableBoid(boidType: BoidType, location: Vec3, velocity: Vec3)
      returns (r: Result<MovableBoid, Error>)
      modifies this`movableBoids
      ensures r.Success? <==> IsMovableType(boidType)
      ensures r.Success? ==> fresh(r.value) && r.value.kind == boidType
      ensures r.Success? ==> r.value.location == location && r.value.velocity == velocity
      ensures r.Success? ==> movableBoids == old(movableBoids) + [r.value]
      ensures r.Failure? ==> r.error == InvalidArgument(InvalidTypeMessage) && movableBoids == old(movableBoids)
    {
      var boid: MovableBoid;
      match boidType {
        case Wolf =>
          boid := new MovableBoid(location, velocity, Wolf);
        case Rabbit =>
          boid := new MovableBoid(location, velocity, Rabbit);
        case _ =>
          return Failure(InvalidArgument(InvalidTypeMessage));
      }
      movableBoids := movableBoids + [boid];
      r := Success(boid);
    }

    /** Builds a carrot or a tree and appends it; any other tag fails with an
        invalid argument before anything is appended. */
    method AddRootedBoid(boidType: BoidType, location: Vec3)
      returns (r: Result<RootedBoid, Error>)
      modifies this`rootedBoids
      ensures r.Success? <==> IsRootedType(boidType)
      ensures r.Success? ==> fresh(r.value) && r.value.kind == boidType && r.value.location == location
      ensures r.Success? ==> rootedBoids == old(rootedBoids) + [r.value]
      ensures r.Failure? ==> r.error == InvalidArgument(InvalidTypeMessage) && rootedBoids == old(rootedBoids)
    {
      var boid: RootedBoid;
      match boidType {
        case Carrot =>
          boid := new RootedBoid(location, Carrot);
        case Tree =>
          boid := new RootedBoid(location, Tree);
        case _ =>
          return Failure(InvalidArgument(InvalidTypeMessage));
      }
      rootedBoids := rootedBoids + [boid];
      r := Success(boid);
    }

    predicate IsNight()
      reads this
    {
      isNightTime
    }

    method SetTimeDay(state: bool)
      modifies this`isNightTime
      ensures IsNight() == state
    {
      isNightTime := state;
    }

    /** The neighbour candidates of any boid: the whole movable collection. */
    function GetNeighbour(boid: MovableBoid): (r: seq<MovableBoid>)
      reads this
      ensures r == movableBoids
    {
      movableBoids
    }

    /** The end-of-tick sweep: erases, in place and in order, every movable boid
        with no food left or decomposed and every rooted boid with no food left,
        calling `disapear()` on each erased boid. */
    method RemoveDead()
      modifies this`movableBoids, this`rootedBoids, this`vanishedMovable, this`vanishedRooted
      ensures movableBoids == Kept(old(movableBoids), MovableFlags(old(movableBoids)))
      ensures vanishedMovable == old(vanishedMovable) + Dropped(old(movableBoids), MovableFlags(old(movableBoids)))
      ensures rootedBoids == Kept(old(rootedBoids), RootedFlags(old(rootedBoids)))
      ensures vanishedRooted == old(vanishedRooted) + Dropped(old(rootedBoids), RootedFlags(old(rootedBoids)))
      ensures forall b :: b in movableBoids ==> !MovableExpired(b)
      ensures forall b :: b in rootedBoids ==> !RootedExpired(b)
    {
      RemoveDeadMovable();
      RemoveDeadRooted();
    }

    /** The first loop of the sweep, over the movable boids. */
    method RemoveDeadMovable()
      modifies this`movableBoids, this`vanishedMovable
      ensures movableBoids == Kept(old(movableBoids), MovableFlags(old(movableBoids)))
      ensures vanishedMovable == old(vanishedMovable) + Dropped(old(movableBoids), MovableFlags(old(movableBoids)))
      ensures forall b :: b in movableBoids ==> !MovableExpired(b)
    {
      ghost var orig := movableBoids;
      ghost var flags := MovableFlags(orig);
      var i := 0;
      ghost var k := 0;
      while i < |movableBoids|
        invariant 0 <= i <= |movableBoids| && 0 <= k <= |orig|
        invariant flags == MovableFlags(orig)
        invariant movableBoids[..i] == Kept(orig[..k], flags[..k])
        invariant movableBoids[i..] == orig[k..]
        invariant vanishedMovable == old(vanishedMovable) + Dropped(orig[..k], flags[..k])
        decreases |orig| - k
      {
        var boid := movableBoids[i];
        assert boid == orig[k];
        PrefixStep(orig, flags, k);
        if !boid.foodRemaining || boid.decomposed {
          vanishedMovable := vanishedMovable + [boid];
          movableBoids := movableBoids[..i] + movableBoids[i + 1..];
        } else {
          i := i + 1;
        }
        k := k + 1;
      }
      assert orig[..k] == orig && flags[..k] == flags;
      assert movableBoids[..i] == movableBoids;
      MovableSweepIdempotent(orig);
    }

    /** The second loop of the sweep, over the rooted boids. */
    method RemoveDeadRooted()
      modifies this`rootedBoids, this`vanishedRooted
      ensures rootedBoids == Kept(old(rootedBoids), RootedFlags(old(rootedBoids)))
      ensures vanishedRooted == old(vanishedRooted) + Dropped(old(rootedBoids), RootedFlags(old(rootedBoids)))
      ensures forall b :: b in rootedBoids ==> !RootedExpired(b)
    {
      ghost var orig := rootedBoids;
      ghost var flags := RootedFlags(orig);
      var i := 0;
      ghost var k := 0;
      while i < |rootedBoids|
        invariant 0 <= i <= |rootedBoids| && 0 <= k <= |orig|
        invariant flags == RootedFlags(orig)
        invariant rootedBoids[..i] == Kept(orig[..k], flags[..k])
        invariant rootedBoids[i..] == orig[k..]
        invariant vanishedRooted == old(vanishedRooted) + Dropped(orig[..k], flags[..k])
        decreases |orig| - k
      {
        var boid := rootedBoids[i];
        assert boid == orig[k];
        PrefixStep(orig, flags, k);
        if !boid.foodRemaining {
          vanishedRooted := vanishedRooted + [boid];
          rootedBoids := rootedBoids[..i] + rootedBoids[i + 1..];
        } else {
          i := i + 1;
        }
        k := k + 1;
      }
      assert orig[..k] == orig && flags[..k] == flags;
      assert rootedBoids[..i] == rootedBoids;
      RootedSweepIdempotent(orig);
    }
  }
}
