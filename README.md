# Shutter Island simulation core, modelled in Dafny

This project models the core of the Shutter Island simulation: an island terrain
populated by wolves, rabbits, carrots and trees. It covers five parts.

- **Agents** (`movable_boid.dfy`, module `Boids`). This is the movable agent (boid) with its
  kinematic fields, lifecycle flags and relationship links: movable prey, rooted prey,
  hunter and leader. It also covers the stationary rooted resource and the vision and
  equality tests between agents.
- **Drives** (`movable_parameters.dfy`, module `Drives`). These are the five needs of an
  agent: stamina, hunger, thirst, danger and affinity. Each is kept in [0, 100] by
  saturating steps, with the stamina and hunger thresholds, the leader link and the species
  constants fixed at construction.
- **Registry** (`boids_manager.dfy`, module `Registry`). It adds agents by species tag and
  rejects the other tags. It holds the day/night flag, answers neighbour queries, and does
  the end-of-tick sweep that erases expired agents in place.
- **Voronoi seed generator** (`voronoi_seeds_generator.dfy`, module `VoronoiSeeds`). It
  does grid-bucketed rejection sampling with a per-cell capacity and a minimum-distance test
  over the clipped 3 x 3 block of cells. A reference function `Run` defines which seeds are
  kept. The imperative loop over two-dimensional arrays is proved to compute exactly `Run`.
- **Height quadtree** (`height_tree.dfy`, module `HeightTrees`). It covers:
  - locating the quadrant of a point by comparing it with the centre;
  - the depth-bounded vertex search;
  - subdivision into four children that share their edge samples;
  - blended height evaluation, where each level down is weighted by one more factor of 0.7.

`wrappers.dfy` holds the shared `Option` and `Result` types.

Floats are modelled as reals. Distances are compared through squared distances:
distance < m is `0 <= m && d² < m²`, and distance <= m is `0 <= m && d² <= m²`.

Randomness, the seed container of the Voronoi diagram and the map collaborators are
inputs to the model:
- the random initial stamina is a constructor argument in [1, 99];
- the random seed candidates are an input sequence;
- the subdivision test, closest-biome lookup, biome height and per-node height are function parameters.

HeightTree.cpp reads the detection threshold and the blending coefficient through
`getDetectionThreshold()` and `getHeightBlendingCoefficient()`. Neither getter is declared
in code/include/terrain/MapParameters.hpp. The model therefore uses the constants 0.1 and
0.7 that code/include/terrain/HeightTree.hpp defines for exactly those two roles.

## Model

| member | source | states |
|---|---|---|
| Boids.WithinCircleMonotone | code/include/boids2D/MovableBoid.hpp:113-120 | A point within the vision circle of one radius is within it for every larger radius. |
| Boids.DistVisionSymmetric | code/include/boids2D/MovableBoid.hpp:113-120 | `distVision` is symmetric: b1 has b2 in its circle of radius r iff b2 has b1 in its circle of radius r. |
| Boids.RootedBoid.constructor | code/src/boids2D/BoidsManager.cpp:44-49 | A rooted boid is built at the given location with the given tag and with food remaining. |
| Boids.MovableBoid.constructor | code/include/boids2D/MovableBoid.hpp:46-47 | A movable boid has the given location, velocity and tag, and minimum distance 1 (code/include/boids2D/Boid.hpp:32). It has zero acceleration, is alive, and has no prey, hunter or leader, so the prey-exclusivity invariant holds. |
| Boids.MovableBoid.ResetAcceleration | code/include/boids2D/MovableBoid.hpp:87-90 | The acceleration becomes zero; the frame is that one field, so nothing else changes. |
| Boids.MovableBoid.SetNewLeader | code/include/boids2D/MovableBoid.hpp:146-162 | `getLeader()` then returns the new leader, and `hasLeader()` holds iff that leader is set. |
| Boids.MovableBoid.SetMovablePrey | code/include/boids2D/MovableBoid.hpp:164-174 | `getMovablePrey()` then returns the prey. Setting a prey is allowed only while no rooted prey is set, so at most one prey link is ever set (MovableBoid.hpp:226-227). |
| Boids.MovableBoid.SetRootedPrey | code/include/boids2D/MovableBoid.hpp:176-186 | `getRootedPrey()` then returns the prey, under the same exclusivity rule as the movable prey. |
| Boids.MovableBoid.SetHunter | code/include/boids2D/MovableBoid.hpp:188-198 | `getHunter()` then returns the hunter that was set. |
| Boids.MovableBoid.SetPredatorType | code/include/boids2D/MovableBoid.hpp:200-206 | The predator tag becomes the one given; no other field changes. |
| Boids.MovableBoid.Kill | code/include/boids2D/MovableBoid.hpp:208-210 | The boid is dead afterwards; only the dead flag changes. |
| Boids.HasPreyIsExclusiveOr | code/include/boids2D/MovableBoid.hpp:297-301 | Under the exclusivity invariant, `hasPrey()` holds iff exactly one of the movable prey and the rooted prey is set. |
| Boids.SamePositionSeesEachOther | code/include/boids2D/MovableBoid.hpp:346-350 | Boids that are equal under `operator==` (same position) see each other within every non-negative radius. |
| Drives.Increased | code/src/boids2D/MovableParameters.cpp:74-77 | `fmin(v + f, 100)`: the result never exceeds 100 or v + f, and is one of the two. |
| Drives.Decreased | code/src/boids2D/MovableParameters.cpp:84-87 | `fmax(v - f, 0)`: the result is never below 0 or v - f, and is one of the two. |
| Drives.StepsKeepRange | code/src/boids2D/MovableParameters.cpp:74-155 | A non-negative step keeps a drive that starts in [0, 100] inside [0, 100]. An increase never lowers the drive and a decrease never raises it. |
| Drives.StepsSaturate | code/src/boids2D/MovableParameters.cpp:94-104 | Increasing a drive at 100 leaves it at 100, and decreasing a drive at 0 leaves it at 0. |
| Drives.IncreasedTimesClosedForm | code/src/boids2D/MovableParameters.cpp:94-98 | n saturating increases by f equal a single increase by n·f that is clamped once. |
| Drives.DecreasedTimesClosedForm | code/src/boids2D/MovableParameters.cpp:100-104 | n saturating decreases by f equal a single decrease by n·f that is clamped once. |
| Drives.HungerFromNinetyFive | code/src/boids2D/MovableParameters.cpp:94-98 | Hunger 95 followed by ten `hungerIncrease` calls ends at exactly 100. |
| Drives.MovableParameters.constructor | code/src/boids2D/MovableParameters.cpp:24-34 | The species constants are set from the arguments. Hunger and thirst start at 100, danger and affinity at 0, and stamina is the draw in [1, 99]. The thresholds are 10, 90 and 10, and there is no leader. Every drive is in range. |
| Drives.MovableParameters.WithViews | code/src/boids2D/MovableParameters.cpp:16-22 | As the full constructor, with slowing-down distance 5, wander radius 9 and wander-circle distance 3. |
| Drives.MovableParameters.Default | code/src/boids2D/MovableParameters.cpp:10-14 | The defaults: max speed 3.5, max force 2, view angle 3π/4, and views 2, 4 and 5 for separation, cohesion and maximum, followed by the six-argument defaults. |
| Drives.MovableParameters.AssociateBoid | code/src/boids2D/MovableParameters.cpp:59-62 | The associated boid becomes the one given; nothing else changes. |
| Drives.MovableParameters.StaminaIncreaseBy | code/src/boids2D/MovableParameters.cpp:74-77 | Stamina becomes the saturated sum. Only stamina changes, and the range invariant is kept for f >= 0. |
| Drives.MovableParameters.StaminaIncrease | code/src/boids2D/MovableParameters.cpp:69-72 | A stamina increase with step 0.5; only stamina changes, and the range invariant is kept. |
| Drives.MovableParameters.StaminaDecreaseBy | code/src/boids2D/MovableParameters.cpp:84-87 | Stamina becomes the saturated difference. Only stamina changes, and the range invariant is kept for f >= 0. |
| Drives.MovableParameters.StaminaDecrease | code/src/boids2D/MovableParameters.cpp:79-82 | A stamina decrease with step 0.5; only stamina changes, and the range invariant is kept. |
| Drives.MovableParameters.HungerIncrease | code/src/boids2D/MovableParameters.cpp:94-98 | Hunger steps up by 1.0, saturating at 100; only hunger changes, and the range invariant is kept. |
| Drives.MovableParameters.HungerDecrease | code/src/boids2D/MovableParameters.cpp:100-104 | Hunger steps down by 1.0, saturating at 0; only hunger changes, and the range invariant is kept. |
| Drives.MovableParameters.ThirstIncrease | code/src/boids2D/MovableParameters.cpp:111-115 | Thirst steps up by 1.0, saturating at 100; only thirst changes. |
| Drives.MovableParameters.ThirstDecrease | code/src/boids2D/MovableParameters.cpp:117-121 | Thirst steps down by 1.0, saturating at 0; only thirst changes. |
| Drives.MovableParameters.DangerIncrease | code/src/boids2D/MovableParameters.cpp:128-132 | Danger steps up by 1.0, saturating at 100; only danger changes. |
| Drives.MovableParameters.DangerDecrease | code/src/boids2D/MovableParameters.cpp:134-138 | Danger steps down by 1.0, saturating at 0; only danger changes. |
| Drives.MovableParameters.AffinityIncrease | code/src/boids2D/MovableParameters.cpp:145-149 | Affinity steps up by 1.0, saturating at 100; only affinity changes. |
| Drives.MovableParameters.AffinityDecrease | code/src/boids2D/MovableParameters.cpp:151-155 | Affinity steps down by 1.0, saturating at 0; only affinity changes. |
| Drives.MovableParameters.SetNewLeader | code/src/boids2D/MovableParameters.cpp:157-170 | `getLeader()` then returns the new leader, and `isLeader()` holds iff the new leader is the associated boid. |
| Drives.StaminaThresholds | code/src/boids2D/MovableParameters.cpp:172-182 | With the installed thresholds, stamina is never low and high at once. The other three clauses only restate the inclusive comparisons `stamina <= 10`, `stamina >= 90` and `hunger <= 10` with the constants filled in. |
| Registry.KeptSound | code/src/boids2D/BoidsManager.cpp:104-121 | Every boid that survives the sweep was present before it and was not expired. |
| Registry.KeptComplete | code/src/boids2D/BoidsManager.cpp:104-121 | Every live boid survives the sweep, at the position given by the number of live boids before it. |
| Registry.KeptCountMonotone | code/src/boids2D/BoidsManager.cpp:104-121 | The survivor positions increase with the original positions, so relative order is preserved. |
| Registry.KeptDroppedPartition | code/src/boids2D/BoidsManager.cpp:104-121 | Survivors and erased boids together are a permutation of the input, and every erased boid was expired. |
| Registry.MovableSweepIdempotent | code/src/boids2D/BoidsManager.cpp:104-112 | After the movable sweep, no boid without food or decomposed remains. A second sweep with unchanged predicates keeps everything and erases nothing. |
| Registry.RootedSweepIdempotent | code/src/boids2D/BoidsManager.cpp:113-121 | After the rooted sweep, no boid without food remains, and a second sweep erases nothing. |
| Registry.BoidsManager.constructor | code/src/boids2D/BoidsManager.cpp:6-10 | Both collections start empty. |
| Registry.BoidsManager.AddMovableBoid | code/src/boids2D/BoidsManager.cpp:17-37 | It succeeds iff the tag is WOLF or RABBIT, appending exactly one fresh boid of that tag (with the given location and velocity) and returning it. Any other tag fails with `invalid_argument("valid boidType required")` and leaves the collection unchanged. |
| Registry.BoidsManager.AddRootedBoid | code/src/boids2D/BoidsManager.cpp:39-57 | It succeeds iff the tag is CARROT or TREE, appending exactly one fresh boid and returning it. Any other tag fails and leaves the collection unchanged. |
| Registry.BoidsManager.SetTimeDay | code/src/boids2D/BoidsManager.cpp:70-78 | `isNight()` then returns the state that was set. |
| Registry.BoidsManager.GetNeighbour | code/src/boids2D/BoidsManager.cpp:80-83 | A getter: the result is the movable collection itself, whatever the argument. |
| Registry.BoidsManager.RemoveDead | code/src/boids2D/BoidsManager.cpp:102-122 | Each collection becomes its survivors in original order. `disapear()` is logged once for each erased boid, in order, and no expired boid remains. |
| Registry.BoidsManager.RemoveDeadMovable | code/src/boids2D/BoidsManager.cpp:104-112 | The in-place erase loop leaves exactly the movable boids with food remaining that are not decomposed, in order, and logs each erased boid. |
| Registry.BoidsManager.RemoveDeadRooted | code/src/boids2D/BoidsManager.cpp:113-121 | The in-place erase loop leaves exactly the rooted boids with food remaining, in order, and logs each erased boid. |
| VoronoiSeeds.Create | code/src/terrain/VoronoiSeedsGenerator.cpp:20-45 | Construction succeeds iff nbOfSeeds <= widthSubs · heightSubs · maxPerSub, and keeps the parameters as given. |
| VoronoiSeeds.RunWithinCapacity | code/src/terrain/VoronoiSeedsGenerator.cpp:37-44 | Generation never keeps more than widthSubs · heightSubs · maxPerSub seeds. A target above that capacity is unreachable, which is why the constructor refuses it. |
| VoronoiSeeds.IsMinDistVerifiedIsBlockClear | code/src/terrain/VoronoiSeedsGenerator.cpp:127-276 | The nine guarded scans hold iff every in-grid cell adjacent to (widthID, heightID) holds no seed closer than minDist. No cell outside the clipped 3 x 3 block is read. |
| VoronoiSeeds.CellSeedsMembers | code/src/terrain/VoronoiSeedsGenerator.cpp:109-112 | A cell's list holds exactly the kept seeds whose cell is that cell. |
| VoronoiSeeds.AcceptPreserves | code/src/terrain/VoronoiSeedsGenerator.cpp:94-113 | Accepting a candidate keeps these invariants: all seeds in the grid, at most maxPerSub per cell, at most nbOfSeeds in total, and minDist separation between seeds in the same or adjacent cells. |
| VoronoiSeeds.RunIsGood | code/src/terrain/VoronoiSeedsGenerator.cpp:85-116 | Every sequence of kept seeds satisfies those invariants. |
| VoronoiSeeds.RunSeparated | code/src/terrain/VoronoiSeedsGenerator.cpp:97-113 | Any two kept seeds in the same or adjacent cells are at least minDist apart, whichever was kept first. |
| VoronoiSeeds.RunMonotone | code/src/terrain/VoronoiSeedsGenerator.cpp:85-116 | The number of kept seeds never decreases as candidates are drawn. |
| VoronoiSeeds.RunStopsAtTarget | code/src/terrain/VoronoiSeedsGenerator.cpp:86 | Once nbOfSeeds seeds are kept, further candidates change nothing. |
| VoronoiSeeds.GridCountIsLength | code/src/terrain/VoronoiSeedsGenerator.cpp:109-112 | The per-cell counts add up to the number of kept seeds. |
| VoronoiSeeds.MinDistDecidesNeighbourhood | code/src/terrain/VoronoiSeedsGenerator.cpp:108 | When the per-cell lists mirror the kept seeds, the unrolled test is exactly the neighbourhood condition of the reference definition. |
| VoronoiSeeds.StoreSeed | code/src/terrain/VoronoiSeedsGenerator.cpp:111-112 | Counting and listing a kept seed in its own cell keeps the counters and lists mirroring the kept seeds. |
| VoronoiSeeds.TryCandidate | code/src/terrain/VoronoiSeedsGenerator.cpp:94-115 | A candidate is kept iff its cell is in [0, widthSubs) x [0, heightSubs), the cell holds fewer than maxPerSub seeds and the neighbourhood test passes. A rejected candidate changes no counter and no list. |
| VoronoiSeeds.GenerateSeeds | code/src/terrain/VoronoiSeedsGenerator.cpp:52-125 | The output is the input list followed by exactly the reference sequence of kept seeds for the candidates drawn. The loop stops at the first draw that meets the target, or when the candidates run out, and further candidates would change nothing. |
| HeightTrees.FirstNear | code/src/terrain/HeightTree.cpp:81-107 | It gives some height iff some corner is within the detection threshold of the point. That height belongs to the first such corner in TL, TR, BL, BR order. |
| HeightTrees.FindIsDescend | code/src/terrain/HeightTree.cpp:79-115 | At depth d >= 1 the search looks only at the node reached after d-1 locate steps. It finds nothing if the descent hits an absent child. |
| HeightTrees.FindNonPositiveDepth | code/src/terrain/HeightTree.cpp:108-114 | At depth <= 0 the search descends until an absent child and finds nothing. |
| HeightTrees.FindSound | code/include/terrain/HeightTree.hpp:96-107 | A reported height is the height of a corner, within 0.1 of the point, of the node at the requested depth on the located path. |
| HeightTrees.LocateContains | code/src/terrain/HeightTree.cpp:50-76 | For a point inside the node's square, the quadrant chosen (ties go to the top and to the left) is the child square that contains the point. |
| HeightTrees.BlendedShift | code/src/terrain/HeightTree.cpp:225-234 | The blended sum over n+1 levels is the own height plus 0.7 times the child's blended sum over n levels. |
| HeightTrees.EvalIsBlended | code/include/terrain/HeightTree.hpp:26-34 | The evaluated height is the sum, over the levels of the located path, of 0.7^k times the own height of the level k below. |
| HeightTrees.ChildrenShareEdges | code/src/terrain/HeightTree.cpp:187-204 | The children are TL(tl,N,W,C), TR(N,tr,C,E), BL(W,C,bl,S) and BR(C,E,S,br). Adjacent children share their edge samples, all share the centre, and each keeps its parent's corner. |
| HeightTrees.SubdivideHeights | code/src/terrain/HeightTree.cpp:158-185 | Centre, south and east heights are always fresh, and every biome is looked up fresh. A north or west height is the height `findVertexHeight` finds at depth+1 whenever the search succeeds, and a fresh height exactly when it fails. A reused height is that of a corner near the point on the located path, so neighbouring leaves stay continuous. |
| HeightTrees.ComputeInternal | code/src/terrain/HeightTree.cpp:123-127 | When `checkSubdivision` is false at this depth, the tree is unchanged. |
| HeightTrees.ComputeTree | code/include/terrain/HeightTree.hpp:59-65 | Building starts from the tree itself as root at depth 1 and keeps the root's content. |
| HeightTrees.ComputeKeepsOthers | code/src/terrain/HeightTree.cpp:123-218 | Building a node leaves every subtree off its path untouched. |
| HeightTrees.ComputeKeepsAbove | code/src/terrain/HeightTree.cpp:123-218 | Building a node keeps it, and every node above it, in place with its content. |
| HeightTrees.ComputeChildren | code/src/terrain/HeightTree.cpp:129-218 | When the test holds, the node ends up with four children. Their contents subdivide its square, with the new samples computed against the tree as it stood when the node was reached. |

## Left out

- Steering behaviours (seek, flee, wander, arrive, separate, align, cohesion, pursuit, evade, follow the leader) and `closestAnimal`: float vector mathematics whose bodies are not part of this model.
- The behaviour state machine of `MovableBoid`: the state handlers, `switchToState`, `computeAcceleration`, `computeNextStep`, `canSee` and `angleVision`. Only their declarations exist, so no transition table is modelled.
- `MovableBoid::isLeader`, `updateDeadStatus`, `isFoodRemaining`, `isDecomposed` and `disapear`:
  - their bodies are not part of this model;
  - the food and decomposition answers are fields of the boid classes;
  - `disapear()` calls are recorded in a ghost log of the registry.
- Boids.MovableBoid.SameSpecies: `sameSpecies` (code/include/boids2D/MovableBoid.hpp:122-127, true when the other boid has the same type) is the definition of tag equality and has no contract of its own.
- `operator!=` is the definition `Boids.DifferentPosition`, the negation of `operator==`, and has no contract of its own.
- The `MovableBoid` constructors other than (location, velocity, type, parameters), the mass, and the parameters pointer of a movable boid. Their bodies are not part of this model.
- Boids.MovableBoid.constructor: its body is not part of this model; only its declaration is. The initial values it states are assumptions: zero acceleration, alive, food remaining, not decomposed, no prey, hunter or leader, and movable. Only the minimum distance of 1 comes from the source (code/include/boids2D/Boid.hpp:32).
- Boids.RootedBoid.constructor: starting with food remaining is assumed, because RootedBoid.hpp is not part of this model.
- The file-name and by-species constructors of `MovableParameters`. The first is JSON file loading and parses nothing. The second switches on a tag and leaves the fields uninitialised. `addMovableBoid` builds such a parameters object.
- The random initial stamina: it becomes a constructor argument required to lie in [1, 99].
- Getters of `MovableParameters` and `BoidsManager` that return a field: the model reads the field itself, and the species constants are `const`, so nothing changes them after construction.
- `getBiome`, `getHeight`, `getMap` and `getNearestLake` of the registry: they forward to the map generator.
- The rendering, camera and keyboard code, the map parameters (JSON configuration) and the map utilities (`findClosestBiome` calls into voro++; `distanceV2D` uses a float square root).
- The Rabbit and Wolf constructor chains: their target constructors are not part of this model.
- The default `VoronoiSeedsGenerator` constructor: its constants live in a header that is not part of this model.
- The random number generator and normal distributions of `generateSeeds`: candidates are an input sequence. The source loop has no termination guarantee; the model's loop also stops when the candidates run out.
- VoronoiSeeds.Create: the 32-bit product widthSubs · heightSubs · maxPerSub can overflow in the source; the model uses unbounded integers.
- VoronoiSeeds.GenerateSeeds: it requires non-zero width and height, because they are divisors, and non-negative subdivision counts, because they size the arrays. The float-to-int cast of an out-of-range floor is not modelled.
- VoronoiSeeds.Close and HeightTrees.SameVertex: `DISTANCE` and `distanceV2D` are taken to be the Euclidean distance, compared through its square.
- `freeHeightTree`: manual memory release.
- HeightTrees.ComputeInternal: the tree is a value. The source's in-place `setChild` on a node aliased by `root` is modelled by replacing the subtree at the node's path in the whole tree, and the node's path names the node. The node at the path always exists in the source; the model returns the tree unchanged if it does not.
- HeightTrees.ComputeInternal: termination relies on a depth `maxDepth` at or deeper than the current depth (depth <= maxDepth) at which `checkSubdivision` is false. A test that never fails at any depth, and so makes the source recurse without end, is not modelled. `checkSubdivision` is not part of this model.
- `checkSubdivision`, `biomeHeight`, `findClosestBiome` and `HeightNode::evalHeight` become function parameters. The effective map size and the biome map of `evalHeight` are folded into the node-height parameter.
- Float rounding in every computation (midpoints, `floor` of a quotient, the blending products) is not modelled: floats are reals.
