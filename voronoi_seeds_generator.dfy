/**
 * The Voronoi seed generator: grid-bucketed rejection sampling of seed points.
 * The plane [0,width) x [0,height) is cut into widthSubs x heightSubs cells; a
 * candidate is kept when its cell lies in the grid, the cell is not full, and no
 * seed already kept in the 3 x 3 block of cells around it (clipped to the grid)
 * is closer than minDist.
 *
 * Candidates come from an input sequence instead of the normal distributions of
 * the source; floats are reals.
 */
module VoronoiSeeds {
  import opened Wrappers

  /** A seed position (the source's T_point). */
  datatype Point = Point(x: real, y: real)

  /** Grid cell indices: `w` along the width, `h` along the height. */
  datatype Cell = Cell(w: int, h: int)

  /** The generator's parameters, fixed at construction. */
  datatype Generator = Generator(
    width: real,
    height: real,
    nbOfSeeds: int,
    widthSubs: int,
    heightSubs: int,
    maxPerSub: int,
    minDist: real)

  datatype Error = TooManySeeds

  /** How many seeds the grid can hold at most: `widthSubs * heightSubs * maxPerSub`. */
  function Capacity(g: Generator): int
  {
    g.widthSubs * g.heightSubs * g.maxPerSub
  }

  /** The checking constructor: it aborts (here, fails) when more seeds are
      requested than the grid can hold. */
  function Create(width: real, height: real, nbOfSeeds: int, widthSubs: int,
                  heightSubs: int, maxPerSub: int, minDist: real): (r: Result<Generator, Error>)
    ensures r.Success? <==> nbOfSeeds <= widthSubs * heightSubs * maxPerSub
    ensures r.Success? ==> r.value.nbOfSeeds <= Capacity(r.value)
    ensures r.Success? ==>
              r.value == Generator(width, height, nbOfSeeds, widthSubs, heightSubs, maxPerSub, minDist)
  {
    var g := Generator(width, height, nbOfSeeds, widthSubs, heightSubs, maxPerSub, minDist);
    if nbOfSeeds > Capacity(g) then Failure(TooManySeeds) else Success(g)
  }

  /** What generation needs to be defined: non-zero extents (they are divisors)
      and grid dimensions that can size an array. */
  predicate WellFormed(g: Generator)
  {
    g.width != 0.0 && g.height != 0.0 && g.widthSubs >= 0 && g.heightSubs >= 0
  }

  /** The cell of a position: floor(x / width * widthSubs), floor(y / height * heightSubs). */
  function CellOf(g: Generator, p: Point): Cell
    requires WellFormed(g)
  {
    Cell((p.x / g.width * g.widthSubs as real).Floor, (p.y / g.height * g.heightSubs as real).Floor)
  }

  predicate InGrid(g: Generator, c: Cell)
  {
    0 <= c.w < g.widthSubs && 0 <= c.h < g.heightSubs
  }

  /** Two cells are equal or neighbours (including diagonally). */
  predicate Adjacent(a: Cell, b: Cell)
  {
    -1 <= a.w - b.w <= 1 && -1 <= a.h - b.h <= 1
  }

  function DistSq(a: Point, b: Point): real
  {
    (a.x - b.x) * (a.x - b.x) + (a.y - b.y) * (a.y - b.y)
  }

  /** distance(a, b) < minDist, without a square root. */
  predicate Close(g: Generator, a: Point, b: Point)
  {
    0.0 <= g.minDist && DistSq(a, b) < g.minDist * g.minDist
  }

  lemma CloseSymmetric(g: Generator, a: Point, b: Point)
    ensures Close(g, a, b) <==> Close(g, b, a)
  {
  }

  /** No seed of `cell` is closer than minDist to `seed` (one scan of the source). */
  predicate SeqClear(g: Generator, cell: seq<Point>, seed: Point)
  {
    forall k :: 0 <= k < |cell| ==> !Close(g, cell[k], seed)
  }

  // ---------------------------------------------------------------------------
  // isMinDistVerified
  // ---------------------------------------------------------------------------

  /** The unrolled neighbourhood test: the scans of the SW, S, SE, W, centre, E,
      NW, N and NE cells of the per-cell seed lists, each guarded by the same
      bounds tests as the source, so that no index leaves the grid. */
  predicate IsMinDistVerified(g: Generator, seedsOfSub: array2<seq<Point>>,
                              widthID: int, heightID: int, seed: Point)
    reads seedsOfSub
    requires seedsOfSub.Length0 == g.heightSubs && seedsOfSub.Length1 == g.widthSubs
    requires 0 <= widthID < g.widthSubs && 0 <= heightID < g.heightSubs
  {
    (heightID > 0 ==>
       (widthID > 0 ==> SeqClear(g, seedsOfSub[heightID - 1, widthID - 1], seed))
       && SeqClear(g, seedsOfSub[heightID - 1, widthID], seed)
       && (widthID < g.widthSubs - 1 ==> SeqClear(g, seedsOfSub[heightID - 1, widthID + 1], seed)))
    && (widthID > 0 ==> SeqClear(g, seedsOfSub[heightID, widthID - 1], seed))
    && SeqClear(g, seedsOfSub[heightID, widthID], seed)
    && (widthID < g.widthSubs - 1 ==> SeqClear(g, seedsOfSub[heightID, widthID + 1], seed))
    && (heightID < g.heightSubs - 1 ==>
          (widthID > 0 ==> SeqClear(g, seedsOfSub[heightID + 1, widthID - 1], seed))
          && SeqClear(g, seedsOfSub[heightID + 1, widthID], seed)
          && (widthID < g.widthSubs - 1 ==> SeqClear(g, seedsOfSub[heightID + 1, widthID + 1], seed)))
  }

  /** The unrolled test is exactly "every in-grid cell adjacent to (widthID, heightID)
      is clear of `seed`": the nine guarded scans cover the clipped 3 x 3 block. */
  lemma IsMinDistVerifiedIsBlockClear(g: Generator, seedsOfSub: array2<seq<Point>>,
                                      widthID: int, heightID: int, seed: Point)
    requires seedsOfSub.Length0 == g.heightSubs && seedsOfSub.Length1 == g.widthSubs
    requires 0 <= widthID < g.widthSubs && 0 <= heightID < g.heightSubs
    ensures IsMinDistVerified(g, seedsOfSub, widthID, heightID, seed) <==>
      (forall i, j :: 0 <= i < g.heightSubs && 0 <= j < g.widthSubs && Adjacent(Cell(j, i), Cell(widthID, heightID))
         ==> SeqClear(g, seedsOfSub[i, j], seed))
  {
    if IsMinDistVerified(g, seedsOfSub, widthID, heightID, seed) {
      forall i, j | 0 <= i < g.heightSubs && 0 <= j < g.widthSubs && Adjacent(Cell(j, i), Cell(widthID, heightID))
        ensures SeqClear(g, seedsOfSub[i, j], seed)
      {
        assert i == heightID - 1 || i == heightID || i == heightID + 1;
        assert j == widthID - 1 || j == widthID || j == widthID + 1;
      }
    }
  }

  // ---------------------------------------------------------------------------
  // The reference definition of generateSeeds
  // ---------------------------------------------------------------------------

  /** The seeds of `acc` that fall in cell `c`, in order (the per-cell list). */
  function CellSeeds(g: Generator, acc: seq<Point>, c: Cell): (r: seq<Point>)
    requires WellFormed(g)
    ensures |r| <= |acc|
  {
    if acc == [] then []
    else
      var last := acc[|acc| - 1];
      CellSeeds(g, acc[..|acc| - 1], c) + (if CellOf(g, last) == c then [last] else [])
  }

  /** No seed of `acc` in a cell adjacent to that of `p` is closer than minDist to `p`. */
  predicate NeighbourhoodClear(g: Generator, acc: seq<Point>, p: Point)
    requires WellFormed(g)
  {
    forall k :: 0 <= k < |acc| && Adjacent(CellOf(g, acc[k]), CellOf(g, p)) ==> !Close(g, acc[k], p)
  }

  /** The acceptance test of one candidate against the seeds kept so far. */
  predicate Accepts(g: Generator, acc: seq<Point>, p: Point)
    requires WellFormed(g)
  {
    InGrid(g, CellOf(g, p))
    && |CellSeeds(g, acc, CellOf(g, p))| < g.maxPerSub
    && NeighbourhoodClear(g, acc, p)
  }

  /** The seeds kept from `candidates`, drawn in order, while fewer than nbOfSeeds are kept. */
  function Run(g: Generator, candidates: seq<Point>): seq<Point>
    requires WellFormed(g)
  {
    if candidates == [] then []
    else
      var before := Run(g, candidates[..|candidates| - 1]);
      var p := candidates[|candidates| - 1];
      if |before| < g.nbOfSeeds && Accepts(g, before, p) then before + [p] else before
  }

  lemma CellSeedsAppend(g: Generator, acc: seq<Point>, p: Point)
    requires WellFormed(g)
    ensures forall c {:trigger CellSeeds(g, acc + [p], c)} ::
      CellSeeds(g, acc + [p], c) == CellSeeds(g, acc, c) + (if CellOf(g, p) == c then [p] else [])
  {
    assert (acc + [p])[..|acc|] == acc;
  }

  /** The per-cell list holds exactly the seeds of `acc` whose cell is `c`. */
  lemma {:induction false} CellSeedsMembers(g: Generator, acc: seq<Point>, c: Cell, q: Point)
    requires WellFormed(g)
    ensures q in CellSeeds(g, acc, c) <==> q in acc && CellOf(g, q) == c
  {
    if acc != [] {
      var front := acc[..|acc| - 1];
      CellSeedsMembers(g, front, c, q);
      assert acc == front + [acc[|acc| - 1]];
      CellSeedsAppend(g, front, acc[|acc| - 1]);
    }
  }

  /** The invariants of the seeds kept by generation: they lie in the grid, at most
      maxPerSub of them share a cell, no more than nbOfSeeds are kept, and any two
      in the same or adjacent cells are at least minDist apart. */
  ghost predicate GoodSeeds(g: Generator, acc: seq<Point>)
    requires WellFormed(g)
  {
    (forall k :: 0 <= k < |acc| ==> InGrid(g, CellOf(g, acc[k])))
    && (forall c :: |CellSeeds(g, acc, c)| <= if g.maxPerSub < 0 then 0 else g.maxPerSub)
    && |acc| <= (if g.nbOfSeeds < 0 then 0 else g.nbOfSeeds)
    && (forall i, j :: 0 <= i < j < |acc| && Adjacent(CellOf(g, acc[i]), CellOf(g, acc[j]))
          ==> !Close(g, acc[i], acc[j]))
  }

  /** Accepting a candidate preserves the invariants. */
  lemma AcceptPreserves(g: Generator, acc: seq<Point>, p: Point)
    requires WellFormed(g) && GoodSeeds(g, acc)
    requires |acc| < g.nbOfSeeds && Accepts(g, acc, p)
    ensures GoodSeeds(g, acc + [p])
  {
    var acc' := acc + [p];
    CellSeedsAppend(g, acc, p);
    forall c
      ensures |CellSeeds(g, acc', c)| <= if g.maxPerSub < 0 then 0 else g.maxPerSub
    {
      assert CellSeeds(g, acc', c) == CellSeeds(g, acc, c) + (if CellOf(g, p) == c then [p] else []);
    }
    forall i, j | 0 <= i < j < |acc'| && Adjacent(CellOf(g, acc'[i]), CellOf(g, acc'[j]))
      ensures !Close(g, acc'[i], acc'[j])
    {
      if j == |acc| {
        assert acc'[i] == acc[i] && acc'[j] == p;
      } else {
        assert acc'[i] == acc[i] && acc'[j] == acc[j];
      }
    }
  }

  /** Every seed sequence generation can produce satisfies the invariants. */
  lemma {:induction false} RunIsGood(g: Generator, candidates: seq<Point>)
    requires WellFormed(g)
    ensures GoodSeeds(g, Run(g, candidates))
  {
    if candidates != [] {
      var before := Run(g, candidates[..|candidates| - 1]);
      var p := candidates[|candidates| - 1];
      RunIsGood(g, candidates[..|candidates| - 1]);
      if |before| < g.nbOfSeeds && Accepts(g, before, p) {
        AcceptPreserves(g, before, p);
      }
    }
  }

  /** Any two kept seeds in the same or adjacent cells are at least minDist apart,
      whichever was kept first. */
  lemma RunSeparated(g: Generator, candidates: seq<Point>, i: int, j: int)
    requires WellFormed(g)
    requires 0 <= i < |Run(g, candidates)| && 0 <= j < |Run(g, candidates)| && i != j
    requires Adjacent(CellOf(g, Run(g, candidates)[i]), CellOf(g, Run(g, candidates)[j]))
    ensures !Close(g, Run(g, candidates)[i], Run(g, candidates)[j])
  {
    var acc := Run(g, candidates);
    RunIsGood(g, candidates);
    if j < i {
      assert Adjacent(CellOf(g, acc[j]), CellOf(g, acc[i]));
      CloseSymmetric(g, acc[i], acc[j]);
    }
  }

  /** One more candidate: `Run` on the first k+1 candidates extends `Run` on the first k. */
  lemma RunStep(g: Generator, candidates: seq<Point>, k: int)
    requires WellFormed(g) && 0 <= k < |candidates|
    ensures Run(g, candidates[..k + 1]) ==
      (var before := Run(g, candidates[..k]);
       if |before| < g.nbOfSeeds && Accepts(g, before, candidates[k]) then before + [candidates[k]] else before)
  {
    assert candidates[..k + 1][..k] == candidates[..k];
  }

  /** The number of kept seeds never decreases as candidates are drawn, so a
      loop that was below the target at its last draw was below it at every draw. */
  lemma {:induction false} RunMonotone(g: Generator, candidates: seq<Point>, k: int)
    requires WellFormed(g) && 0 <= k <= |candidates|
    ensures |Run(g, candidates[..k])| <= |Run(g, candidates)|
    decreases |candidates|
  {
    if k < |candidates| {
      var front := candidates[..|candidates| - 1];
      assert front[..k] == candidates[..k];
      RunMonotone(g, front, k);
    } else {
      assert candidates[..k] == candidates;
    }
  }

  /** Once nbOfSeeds seeds are kept, further candidates change nothing: the
      source's loop stops there. */
  lemma {:induction false} RunStopsAtTarget(g: Generator, candidates: seq<Point>, k: int)
    requires WellFormed(g) && 0 <= k <= |candidates|
    requires |Run(g, candidates[..k])| >= g.nbOfSeeds
    ensures Run(g, candidates) == Run(g, candidates[..k])
  {
    if k < |candidates| {
      var front := candidates[..|candidates| - 1];
      assert front[..k] == candidates[..k];
      RunStopsAtTarget(g, front, k);
    } else {
      assert candidates[..k] == candidates;
    }
  }

  // ---------------------------------------------------------------------------
  // Cell totals: the number of seeds equals the sum of the per-cell counts
  // ---------------------------------------------------------------------------

  /** Sum of the per-cell counts of row `h` over the columns `0 .. n-1`. */
  function RowCount(g: Generator, acc: seq<Point>, h: int, n: int): int
    requires WellFormed(g)
    decreases if n < 0 then 0 else n
  {
    if n <= 0 then 0 else RowCount(g, acc, h, n - 1) + |CellSeeds(g, acc, Cell(n - 1, h))|
  }

  /** Sum of the per-cell counts over the rows `0 .. m-1` and columns `0 .. n-1`. */
  function GridCount(g: Generator, acc: seq<Point>, m: int, n: int): int
    requires WellFormed(g)
    decreases if m < 0 then 0 else m
  {
    if m <= 0 then 0 else GridCount(g, acc, m - 1, n) + RowCount(g, acc, m - 1, n)
  }

  lemma {:induction false} RowCountAppend(g: Generator, acc: seq<Point>, p: Point, h: int, n: int)
    requires WellFormed(g)
    ensures RowCount(g, acc + [p], h, n) ==
      RowCount(g, acc, h, n) + (if CellOf(g, p).h == h && 0 <= CellOf(g, p).w < n then 1 else 0)
    decreases if n < 0 then 0 else n
  {
    if n > 0 {
      RowCountAppend(g, acc, p, h, n - 1);
      CellSeedsAppend(g, acc, p);
      assert CellSeeds(g, acc + [p], Cell(n - 1, h)) ==
        CellSeeds(g, acc, Cell(n - 1, h)) + (if CellOf(g, p) == Cell(n - 1, h) then [p] else []);
    }
  }

  lemma {:induction false} GridCountAppend(g: Generator, acc: seq<Point>, p: Point, m: int, n: int)
    requires WellFormed(g)
    ensures GridCount(g, acc + [p], m, n) ==
      GridCount(g, acc, m, n) + (if 0 <= CellOf(g, p).h < m && 0 <= CellOf(g, p).w < n then 1 else 0)
    decreases if m < 0 then 0 else m
  {
    if m > 0 {
      GridCountAppend(g, acc, p, m - 1, n);
      RowCountAppend(g, acc, p, m - 1, n);
    }
  }

  /** When every seed lies in the grid, the per-cell counts add up to the number of seeds. */
  lemma {:induction false} GridCountIsLength(g: Generator, acc: seq<Point>)
    requires WellFormed(g)
    requires forall k :: 0 <= k < |acc| ==> InGrid(g, CellOf(g, acc[k]))
    ensures GridCount(g, acc, g.heightSubs, g.widthSubs) == |acc|
  {
    if acc == [] {
      GridCountEmpty(g, g.heightSubs, g.widthSubs);
    } else {
      var front := acc[..|acc| - 1];
      GridCountIsLength(g, front);
      assert acc == front + [acc[|acc| - 1]];
      GridCountAppend(g, front, acc[|acc| - 1], g.heightSubs, g.widthSubs);
    }
  }

  lemma {:induction false} GridCountEmpty(g: Generator, m: int, n: int)
    requires WellFormed(g)
    ensures GridCount(g, [], m, n) == 0
    decreases if m < 0 then 0 else m
  {
    if m > 0 {
      GridCountEmpty(g, m - 1, n);
      RowCountEmpty(g, m - 1, n);
    }
  }

  lemma {:induction false} RowCountEmpty(g: Generator, h: int, n: int)
    requires WellFormed(g)
    ensures RowCount(g, [], h, n) == 0
    decreases if n < 0 then 0 else n
  {
    if n > 0 {
      RowCountEmpty(g, h, n - 1);
    }
  }

  lemma {:induction false} RowCountBound(g: Generator, acc: seq<Point>, h: int, n: int, bound: int)
    requires WellFormed(g) && 0 <= n
    requires forall c :: |CellSeeds(g, acc, c)| <= bound
    ensures RowCount(g, acc, h, n) <= n * bound
  {
    if n > 0 {
      RowCountBound(g, acc, h, n - 1, bound);
      assert (n - 1) * bound + bound == n * bound;
    }
  }

  lemma {:induction false} GridCountBound(g: Generator, acc: seq<Point>, m: int, n: int, bound: int)
    requires WellFormed(g) && 0 <= m && 0 <= n
    requires forall c :: |CellSeeds(g, acc, c)| <= bound
    ensures GridCount(g, acc, m, n) <= m * (n * bound)
  {
    if m > 0 {
      GridCountBound(g, acc, m - 1, n, bound);
      RowCountBound(g, acc, m - 1, n, bound);
      assert (m - 1) * (n * bound) + n * bound == m * (n * bound);
    }
  }

  /** Generation never keeps more seeds than the grid can hold; this is why the
      constructor refuses a target above Capacity: such a target is unreachable,
      and the source's loop would never end. */
  lemma RunWithinCapacity(g: Generator, candidates: seq<Point>)
    requires WellFormed(g) && 0 <= g.maxPerSub
    ensures |Run(g, candidates)| <= Capacity(g)
    ensures g.nbOfSeeds > Capacity(g) ==> |Run(g, candidates)| < g.nbOfSeeds
  {
    var acc := Run(g, candidates);
    RunIsGood(g, candidates);
    GridCountIsLength(g, acc);
    assert forall c :: |CellSeeds(g, acc, c)| <= g.maxPerSub;
    GridCountBound(g, acc, g.heightSubs, g.widthSubs, g.maxPerSub);
    ProductReorder(g.heightSubs, g.widthSubs, g.maxPerSub);
  }

  lemma ProductReorder(m: int, n: int, b: int)
    ensures m * (n * b) == n * m * b
  {
  }

  // ---------------------------------------------------------------------------
  // generateSeeds
  // ---------------------------------------------------------------------------

  /** The per-cell counters and lists mirror the seeds kept so far. */
  predicate Mirrors(g: Generator, acc: seq<Point>, nbSeedsBySub: array2<int>, seedsBySub: array2<seq<Point>>)
    requires WellFormed(g)
    reads nbSeedsBySub, seedsBySub
  {
    nbSeedsBySub.Length0 == g.heightSubs && nbSeedsBySub.Length1 == g.widthSubs
    && seedsBySub.Length0 == g.heightSubs && seedsBySub.Length1 == g.widthSubs
    && forall i, j :: 0 <= i < g.heightSubs && 0 <= j < g.widthSubs ==>
         seedsBySub[i, j] == CellSeeds(g, acc, Cell(j, i)) && nbSeedsBySub[i, j] == |seedsBySub[i, j]|
  }

  /** With mirrored lists, the unrolled test decides the neighbourhood part of acceptance. */
  lemma MinDistDecidesNeighbourhood(g: Generator, acc: seq<Point>, nbSeedsBySub: array2<int>,
                                    seedsBySub: array2<seq<Point>>, p: Point)
    requires WellFormed(g) && Mirrors(g, acc, nbSeedsBySub, seedsBySub)
    requires forall k :: 0 <= k < |acc| ==> InGrid(g, CellOf(g, acc[k]))
    requires InGrid(g, CellOf(g, p))
    ensures IsMinDistVerified(g, seedsBySub, CellOf(g, p).w, CellOf(g, p).h, p) <==> NeighbourhoodClear(g, acc, p)
  {
    var c := CellOf(g, p);
    IsMinDistVerifiedIsBlockClear(g, seedsBySub, c.w, c.h, p);
    if IsMinDistVerified(g, seedsBySub, c.w, c.h, p) {
      forall k | 0 <= k < |acc| && Adjacent(CellOf(g, acc[k]), c)
        ensures !Close(g, acc[k], p)
      {
        var d := CellOf(g, acc[k]);
        CellSeedsMembers(g, acc, d, acc[k]);
        var cell := seedsBySub[d.h, d.w];
        var t :| 0 <= t < |cell| && cell[t] == acc[k];
        assert SeqClear(g, cell, p);
      }
    } else {
      var i, j :| 0 <= i < g.heightSubs && 0 <= j < g.widthSubs && Adjacent(Cell(j, i), c)
        && !SeqClear(g, seedsBySub[i, j], p);
      var cell := seedsBySub[i, j];
      var t :| 0 <= t < |cell| && Close(g, cell[t], p);
      CellSeedsMembers(g, acc, Cell(j, i), cell[t]);
      var k :| 0 <= k < |acc| && acc[k] == cell[t];
      assert !NeighbourhoodClear(g, acc, p);
    }
  }

  /** Counts a kept seed in its cell and appends it to the cell's list. */
  method StoreSeed(g: Generator, ghost acc: seq<Point>, nbSeedsBySub: array2<int>,
                   seedsBySub: array2<seq<Point>>, seed: Point)
    requires WellFormed(g) && Mirrors(g, acc, nbSeedsBySub, seedsBySub)
    requires InGrid(g, CellOf(g, seed))
    modifies nbSeedsBySub, seedsBySub
    ensures Mirrors(g, acc + [seed], nbSeedsBySub, seedsBySub)
  {
    var c := CellOf(g, seed);
    CellSeedsAppend(g, acc, seed);
    nbSeedsBySub[c.h, c.w] := nbSeedsBySub[c.h, c.w] + 1;
    seedsBySub[c.h, c.w] := seedsBySub[c.h, c.w] + [seed];
  }

  /** One draw of the main loop: the candidate is kept when its cell is in the
      grid, the cell holds fewer than maxPerSub seeds, and the unrolled
      neighbourhood test passes; a kept seed is counted and listed in its cell,
      a rejected one changes no counter and no list. */
  method TryCandidate(g: Generator, ghost acc: seq<Point>, nbSeedsBySub: array2<int>,
                      seedsBySub: array2<seq<Point>>, seed: Point) returns (kept: bool)
    requires WellFormed(g) && Mirrors(g, acc, nbSeedsBySub, seedsBySub)
    requires forall k :: 0 <= k < |acc| ==> InGrid(g, CellOf(g, acc[k]))
    modifies nbSeedsBySub, seedsBySub
    ensures kept <==> Accepts(g, acc, seed)
    ensures kept ==> Mirrors(g, acc + [seed], nbSeedsBySub, seedsBySub)
    ensures !kept ==> unchanged(nbSeedsBySub, seedsBySub)
  {
    kept := false;
    var cell := CellOf(g, seed);
    var widthID, heightID := cell.w, cell.h;
    if 0 <= widthID < g.widthSubs && 0 <= heightID < g.heightSubs {
      if nbSeedsBySub[heightID, widthID] < g.maxPerSub {
        MinDistDecidesNeighbourhood(g, acc, nbSeedsBySub, seedsBySub, seed);
        if IsMinDistVerified(g, seedsBySub, widthID, heightID, seed) {
          StoreSeed(g, acc, nbSeedsBySub, seedsBySub, seed);
          kept := true;
        }
      }
    }
  }

  /** Draws candidates in order until nbOfSeeds seeds are kept or the candidates
      run out, keeping per-cell counters and lists as the source does and
      appending each kept seed to `listOfSeeds`. The result is the reference
      definition `Run` on the candidates consumed, and the loop stops at the
      first point where the target is met. */
  method GenerateSeeds(g: Generator, candidates: seq<Point>, listOfSeeds: seq<Point>)
    returns (seeds: seq<Point>, used: nat)
    requires WellFormed(g)
    ensures used <= |candidates|
    ensures seeds == listOfSeeds + Run(g, candidates[..used])
    ensures used == |candidates| || |Run(g, candidates[..used])| >= g.nbOfSeeds
    ensures used > 0 ==> |Run(g, candidates[..used - 1])| < g.nbOfSeeds
    ensures |Run(g, candidates[..used])| >= g.nbOfSeeds ==> Run(g, candidates[..used]) == Run(g, candidates)
  {
    var nbSeedsBySub := new int[g.heightSubs, g.widthSubs]((i, j) => 0);
    var seedsBySub := new seq<Point>[g.heightSubs, g.widthSubs]((i, j) => []);
    var currentNbOfSeeds := 0;
    seeds := listOfSeeds;
    used := 0;
    ghost var acc: seq<Point> := [];
    assert candidates[..used] == [];
    while currentNbOfSeeds < g.nbOfSeeds && used < |candidates|
      invariant used <= |candidates|
      invariant acc == Run(g, candidates[..used])
      invariant seeds == listOfSeeds + acc
      invariant currentNbOfSeeds == |acc|
      invariant forall k :: 0 <= k < |acc| ==> InGrid(g, CellOf(g, acc[k]))
      invariant used > 0 ==> |Run(g, candidates[..used - 1])| < g.nbOfSeeds
      invariant Mirrors(g, acc, nbSeedsBySub, seedsBySub)
      decreases |candidates| - used
    {
      var seed := candidates[used];
      RunStep(g, candidates, used);
      ghost var before := acc;
      assert |before| < g.nbOfSeeds;
      var kept := TryCandidate(g, acc, nbSeedsBySub, seedsBySub, seed);
      if kept {
        seeds := seeds + [seed];
        currentNbOfSeeds := currentNbOfSeeds + 1;
        acc := acc + [seed];
      }
      assert acc == (if Accepts(g, before, seed) then before + [seed] else before);
      assert acc == Run(g, candidates[..used + 1]);
      assert candidates[..used + 1 - 1] == candidates[..used];
      used := used + 1;
    }
    if |Run(g, candidates[..used])| >= g.nbOfSeeds {
      RunStopsAtTarget(g, candidates, used);
    }
  }
}
