/**
 * The height quadtree of the terrain. Each node holds the four corner samples
 * of a square (position, height, biome); subdividing a node creates the centre
 * and the four edge midpoints and four child squares that share them. A height
 * query descends along the child containing the point and blends the levels,
 * each deeper level weighted by one more factor of the blending coefficient.
 *
 * The tree is modelled as a value: building it threads the whole tree (the
 * source's `root`) through the recursion, and the node being built is named by
 * its path from the root. Collaborators whose definitions are not part of this
 * model (the subdivision test, the closest-biome lookup, the height of a biome,
 * the per-node height evaluation) are function parameters.
 */
module HeightTrees {
  import opened Wrappers

  /** Two vertices closer than this are the same vertex. */
  const DetectionThreshold: real := 0.1

  /** Each deeper level's contribution to a height is scaled by this factor. */
  const BlendingCoefficient: real := 0.7

  datatype Quadrant = TopLeft | TopRight | BottomLeft | BottomRight

  /** The scan order TL, TR, BL, BR of the corner search. */
  function Order(q: Quadrant): nat
  {
    match q
    case TopLeft => 0
    case TopRight => 1
    case BottomLeft => 2
    case BottomRight => 3
  }

  datatype Vertex = Vertex(x: real, y: real)

  /** A biome tag; the enumeration is not part of this model. */
  datatype Biome = Biome(code: int)

  datatype HeightData = HeightData(position: Vertex, height: real, biome: Biome)

  /** The content of a node: the side of its square and its four corner samples. */
  datatype HeightNode = HeightNode(size: real, tl: HeightData, tr: HeightData, bl: HeightData, br: HeightData)
  {
    function Data(q: Quadrant): HeightData
    {
      match q
      case TopLeft => tl
      case TopRight => tr
      case BottomLeft => bl
      case BottomRight => br
    }
  }

  /** A quadtree of height nodes; `Nil` is an absent child (a null pointer). */
  datatype HeightTree =
    | Nil
    | Tree(content: HeightNode, tl: HeightTree, tr: HeightTree, bl: HeightTree, br: HeightTree)
  {
    function Child(q: Quadrant): HeightTree
      requires Tree?
    {
      match q
      case TopLeft => tl
      case TopRight => tr
      case BottomLeft => bl
      case BottomRight => br
    }

    function WithChild(q: Quadrant, c: HeightTree): (r: HeightTree)
      requires Tree?
      ensures r.Tree? && r.content == content && r.Child(q) == c
      ensures forall q' :: q' != q ==> r.Child(q') == Child(q')
    {
      match q
      case TopLeft => this.(tl := c)
      case TopRight => this.(tr := c)
      case BottomLeft => this.(bl := c)
      case BottomRight => this.(br := c)
    }
  }

  /** A node with no children. */
  function Leaf(content: HeightNode): HeightTree
  {
    Tree(content, Nil, Nil, Nil, Nil)
  }

  function DistSq(a: Vertex, b: Vertex): real
  {
    (a.x - b.x) * (a.x - b.x) + (a.y - b.y) * (a.y - b.y)
  }

  /** distance(a, b) < DetectionThreshold, without a square root. */
  predicate SameVertex(a: Vertex, b: Vertex)
  {
    DistSq(a, b) < DetectionThreshold * DetectionThreshold
  }

  /** The square of a node, from its top-left and bottom-right corners (y grows upwards). */
  predicate InSquare(n: HeightNode, pos: Vertex)
  {
    n.tl.position.x <= pos.x <= n.br.position.x && n.br.position.y <= pos.y <= n.tl.position.y
  }

  // ---------------------------------------------------------------------------
  // locatePosition
  // ---------------------------------------------------------------------------

  /** The quadrant of `pos` relative to the centre of the node (the midpoint of its
      top-left and bottom-right corners); points on the centre lines go to the top
      and to the left. */
  function QuadrantOf(n: HeightNode, pos: Vertex): Quadrant
  {
    var centerX := (n.tl.position.x + n.br.position.x) / 2.0;
    var centerY := (n.tl.position.y + n.br.position.y) / 2.0;
    if pos.y >= centerY then
      (if pos.x <= centerX then TopLeft else TopRight)
    else
      (if pos.x <= centerX then BottomLeft else BottomRight)
  }

  /** The child of `t` in whose quadrant `pos` lies (possibly absent). */
  function Locate(t: HeightTree, pos: Vertex): HeightTree
    requires t.Tree?
  {
    t.Child(QuadrantOf(t.content, pos))
  }

  // ---------------------------------------------------------------------------
  // findVertexHeight
  // ---------------------------------------------------------------------------

  /** Some corner of `n` is the same vertex as `pos` and has height `h`. */
  predicate CornerNear(n: HeightNode, pos: Vertex, h: real)
  {
    exists q :: SameVertex(pos, n.Data(q).position) && n.Data(q).height == h
  }

  /** The height of the first corner of `n`, in TL, TR, BL, BR order, that is the
      same vertex as `pos`; None when no corner is. */
  function FirstNear(n: HeightNode, pos: Vertex): (r: Option<real>)
    ensures r.Some? <==> exists q :: SameVertex(pos, n.Data(q).position)
    ensures r.Some? ==> exists q :: SameVertex(pos, n.Data(q).position) && n.Data(q).height == r.value
                                   && forall q' :: Order(q') < Order(q) ==> !SameVertex(pos, n.Data(q').position)
  {
    if SameVertex(pos, n.tl.position) then
      assert n.Data(TopLeft) == n.tl;
      Some(n.tl.height)
    else if SameVertex(pos, n.tr.position) then
      assert n.Data(TopRight) == n.tr;
      Some(n.tr.height)
    else if SameVertex(pos, n.bl.position) then
      assert n.Data(BottomLeft) == n.bl;
      Some(n.bl.height)
    else if SameVertex(pos, n.br.position) then
      assert n.Data(BottomRight) == n.br;
      Some(n.br.height)
    else
      None
  }

  /** Searches for `pos` among the corners of the node reached by locating `pos`
      depth-1 times from `t`; None when the descent runs into an absent child.
      Depth 1 is `t` itself. */
  function FindVertexHeight(t: HeightTree, pos: Vertex, depth: int): Option<real>
    requires t.Tree?
    decreases t
  {
    if depth == 1 then FirstNear(t.content, pos)
    else
      var child := Locate(t, pos);
      if child.Nil? then None else FindVertexHeight(child, pos, depth - 1)
  }

  /** Following the located child k times (stopping at an absent child). */
  function Descend(t: HeightTree, pos: Vertex, k: nat): HeightTree
    decreases k
  {
    if k == 0 || t.Nil? then t else Descend(Locate(t, pos), pos, k - 1)
  }

  /** At a depth d >= 1 the search looks only at the node reached after d-1 descents. */
  lemma {:induction false} FindIsDescend(t: HeightTree, pos: Vertex, depth: int)
    requires t.Tree? && depth >= 1
    ensures FindVertexHeight(t, pos, depth) ==
      (var n := Descend(t, pos, depth - 1); if n.Nil? then None else FirstNear(n.content, pos))
    decreases t
  {
    if depth > 1 {
      var child := Locate(t, pos);
      if child.Tree? {
        FindIsDescend(child, pos, depth - 1);
      } else {
        DescendNil(pos, depth - 2);
      }
    }
  }

  lemma {:induction false} DescendNil(pos: Vertex, k: nat)
    ensures Descend(Nil, pos, k) == Nil
  {
  }

  /** A non-positive depth never reaches the depth-1 test: the search descends until
      an absent child and reports nothing. */
  lemma {:induction false} FindNonPositiveDepth(t: HeightTree, pos: Vertex, depth: int)
    requires t.Tree? && depth <= 0
    ensures FindVertexHeight(t, pos, depth) == None
    decreases t
  {
    var child := Locate(t, pos);
    if child.Tree? {
      FindNonPositiveDepth(child, pos, depth - 1);
    }
  }

  /** A reported height is the height of a corner, within the detection threshold
      of `pos`, of the node at the requested depth along the located path. */
  lemma FindSound(t: HeightTree, pos: Vertex, depth: int)
    requires t.Tree? && FindVertexHeight(t, pos, depth).Some?
    ensures depth >= 1
    ensures Descend(t, pos, depth - 1).Tree?
    ensures CornerNear(Descend(t, pos, depth - 1).content, pos, FindVertexHeight(t, pos, depth).value)
  {
    if depth <= 0 {
      FindNonPositiveDepth(t, pos, depth);
    }
    FindIsDescend(t, pos, depth);
  }

  // ---------------------------------------------------------------------------
  // evalHeight
  // ---------------------------------------------------------------------------

  /** The height at `pos`: the node's own height (computed by `nodeHeight`), plus
      the blending coefficient times the located child's height when that child exists. */
  function EvalHeight(t: HeightTree, pos: Vertex, nodeHeight: (HeightNode, Vertex) -> real): real
    requires t.Tree?
    decreases t
  {
    var height := nodeHeight(t.content, pos);
    var child := Locate(t, pos);
    if child.Nil? then height else height + BlendingCoefficient * EvalHeight(child, pos, nodeHeight)
  }

  /** The number of nodes on the located path from `t`. */
  function Levels(t: HeightTree, pos: Vertex): nat
    decreases t
  {
    if t.Nil? then 0 else 1 + Levels(Locate(t, pos), pos)
  }

  function Pow(c: real, k: nat): real
  {
    if k == 0 then 1.0 else c * Pow(c, k - 1)
  }

  /** The own height of the node k levels down the located path (0 past its end). */
  function LevelHeight(t: HeightTree, pos: Vertex, nodeHeight: (HeightNode, Vertex) -> real, k: nat): real
  {
    var d := Descend(t, pos, k);
    if d.Nil? then 0.0 else nodeHeight(d.content, pos)
  }

  /** Sum over the first n levels of coefficient^level * own height of that level. */
  function Blended(t: HeightTree, pos: Vertex, nodeHeight: (HeightNode, Vertex) -> real, n: nat): real
  {
    if n == 0 then 0.0
    else Blended(t, pos, nodeHeight, n - 1) + Pow(BlendingCoefficient, n - 1) * LevelHeight(t, pos, nodeHeight, n - 1)
  }

  /** Splitting off the top level of the blended sum. */
  lemma {:induction false} BlendedShift(t: HeightTree, pos: Vertex, nodeHeight: (HeightNode, Vertex) -> real, n: nat)
    requires t.Tree?
    ensures Blended(t, pos, nodeHeight, n + 1) ==
      nodeHeight(t.content, pos) + BlendingCoefficient * Blended(Locate(t, pos), pos, nodeHeight, n)
  {
    if n > 0 {
      var c := Locate(t, pos);
      BlendedShift(t, pos, nodeHeight, n - 1);
      assert Descend(t, pos, n) == Descend(c, pos, n - 1);
      var p := Pow(BlendingCoefficient, n - 1);
      var lh := LevelHeight(c, pos, nodeHeight, n - 1);
      assert LevelHeight(t, pos, nodeHeight, n) == lh;
      assert Pow(BlendingCoefficient, n) * lh == BlendingCoefficient * (p * lh);
    }
  }

  /** The height is the blend of the own heights of every level on the located path,
      the level k steps below `t` weighted by coefficient^k. */
  lemma {:induction false} EvalIsBlended(t: HeightTree, pos: Vertex, nodeHeight: (HeightNode, Vertex) -> real)
    requires t.Tree?
    ensures EvalHeight(t, pos, nodeHeight) == Blended(t, pos, nodeHeight, Levels(t, pos))
    decreases t
  {
    var child := Locate(t, pos);
    if child.Tree? {
      EvalIsBlended(child, pos, nodeHeight);
    }
    BlendedShift(t, pos, nodeHeight, Levels(child, pos));
  }

  // ---------------------------------------------------------------------------
  // Paths into the tree
  // ---------------------------------------------------------------------------

  /** The subtree at `path` (Nil when the path leaves the tree). */
  function At(t: HeightTree, path: seq<Quadrant>): HeightTree
    decreases |path|
  {
    if path == [] then t
    else if t.Nil? then Nil
    else At(t.Child(path[0]), path[1..])
  }

  /** Every node above a node of the tree is a node. */
  lemma {:induction false} AtPrefix(t: HeightTree, path: seq<Quadrant>, k: nat)
    requires At(t, path).Tree? && k <= |path|
    ensures At(t, path[..k]).Tree?
    decreases |path|
  {
    if k > 0 {
      AtOfNil(path);
      assert path[..k][0] == path[0] && path[..k][1..] == path[1..][..k - 1];
      AtPrefix(t.Child(path[0]), path[1..], k - 1);
    }
  }

  /** Nothing is reachable from an absent tree. */
  lemma {:induction false} AtOfNil(path: seq<Quadrant>)
    ensures At(Nil, path) == Nil
  {
  }

  /** `t` with the subtree at `path` replaced by `s` (unchanged when the path leaves the tree). */
  function ReplaceAt(t: HeightTree, path: seq<Quadrant>, s: HeightTree): HeightTree
    decreases |path|
  {
    if path == [] then s
    else if t.Nil? then t
    else t.WithChild(path[0], ReplaceAt(t.Child(path[0]), path[1..], s))
  }

  /** Two paths part at some position: neither subtree contains the other. */
  predicate Diverge(p: seq<Quadrant>, q: seq<Quadrant>)
    decreases |p|
  {
    |p| > 0 && |q| > 0 && (p[0] != q[0] || Diverge(p[1..], q[1..]))
  }

  lemma {:induction false} DivergeExtend(p: seq<Quadrant>, q: seq<Quadrant>, e: Quadrant)
    requires Diverge(p, q)
    ensures Diverge(p, q + [e])
    decreases |p|
  {
    if p[0] == q[0] {
      DivergeExtend(p[1..], q[1..], e);
      assert (q + [e])[1..] == q[1..] + [e];
    }
  }

  lemma SiblingsDiverge(path: seq<Quadrant>, a: Quadrant, b: Quadrant)
    requires a != b
    ensures Diverge(path + [a], path + [b])
    decreases |path|
  {
    if path != [] {
      assert (path + [a])[1..] == path[1..] + [a];
      assert (path + [b])[1..] == path[1..] + [b];
      SiblingsDiverge(path[1..], a, b);
    }
  }

  lemma {:induction false} AtReplaceDiverge(t: HeightTree, path: seq<Quadrant>, s: HeightTree, p: seq<Quadrant>)
    requires Diverge(p, path)
    ensures At(ReplaceAt(t, path, s), p) == At(t, p)
    decreases |path|
  {
    if t.Tree? && p[0] == path[0] {
      AtReplaceDiverge(t.Child(path[0]), path[1..], s, p[1..]);
    }
  }

  lemma {:induction false} AtReplaceBelow(t: HeightTree, path: seq<Quadrant>, s: HeightTree, q: seq<Quadrant>)
    requires At(t, path).Tree?
    ensures At(ReplaceAt(t, path, s), path + q) == At(s, q)
    decreases |path|
  {
    if path == [] {
      assert path + q == q;
    } else {
      assert (path + q)[0] == path[0] && (path + q)[1..] == path[1..] + q;
      AtReplaceBelow(t.Child(path[0]), path[1..], s, q);
    }
  }

  /** Replacing a subtree by one with the same content keeps every node above it
      (and the node itself) in place with its content. */
  lemma {:induction false} AtReplaceAbove(t: HeightTree, path: seq<Quadrant>, s: HeightTree, k: nat)
    requires At(t, path).Tree? && s.Tree? && s.content == At(t, path).content && k <= |path|
    ensures At(t, path[..k]).Tree?
    ensures At(ReplaceAt(t, path, s), path[..k]).Tree?
    ensures At(ReplaceAt(t, path, s), path[..k]).content == At(t, path[..k]).content
    decreases |path|
  {
    if path != [] && k > 0 {
      assert path[..k][0] == path[0] && path[..k][1..] == path[1..][..k - 1];
      AtReplaceAbove(t.Child(path[0]), path[1..], s, k - 1);
    }
  }

  // ---------------------------------------------------------------------------
  // computeTree / computeTreeInternal
  // ---------------------------------------------------------------------------

  /** The collaborators of tree construction: the subdivision test on a depth, the
      closest biome of a position, and the height of a biome. */
  datatype Env = Env(checkSubdivision: int -> bool, closestBiome: Vertex -> Biome, biomeHeight: Biome -> real)

  /** The five samples a subdivision adds. */
  datatype NewSamples = NewSamples(center: HeightData, north: HeightData, south: HeightData,
                                   east: HeightData, west: HeightData)

  /** The five new samples of subdividing `n` at `depth`: centre, north, south, east
      and west positions from the corners; every biome is freshly looked up; the
      north and west heights are taken from a vertex already present at depth+1 of
      `root` when there is one, every other height is freshly computed. */
  function Subdivide(env: Env, root: HeightTree, n: HeightNode, depth: int): NewSamples
    requires root.Tree?
  {
    var tlX, tlY := n.tl.position.x, n.tl.position.y;
    var brX, brY := n.br.position.x, n.br.position.y;
    var centerX, centerY := (tlX + brX) / 2.0, (tlY + brY) / 2.0;
    var centerPos := Vertex(centerX, centerY);
    var northPos := Vertex(centerX, tlY);
    var southPos := Vertex(centerX, brY);
    var eastPos := Vertex(brX, centerY);
    var westPos := Vertex(tlX, centerY);
    var centerBiome := env.closestBiome(centerPos);
    var northBiome := env.closestBiome(northPos);
    var southBiome := env.closestBiome(southPos);
    var eastBiome := env.closestBiome(eastPos);
    var westBiome := env.closestBiome(westPos);
    var northHeight :=
      match FindVertexHeight(root, northPos, depth + 1)
      case Some(h) => h
      case None => env.biomeHeight(northBiome);
    var westHeight :=
      match FindVertexHeight(root, westPos, depth + 1)
      case Some(h) => h
      case None => env.biomeHeight(westBiome);
    NewSamples(
      HeightData(centerPos, env.biomeHeight(centerBiome), centerBiome),
      HeightData(northPos, northHeight, northBiome),
      HeightData(southPos, env.biomeHeight(southBiome), southBiome),
      HeightData(eastPos, env.biomeHeight(eastBiome), eastBiome),
      HeightData(westPos, westHeight, westBiome))
  }

  /** The content of the child in quadrant q: TL(tl, N, W, C), TR(N, tr, C, E),
      BL(W, C, bl, S), BR(C, E, S, br), each of half the parent's width. */
  function ChildContent(n: HeightNode, f: NewSamples, q: Quadrant): HeightNode
  {
    var subSize := (n.br.position.x - n.tl.position.x) / 2.0;
    match q
    case TopLeft => HeightNode(subSize, n.tl, f.north, f.west, f.center)
    case TopRight => HeightNode(subSize, f.north, n.tr, f.center, f.east)
    case BottomLeft => HeightNode(subSize, f.west, f.center, n.bl, f.south)
    case BottomRight => HeightNode(subSize, f.center, f.east, f.south, n.br)
  }

  /** Adjacent children share their edge vertices and all four share the centre. */
  lemma ChildrenShareEdges(n: HeightNode, f: NewSamples)
    ensures ChildContent(n, f, TopLeft).tr == ChildContent(n, f, TopRight).tl == f.north
    ensures ChildContent(n, f, TopLeft).bl == ChildContent(n, f, BottomLeft).tl == f.west
    ensures ChildContent(n, f, TopRight).br == ChildContent(n, f, BottomRight).tr == f.east
    ensures ChildContent(n, f, BottomLeft).br == ChildContent(n, f, BottomRight).bl == f.south
    ensures ChildContent(n, f, TopLeft).br == ChildContent(n, f, TopRight).bl
         == ChildContent(n, f, BottomLeft).tr == ChildContent(n, f, BottomRight).tl == f.center
    ensures forall q :: ChildContent(n, f, q).Data(q) == n.Data(q)
  {
    forall q ensures ChildContent(n, f, q).Data(q) == n.Data(q) {
      match q
      case TopLeft =>
      case TopRight =>
      case BottomLeft =>
      case BottomRight =>
    }
  }

  /** The child chosen by locatePosition for a point of the square is the child
      square, built by the subdivision, that contains the point. */
  lemma LocateContains(env: Env, root: HeightTree, n: HeightNode, depth: int, pos: Vertex)
    requires root.Tree? && InSquare(n, pos)
    ensures InSquare(ChildContent(n, Subdivide(env, root, n, depth), QuadrantOf(n, pos)), pos)
  {
  }

  /** The north and west heights are the heights found at depth+1 of the tree when
      the search succeeds, and fresh only when it fails; a reused height is that of a
      corner near the point on the located path. The other heights are always fresh,
      and every biome is freshly looked up. */
  lemma SubdivideHeights(env: Env, root: HeightTree, n: HeightNode, depth: int)
    requires root.Tree? && depth >= 0
    ensures var f := Subdivide(env, root, n, depth);
      && f.center.height == env.biomeHeight(f.center.biome)
      && f.south.height == env.biomeHeight(f.south.biome)
      && f.east.height == env.biomeHeight(f.east.biome)
      && (forall s :: s in [f.center, f.north, f.south, f.east, f.west] ==> s.biome == env.closestBiome(s.position))
      && (FindVertexHeight(root, f.north.position, depth + 1).Some? ==>
            f.north.height == FindVertexHeight(root, f.north.position, depth + 1).value)
      && (FindVertexHeight(root, f.north.position, depth + 1).None? ==>
            f.north.height == env.biomeHeight(f.north.biome))
      && (FindVertexHeight(root, f.west.position, depth + 1).Some? ==>
            f.west.height == FindVertexHeight(root, f.west.position, depth + 1).value)
      && (FindVertexHeight(root, f.west.position, depth + 1).None? ==>
            f.west.height == env.biomeHeight(f.west.biome))
      && (f.north.height == env.biomeHeight(f.north.biome)
          || (Descend(root, f.north.position, depth).Tree?
              && CornerNear(Descend(root, f.north.position, depth).content, f.north.position, f.north.height)))
      && (f.west.height == env.biomeHeight(f.west.biome)
          || (Descend(root, f.west.position, depth).Tree?
              && CornerNear(Descend(root, f.west.position, depth).content, f.west.position, f.west.height)))
  {
    var f := Subdivide(env, root, n, depth);
    if FindVertexHeight(root, f.north.position, depth + 1).Some? {
      FindSound(root, f.north.position, depth + 1);
    }
    if FindVertexHeight(root, f.west.position, depth + 1).Some? {
      FindSound(root, f.west.position, depth + 1);
    }
  }

  /** Subdivides the node at `path` of `root` when the subdivision test holds at
      `depth`, replacing its children by four leaves, then builds the four children
      in TL, TR, BL, BR order at depth+1; the updated whole tree is returned.
      `maxDepth` is a depth at or below the current one in the tree (depth <= maxDepth) at which the test fails:
      every path of the recursion stops there at the latest. */
  function ComputeInternal(env: Env, root: HeightTree, path: seq<Quadrant>, depth: int, maxDepth: int): (r: HeightTree)
    requires depth <= maxDepth && !env.checkSubdivision(maxDepth)
    ensures !env.checkSubdivision(depth) ==> r == root
    decreases maxDepth - depth
  {
    if !env.checkSubdivision(depth) then root
    else
      var node := At(root, path);
      if node.Nil? then root
      else
        AtOfNil(path);
        var n := node.content;
        var f := Subdivide(env, root, n, depth);
        var built := Tree(n, Leaf(ChildContent(n, f, TopLeft)), Leaf(ChildContent(n, f, TopRight)),
                             Leaf(ChildContent(n, f, BottomLeft)), Leaf(ChildContent(n, f, BottomRight)));
        var r0 := ReplaceAt(root, path, built);
        var r1 := ComputeInternal(env, r0, path + [TopLeft], depth + 1, maxDepth);
        var r2 := ComputeInternal(env, r1, path + [TopRight], depth + 1, maxDepth);
        var r3 := ComputeInternal(env, r2, path + [BottomLeft], depth + 1, maxDepth);
        ComputeInternal(env, r3, path + [BottomRight], depth + 1, maxDepth)
  }

  /** Building the tree from its root, at depth 1. */
  function ComputeTree(env: Env, t: HeightTree, maxDepth: int): (r: HeightTree)
    requires t.Tree?
    requires 1 <= maxDepth && !env.checkSubdivision(maxDepth)
    ensures r.Tree? && r.content == t.content
  {
    ComputeKeepsAbove(env, t, [], 1, maxDepth, 0);
    ComputeInternal(env, t, [], 1, maxDepth)
  }

  /** Building at `path` leaves every subtree off that path untouched. */
  lemma {:induction false} ComputeKeepsOthers(env: Env, root: HeightTree, path: seq<Quadrant>, depth: int,
                                              maxDepth: int, p: seq<Quadrant>)
    requires depth <= maxDepth && !env.checkSubdivision(maxDepth)
    requires Diverge(p, path)
    ensures At(ComputeInternal(env, root, path, depth, maxDepth), p) == At(root, p)
    decreases maxDepth - depth
  {
    if env.checkSubdivision(depth) && At(root, path).Tree? {
      var n := At(root, path).content;
      AtOfNil(path);
      var f := Subdivide(env, root, n, depth);
      var built := Tree(n, Leaf(ChildContent(n, f, TopLeft)), Leaf(ChildContent(n, f, TopRight)),
                           Leaf(ChildContent(n, f, BottomLeft)), Leaf(ChildContent(n, f, BottomRight)));
      var r0 := ReplaceAt(root, path, built);
      AtReplaceDiverge(root, path, built, p);
      var r1 := ComputeInternal(env, r0, path + [TopLeft], depth + 1, maxDepth);
      var r2 := ComputeInternal(env, r1, path + [TopRight], depth + 1, maxDepth);
      var r3 := ComputeInternal(env, r2, path + [BottomLeft], depth + 1, maxDepth);
      DivergeExtend(p, path, TopLeft);
      DivergeExtend(p, path, TopRight);
      DivergeExtend(p, path, BottomLeft);
      DivergeExtend(p, path, BottomRight);
      ComputeKeepsOthers(env, r0, path + [TopLeft], depth + 1, maxDepth, p);
      ComputeKeepsOthers(env, r1, path + [TopRight], depth + 1, maxDepth, p);
      ComputeKeepsOthers(env, r2, path + [BottomLeft], depth + 1, maxDepth, p);
      ComputeKeepsOthers(env, r3, path + [BottomRight], depth + 1, maxDepth, p);
    }
  }

  /** Building at `path` keeps the node there, and every node above it, with its content. */
  lemma {:induction false} ComputeKeepsAbove(env: Env, root: HeightTree, path: seq<Quadrant>, depth: int,
                                             maxDepth: int, k: nat)
    requires depth <= maxDepth && !env.checkSubdivision(maxDepth)
    requires At(root, path).Tree? && k <= |path|
    ensures At(root, path[..k]).Tree?
    ensures At(ComputeInternal(env, root, path, depth, maxDepth), path[..k]).Tree?
    ensures At(ComputeInternal(env, root, path, depth, maxDepth), path[..k]).content == At(root, path[..k]).content
    decreases maxDepth - depth
  {
    AtPrefix(root, path, k);
    if env.checkSubdivision(depth) {
      assert depth + 1 <= maxDepth;
      var n := At(root, path).content;
      AtOfNil(path);
      var f := Subdivide(env, root, n, depth);
      var built := Tree(n, Leaf(ChildContent(n, f, TopLeft)), Leaf(ChildContent(n, f, TopRight)),
                           Leaf(ChildContent(n, f, BottomLeft)), Leaf(ChildContent(n, f, BottomRight)));
      var r0 := ReplaceAt(root, path, built);
      AtReplaceAbove(root, path, built, k);
      var r1 := ComputeInternal(env, r0, path + [TopLeft], depth + 1, maxDepth);
      var r2 := ComputeInternal(env, r1, path + [TopRight], depth + 1, maxDepth);
      var r3 := ComputeInternal(env, r2, path + [BottomLeft], depth + 1, maxDepth);
      LeavesAfterReplace(root, path, built);
      SiblingsDiverge(path, TopRight, TopLeft);
      SiblingsDiverge(path, BottomLeft, TopLeft);
      SiblingsDiverge(path, BottomLeft, TopRight);
      SiblingsDiverge(path, BottomRight, TopLeft);
      SiblingsDiverge(path, BottomRight, TopRight);
      SiblingsDiverge(path, BottomRight, BottomLeft);
      ComputeKeepsOthers(env, r0, path + [TopLeft], depth + 1, maxDepth, path + [TopRight]);
      ComputeKeepsOthers(env, r0, path + [TopLeft], depth + 1, maxDepth, path + [BottomLeft]);
      ComputeKeepsOthers(env, r0, path + [TopLeft], depth + 1, maxDepth, path + [BottomRight]);
      ComputeKeepsOthers(env, r1, path + [TopRight], depth + 1, maxDepth, path + [BottomLeft]);
      ComputeKeepsOthers(env, r1, path + [TopRight], depth + 1, maxDepth, path + [BottomRight]);
      ComputeKeepsOthers(env, r2, path + [BottomLeft], depth + 1, maxDepth, path + [BottomRight]);
      PrefixOfChild(path, TopLeft, k);
      PrefixOfChild(path, TopRight, k);
      PrefixOfChild(path, BottomLeft, k);
      PrefixOfChild(path, BottomRight, k);
      ComputeKeepsAbove(env, r0, path + [TopLeft], depth + 1, maxDepth, k);
      ComputeKeepsAbove(env, r1, path + [TopRight], depth + 1, maxDepth, k);
      ComputeKeepsAbove(env, r2, path + [BottomLeft], depth + 1, maxDepth, k);
      ComputeKeepsAbove(env, r3, path + [BottomRight], depth + 1, maxDepth, k);
    }
  }

  lemma PrefixOfChild(path: seq<Quadrant>, q: Quadrant, k: nat)
    requires k <= |path|
    ensures (path + [q])[..k] == path[..k]
  {
  }

  /** Right after the replacement, the four children of the node at `path` are the new leaves. */
  lemma LeavesAfterReplace(root: HeightTree, path: seq<Quadrant>, built: HeightTree)
    requires At(root, path).Tree? && built.Tree?
    ensures forall q :: At(ReplaceAt(root, path, built), path + [q]) == built.Child(q)
  {
    forall q ensures At(ReplaceAt(root, path, built), path + [q]) == built.Child(q) {
      AtReplaceBelow(root, path, built, [q]);
      assert At(built.Child(q), []) == built.Child(q);
    }
  }

  /** When the test holds at `depth`, the node at `path` ends up with four children
      whose contents are the subdivision of its square, with the new samples computed
      against the tree as it was when the node was reached. */
  lemma ComputeChildren(env: Env, root: HeightTree, path: seq<Quadrant>, depth: int, maxDepth: int, q: Quadrant)
    requires depth <= maxDepth && !env.checkSubdivision(maxDepth)
    requires env.checkSubdivision(depth) && At(root, path).Tree?
    ensures root.Tree?
    ensures var n := At(root, path).content;
      && At(ComputeInternal(env, root, path, depth, maxDepth), path + [q]).Tree?
      && At(ComputeInternal(env, root, path, depth, maxDepth), path + [q]).content
         == ChildContent(n, Subdivide(env, root, n, depth), q)
  {
    AtOfNil(path);
    var n := At(root, path).content;
    var f := Subdivide(env, root, n, depth);
    var built := Tree(n, Leaf(ChildContent(n, f, TopLeft)), Leaf(ChildContent(n, f, TopRight)),
                         Leaf(ChildContent(n, f, BottomLeft)), Leaf(ChildContent(n, f, BottomRight)));
    var r0 := ReplaceAt(root, path, built);
    var r1 := ComputeInternal(env, r0, path + [TopLeft], depth + 1, maxDepth);
    var r2 := ComputeInternal(env, r1, path + [TopRight], depth + 1, maxDepth);
    var r3 := ComputeInternal(env, r2, path + [BottomLeft], depth + 1, maxDepth);
    var r4 := ComputeInternal(env, r3, path + [BottomRight], depth + 1, maxDepth);
    var here := path + [q];
    LeavesAfterReplace(root, path, built);
    assert At(r0, here) == Leaf(ChildContent(n, f, q)) by {
      match q
      case TopLeft =>
      case TopRight =>
      case BottomLeft =>
      case BottomRight =>
    }
    var full := |here|;
    assert here[..full] == here;
    // Each of the four builds either is the build of `here` (which keeps its
    // content) or runs on a sibling path (which leaves `here` alone).
    StepKeeps(env, r0, path, TopLeft, depth + 1, maxDepth, q);
    StepKeeps(env, r1, path, TopRight, depth + 1, maxDepth, q);
    StepKeeps(env, r2, path, BottomLeft, depth + 1, maxDepth, q);
    StepKeeps(env, r3, path, BottomRight, depth + 1, maxDepth, q);
  }

  /** Building child `b` of the node at `path` keeps child `q` a node with its content. */
  lemma StepKeeps(env: Env, t: HeightTree, path: seq<Quadrant>, b: Quadrant, depth: int, maxDepth: int, q: Quadrant)
    requires depth <= maxDepth && !env.checkSubdivision(maxDepth)
    requires At(t, path + [q]).Tree?
    ensures At(ComputeInternal(env, t, path + [b], depth, maxDepth), path + [q]).Tree?
    ensures At(ComputeInternal(env, t, path + [b], depth, maxDepth), path + [q]).content == At(t, path + [q]).content
  {
    var here := path + [q];
    if b == q {
      assert here[..|here|] == here;
      ComputeKeepsAbove(env, t, here, depth, maxDepth, |here|);
    } else {
      SiblingsDiverge(path, q, b);
      ComputeKeepsOthers(env, t, path + [b], depth, maxDepth, here);
    }
  }
}
