/**
  `InitAsIcosohedron`: the constant base polyhedron, twelve corners of three
  mutually orthogonal golden rectangles and twenty triangles over them.
 */
module Icosahedron {
  import opened Topology

  // Coordinates of the unnormalised corners: 0, +-1 and +-t.
  const Zero: Coord := Coord(0, 0)
  const One: Coord := Coord(1, 0)
  const MinusOne: Coord := Coord(-1, 0)
  const T: Coord := Coord(0, 1)
  const MinusT: Coord := Coord(0, -1)

  /** Corner `i` in the order the corners are added to `m_Vertices` (the origin past the end of the table). */
  function CornerAt(i: nat): (p: Point)
    ensures i < 12 ==> OnGoldenRectangle(p)
  {
    match i
    case 0 => Corner(MinusOne, T, Zero)
    case 1 => Corner(One, T, Zero)
    case 2 => Corner(MinusOne, MinusT, Zero)
    case 3 => Corner(One, MinusT, Zero)
    case 4 => Corner(Zero, MinusOne, T)
    case 5 => Corner(Zero, One, T)
    case 6 => Corner(Zero, MinusOne, MinusT)
    case 7 => Corner(Zero, One, MinusT)
    case 8 => Corner(T, Zero, MinusOne)
    case 9 => Corner(T, Zero, One)
    case 10 => Corner(MinusT, Zero, MinusOne)
    case 11 => Corner(MinusT, Zero, One)
    case _ => Corner(Zero, Zero, Zero)
  }

  /** Triangle `i` in the order the triangles are added to `m_Polygons` (a degenerate one past the end of the table). */
  function Face(i: nat): (p: Polygon)
    ensures i < 20 ==> p.ValidIn(12) && p.NonDegenerate()
  {
    match i
    case 0 => Polygon(0, 11, 5)
    case 1 => Polygon(0, 5, 1)
    case 2 => Polygon(0, 1, 7)
    case 3 => Polygon(0, 7, 10)
    case 4 => Polygon(0, 10, 11)
    case 5 => Polygon(1, 5, 9)
    case 6 => Polygon(5, 11, 4)
    case 7 => Polygon(11, 10, 2)
    case 8 => Polygon(10, 7, 6)
    case 9 => Polygon(7, 1, 8)
    case 10 => Polygon(3, 9, 4)
    case 11 => Polygon(3, 4, 2)
    case 12 => Polygon(3, 2, 6)
    case 13 => Polygon(3, 6, 8)
    case 14 => Polygon(3, 8, 9)
    case 15 => Polygon(4, 9, 5)
    case 16 => Polygon(2, 4, 11)
    case 17 => Polygon(6, 2, 10)
    case 18 => Polygon(8, 6, 7)
    case 19 => Polygon(9, 8, 1)
    case _ => Polygon(0, 0, 0)
  }

  function InitAsIcosohedron(): (m: Mesh)
    ensures |m.vertices| == 12 && |m.polygons| == 20
    ensures Valid(m)
    ensures forall i | 0 <= i < |m.polygons| :: m.polygons[i].NonDegenerate()
    ensures forall i | 0 <= i < |m.vertices| :: m.vertices[i].Corner?
  {
    Mesh(seq(12, i requires 0 <= i < 12 => CornerAt(i)), seq(20, i requires 0 <= i < 20 => Face(i)))
  }

  // ---------------------------------------------------------------------------
  // Geometry of the unnormalised corners.

  predicate IsUnit(c: Coord)
  {
    c == One || c == MinusOne
  }

  predicate IsGolden(c: Coord)
  {
    c == T || c == MinusT
  }

  /**
    `p` is a corner of one of the three mutually orthogonal 2 x 2t rectangles:
    its coordinates are `(+-1, +-t, 0)` rotated cyclically.
   */
  predicate OnGoldenRectangle(p: Point)
  {
    p.Corner? &&
    ((IsUnit(p.x) && IsGolden(p.y) && p.z == Zero) ||
     (p.x == Zero && IsUnit(p.y) && IsGolden(p.z)) ||
     (IsGolden(p.x) && p.y == Zero && IsUnit(p.z)))
  }

  /** The twelve corners are distinct corners of the golden rectangles. */
  lemma IcosahedronCorners()
    ensures var m := InitAsIcosohedron();
      && (forall i, j | 0 <= i < j < |m.vertices| :: m.vertices[i] != m.vertices[j])
      && (forall i | 0 <= i < |m.vertices| :: OnGoldenRectangle(m.vertices[i]))
  {
  }

  // ---------------------------------------------------------------------------
  // Directed edges and winding.

  /** No directed edge is used twice. */
  predicate DirectedEdgesUnique(polygons: seq<Polygon>)
  {
    forall i, k, j, l | 0 <= i < |polygons| && 0 <= k < 3 && 0 <= j < |polygons| && 0 <= l < 3 ::
      Edge(polygons[i], k) == Edge(polygons[j], l) ==> i == j && k == l
  }

  /** Some side of some polygon is the directed edge `e`. */
  predicate IsSide(polygons: seq<Polygon>, e: (nat, nat))
  {
    exists j, l | 0 <= j < |polygons| && 0 <= l < 3 :: Edge(polygons[j], l) == e
  }

  /** Every directed edge is matched by the opposite edge of some polygon. */
  predicate DirectedEdgesPaired(polygons: seq<Polygon>)
  {
    forall i, k | 0 <= i < |polygons| && 0 <= k < 3 :: IsSide(polygons, Reverse(Edge(polygons[i], k)))
  }

  /**
    Consistent winding of a closed surface: every undirected edge lies in
    exactly two polygons, which traverse it in opposite directions.
   */
  predicate ConsistentlyWound(polygons: seq<Polygon>)
  {
    DirectedEdgesUnique(polygons) && DirectedEdgesPaired(polygons)
  }

  /** Number of sides `u -> v` with `u < v` among the first `n` polygons: one per undirected edge. */
  function ForwardEdges(polygons: seq<Polygon>, n: nat): nat
    requires n <= |polygons|
  {
    if n == 0 then 0
    else
      var p := polygons[n - 1];
      ForwardEdges(polygons, n - 1)
        + (if p.a < p.b then 1 else 0) + (if p.b < p.c then 1 else 0) + (if p.c < p.a then 1 else 0)
  }

  /** The face and side that hold the directed edge `u -> v` of the icosahedron (`(20, 0)` for none). */
  function SideOf(e: (nat, nat)): (nat, nat)
  {
    match e.0
    case 0 =>
      (match e.1
      case 1 => (2, 0)
      case 5 => (1, 0)
      case 7 => (3, 0)
      case 10 => (4, 0)
      case 11 => (0, 0)
      case _ => (20, 0))
    case 1 =>
      (match e.1
      case 0 => (1, 2)
      case 5 => (5, 0)
      case 7 => (2, 1)
      case 8 => (9, 1)
      case 9 => (19, 2)
      case _ => (20, 0))
    case 2 =>
      (match e.1
      case 3 => (11, 2)
      case 4 => (16, 0)
      case 6 => (12, 1)
      case 10 => (17, 1)
      case 11 => (7, 2)
      case _ => (20, 0))
    case 3 =>
      (match e.1
      case 2 => (12, 0)
      case 4 => (11, 0)
      case 6 => (13, 0)
      case 8 => (14, 0)
      case 9 => (10, 0)
      case _ => (20, 0))
    case 4 =>
      (match e.1
      case 2 => (11, 1)
      case 3 => (10, 2)
      case 5 => (6, 2)
      case 9 => (15, 0)
      case 11 => (16, 1)
      case _ => (20, 0))
    case 5 =>
      (match e.1
      case 0 => (0, 2)
      case 1 => (1, 1)
      case 4 => (15, 2)
      case 9 => (5, 1)
      case 11 => (6, 0)
      case _ => (20, 0))
    case 6 =>
      (match e.1
      case 2 => (17, 0)
      case 3 => (12, 2)
      case 7 => (18, 1)
      case 8 => (13, 1)
      case 10 => (8, 2)
      case _ => (20, 0))
    case 7 =>
      (match e.1
      case 0 => (2, 2)
      case 1 => (9, 0)
      case 6 => (8, 1)
      case 8 => (18, 2)
      case 10 => (3, 1)
      case _ => (20, 0))
    case 8 =>
      (match e.1
      case 1 => (19, 1)
      case 3 => (13, 2)
      case 6 => (18, 0)
      case 7 => (9, 2)
      case 9 => (14, 1)
      case _ => (20, 0))
    case 9 =>
      (match e.1
      case 1 => (5, 2)
      case 3 => (14, 2)
      case 4 => (10, 1)
      case 5 => (15, 1)
      case 8 => (19, 0)
      case _ => (20, 0))
    case 10 =>
      (match e.1
      case 0 => (3, 2)
      case 2 => (7, 1)
      case 6 => (17, 2)
      case 7 => (8, 0)
      case 11 => (4, 1)
      case _ => (20, 0))
    case 11 =>
      (match e.1
      case 0 => (4, 2)
      case 2 => (16, 2)
      case 4 => (6, 1)
      case 5 => (0, 1)
      case 10 => (7, 0)
      case _ => (20, 0))
    case _ => (20, 0)
  }

  /** `SideOf` finds side `k` of face `i` again: no directed edge is used twice. */
  lemma SideOfInverts(i: nat, k: nat)
    requires i < 20 && k < 3
    ensures SideOf(Edge(Face(i), k)) == (i, k)
  {
  }

  /** For side `k` of face `i`, the face and side that run along the same edge the other way. */
  function Across(i: nat, k: nat): (nat, nat)
  {
    match i
    case 0 =>
      (if k == 0 then (4, 2) else if k == 1 then (6, 0) else (1, 0))
    case 1 =>
      (if k == 0 then (0, 2) else if k == 1 then (5, 0) else (2, 0))
    case 2 =>
      (if k == 0 then (1, 2) else if k == 1 then (9, 0) else (3, 0))
    case 3 =>
      (if k == 0 then (2, 2) else if k == 1 then (8, 0) else (4, 0))
    case 4 =>
      (if k == 0 then (3, 2) else if k == 1 then (7, 0) else (0, 0))
    case 5 =>
      (if k == 0 then (1, 1) else if k == 1 then (15, 1) else (19, 2))
    case 6 =>
      (if k == 0 then (0, 1) else if k == 1 then (16, 1) else (15, 2))
    case 7 =>
      (if k == 0 then (4, 1) else if k == 1 then (17, 1) else (16, 2))
    case 8 =>
      (if k == 0 then (3, 1) else if k == 1 then (18, 1) else (17, 2))
    case 9 =>
      (if k == 0 then (2, 1) else if k == 1 then (19, 1) else (18, 2))
    case 10 =>
      (if k == 0 then (14, 2) else if k == 1 then (15, 0) else (11, 0))
    case 11 =>
      (if k == 0 then (10, 2) else if k == 1 then (16, 0) else (12, 0))
    case 12 =>
      (if k == 0 then (11, 2) else if k == 1 then (17, 0) else (13, 0))
    case 13 =>
      (if k == 0 then (12, 2) else if k == 1 then (18, 0) else (14, 0))
    case 14 =>
      (if k == 0 then (13, 2) else if k == 1 then (19, 0) else (10, 0))
    case 15 =>
      (if k == 0 then (10, 1) else if k == 1 then (5, 1) else (6, 2))
    case 16 =>
      (if k == 0 then (11, 1) else if k == 1 then (6, 1) else (7, 2))
    case 17 =>
      (if k == 0 then (12, 1) else if k == 1 then (7, 1) else (8, 2))
    case 18 =>
      (if k == 0 then (13, 1) else if k == 1 then (8, 1) else (9, 2))
    case 19 =>
      (if k == 0 then (14, 1) else if k == 1 then (9, 1) else (5, 2))
    case _ => (20, 0)
  }

  lemma AcrossReverses(i: nat, k: nat)
    requires i < 20 && k < 3
    ensures Across(i, k).0 < 20 && Across(i, k).1 < 3
    ensures Edge(Face(Across(i, k).0), Across(i, k).1) == Reverse(Edge(Face(i), k))
  {
  }

  lemma IcosahedronEdgesUnique()
    ensures DirectedEdgesUnique(InitAsIcosohedron().polygons)
  {
    var polys := InitAsIcosohedron().polygons;
    forall i, k, j, l | 0 <= i < |polys| && 0 <= k < 3 && 0 <= j < |polys| && 0 <= l < 3 && Edge(polys[i], k) == Edge(polys[j], l)
      ensures i == j && k == l
    {
      SideOfInverts(i, k);
      SideOfInverts(j, l);
    }
  }

  lemma IcosahedronEdgesPaired()
    ensures DirectedEdgesPaired(InitAsIcosohedron().polygons)
  {
    var polys := InitAsIcosohedron().polygons;
    forall i, k | 0 <= i < |polys| && 0 <= k < 3
      ensures IsSide(polys, Reverse(Edge(polys[i], k)))
    {
      AcrossReverses(i, k);
      var (j, l) := Across(i, k);
      assert 0 <= j < |polys| && 0 <= l < 3;
      assert Edge(polys[j], l) == Reverse(Edge(polys[i], k));
    }
  }

  /**
    The twenty faces are wound consistently: each edge of the icosahedron lies
    in two faces, once in each direction.
   */
  lemma IcosahedronWinding()
    ensures ConsistentlyWound(InitAsIcosohedron().polygons)
  {
    IcosahedronEdgesUnique();
    IcosahedronEdgesPaired();
  }

  /** The icosahedron has 30 edges; the sum is evaluated face by face. */
  lemma IcosahedronEdgeCount()
    ensures ForwardEdges(InitAsIcosohedron().polygons, 20) == 30
  {
    var polys := InitAsIcosohedron().polygons;
    assert ForwardEdges(polys, 1) == 1;
    assert ForwardEdges(polys, 2) == 2;
    assert ForwardEdges(polys, 3) == 4;
    assert ForwardEdges(polys, 4) == 6;
    assert ForwardEdges(polys, 5) == 8;
    assert ForwardEdges(polys, 6) == 10;
    assert ForwardEdges(polys, 7) == 12;
    assert ForwardEdges(polys, 8) == 13;
    assert ForwardEdges(polys, 9) == 14;
    assert ForwardEdges(polys, 10) == 15;
    assert ForwardEdges(polys, 11) == 16;
    assert ForwardEdges(polys, 12) == 18;
    assert ForwardEdges(polys, 13) == 19;
    assert ForwardEdges(polys, 14) == 21;
    assert ForwardEdges(polys, 15) == 23;
    assert ForwardEdges(polys, 16) == 24;
    assert ForwardEdges(polys, 17) == 26;
    assert ForwardEdges(polys, 18) == 27;
    assert ForwardEdges(polys, 19) == 29;
    assert ForwardEdges(polys, 20) == 30;
  }
}
