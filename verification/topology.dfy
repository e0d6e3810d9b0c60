/**
  The index-based mesh of `Planet`: `m_Vertices` is a growing list of positions
  and `m_Polygons` a list of index triples into it. Positions are kept abstract:
  a position records how it was built, not its floating-point coordinates.
 */
module Topology {

  /**
    A coordinate of the unnormalised icosahedron, `ones + phis * t` where `t` is
    the golden ratio computed at Planet.cs:183.
   */
  datatype Coord = Coord(ones: int, phis: int)

  /**
    An abstract vertex position. `Corner(x, y, z)` stands for
    `new Vector3(x, y, z).normalized`; `Midpoint(p, q)` stands for
    `Vector3.Lerp(p, q, 0.5f).normalized`.
   */
  datatype Point = Corner(x: Coord, y: Coord, z: Coord) | Midpoint(p: Point, q: Point)

  /** `v` is the re-normalised midpoint of `p` and `q`, in either order. */
  predicate IsMidpointOf(v: Point, p: Point, q: Point)
  {
    v == Midpoint(p, q) || v == Midpoint(q, p)
  }

  /** A triangle as three vertex indices, in winding order. */
  datatype Polygon = Polygon(a: nat, b: nat, c: nat) {

    /** `m_Vertices[k]` of the polygon. */
    function Vertex(k: nat): nat
      requires k < 3
    {
      if k == 0 then a else if k == 1 then b else c
    }

    /** Every index of the polygon refers to one of `count` vertices. */
    predicate ValidIn(count: nat)
    {
      a < count && b < count && c < count
    }

    /** The three corners are different vertices. */
    predicate NonDegenerate()
    {
      a != b && b != c && c != a
    }
  }

  /** Side `k` of a triangle as the directed edge from its `k`-th to its next corner. */
  function Edge(p: Polygon, k: nat): (nat, nat)
    requires k < 3
  {
    if k == 0 then (p.a, p.b) else if k == 1 then (p.b, p.c) else (p.c, p.a)
  }

  function Reverse(e: (nat, nat)): (nat, nat)
  {
    (e.1, e.0)
  }

  datatype Mesh = Mesh(vertices: seq<Point>, polygons: seq<Polygon>)

  /** Every polygon index is a position of a vertex list of length `count`. */
  predicate ValidIndices(polygons: seq<Polygon>, count: nat)
  {
    forall i | 0 <= i < |polygons| :: polygons[i].ValidIn(count)
  }

  predicate Valid(m: Mesh)
  {
    ValidIndices(m.polygons, |m.vertices|)
  }

  /** Validity survives a longer vertex list. */
  lemma ValidIndicesMonotonic(polygons: seq<Polygon>, count: nat, count': nat)
    requires ValidIndices(polygons, count) && count <= count'
    ensures ValidIndices(polygons, count')
  {
  }

  /** `4^n`, the factor by which `n` subdivision passes multiply the polygon count. */
  function Pow4(n: nat): (r: nat)
    ensures r >= 1
  {
    if n == 0 then 1 else 4 * Pow4(n - 1)
  }
}
