/**
  The pipeline `Start` runs (Planet.cs:42-52): the icosahedron, `Subdivisions`
  passes of subdivision, then `GenerateMesh`. It also holds the facts that
  follow for the icosphere of a given depth.
 */
module Planet {
  import opened Keys
  import opened Topology
  import opened Icosahedron
  import opened Subdivision
  import opened Height
  import opened Assembly

  /** The inspector fields the pipeline reads (Planet.cs:16-33). */
  datatype PlanetConfig = PlanetConfig(subdivisions: int, mesh: Config)

  /** The pass count `Subdivide` actually runs: none for a count of zero or less. */
  function Depth(subdivisions: int): nat
  {
    if subdivisions > 0 then subdivisions else 0
  }

  /**
    `InitAsIcosohedron()` followed by `Subdivide(subdivisions)`: a valid mesh of
    `20 * 4^depth` polygons that keeps the 12 corners in front and has at most
    `20 * 4^depth - 8` vertices.
   */
  function Icosphere(subdivisions: int): (m: Mesh)
    ensures Valid(m)
    ensures InitAsIcosohedron().vertices <= m.vertices
    ensures |m.polygons| == 20 * Pow4(Depth(subdivisions))
    ensures |m.vertices| + 8 <= |m.polygons|
  {
    Subdivide(InitAsIcosohedron(), subdivisions)
  }

  lemma {:induction false} Pow4Monotonic(a: nat, b: nat)
    requires a <= b
    ensures Pow4(a) <= Pow4(b)
    decreases b
  {
    if a < b {
      Pow4Monotonic(a, b - 1);
    }
  }

  /**
    Up to depth 6 every pass starts from at most 2^16 vertices, so the inner
    child of each split polygon has the midpoints of its parent's sides as
    corners.
   */
  lemma IcosphereMidpoints(depth: int, i: nat)
    requires 1 <= depth <= 6
    requires i < |Icosphere(depth - 1).polygons|
    ensures var before, after := Icosphere(depth - 1), Icosphere(depth);
            MidpointsPlaced(before.polygons[i], after.polygons, 4 * i, after.vertices)
  {
    Pow4Monotonic(depth - 1, 5);
    assert Pow4(5) == 1024;
    SubdividePlacesMidpoints(InitAsIcosohedron(), depth, i);
  }

  /**
    At every depth, two polygons of the previous depth that share a side put
    one and the same vertex on it.
   */
  lemma IcosphereWelds(depth: int, i: nat, k: nat, j: nat, l: nat)
    requires depth >= 1
    requires var before := Icosphere(depth - 1);
             && i < |before.polygons| && j < |before.polygons| && k < 3 && l < 3
             && SameSide(before.polygons[i], k, before.polygons[j], l)
    ensures var after := Icosphere(depth);
            SideMidpoint(after.polygons, i, k) == SideMidpoint(after.polygons, j, l)
  {
    SubdivideWelds(InitAsIcosohedron(), depth, i, k, j, l);
  }

  /**
    `Start`: the buffers handed to Unity hold `60 * 4^depth` corners with
    sequential indices; with `generate` off they are the icosphere's corners,
    all white.
   */
  method Start(config: PlanetConfig, place: Point -> Vec3, prims: Primitives) returns (b: Buffers)
    ensures |b.vertices| == 60 * Pow4(Depth(config.subdivisions))
    ensures |b.indices| == |b.vertices| && |b.colors| == |b.vertices|
    ensures forall j | 0 <= j < |b.indices| :: b.indices[j] == j
    ensures var m := Icosphere(config.subdivisions);
            var flat := FlatCorners(m.vertices, m.polygons);
            !config.mesh.generate ==>
              && (forall j | 0 <= j < |flat| :: b.vertices[j] == place(flat[j]))
              && (forall j | 0 <= j < |b.colors| :: b.colors[j] == White)
  {
    var m := Icosphere(config.subdivisions);
    b := GenerateMesh(m, place, config.mesh, prims);
  }
}
