/**
  `GenerateMesh` (Planet.cs:117-175): the indexed mesh is flattened into
  unshared buffers of three corners per triangle with sequential indices.
  Then either every corner is displaced by the height generator, coloured by
  its displacement and roughened, or every colour is white and the corners
  stay where they are.
 */
module Assembly {
  import opened Topology
  import opened Height

  /**
    A vertex colour. `Graded(before, after)` stands for
    `coloring.Evaluate(Vector3.Distance(before, after) / Max_Height)`; the
    gradient is not part of this model.
   */
  datatype Color = White | Graded(before: Vec3, after: Vec3)

  /** The arrays handed to the Unity mesh: positions, triangle indices, colours. */
  datatype Buffers = Buffers(vertices: seq<Vec3>, indices: seq<int>, colors: seq<Color>)

  /** The corners of every polygon in order, as a reference for `Flatten`. */
  function FlatCorners<V>(positions: seq<V>, polygons: seq<Polygon>): (r: seq<V>)
    requires ValidIndices(polygons, |positions|)
    ensures |r| == 3 * |polygons|
    decreases |polygons|
  {
    if |polygons| == 0 then
      []
    else
      var p := polygons[0];
      assert forall i | 0 <= i < |polygons| - 1 :: polygons[1..][i] == polygons[i + 1];
      [positions[p.a], positions[p.b], positions[p.c]] + FlatCorners(positions, polygons[1..])
  }

  /** Entry `3i + k` of the reference list is corner `k` of polygon `i`. */
  lemma {:induction false} FlatCornersAt<V>(positions: seq<V>, polygons: seq<Polygon>, i: nat, k: nat)
    requires ValidIndices(polygons, |positions|) && i < |polygons| && k < 3
    ensures FlatCorners(positions, polygons)[3 * i + k] == positions[polygons[i].Vertex(k)]
    decreases i
  {
    if i > 0 {
      assert ValidIndices(polygons[1..], |positions|) by {
        assert forall j | 0 <= j < |polygons| - 1 :: polygons[1..][j] == polygons[j + 1];
      }
      FlatCornersAt(positions, polygons[1..], i - 1, k);
      assert polygons[1..][i - 1] == polygons[i];
    }
  }

  /**
    The first loop of `GenerateMesh` (Planet.cs:122-141): `indices[j] == j`,
    and slot `3i + k` holds the position of corner `k` of polygon `i`.
   */
  method Flatten<V>(positions: seq<V>, polygons: seq<Polygon>) returns (indices: seq<int>, corners: seq<V>)
    requires ValidIndices(polygons, |positions|)
    ensures |indices| == 3 * |polygons| && |corners| == 3 * |polygons|
    ensures forall j | 0 <= j < |indices| :: indices[j] == j
    ensures forall i, k | 0 <= i < |polygons| && 0 <= k < 3 ::
              corners[3 * i + k] == positions[polygons[i].Vertex(k)]
    ensures corners == FlatCorners(positions, polygons)
  {
    indices, corners := [], [];
    var i := 0;
    while i < |polygons|
      invariant 0 <= i <= |polygons|
      invariant |indices| == 3 * i && |corners| == 3 * i
      invariant forall j | 0 <= j < |indices| :: indices[j] == j
      invariant forall i', k | 0 <= i' < i && 0 <= k < 3 ::
                  corners[3 * i' + k] == positions[polygons[i'].Vertex(k)]
    {
      var poly := polygons[i];
      indices := indices + [3 * i, 3 * i + 1, 3 * i + 2];
      corners := corners + [positions[poly.Vertex(0)], positions[poly.Vertex(1)], positions[poly.Vertex(2)]];
      i := i + 1;
    }
    var reference := FlatCorners(positions, polygons);
    forall j | 0 <= j < |corners|
      ensures corners[j] == reference[j]
    {
      FlatCornersAt(positions, polygons, j / 3, j % 3);
      assert j == 3 * (j / 3) + j % 3;
    }
  }

  /**
    One roughness step on one vertex (Planet.cs:159): the vertex moves by a
    tenth of the generator's value at twice the vertex.
   */
  function RoughStep(generator: Vec3 -> Vec3, v: Vec3): (r: Vec3)
    ensures r.Minus(v) == generator(v.Scale(2.0)).Scale(0.1)
  {
    v.Plus(generator(v.Scale(2.0)).Scale(0.1))
  }

  /** `passes` roughness steps on one vertex; a count of zero or less does nothing. */
  function Roughen(generator: Vec3 -> Vec3, v: Vec3, passes: int): (r: Vec3)
    ensures passes <= 0 ==> r == v
    decreases passes
  {
    if passes <= 0 then v else RoughStep(generator, Roughen(generator, v, passes - 1))
  }

  /** Roughening `p` times and then `q` more times is roughening `p + q` times. */
  lemma {:induction false} RoughenSplit(generator: Vec3 -> Vec3, v: Vec3, p: nat, q: nat)
    ensures Roughen(generator, Roughen(generator, v, p), q) == Roughen(generator, v, p + q)
    decreases q
  {
    if q > 0 {
      RoughenSplit(generator, v, p, q - 1);
    }
  }

  /**
    The roughness loops of `GenerateMesh` (Planet.cs:154-161): the outer loop
    runs the passes, the inner one steps every vertex once. The steps of one
    vertex read only that vertex, so the result is every vertex roughened on
    its own.
   */
  method RoughenAll(generator: Vec3 -> Vec3, vertices: seq<Vec3>, passes: int) returns (out: seq<Vec3>)
    ensures |out| == |vertices|
    ensures forall i | 0 <= i < |vertices| :: out[i] == Roughen(generator, vertices[i], passes)
  {
    out := vertices;
    var k := 0;
    while k < passes
      invariant k <= passes || k == 0
      invariant 0 <= k
      invariant |out| == |vertices|
      invariant forall i | 0 <= i < |out| :: out[i] == Roughen(generator, vertices[i], k)
    {
      var i := 0;
      while i < |out|
        invariant 0 <= i <= |out| && |out| == |vertices|
        invariant forall j | 0 <= j < i :: out[j] == Roughen(generator, vertices[j], k + 1)
        invariant forall j | i <= j < |out| :: out[j] == Roughen(generator, vertices[j], k)
      {
        out := out[i := RoughStep(generator, out[i])];
        i := i + 1;
      }
      k := k + 1;
    }
  }

  /** The inspector fields `GenerateMesh` reads (Planet.cs:19-33). */
  datatype Config = Config(
    generate: bool,
    generator: HeightGenMethod,
    settings: Settings,
    roughnessPasses: int,
    offsetVector: Vec3)

  /**
    `heightGenner` (Planet.cs:145): the generator registered under the name of
    the chosen method, with the seed fixed to `offsetVector`. The lookup always
    succeeds and finds the generator of that very method.
   */
  function HeightGenner(config: Config, prims: Primitives): (r: Vec3 -> Vec3)
    ensures forall v :: r(v) == GenerateHeight(config.generator, config.settings, prims, v, config.offsetVector)
  {
    RegisteredFindsEveryMethod(config.generator);
    var generator := Registered[Name(config.generator)];
    v => GenerateHeight(generator, config.settings, prims, v, config.offsetVector)
  }

  /**
    `GenerateMesh` on the mesh `m`, whose abstract vertices `place` turns into
    positions. With `generate` off, the buffers are the flattened corners and
    all colours are white. With it on, corner `j` is displaced by the
    generator, coloured by the distance it moved, and then roughened.
   */
  method GenerateMesh(m: Mesh, place: Point -> Vec3, config: Config, prims: Primitives) returns (b: Buffers)
    requires Valid(m)
    ensures |b.vertices| == 3 * |m.polygons|
    ensures |b.indices| == 3 * |m.polygons| && |b.colors| == 3 * |m.polygons|
    ensures forall j | 0 <= j < |b.indices| :: b.indices[j] == j
    ensures var flat := FlatCorners(m.vertices, m.polygons);
            !config.generate ==>
              && (forall j | 0 <= j < |flat| :: b.vertices[j] == place(flat[j]))
              && (forall j | 0 <= j < |b.colors| :: b.colors[j] == White)
    ensures var flat := FlatCorners(m.vertices, m.polygons);
            var gen := HeightGenner(config, prims);
            config.generate ==>
              forall j | 0 <= j < |flat| ::
                && b.colors[j] == Graded(place(flat[j]), gen(place(flat[j])))
                && b.vertices[j] == Roughen(gen, gen(place(flat[j])), config.roughnessPasses)
  {
    var indices, corners := Flatten(m.vertices, m.polygons);
    var n := |corners|;
    var vertices := seq(n, j requires 0 <= j < n => place(corners[j]));
    if config.generate {
      var gen := HeightGenner(config, prims);
      var displaced := seq(n, j requires 0 <= j < n => gen(vertices[j]));
      var colors := seq(n, j requires 0 <= j < n => Graded(vertices[j], displaced[j]));
      var rough := RoughenAll(gen, displaced, config.roughnessPasses);
      b := Buffers(rough, indices, colors);
    } else {
      b := Buffers(vertices, indices, seq(n, j => White));
    }
  }
}
