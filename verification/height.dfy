/**
  The height generators `GenerateHeightPerlin`, `GenerateHeightFBM` and
  `GenerateHeightSimplex` (Planet.cs:63-115). Each sums three noise octaves at
  the offset point, raises the sum to `redistribution`, clamps it to
  `[Min_Height, Max_Height]` and pushes the sphere point outwards by
  `1 + height`. Arithmetic is over the reals. The noise primitives and
  `Mathf.Pow` are parameters, because their code is not part of this model.
 */
module Height {

  /** A `Vector3` with real components. */
  datatype Vec3 = Vec3(x: real, y: real, z: real) {

    function Plus(v: Vec3): Vec3
    {
      Vec3(x + v.x, y + v.y, z + v.z)
    }

    function Minus(v: Vec3): Vec3
    {
      Vec3(x - v.x, y - v.y, z - v.z)
    }

    /** `s * v`. */
    function Scale(s: real): Vec3
    {
      Vec3(s * x, s * y, s * z)
    }
  }

  /** `HeightGenMethods` (Planet.cs:269-274). */
  datatype HeightGenMethod = Perlin | FBM | Simplex

  /** `ToString()` of an enum value: its member name. */
  function Name(generator: HeightGenMethod): string
  {
    match generator
    case Perlin => "Perlin"
    case FBM => "FBM"
    case Simplex => "Simplex"
  }

  /**
    The `heightGenerators` dictionary after the registrations of `Start`
    (Planet.cs:44-46), each name standing for its generator.
   */
  const Registered: map<string, HeightGenMethod> := map["Perlin" := Perlin, "FBM" := FBM, "Simplex" := Simplex]

  /** Looking up the name of any method finds that method: the lookup of Planet.cs:145 never fails. */
  lemma RegisteredFindsEveryMethod(generator: HeightGenMethod)
    ensures Name(generator) in Registered && Registered[Name(generator)] == generator
  {
  }

  /** The inspector fields the generators read (Planet.cs:19-23). */
  datatype Settings = Settings(maxHeight: real, minHeight: real, redistribution: real)

  /**
    The code the generators call but this model does not contain:
    `Perlin.Noise`, `Perlin.Fbm(point, octaves)`, `SimplexNoiseGenerator.noise`
    and `Mathf.Pow`.
   */
  datatype Primitives = Primitives(
    perlin: Vec3 -> real,
    fbm: (Vec3, int) -> real,
    simplex: (real, real, real) -> real,
    pow: (real, real) -> real)

  /**
    The noise of the chosen method at `v` for octave `octave` (0, 1 or 2):
    `Perlin.Noise(v)`, `Perlin.Fbm(v, octave + 1)` or the simplex noise of the
    three components.
   */
  function Sample(generator: HeightGenMethod, prims: Primitives, v: Vec3, octave: nat): real
  {
    match generator
    case Perlin => prims.perlin(v)
    case FBM => prims.fbm(v, octave + 1)
    case Simplex => prims.simplex(v.x, v.y, v.z)
  }

  /**
    The three-octave sum at `nx`: all three generators weigh their noise at
    `nx`, `2 * nx` and `4 * nx` by 1, 0.5 and 0.25.
   */
  function OctaveSum(generator: HeightGenMethod, prims: Primitives, nx: Vec3): (r: real)
    ensures r == Sample(generator, prims, nx, 0)
                 + 0.5 * Sample(generator, prims, nx.Scale(2.0), 1)
                 + 0.25 * Sample(generator, prims, nx.Scale(4.0), 2)
  {
    match generator
    case Perlin =>
      1.0 * prims.perlin(nx) + 0.5 * prims.perlin(nx.Scale(2.0)) + 0.25 * prims.perlin(nx.Scale(4.0))
    case FBM =>
      1.0 * prims.fbm(nx, 1) + 0.5 * prims.fbm(nx.Scale(2.0), 2) + 0.25 * prims.fbm(nx.Scale(4.0), 3)
    case Simplex =>
      1.0 * prims.simplex(nx.x, nx.y, nx.z)
      + 0.5 * prims.simplex(2.0 * nx.x, 2.0 * nx.y, 2.0 * nx.z)
      + 0.25 * prims.simplex(4.0 * nx.x, 4.0 * nx.y, 4.0 * nx.z)
  }

  /** Octave noise within `[-bound, bound]` gives a sum within `1.75` times that range. */
  lemma OctaveSumBounded(generator: HeightGenMethod, prims: Primitives, nx: Vec3, bound: real)
    requires -bound <= Sample(generator, prims, nx, 0) <= bound
    requires -bound <= Sample(generator, prims, nx.Scale(2.0), 1) <= bound
    requires -bound <= Sample(generator, prims, nx.Scale(4.0), 2) <= bound
    ensures -1.75 * bound <= OctaveSum(generator, prims, nx) <= 1.75 * bound
  {
  }

  /** The height before clamping: the octave sum at `spherePoint + seedVec` raised to `redistribution`. */
  function RawHeight(generator: HeightGenMethod, settings: Settings, prims: Primitives,
                     spherePoint: Vec3, seedVec: Vec3): real
  {
    prims.pow(OctaveSum(generator, prims, spherePoint.Plus(seedVec)), settings.redistribution)
  }

  /**
    The two guards of the generators, the upper one first: the result lies in
    range when the range is not empty, and when it is empty the lower bound,
    applied last, wins.
   */
  function Clamp(height: real, minHeight: real, maxHeight: real): (r: real)
    ensures minHeight <= maxHeight ==> minHeight <= r <= maxHeight
    ensures maxHeight < minHeight ==> r == minHeight
    ensures minHeight <= height <= maxHeight ==> r == height
    ensures minHeight <= maxHeight < height ==> r == maxHeight
    ensures height < minHeight ==> r == minHeight
  {
    var capped := if height > maxHeight then maxHeight else height;
    if capped < minHeight then minHeight else capped
  }

  /** Clamping twice is clamping once. */
  lemma ClampIdempotent(height: real, minHeight: real, maxHeight: real)
    ensures Clamp(Clamp(height, minHeight, maxHeight), minHeight, maxHeight)
         == Clamp(height, minHeight, maxHeight)
  {
  }

  /** A higher raw height never gives a lower clamped one. */
  lemma ClampMonotonic(height: real, height': real, minHeight: real, maxHeight: real)
    requires height <= height'
    ensures Clamp(height, minHeight, maxHeight) <= Clamp(height', minHeight, maxHeight)
  {
  }

  /**
    The generator selected by `generator`, applied to `spherePoint` with seed
    `seedVec`: the result is `spherePoint` scaled by a factor `1 + h` with `h`
    in `[Min_Height, Max_Height]`, and by exactly `1 + Min_Height` when that
    range is empty. The factor is `1 +` the raw height when that lies in range,
    and `1 +` the bound it crosses otherwise.
   */
  function GenerateHeight(generator: HeightGenMethod, settings: Settings, prims: Primitives,
                          spherePoint: Vec3, seedVec: Vec3): (r: Vec3)
    ensures exists f: real :: r == spherePoint.Scale(f)
              && (settings.minHeight <= settings.maxHeight ==>
                    1.0 + settings.minHeight <= f <= 1.0 + settings.maxHeight)
    ensures settings.maxHeight < settings.minHeight ==>
              r == spherePoint.Scale(1.0 + settings.minHeight)
    ensures var raw := RawHeight(generator, settings, prims, spherePoint, seedVec);
            && (settings.minHeight <= raw <= settings.maxHeight ==> r == spherePoint.Scale(1.0 + raw))
            && (settings.minHeight <= settings.maxHeight < raw ==> r == spherePoint.Scale(1.0 + settings.maxHeight))
            && (raw < settings.minHeight ==> r == spherePoint.Scale(1.0 + settings.minHeight))
  {
    var nx := spherePoint.Plus(seedVec);
    var raw := prims.pow(OctaveSum(generator, prims, nx), settings.redistribution);
    var height := Clamp(raw, settings.minHeight, settings.maxHeight);
    var r := spherePoint.Scale(1.0 + height);
    assert r == spherePoint.Scale(1.0 + height);
    r
  }
}
