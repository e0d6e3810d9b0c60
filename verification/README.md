# Planetoid icosphere topology

A model of the integer-index core of the `Planet` component (`Assets/Scripts/Planet.cs`),
which builds a planetoid mesh in three steps:

1. **`InitAsIcosohedron`** lays down the 12 corners and 20 triangles of a regular
   icosahedron.
2. **`Subdivide(Subdivisions)`** runs 1-to-4 midpoint subdivision, which never moves an existing vertex. Each pass splits every
   triangle `(a, b, c)` into four: `(a, ab, ca)`, `(b, bc, ab)`, `(c, ca, bc)` and
   `(ab, bc, ca)`. `GetMidPointIndex` creates each side midpoint. It looks the edge up
   in a `Dictionary<int,int>` under the key `(min << 16) + max`, so two triangles
   sharing a side share its midpoint vertex. One dictionary serves all passes.
3. **`GenerateMesh`** flattens the indexed mesh into unshared buffers: three corners
   per triangle, with sequential indices. Then either:
   - every corner is pushed out by a height generator, coloured by how far it moved,
     and roughened; or
   - every corner stays put and every colour is white.

Vertex positions are kept abstract. A `Topology.Point` is either an icosahedron corner,
whose coordinates have the form `ones + phis * t` with `t` the golden ratio, or the
re-normalised midpoint of two points. This way "the new vertex is the midpoint of its
parents" can be stated exactly, without floating-point reasoning.

The key is computed in C#'s unchecked 32-bit `int`, and `Keys.Wrap32` spells out the
wrap-around. The key is symmetric, and it is injective on indices below 2^16. Above that
bound it collides. `Planet.cs:16` allows up to 8 subdivisions. A closed icosphere of depth
`d` has `10 * 4^d + 2` vertices, a count this model does not prove. By that count every
pass up to the seventh reads indices below 2^16: the seventh starts from 40962 vertices.
Only the eighth pass starts from more than 65536, namely 163842.

The height generators are modelled over `real`. They are parameters standing for:
- the noise functions;
- `Mathf.Pow`.

Modules, in dependency order:
- `Keys`: the 32-bit midpoint key;
- `Topology`: points, polygons, meshes;
- `Icosahedron`: the base solid and its edge structure;
- `Subdivision`: `GetMidPointIndex` and `Subdivide`;
- `Height`: the clamp and radial scaling of the generators;
- `Assembly`: `GenerateMesh`;
- `Planet`: the `Start` pipeline and facts about the icosphere of a given depth.

## Model

| member | source | states |
|---|---|---|
| Keys.Wrap32 | Assets/Scripts/Planet.cs:251 | every value the unchecked `int` arithmetic keeps lies in `[-2^31, 2^31)` |
| Keys.ShiftLeft16Congruent | Assets/Scripts/Planet.cs:251 | `ShiftLeft16`, the unchecked `x << 16` on an `int`, agrees with `x * 2^16` modulo 2^32 |
| Keys.MidpointKeyCongruent | Assets/Scripts/Planet.cs:249-251 | `MidpointKey`, the key of any two indices, agrees modulo 2^32 with the exact packing `min * 2^16 + max` of the two indices |
| Keys.Wrap32Congruent | Assets/Scripts/Planet.cs:251 | the wrapped value is congruent to the exact value modulo 2^32 |
| Keys.Wrap32Unique | Assets/Scripts/Planet.cs:251 | the wrapped value is the only int32 congruent to the exact value, so the recursive wrap is C#'s unchecked truncation |
| Keys.WrapWindow | Assets/Scripts/Planet.cs:251 | on `[0, 2^32)` the wrap keeps values below 2^31 and takes 2^32 off the rest |
| Keys.Wrap32InjectiveBelow | Assets/Scripts/Planet.cs:251 | no two distinct values in `[0, 2^32)` wrap to the same int32 |
| Keys.KeyBelowBound | Assets/Scripts/Planet.cs:249-251 | for `s <= g < 2^16` the key is the exact packing `s * 2^16 + g`, a value in `[0, 2^32)`, wrapped to int32 once |
| Keys.KeySymmetric | Assets/Scripts/Planet.cs:249-251 | the key of `(a, b)` equals the key of `(b, a)` |
| Keys.PackedUnique | Assets/Scripts/Planet.cs:251 | a packing `s * 2^16 + g` with `g < 2^16` determines `s` and `g` |
| Keys.KeyInjective | Assets/Scripts/Planet.cs:249-251 | for indices below 2^16, two index pairs have equal keys if and only if they are the same unordered pair |
| Keys.KeyCollidesAboveBound | Assets/Scripts/Planet.cs:251 | above the bound the key stops being injective: edges `(0, 65538)` and `(1, 2)` get the same key |
| Icosahedron.CornerAt | Assets/Scripts/Planet.cs:185-196 | each of the twelve table corners lies on one of the three orthogonal golden rectangles |
| Icosahedron.Face | Assets/Scripts/Planet.cs:198-217 | each of the twenty table faces has three distinct corners, all below 12 |
| Icosahedron.InitAsIcosohedron | Assets/Scripts/Planet.cs:178-218 | 12 vertices, all of them corners, and 20 polygons whose indices are all below 12, with three distinct corners each |
| Icosahedron.IcosahedronCorners | Assets/Scripts/Planet.cs:185-196 | the twelve corners are pairwise distinct, and each lies on one of the three orthogonal golden rectangles `(+-1, +-t, 0)` taken cyclically |
| Icosahedron.SideOfInverts | Assets/Scripts/Planet.cs:198-217 | every directed side of every face identifies that face and side uniquely |
| Icosahedron.AcrossReverses | Assets/Scripts/Planet.cs:198-217 | every directed side of every face is run in the opposite direction by a named side of another face |
| Icosahedron.IcosahedronEdgesUnique | Assets/Scripts/Planet.cs:198-217 | no directed edge occurs twice among the 20 faces |
| Icosahedron.IcosahedronEdgesPaired | Assets/Scripts/Planet.cs:198-217 | the reverse of every directed side is also a side |
| Icosahedron.IcosahedronWinding | Assets/Scripts/Planet.cs:198-217 | consistent winding: every edge lies in exactly two faces, traversed once in each direction |
| Icosahedron.IcosahedronEdgeCount | Assets/Scripts/Planet.cs:198-217 | the faces have exactly 30 undirected edges |
| Topology.ValidIndicesMonotonic | Assets/Scripts/Planet.cs:262 | index validity survives appending vertices |
| Subdivision.ExtendsTransitive | Assets/Scripts/Planet.cs:262-264 | "vertex list only appended, cache entries only added" composes across steps |
| Subdivision.GetMidPointIndex | Assets/Scripts/Planet.cs:246-266 | the key of the pair ends up cached with the returned index. On a hit nothing changes. On a miss the result is the old vertex count, exactly one vertex is appended and it is the midpoint of the two vertices, exactly one key is added, and earlier vertices and entries are kept. A bounded cache stays bounded, and the returned index is a vertex |
| Subdivision.LookupIdempotent | Assets/Scripts/Planet.cs:253-255 | a second lookup of the same pair, in either order, returns the same index and changes neither the vertex list nor the cache |
| Subdivision.LookupSound | Assets/Scripts/Planet.cs:257-264 | for indices below 2^16, a sound cache, in which every entry names the midpoint of its edge, stays sound, and the returned vertex is the midpoint of the pair |
| Subdivision.SplitIntoExtends | Assets/Scripts/Planet.cs:237-240 | a four-way split named by a cache is still named by any extension of that cache |
| Subdivision.SplitPolygon | Assets/Scripts/Planet.cs:229-240 | splitting one polygon adds at most three vertices, only extends the state, and yields the four children built from the cached side midpoints |
| Subdivision.SplitPolygonBounded | Assets/Scripts/Planet.cs:229-240 | after one split the cache is still bounded and all four children have valid indices |
| Subdivision.SubdividePolygons | Assets/Scripts/Planet.cs:226-243 | one pass quadruples the polygon count, only extends the vertex list and cache, and appends at most three vertices per polygon |
| Subdivision.SplitsAllCons | Assets/Scripts/Planet.cs:227-241 | the split of the first polygon and the splits of the rest make up the split of the whole list |
| Subdivision.SubdividePolygonsSplits | Assets/Scripts/Planet.cs:227-241 | child polygons `4i` to `4i+3` of a pass are the four-way split of parent `i`, using the midpoints the final cache holds for its sides |
| Subdivision.SubdividePolygonsBounded | Assets/Scripts/Planet.cs:226-243 | a pass keeps every cache value and every polygon index below the vertex count |
| Subdivision.SplitPolygonSound | Assets/Scripts/Planet.cs:233-235 | splitting a polygon with indices below 2^16 keeps the cache sound |
| Subdivision.SubdividePolygonsSound | Assets/Scripts/Planet.cs:226-243 | a pass over polygons with indices below 2^16 keeps the cache sound |
| Subdivision.SharedSideWelded | Assets/Scripts/Planet.cs:233-235 | two polygons that share a side, in either direction, get the same midpoint vertex on it, whatever the size of the indices |
| Subdivision.SideMidpointCached | Assets/Scripts/Planet.cs:240 | the inner child's corner on side `k` is the index the cache holds for that side's key |
| Subdivision.SplitPlacesMidpoints | Assets/Scripts/Planet.cs:233-240 | under a sound cache and indices below 2^16, the inner child's corners are the midpoints of the parent's three sides |
| Subdivision.SubdividePolygonsPlacesMidpoints | Assets/Scripts/Planet.cs:226-243 | after a pass from a sound cache, with indices below 2^16, each inner child's corners are its parent's side midpoints |
| Subdivision.SubdivideLoop | Assets/Scripts/Planet.cs:222-244 | `n` passes sharing one cache multiply the polygon count by `4^n`, only extend the state, keep the cache and every index valid, and add at most as many vertices as polygons |
| Subdivision.Subdivide | Assets/Scripts/Planet.cs:220-245 | the result is valid and keeps the old vertices as a prefix. A count of zero or less changes nothing. Otherwise the polygon count is multiplied by `4^recursions`, and there are at most as many new vertices as new polygons |
| Subdivision.SubdivideLoopSound | Assets/Scripts/Planet.cs:222-244 | the shared cache stays sound over all passes as long as the vertex list entering the last pass has at most 2^16 entries |
| Subdivision.SubdivideLoopGrows | Assets/Scripts/Planet.cs:262 | the vertex count never shrinks from one pass to the next |
| Subdivision.SubdivideLoopPlacesMidpoints | Assets/Scripts/Planet.cs:222-244 | the last pass places each parent's side midpoints at its inner child's corners, provided at most 2^16 vertices enter it |
| Subdivision.SubdivideWelds | Assets/Scripts/Planet.cs:220-245 | after `Subdivide`, polygons of the mesh one pass earlier that share a side have a single midpoint vertex on it |
| Subdivision.SubdividePlacesMidpoints | Assets/Scripts/Planet.cs:220-245 | after `Subdivide`, each polygon of the mesh one pass earlier has its side midpoints as its inner child's corners, provided that mesh has at most 2^16 vertices |
| Height.RegisteredFindsEveryMethod | Assets/Scripts/Planet.cs:44-46 | the name of every `HeightGenMethods` value is registered, under the generator of that same value |
| Height.OctaveSum | Assets/Scripts/Planet.cs:65-68 | all three generators weigh their noise at `nx`, `2 * nx` and `4 * nx` by 1, 0.5 and 0.25, as at lines 65-68, 83-86 and 101-104; FBM asks for 1, 2 and 3 octaves |
| Height.OctaveSumBounded | Assets/Scripts/Planet.cs:65-68 | noise within `[-b, b]` at the three octaves gives a sum within `[-1.75 b, 1.75 b]` |
| Height.Clamp | Assets/Scripts/Planet.cs:72-76 | the guards at lines 72-76, repeated at 90-94 and 108-112: the height lies in `[Min_Height, Max_Height]` when that range is non-empty. In-range heights are unchanged, heights above are capped, and heights below are raised. With an empty range the lower bound wins, because its guard comes second |
| Height.ClampIdempotent | Assets/Scripts/Planet.cs:72-76 | for the guards at lines 72-76, 90-94 and 108-112 alike: clamping a clamped height changes nothing |
| Height.ClampMonotonic | Assets/Scripts/Planet.cs:72-76 | for the guards at lines 72-76, 90-94 and 108-112 alike: clamping preserves the order of heights |
| Height.GenerateHeight | Assets/Scripts/Planet.cs:63-115 | every generator returns the sphere point scaled radially by `1 + h`, with `h` in `[Min_Height, Max_Height]`, and by exactly `1 + Min_Height` when the range is empty. `h` is the raw height, the redistributed octave sum at `spherePoint + seedVec`, when that lies in range. It is `Max_Height` when the raw height is above a non-empty range, and `Min_Height` when it is below the range |
| Assembly.FlatCornersAt | Assets/Scripts/Planet.cs:138-140 | entry `3i + k` of the flattened corner list is the position of corner `k` of polygon `i` |
| Assembly.FlatCorners | Assets/Scripts/Planet.cs:122 | the flattened list has three entries per polygon |
| Assembly.Flatten | Assets/Scripts/Planet.cs:122-141 | both buffers have length `3 * polygons`, `indices[j] == j`, slot `3i + k` holds corner `k` of polygon `i`, and the whole buffer equals the recursive reference list |
| Assembly.RoughStep | Assets/Scripts/Planet.cs:159 | one step moves a vertex by a tenth of the generator's value at twice the vertex |
| Assembly.Roughen | Assets/Scripts/Planet.cs:154-159 | a pass count of zero or less leaves the vertex where it is |
| Assembly.RoughenSplit | Assets/Scripts/Planet.cs:154-161 | `p` roughness passes followed by `q` more are `p + q` passes |
| Assembly.HeightGenner | Assets/Scripts/Planet.cs:145 | looking up the chosen method's name in the registered generators yields, at every point, that very method's generator seeded with `offsetVector` |
| Assembly.RoughenAll | Assets/Scripts/Planet.cs:154-161 | the pass-major double loop gives each vertex exactly its own `Roughness_Passes` roughness steps |
| Assembly.GenerateMesh | Assets/Scripts/Planet.cs:117-175 | the buffers have length `3 * polygons` with sequential indices. With `generate` off, positions are the flattened corners and all colours are white. With it on, each corner is displaced by the selected generator, coloured from its old and new positions, then roughened |
| Planet.Icosphere | Assets/Scripts/Planet.cs:48-49 | the subdivided icosahedron is valid, keeps the 12 corners in front, has `20 * 4^depth` polygons and at most `20 * 4^depth - 8` vertices |
| Planet.IcosphereMidpoints | Assets/Scripts/Planet.cs:233-240 | for depths 1 to 6, each polygon one depth earlier has its side midpoints as its inner child's corners |
| Planet.IcosphereWelds | Assets/Scripts/Planet.cs:233-235 | at every depth of the `Range(0,8)` field, polygons one depth earlier that share a side share its midpoint vertex |
| Planet.Start | Assets/Scripts/Planet.cs:42-52 | the pipeline yields `60 * 4^depth` corners with sequential indices; with `generate` off they are the icosphere's flattened corners, all white |

## Left out

- Unity plumbing is not modelled: the `MonoBehaviour` lifecycle, `Update` rotation and key input, `Mesh`/`MeshFilter`, `IndexFormat`, `SetTriangles`, `RecalculateNormals`. It is engine code with no visible behaviour to specify.
- `Perlin.Noise`, `Perlin.Fbm`, `SimplexNoiseGenerator.noise` and `Mathf.Pow` are parameters (`Height.Primitives`). Their code is not part of this model.
- `Gradient.Evaluate` is not part of this model. A colour is recorded as `Assembly.Color.Graded(before, after)`, the two positions whose distance it is evaluated on.
- Height.GenerateHeight: the range `[Min_Height, Max_Height]` holds only for a raw height that is a number. `Mathf.Pow` of a negative octave sum with a non-integer `redistribution` gives NaN. NaN fails both guards, so the generator returns a NaN vector. Over `real` there is no NaN, so `Height.Clamp` and this member promise the range for every raw height.
- Floating point is not modelled. Positions are abstract `Topology.Point`s standing for `normalized`, `Vector3.Lerp(..., 0.5f)` and the golden ratio's `sqrt`. The abstract-to-`Vector3` placement is a parameter of `Assembly.GenerateMesh`. The height tail and roughness work over `real`, without `float` rounding.
- The `heightGenerators` dictionary maps names to delegates; `Height.Registered` maps the same names to the enum value that selects the generator.
- The exact vertex count `10 * 4^d + 2`, and watertightness at arbitrary depth, are not proved. Only the bound "at most as many vertices as polygons, less 8" and per-pass welding are proved.
- Planet.IcosphereMidpoints: stated for depths up to 6 only. The proved bound of at most `20 * 4^d - 8` vertices keeps the depth-5 mesh below 2^16, but not the depth-6 mesh. So depth 7 is unproved here, although it is safe: its last pass starts from 40962 vertices. Only the eighth pass reads indices of 2^16 or more. Whether it actually looks up a colliding pair is not established.
- Subdivision.GetMidPointIndex: the source throws on a cache miss with an out-of-range index. The model requires the indices to exist on a miss instead.
- Subdivision.Subdivide: requires a valid mesh, whereas the source fails only when a lookup misses on a bad index. Every mesh the pipeline builds is valid.
- The `Polygon` class and `Perlin`/`SimplexNoiseGenerator` sources are not part of this model. A polygon is modelled as its three indices `m_Vertices[0..2]`.
- Planet.Start: its contract covers the buffer shape and the `generate`-off branch. The `generate`-on branch is stated by Assembly.GenerateMesh.
