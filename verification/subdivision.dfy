/**
  The 1-to-4 midpoint subdivision of `Planet.Subdivide` (Planet.cs:220-245),
  which never moves an existing vertex: every pass splits
  each triangle into four, creating the midpoint of each side through
  `GetMidPointIndex` (Planet.cs:246-266), whose cache makes two triangles that
  share a side share its midpoint vertex. The cache is created once, before the
  first pass, and is kept across all passes.
 */
module Subdivision {
  import opened Keys
  import opened Topology

  /** The state `GetMidPointIndex` works on: `m_Vertices` and the midpoint cache. */
  datatype Welder = Welder(vertices: seq<Point>, cache: map<int, nat>)

  /** The result of one lookup: the new state and the index of the midpoint vertex. */
  datatype Lookup = Lookup(welder: Welder, index: nat)

  /** The result of splitting polygons: the new state and the child polygons. */
  datatype Pass = Pass(welder: Welder, polygons: seq<Polygon>)

  /** Every cached index refers to an existing vertex. */
  predicate CacheBounded(w: Welder)
  {
    forall key | key in w.cache :: w.cache[key] < |w.vertices|
  }

  /** `w'` grew out of `w`: vertices were only appended and cache entries only added. */
  predicate Extends(w': Welder, w: Welder)
  {
    && w.vertices <= w'.vertices
    && (forall key | key in w.cache :: key in w'.cache && w'.cache[key] == w.cache[key])
  }

  lemma ExtendsTransitive(w'': Welder, w': Welder, w: Welder)
    requires Extends(w'', w') && Extends(w', w)
    ensures Extends(w'', w)
  {
    assert w'.vertices == w''.vertices[..|w'.vertices|];
    assert w.vertices == w'.vertices[..|w.vertices|];
  }

  /**
    Every cached entry whose edge has both indices below 2^16 names an existing
    vertex that is the midpoint of that edge's two vertices.
   */
  predicate CacheSound(w: Welder)
  {
    forall a, b | 0 <= a < TwoTo16 && 0 <= b < TwoTo16 && MidpointKey(a, b) in w.cache ::
      && a < |w.vertices| && b < |w.vertices|
      && w.cache[MidpointKey(a, b)] < |w.vertices|
      && IsMidpointOf(w.vertices[w.cache[MidpointKey(a, b)]], w.vertices[a], w.vertices[b])
  }

  /**
    `GetMidPointIndex`: a cached key returns its index and changes nothing; a
    missing key appends the midpoint of the two vertices and caches its index.
    Only the miss reads `m_Vertices[indexA]` and `m_Vertices[indexB]`, so only
    the miss needs them to exist.
   */
  function GetMidPointIndex(w: Welder, indexA: nat, indexB: nat): (r: Lookup)
    requires MidpointKey(indexA, indexB) !in w.cache ==>
               indexA < |w.vertices| && indexB < |w.vertices|
    ensures Extends(r.welder, w) && |r.welder.vertices| <= |w.vertices| + 1
    ensures MidpointKey(indexA, indexB) in r.welder.cache
    ensures r.welder.cache[MidpointKey(indexA, indexB)] == r.index
    ensures MidpointKey(indexA, indexB) in w.cache ==> r.welder == w
    ensures MidpointKey(indexA, indexB) !in w.cache ==>
              && r.index == |w.vertices|
              && r.welder.vertices == w.vertices + [Midpoint(w.vertices[indexA], w.vertices[indexB])]
              && r.welder.cache.Keys == w.cache.Keys + {MidpointKey(indexA, indexB)}
    ensures CacheBounded(w) ==> CacheBounded(r.welder) && r.index < |r.welder.vertices|
  {
    var key := MidpointKey(indexA, indexB);
    if key in w.cache then
      Lookup(w, w.cache[key])
    else
      var ret := |w.vertices|;
      var middle := Midpoint(w.vertices[indexA], w.vertices[indexB]);
      Lookup(Welder(w.vertices + [middle], w.cache[key := ret]), ret)
  }

  /**
    Looking the same edge up again, in either order, returns the same index and
    leaves the state as the first lookup left it.
   */
  lemma LookupIdempotent(w: Welder, indexA: nat, indexB: nat)
    requires MidpointKey(indexA, indexB) !in w.cache ==>
               indexA < |w.vertices| && indexB < |w.vertices|
    ensures var r := GetMidPointIndex(w, indexA, indexB);
            && GetMidPointIndex(r.welder, indexA, indexB) == r
            && GetMidPointIndex(r.welder, indexB, indexA) == r
  {
    KeySymmetric(indexA, indexB);
  }

  /**
    While both indices are below 2^16 a lookup keeps the cache sound and returns
    the midpoint of the two vertices.
   */
  lemma LookupSound(w: Welder, indexA: nat, indexB: nat)
    requires CacheSound(w)
    requires indexA < |w.vertices| && indexB < |w.vertices|
    requires indexA < TwoTo16 && indexB < TwoTo16
    ensures var r := GetMidPointIndex(w, indexA, indexB);
            && CacheSound(r.welder)
            && r.index < |r.welder.vertices|
            && IsMidpointOf(r.welder.vertices[r.index], w.vertices[indexA], w.vertices[indexB])
  {
    var key := MidpointKey(indexA, indexB);
    var r := GetMidPointIndex(w, indexA, indexB);
    if key !in w.cache {
      var w' := r.welder;
      forall a, b | 0 <= a < TwoTo16 && 0 <= b < TwoTo16 && MidpointKey(a, b) in w'.cache
        ensures && a < |w'.vertices| && b < |w'.vertices|
                && w'.cache[MidpointKey(a, b)] < |w'.vertices|
                && IsMidpointOf(w'.vertices[w'.cache[MidpointKey(a, b)]], w'.vertices[a], w'.vertices[b])
      {
        if MidpointKey(a, b) == key {
          KeyInjective(indexA, indexB, a, b);
        } else {
          assert MidpointKey(a, b) in w.cache;
        }
      }
    }
  }

  /**
    `children[at..at + 4]` is the four-way split of `parent` of Planet.cs:237-240,
    where `ab`, `bc` and `ca` are the indices `cache` holds for the parent's sides.
   */
  predicate SplitInto(parent: Polygon, children: seq<Polygon>, at: nat, cache: map<int, nat>)
  {
    && at + 4 <= |children|
    && MidpointKey(parent.a, parent.b) in cache
    && MidpointKey(parent.b, parent.c) in cache
    && MidpointKey(parent.c, parent.a) in cache
    && var ab := cache[MidpointKey(parent.a, parent.b)];
       var bc := cache[MidpointKey(parent.b, parent.c)];
       var ca := cache[MidpointKey(parent.c, parent.a)];
       && children[at] == Polygon(parent.a, ab, ca)
       && children[at + 1] == Polygon(parent.b, bc, ab)
       && children[at + 2] == Polygon(parent.c, ca, bc)
       && children[at + 3] == Polygon(ab, bc, ca)
  }

  /** A split stays a split when more entries are cached later. */
  lemma SplitIntoExtends(parent: Polygon, children: seq<Polygon>, at: nat, w': Welder, w: Welder)
    requires SplitInto(parent, children, at, w.cache) && Extends(w', w)
    ensures SplitInto(parent, children, at, w'.cache)
  {
  }

  /** A split stays a split when more children come before or after it. */
  lemma SplitIntoShift(parent: Polygon, front: seq<Polygon>, children: seq<Polygon>, back: seq<Polygon>, at: nat, cache: map<int, nat>)
    requires SplitInto(parent, children, at, cache)
    ensures SplitInto(parent, front + children + back, |front| + at, cache)
  {
    var all := front + children + back;
    assert all[|front| + at] == children[at];
    assert all[|front| + at + 1] == children[at + 1];
    assert all[|front| + at + 2] == children[at + 2];
    assert all[|front| + at + 3] == children[at + 3];
  }

  /** The body of the inner loop of `Subdivide` for one polygon (Planet.cs:229-240). */
  function SplitPolygon(w: Welder, poly: Polygon): (r: Pass)
    requires poly.ValidIn(|w.vertices|)
    ensures Extends(r.welder, w)
    ensures |r.welder.vertices| <= |w.vertices| + 3
    ensures SplitInto(poly, r.polygons, 0, r.welder.cache) && |r.polygons| == 4
  {
    var ab := GetMidPointIndex(w, poly.a, poly.b);
    var bc := GetMidPointIndex(ab.welder, poly.b, poly.c);
    var ca := GetMidPointIndex(bc.welder, poly.c, poly.a);
    ExtendsTransitive(bc.welder, ab.welder, w);
    ExtendsTransitive(ca.welder, bc.welder, w);
    Pass(ca.welder, [Polygon(poly.a, ab.index, ca.index),
                     Polygon(poly.b, bc.index, ab.index),
                     Polygon(poly.c, ca.index, bc.index),
                     Polygon(ab.index, bc.index, ca.index)])
  }

  /** A split from a bounded cache keeps it bounded and yields valid children. */
  lemma SplitPolygonBounded(w: Welder, poly: Polygon)
    requires poly.ValidIn(|w.vertices|) && CacheBounded(w)
    ensures var r := SplitPolygon(w, poly);
            CacheBounded(r.welder) && ValidIndices(r.polygons, |r.welder.vertices|)
  {
    var ab := GetMidPointIndex(w, poly.a, poly.b);
    var bc := GetMidPointIndex(ab.welder, poly.b, poly.c);
    var ca := GetMidPointIndex(bc.welder, poly.c, poly.a);
    assert ab.index < |ca.welder.vertices| && bc.index < |ca.welder.vertices|;
  }

  /** One pass of the outer loop of `Subdivide` (Planet.cs:226-243). */
  function SubdividePolygons(w: Welder, polygons: seq<Polygon>): (r: Pass)
    requires ValidIndices(polygons, |w.vertices|)
    ensures |r.polygons| == 4 * |polygons|
    ensures Extends(r.welder, w)
    ensures |r.welder.vertices| <= |w.vertices| + 3 * |polygons|
    decreases |polygons|
  {
    if |polygons| == 0 then
      Pass(w, [])
    else
      var first := SplitPolygon(w, polygons[0]);
      ValidIndicesMonotonic(polygons[1..], |w.vertices|, |first.welder.vertices|);
      var rest := SubdividePolygons(first.welder, polygons[1..]);
      ExtendsTransitive(rest.welder, first.welder, w);
      Pass(rest.welder, first.polygons + rest.polygons)
  }

  /** Parent `i` is split into children `4i` to `4i + 3`, all named by `cache`. */
  predicate SplitsAll(parents: seq<Polygon>, children: seq<Polygon>, cache: map<int, nat>)
  {
    forall i | 0 <= i < |parents| :: SplitInto(parents[i], children, 4 * i, cache)
  }

  /** Splits of the first parent and of the remaining ones join into splits of all. */
  lemma SplitsAllCons(parents: seq<Polygon>, first: seq<Polygon>, rest: seq<Polygon>, cache: map<int, nat>)
    requires |parents| > 0
    requires SplitInto(parents[0], first, 0, cache) && |first| == 4
    requires SplitsAll(parents[1..], rest, cache)
    ensures SplitsAll(parents, first + rest, cache)
  {
    forall i | 0 <= i < |parents|
      ensures SplitInto(parents[i], first + rest, 4 * i, cache)
    {
      if i == 0 {
        SplitIntoShift(parents[0], [], first, rest, 0, cache);
        assert [] + first + rest == first + rest;
      } else {
        assert parents[i] == parents[1..][i - 1];
        SplitIntoShift(parents[i], first, rest, [], 4 * (i - 1), cache);
        assert first + rest + [] == first + rest;
      }
    }
  }

  /** Polygon `i` of a pass is split into children `4i` to `4i + 3`, all named by the final cache. */
  lemma {:induction false} SubdividePolygonsSplits(w: Welder, polygons: seq<Polygon>)
    requires ValidIndices(polygons, |w.vertices|)
    ensures var r := SubdividePolygons(w, polygons);
            SplitsAll(polygons, r.polygons, r.welder.cache)
    decreases |polygons|
  {
    if |polygons| > 0 {
      var first := SplitPolygon(w, polygons[0]);
      ValidIndicesMonotonic(polygons[1..], |w.vertices|, |first.welder.vertices|);
      var rest := SubdividePolygons(first.welder, polygons[1..]);
      SubdividePolygonsSplits(first.welder, polygons[1..]);
      SplitIntoExtends(polygons[0], first.polygons, 0, rest.welder, first.welder);
      SplitsAllCons(polygons, first.polygons, rest.polygons, rest.welder.cache);
    }
  }

  /** A pass from a bounded cache keeps it bounded and produces valid polygons. */
  lemma {:induction false} SubdividePolygonsBounded(w: Welder, polygons: seq<Polygon>)
    requires ValidIndices(polygons, |w.vertices|) && CacheBounded(w)
    ensures var r := SubdividePolygons(w, polygons);
            CacheBounded(r.welder) && ValidIndices(r.polygons, |r.welder.vertices|)
    decreases |polygons|
  {
    if |polygons| > 0 {
      var r := SubdividePolygons(w, polygons);
      var first := SplitPolygon(w, polygons[0]);
      SplitPolygonBounded(w, polygons[0]);
      ValidIndicesMonotonic(polygons[1..], |w.vertices|, |first.welder.vertices|);
      var rest := SubdividePolygons(first.welder, polygons[1..]);
      SubdividePolygonsBounded(first.welder, polygons[1..]);
      ValidIndicesMonotonic(first.polygons, |first.welder.vertices|, |rest.welder.vertices|);
      assert r.polygons == first.polygons + rest.polygons;
      forall i | 0 <= i < |r.polygons|
        ensures r.polygons[i].ValidIn(|r.welder.vertices|)
      {
        if i >= 4 {
          assert r.polygons[i] == rest.polygons[i - 4];
        }
      }
    }
  }

  /** A split from a sound cache, on indices below 2^16, keeps the cache sound. */
  lemma SplitPolygonSound(w: Welder, poly: Polygon)
    requires poly.ValidIn(|w.vertices|) && poly.ValidIn(TwoTo16) && CacheSound(w)
    ensures CacheSound(SplitPolygon(w, poly).welder)
  {
    var ab := GetMidPointIndex(w, poly.a, poly.b);
    LookupSound(w, poly.a, poly.b);
    var bc := GetMidPointIndex(ab.welder, poly.b, poly.c);
    LookupSound(ab.welder, poly.b, poly.c);
    LookupSound(bc.welder, poly.c, poly.a);
  }

  /** A pass from a sound cache, on indices below 2^16, keeps the cache sound. */
  lemma {:induction false} SubdividePolygonsSound(w: Welder, polygons: seq<Polygon>)
    requires ValidIndices(polygons, |w.vertices|) && ValidIndices(polygons, TwoTo16)
    requires CacheSound(w)
    ensures CacheSound(SubdividePolygons(w, polygons).welder)
    decreases |polygons|
  {
    if |polygons| > 0 {
      var first := SplitPolygon(w, polygons[0]);
      SplitPolygonSound(w, polygons[0]);
      ValidIndicesMonotonic(polygons[1..], |w.vertices|, |first.welder.vertices|);
      SubdividePolygonsSound(first.welder, polygons[1..]);
    }
  }

  /**
    The midpoint vertex a split puts on side `k` of its parent: corner `k` of the
    inner child `(ab, bc, ca)`.
   */
  function SideMidpoint(children: seq<Polygon>, i: nat, k: nat): nat
    requires 4 * i + 4 <= |children| && k < 3
  {
    children[4 * i + 3].Vertex(k)
  }

  /** Side `k` of `p` and side `l` of `q` join the same two vertices, in either direction. */
  predicate SameSide(p: Polygon, k: nat, q: Polygon, l: nat)
    requires k < 3 && l < 3
  {
    SameEdge(Edge(p, k).0, Edge(p, k).1, Edge(q, l).0, Edge(q, l).1)
  }

  /**
    Welding: two polygons of a pass that share a side, in either direction, are
    given one and the same midpoint vertex for it. This needs no bound on the
    indices: equal edges have equal keys whatever their size.
   */
  lemma SharedSideWelded(w: Welder, polygons: seq<Polygon>, i: nat, k: nat, j: nat, l: nat)
    requires ValidIndices(polygons, |w.vertices|)
    requires i < |polygons| && j < |polygons| && k < 3 && l < 3
    requires SameSide(polygons[i], k, polygons[j], l)
    ensures var r := SubdividePolygons(w, polygons);
            SideMidpoint(r.polygons, i, k) == SideMidpoint(r.polygons, j, l)
  {
    var r := SubdividePolygons(w, polygons);
    SubdividePolygonsSplits(w, polygons);
    SideMidpointCached(polygons[i], r.polygons, i, k, r.welder.cache);
    SideMidpointCached(polygons[j], r.polygons, j, l, r.welder.cache);
    var f := Edge(polygons[j], l);
    KeySymmetric(f.0, f.1);
  }

  /** The midpoint a split puts on a side is the one the cache holds for that side's key. */
  lemma SideMidpointCached(parent: Polygon, children: seq<Polygon>, i: nat, k: nat, cache: map<int, nat>)
    requires SplitInto(parent, children, 4 * i, cache) && k < 3
    ensures MidpointKey(Edge(parent, k).0, Edge(parent, k).1) in cache
    ensures SideMidpoint(children, i, k) == cache[MidpointKey(Edge(parent, k).0, Edge(parent, k).1)]
  {
  }

  /**
    The corners of a split's inner child are the midpoints of the parent's
    three sides.
   */
  predicate MidpointsPlaced(parent: Polygon, children: seq<Polygon>, at: nat, vertices: seq<Point>)
  {
    && at + 4 <= |children|
    && parent.ValidIn(|vertices|)
    && children[at + 3].ValidIn(|vertices|)
    && IsMidpointOf(vertices[children[at + 3].a], vertices[parent.a], vertices[parent.b])
    && IsMidpointOf(vertices[children[at + 3].b], vertices[parent.b], vertices[parent.c])
    && IsMidpointOf(vertices[children[at + 3].c], vertices[parent.c], vertices[parent.a])
  }

  /**
    After a pass from a sound cache on indices below 2^16, every inner child has
    the midpoints of its parent's sides as corners, in the final vertex list.
   */
  lemma SubdividePolygonsPlacesMidpoints(w: Welder, polygons: seq<Polygon>, i: nat)
    requires ValidIndices(polygons, |w.vertices|) && ValidIndices(polygons, TwoTo16)
    requires CacheSound(w) && i < |polygons|
    ensures var r := SubdividePolygons(w, polygons);
            MidpointsPlaced(polygons[i], r.polygons, 4 * i, r.welder.vertices)
  {
    var r := SubdividePolygons(w, polygons);
    SubdividePolygonsSplits(w, polygons);
    SubdividePolygonsSound(w, polygons);
    SplitPlacesMidpoints(polygons[i], r.polygons, 4 * i, r.welder);
  }

  /** A split named by a sound cache, of a parent with indices below 2^16, places its midpoints. */
  lemma SplitPlacesMidpoints(parent: Polygon, children: seq<Polygon>, at: nat, w: Welder)
    requires SplitInto(parent, children, at, w.cache) && CacheSound(w) && parent.ValidIn(TwoTo16)
    ensures MidpointsPlaced(parent, children, at, w.vertices)
  {
    assert MidpointKey(parent.a, parent.b) in w.cache;
    assert MidpointKey(parent.b, parent.c) in w.cache;
    assert MidpointKey(parent.c, parent.a) in w.cache;
  }

  /**
    `passes` passes of the outer loop, all sharing one cache (Planet.cs:222-244):
    the first `passes - 1` of them, then one more on their result.
   */
  function SubdivideLoop(w: Welder, polygons: seq<Polygon>, passes: nat): (r: Pass)
    requires ValidIndices(polygons, |w.vertices|) && CacheBounded(w)
    ensures |r.polygons| == |polygons| * Pow4(passes)
    ensures Extends(r.welder, w)
    ensures CacheBounded(r.welder) && ValidIndices(r.polygons, |r.welder.vertices|)
    ensures |r.welder.vertices| + |polygons| <= |w.vertices| + |r.polygons|
    decreases passes
  {
    if passes == 0 then
      Pass(w, polygons)
    else
      var before := SubdivideLoop(w, polygons, passes - 1);
      SubdividePolygonsBounded(before.welder, before.polygons);
      var r := SubdividePolygons(before.welder, before.polygons);
      ExtendsTransitive(r.welder, before.welder, w);
      CountStep(|polygons|, |before.polygons|, passes);
      r
  }

  lemma CountStep(n: nat, n': nat, passes: nat)
    requires passes >= 1 && n' == n * Pow4(passes - 1)
    ensures 4 * n' == n * Pow4(passes)
  {
  }

  /**
    `Subdivide(recursions)`: a fresh cache, then `recursions` passes; a count of
    zero or less runs the loop body never and leaves the mesh as it is.
   */
  function Subdivide(m: Mesh, recursions: int): (r: Mesh)
    requires Valid(m)
    ensures Valid(r)
    ensures m.vertices <= r.vertices
    ensures recursions <= 0 ==> r == m
    ensures recursions > 0 ==>
              && |r.polygons| == |m.polygons| * Pow4(recursions)
              && |r.vertices| + |m.polygons| <= |m.vertices| + |r.polygons|
  {
    var passes := if recursions > 0 then recursions else 0;
    var r := SubdivideLoop(Welder(m.vertices, map[]), m.polygons, passes);
    Mesh(r.welder.vertices, r.polygons)
  }

  /**
    Cache soundness over several passes: it holds throughout as long as the
    vertex list entering the last pass has at most 2^16 entries, so that every
    index any pass looks up is below 2^16.
   */
  lemma {:induction false} SubdivideLoopSound(w: Welder, polygons: seq<Polygon>, passes: nat)
    requires ValidIndices(polygons, |w.vertices|) && CacheBounded(w) && CacheSound(w)
    requires passes > 0 ==> |SubdivideLoop(w, polygons, passes - 1).welder.vertices| <= TwoTo16
    ensures CacheSound(SubdivideLoop(w, polygons, passes).welder)
    decreases passes
  {
    if passes > 0 {
      var before := SubdivideLoop(w, polygons, passes - 1);
      if passes > 1 {
        var earlier := SubdivideLoop(w, polygons, passes - 2);
        assert |earlier.welder.vertices| <= |before.welder.vertices|;
      }
      SubdivideLoopSound(w, polygons, passes - 1);
      ValidIndicesMonotonic(before.polygons, |before.welder.vertices|, TwoTo16);
      SubdividePolygonsSound(before.welder, before.polygons);
    }
  }

  /**
    The mesh `Subdivide(m, recursions)` read against the mesh one pass earlier:
    two polygons of the earlier mesh that share a side, in either direction,
    have the same midpoint vertex on that side after the last pass.
   */
  lemma SubdivideWelds(m: Mesh, recursions: int, i: nat, k: nat, j: nat, l: nat)
    requires Valid(m) && recursions > 0
    requires var before := Subdivide(m, recursions - 1);
             && i < |before.polygons| && j < |before.polygons| && k < 3 && l < 3
             && SameSide(before.polygons[i], k, before.polygons[j], l)
    ensures var before, after := Subdivide(m, recursions - 1), Subdivide(m, recursions);
            && |after.polygons| == 4 * |before.polygons|
            && SideMidpoint(after.polygons, i, k) == SideMidpoint(after.polygons, j, l)
  {
    var last := SubdivideLoop(Welder(m.vertices, map[]), m.polygons, recursions - 1);
    SharedSideWelded(last.welder, last.polygons, i, k, j, l);
  }

  /** The vertex list only grows from one pass to the next. */
  lemma SubdivideLoopGrows(w: Welder, polygons: seq<Polygon>, passes: nat)
    requires ValidIndices(polygons, |w.vertices|) && CacheBounded(w) && passes > 0
    ensures |SubdivideLoop(w, polygons, passes - 1).welder.vertices|
         <= |SubdivideLoop(w, polygons, passes).welder.vertices|
  {
    var before := SubdivideLoop(w, polygons, passes - 1);
    SubdividePolygonsBounded(before.welder, before.polygons);
    assert SubdivideLoop(w, polygons, passes) == SubdividePolygons(before.welder, before.polygons);
  }

  /**
    Starting from a sound cache, when the vertex list entering the last pass has
    at most 2^16 entries, the inner child of each polygon split by that pass has
    the midpoints of the parent's three sides as corners.
   */
  lemma SubdivideLoopPlacesMidpoints(w: Welder, polygons: seq<Polygon>, passes: nat, i: nat)
    requires ValidIndices(polygons, |w.vertices|) && CacheBounded(w) && CacheSound(w)
    requires passes > 0
    requires |SubdivideLoop(w, polygons, passes - 1).welder.vertices| <= TwoTo16
    requires i < |SubdivideLoop(w, polygons, passes - 1).polygons|
    ensures var before, after := SubdivideLoop(w, polygons, passes - 1), SubdivideLoop(w, polygons, passes);
            MidpointsPlaced(before.polygons[i], after.polygons, 4 * i, after.welder.vertices)
  {
    var before := SubdivideLoop(w, polygons, passes - 1);
    assert SubdivideLoop(w, polygons, passes) == SubdividePolygons(before.welder, before.polygons);
    if passes > 1 {
      SubdivideLoopGrows(w, polygons, passes - 1);
    }
    SubdivideLoopSound(w, polygons, passes - 1);
    ValidIndicesMonotonic(before.polygons, |before.welder.vertices|, TwoTo16);
    SubdividePolygonsPlacesMidpoints(before.welder, before.polygons, i);
  }

  /**
    When the mesh entering the last pass of `Subdivide(m, recursions)` has at
    most 2^16 vertices, the inner child of each of its polygons has the
    midpoints of the parent's three sides as corners.
   */
  lemma SubdividePlacesMidpoints(m: Mesh, recursions: int, i: nat)
    requires Valid(m) && recursions > 0
    requires |Subdivide(m, recursions - 1).vertices| <= TwoTo16
    requires i < |Subdivide(m, recursions - 1).polygons|
    ensures var before, after := Subdivide(m, recursions - 1), Subdivide(m, recursions);
            MidpointsPlaced(before.polygons[i], after.polygons, 4 * i, after.vertices)
  {
    SubdivideLoopPlacesMidpoints(Welder(m.vertices, map[]), m.polygons, recursions, i);
  }
}
