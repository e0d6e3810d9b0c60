/**
  The edge key of `GetMidPointIndex`: the two vertex indices of an edge are
  ordered with `Mathf.Min`/`Mathf.Max` and packed as `(smaller << 16) + greater`
  in a C# `int`, evaluated in an unchecked context, so both the shift and the
  addition keep only the low 32 bits as a two's-complement value.
 */
module Keys {

  const TwoTo16: int := 0x1_0000
  const TwoTo31: int := 0x8000_0000
  const TwoTo32: int := 0x1_0000_0000

  /**
    The 32-bit two's-complement value that C# keeps of the mathematical integer
    `x`: `x` moved by whole multiples of 2^32 into `[-2^31, 2^31)`.
   */
  function Wrap32(x: int): (r: int)
    ensures -TwoTo31 <= r < TwoTo31
    decreases if x >= TwoTo31 then x else if x < -TwoTo31 then -x else 0
  {
    if x >= TwoTo31 then Wrap32(x - TwoTo32)
    else if x < -TwoTo31 then Wrap32(x + TwoTo32)
    else x
  }

  /** `x` and `y` differ by a whole multiple of 2^32. */
  predicate Congruent(x: int, y: int)
  {
    (x - y) % TwoTo32 == 0
  }

  /** Wrapping keeps the value modulo 2^32. */
  lemma {:induction false} Wrap32Congruent(x: int)
    ensures Congruent(x, Wrap32(x))
    decreases if x >= TwoTo31 then x else if x < -TwoTo31 then -x else 0
  {
    if x >= TwoTo31 {
      Wrap32Congruent(x - TwoTo32);
      CongruentShift(x - TwoTo32, Wrap32(x), 1);
    } else if x < -TwoTo31 {
      Wrap32Congruent(x + TwoTo32);
      CongruentShift(x + TwoTo32, Wrap32(x), -1);
    }
  }

  /** Congruence survives moving one side by `k` times 2^32. */
  lemma CongruentShift(x: int, y: int, k: int)
    requires Congruent(x, y)
    ensures Congruent(x + k * TwoTo32, y)
  {
    assert x + k * TwoTo32 - y == (x - y) + k * TwoTo32;
  }

  /** Congruence is transitive. */
  lemma CongruentTrans(x: int, y: int, z: int)
    requires Congruent(x, y) && Congruent(y, z)
    ensures Congruent(x, z)
  {
    var k, l := (x - y) / TwoTo32, (y - z) / TwoTo32;
    assert x - z == (k + l) * TwoTo32;
  }

  /** Adding the same amount to both sides keeps them congruent. */
  lemma CongruentPlus(x: int, y: int, d: int)
    requires Congruent(x, y)
    ensures Congruent(x + d, y + d)
  {
    assert (x + d) - (y + d) == x - y;
  }

  /** The wrapped value is the one value in range that is congruent to `x`. */
  lemma {:induction false} Wrap32Unique(x: int, y: int)
    requires -TwoTo31 <= y < TwoTo31 && Congruent(x, y)
    ensures Wrap32(x) == y
    decreases if x >= TwoTo31 then x else if x < -TwoTo31 then -x else 0
  {
    if x >= TwoTo31 {
      CongruentShift(x, y, -1);
      Wrap32Unique(x - TwoTo32, y);
    } else if x < -TwoTo31 {
      CongruentShift(x, y, 1);
      Wrap32Unique(x + TwoTo32, y);
    } else {
      var d := x - y;
      assert -TwoTo32 < d < TwoTo32 && d % TwoTo32 == 0;
    }
  }

  /** `x << 16` on a C# `int` (the shift count 16 is below 32, so it is not masked). */
  function ShiftLeft16(x: int): int
  {
    Wrap32(x * TwoTo16)
  }

  /** The shift agrees with multiplication by 2^16 modulo 2^32. */
  lemma ShiftLeft16Congruent(x: int)
    ensures Congruent(x * TwoTo16, ShiftLeft16(x))
  {
    Wrap32Congruent(x * TwoTo16);
  }

  /** `Mathf.Min` and `Mathf.Max` on `int`. */
  function Min(a: int, b: int): int
  {
    if a < b then a else b
  }

  function Max(a: int, b: int): int
  {
    if a > b then a else b
  }

  /** The cache key of the edge between `indexA` and `indexB`, an int32. */
  function MidpointKey(indexA: int, indexB: int): int
  {
    Wrap32(ShiftLeft16(Min(indexA, indexB)) + Max(indexA, indexB))
  }

  /** The key agrees modulo 2^32 with the exact packing `smaller * 2^16 + greater`. */
  lemma MidpointKeyCongruent(indexA: int, indexB: int)
    ensures Congruent(Min(indexA, indexB) * TwoTo16 + Max(indexA, indexB), MidpointKey(indexA, indexB))
  {
    var smaller, greater := Min(indexA, indexB), Max(indexA, indexB);
    var shifted := ShiftLeft16(smaller);
    ShiftLeft16Congruent(smaller);
    Wrap32Congruent(shifted + greater);
    CongruentPlus(smaller * TwoTo16, shifted, greater);
    CongruentTrans(smaller * TwoTo16 + greater, shifted + greater, Wrap32(shifted + greater));
  }

  /** Two pairs are the same unordered pair. */
  predicate SameEdge(a: int, b: int, c: int, d: int)
  {
    (a == c && b == d) || (a == d && b == c)
  }

  /** The key does not depend on the order in which the two indices are given. */
  lemma KeySymmetric(a: int, b: int)
    ensures MidpointKey(a, b) == MidpointKey(b, a)
  {
  }

  /** Wrapping is injective on the window `[0, 2^32)`. */
  lemma Wrap32InjectiveBelow(x: int, y: int)
    requires 0 <= x < TwoTo32 && 0 <= y < TwoTo32
    ensures Wrap32(x) == Wrap32(y) ==> x == y
  {
    WrapWindow(x);
    WrapWindow(y);
  }

  /** On `[0, 2^32)` wrapping subtracts 2^32 from the upper half. */
  lemma WrapWindow(x: int)
    requires 0 <= x < TwoTo32
    ensures Wrap32(x) == if x < TwoTo31 then x else x - TwoTo32
  {
    if x >= TwoTo31 {
      assert Wrap32(x) == Wrap32(x - TwoTo32);
    }
  }

  /** Below 2^16 the key is the packed value `s * 2^16 + g`, wrapped once. */
  lemma KeyBelowBound(s: int, g: int)
    requires 0 <= s <= g < TwoTo16
    ensures MidpointKey(s, g) == Wrap32(s * TwoTo16 + g)
    ensures 0 <= s * TwoTo16 + g < TwoTo32
  {
    var shifted := s * TwoTo16;
    assert 0 <= shifted < TwoTo32;
    WrapWindow(shifted);
    var packed := shifted + g;
    var moved := ShiftLeft16(s) + g;
    if moved != packed {
      assert moved == packed - TwoTo32;
      Wrap32Congruent(packed);
      CongruentShift(packed, Wrap32(packed), -1);
      Wrap32Unique(moved, Wrap32(packed));
    }
  }

  /** The packed value `s * 2^16 + g` with `g < 2^16` determines both `s` and `g`. */
  lemma PackedUnique(s: int, g: int, s': int, g': int)
    requires 0 <= g < TwoTo16 && 0 <= g' < TwoTo16
    requires s * TwoTo16 + g == s' * TwoTo16 + g'
    ensures s == s' && g == g'
  {
  }

  /**
    While both indices of both pairs are below 2^16, two edges get the same key
    exactly when they are the same unordered pair.
   */
  lemma KeyInjective(a: int, b: int, c: int, d: int)
    requires 0 <= a < TwoTo16 && 0 <= b < TwoTo16
    requires 0 <= c < TwoTo16 && 0 <= d < TwoTo16
    ensures MidpointKey(a, b) == MidpointKey(c, d) <==> SameEdge(a, b, c, d)
  {
    if SameEdge(a, b, c, d) {
      KeySymmetric(a, b);
    } else {
      var s, g := Min(a, b), Max(a, b);
      var s', g' := Min(c, d), Max(c, d);
      KeyBelowBound(s, g);
      KeyBelowBound(s', g');
      KeySymmetric(a, b);
      KeySymmetric(c, d);
      if MidpointKey(a, b) == MidpointKey(c, d) {
        Wrap32InjectiveBelow(s * TwoTo16 + g, s' * TwoTo16 + g');
        PackedUnique(s, g, s', g');
        assert false;
      }
    }
  }

  /**
    Above the bound the packing overlaps: the edge (0, 65538) and the edge (1, 2)
    share one key, so the cache would hand the midpoint of one to the other.
   */
  lemma KeyCollidesAboveBound()
    ensures !SameEdge(0, 65538, 1, 2)
    ensures MidpointKey(0, 65538) == MidpointKey(1, 2)
  {
    assert MidpointKey(0, 65538) == 65538;
    assert ShiftLeft16(1) == TwoTo16;
    assert MidpointKey(1, 2) == 65538;
  }
}
