/**
 * Semantic vectors: the `Dict[str, float]` of a symbolic position, kept as a list
 * of (dimension, value) pairs in insertion order with no dimension twice.  This
 * module holds the arithmetic that `distance_to` does on them: the dot product
 * over shared dimensions and the sum of squares under the square root, and the
 * facts about them that the distance needs (symmetry and Cauchy-Schwarz).
 */
module SemanticVectors {
  type Label = string

  predicate DistinctKeys(v: seq<(Label, real)>)
  {
    forall i, j :: 0 <= i < j < |v| ==> v[i].0 != v[j].0
  }

  type Vector = v: seq<(Label, real)> | DistinctKeys(v) witness []

  function Keys(v: seq<(Label, real)>): set<Label>
  {
    if v == [] then {} else {v[0].0} + Keys(v[1..])
  }

  lemma {:induction false} KeysIndex(v: seq<(Label, real)>, k: Label)
    ensures k in Keys(v) <==> exists i :: 0 <= i < |v| && v[i].0 == k
  {
    if v != [] {
      KeysIndex(v[1..], k);
      if k in Keys(v[1..]) {
        var i :| 0 <= i < |v[1..]| && v[1..][i].0 == k;
        assert v[i + 1].0 == k;
      }
      if exists i :: 0 <= i < |v| && v[i].0 == k {
        var i :| 0 <= i < |v| && v[i].0 == k;
        if i > 0 { assert v[1..][i - 1].0 == k; }
      }
    }
  }

  /** `vector.get(k, 0)`. */
  function Get(v: seq<(Label, real)>, k: Label): real
  {
    if v == [] then 0.0 else if v[0].0 == k then v[0].1 else Get(v[1..], k)
  }

  /** The sum, over the dimensions of a that b also has, of a[d] * b[d]. */
  function DotCommon(a: seq<(Label, real)>, b: seq<(Label, real)>): real
  {
    if a == [] then 0.0
    else (if a[0].0 in Keys(b) then a[0].1 * Get(b, a[0].0) else 0.0) + DotCommon(a[1..], b)
  }

  /** `sum(v**2 for v in vector.values())`. */
  function SumSquares(v: seq<(Label, real)>): real
  {
    if v == [] then 0.0 else v[0].1 * v[0].1 + SumSquares(v[1..])
  }

  /** The vector without dimension k. */
  function Drop(v: seq<(Label, real)>, k: Label): (r: seq<(Label, real)>)
    ensures Keys(r) == Keys(v) - {k}
  {
    if v == [] then []
    else if v[0].0 == k then Drop(v[1..], k)
    else [v[0]] + Drop(v[1..], k)
  }

  lemma {:induction false} DropDistinct(v: seq<(Label, real)>, k: Label)
    requires DistinctKeys(v)
    ensures DistinctKeys(Drop(v, k))
  {
    if v != [] {
      DistinctTail(v);
      DropDistinct(v[1..], k);
      var t := Drop(v[1..], k);
      if v[0].0 != k {
        KeysIndex(t, v[0].0);
        var r := [v[0]] + t;
        forall i, j | 0 <= i < j < |r| ensures r[i].0 != r[j].0 {
          if i > 0 { assert r[i] == t[i - 1] && r[j] == t[j - 1]; }
          else { assert r[j] == t[j - 1]; }
        }
      }
    }
  }

  lemma {:induction false} GetMissing(v: seq<(Label, real)>, k: Label)
    requires k !in Keys(v)
    ensures Get(v, k) == 0.0
  {
    if v != [] {
      GetMissing(v[1..], k);
    }
  }

  lemma DistinctTail(v: seq<(Label, real)>)
    requires v != [] && DistinctKeys(v)
    ensures DistinctKeys(v[1..]) && v[0].0 !in Keys(v[1..])
  {
    assert forall i :: 0 <= i < |v[1..]| ==> v[1..][i] == v[i + 1];
    KeysIndex(v[1..], v[0].0);
  }

  /** Removing a dimension leaves the other dimensions' values alone. */
  lemma {:induction false} GetDrop(v: seq<(Label, real)>, k: Label, j: Label)
    requires j != k
    ensures Get(Drop(v, k), j) == Get(v, j)
  {
    if v != [] {
      GetDrop(v[1..], k, j);
    }
  }

  /** The square of one dimension plus the squares of the others is the whole sum. */
  lemma {:induction false} SumSquaresDrop(v: seq<(Label, real)>, k: Label)
    requires DistinctKeys(v)
    ensures SumSquares(v) == Get(v, k) * Get(v, k) + SumSquares(Drop(v, k))
  {
    if v == [] {
    } else {
      DistinctTail(v);
      SumSquaresDrop(v[1..], k);
      if v[0].0 == k {
        DropMissing(v[1..], k);
      }
    }
  }

  lemma {:induction false} DropMissing(v: seq<(Label, real)>, k: Label)
    requires k !in Keys(v)
    ensures Drop(v, k) == v
  {
    if v != [] {
      DropMissing(v[1..], k);
    }
  }

  // ---------------------------------------------------------------------------
  // Symmetry of the dot product over shared dimensions.

  /** The terms of DotCommon(b, a) for the one dimension k that a carries with value x. */
  lemma {:induction false} DotCommonSingle(b: seq<(Label, real)>, k: Label, x: real)
    requires DistinctKeys(b)
    ensures DotCommon(b, [(k, x)]) == (if k in Keys(b) then Get(b, k) * x else 0.0)
  {
    if b != [] {
      DistinctTail(b);
      DotCommonSingle(b[1..], k, x);
      assert Keys([(k, x)]) == {k} && Get([(k, x)], k) == x;
      if b[0].0 == k {
        GetMissing(b[1..], k);
      }
    }
  }

  /** DotCommon is additive in its second argument when the dimensions are disjoint. */
  lemma {:induction false} DotCommonSplit(b: seq<(Label, real)>, k: Label, x: real, a: seq<(Label, real)>)
    requires k !in Keys(a)
    ensures DotCommon(b, [(k, x)] + a) == DotCommon(b, [(k, x)]) + DotCommon(b, a)
  {
    if b != [] {
      DotCommonSplit(b[1..], k, x, a);
      var c := [(k, x)] + a;
      assert c[1..] == a;
      assert Keys([(k, x)]) == {k};
      var d, y := b[0].0, b[0].1;
      if d == k {
        GetMissing(a, k);
        HeadSplit(y, Get(c, d), Get([(k, x)], d), Get(a, d), true, true, false);
      } else if d in Keys(a) {
        HeadSplit(y, Get(c, d), Get([(k, x)], d), Get(a, d), true, false, true);
      } else {
        HeadSplit(y, Get(c, d), Get([(k, x)], d), Get(a, d), false, false, false);
      }
    }
  }

  /** The head term of DotCommon splits when the key is in one part or in neither. */
  lemma HeadSplit(y: real, gc: real, gk: real, ga: real, inC: bool, inK: bool, inA: bool)
    requires inC == (inK || inA) && !(inK && inA)
    requires inK ==> gc == gk
    requires inA ==> gc == ga
    ensures (if inC then y * gc else 0.0) == (if inK then y * gk else 0.0) + (if inA then y * ga else 0.0)
  {
  }

  /** a . b == b . a over the shared dimensions. */
  lemma {:induction false} DotCommonSymmetric(a: seq<(Label, real)>, b: seq<(Label, real)>)
    requires DistinctKeys(a) && DistinctKeys(b)
    ensures DotCommon(a, b) == DotCommon(b, a)
  {
    if a != [] {
      DistinctTail(a);
      DotCommonSymmetric(a[1..], b);
      var k, x := a[0].0, a[0].1;
      assert a == [(k, x)] + a[1..];
      DotCommonSplit(b, k, x, a[1..]);
      DotCommonSingle(b, k, x);
    } else {
      DotCommonEmpty(b);
    }
  }

  lemma {:induction false} DotCommonEmpty(b: seq<(Label, real)>)
    ensures DotCommon(b, []) == 0.0
  {
    if b != [] {
      DotCommonEmpty(b[1..]);
      assert Keys([]) == {};
    }
  }

  // ---------------------------------------------------------------------------
  // Cauchy-Schwarz: (a . b)^2 <= |a|^2 |b|^2.

  function Dot(xs: seq<real>, ys: seq<real>): real
    requires |xs| == |ys|
  {
    if xs == [] then 0.0 else xs[0] * ys[0] + Dot(xs[1..], ys[1..])
  }

  function Sq(xs: seq<real>): real
  {
    if xs == [] then 0.0 else xs[0] * xs[0] + Sq(xs[1..])
  }

  lemma SquareNonNegative(z: real)
    ensures z * z >= 0.0
  {
    if z < 0.0 { assert z * z == (-z) * (-z); }
  }

  lemma {:induction false} SqNonNegative(xs: seq<real>)
    ensures Sq(xs) >= 0.0
  {
    if xs != [] {
      SquareNonNegative(xs[0]);
      SqNonNegative(xs[1..]);
    }
  }

  /** x^2 |ys|^2 + y^2 |xs|^2 - 2xy (xs . ys) is a sum of squares. */
  lemma {:induction false} Lagrange(xs: seq<real>, ys: seq<real>, x: real, y: real)
    requires |xs| == |ys|
    ensures x * x * Sq(ys) + y * y * Sq(xs) - 2.0 * x * y * Dot(xs, ys) >= 0.0
  {
    if xs != [] {
      Lagrange(xs[1..], ys[1..], x, y);
      var a, b := xs[0], ys[0];
      var t, s, u := Sq(ys[1..]), Sq(xs[1..]), Dot(xs[1..], ys[1..]);
      SquareNonNegative(x * b - y * a);
      assert x * x * (b * b + t) + y * y * (a * a + s) - 2.0 * x * y * (a * b + u)
          == (x * b - y * a) * (x * b - y * a) + (x * x * t + y * y * s - 2.0 * x * y * u);
    }
  }

  lemma {:induction false} CauchySchwarz(xs: seq<real>, ys: seq<real>)
    requires |xs| == |ys|
    ensures Dot(xs, ys) * Dot(xs, ys) <= Sq(xs) * Sq(ys)
  {
    if xs != [] {
      var x, y := xs[0], ys[0];
      var s, t, u := Sq(xs[1..]), Sq(ys[1..]), Dot(xs[1..], ys[1..]);
      CauchySchwarz(xs[1..], ys[1..]);
      Lagrange(xs[1..], ys[1..], x, y);
      assert (x * y + u) * (x * y + u) == u * u + 2.0 * x * y * u + x * x * (y * y);
      assert (x * x + s) * (y * y + t) == s * t + x * x * t + y * y * s + x * x * (y * y);
    }
  }

  function Values(v: seq<(Label, real)>): (r: seq<real>)
    ensures |r| == |v|
  {
    if v == [] then [] else [v[0].1] + Values(v[1..])
  }

  /** b's value for each of a's dimensions, in a's order. */
  function Aligned(a: seq<(Label, real)>, b: seq<(Label, real)>): (r: seq<real>)
    ensures |r| == |a|
  {
    if a == [] then [] else [Get(b, a[0].0)] + Aligned(a[1..], b)
  }

  lemma {:induction false} DotCommonIsDot(a: seq<(Label, real)>, b: seq<(Label, real)>)
    ensures DotCommon(a, b) == Dot(Values(a), Aligned(a, b))
  {
    if a != [] {
      DotCommonIsDot(a[1..], b);
      if a[0].0 !in Keys(b) { GetMissing(b, a[0].0); }
    }
  }

  lemma {:induction false} SumSquaresIsSq(v: seq<(Label, real)>)
    ensures SumSquares(v) == Sq(Values(v))
  {
    if v != [] { SumSquaresIsSq(v[1..]); }
  }

  /** b's values at a's (distinct) dimensions carry no more square mass than all of b. */
  lemma {:induction false} AlignedSqBound(a: seq<(Label, real)>, b: seq<(Label, real)>)
    requires DistinctKeys(a) && DistinctKeys(b)
    ensures Sq(Aligned(a, b)) <= SumSquares(b)
  {
    if a == [] {
      SumSquaresIsSq(b);
      SqNonNegative(Values(b));
    } else {
      var k := a[0].0;
      var b' := Drop(b, k);
      DistinctTail(a);
      DropDistinct(b, k);
      AlignedSqBound(a[1..], b');
      AlignedDrop(a[1..], b, k);
      SumSquaresDrop(b, k);
    }
  }

  lemma {:induction false} AlignedDrop(a: seq<(Label, real)>, b: seq<(Label, real)>, k: Label)
    requires k !in Keys(a)
    ensures Aligned(a, Drop(b, k)) == Aligned(a, b)
  {
    if a != [] {
      GetDrop(b, k, a[0].0);
      AlignedDrop(a[1..], b, k);
    }
  }

  /**
   * Cauchy-Schwarz for the partial dot product that `distance_to` computes: with
   * d, sa and sb the dot product and the two sums of squares, d * d <= sa * sb.
   */
  lemma DotCommonBound(a: seq<(Label, real)>, b: seq<(Label, real)>, d: real, sa: real, sb: real)
    requires DistinctKeys(a) && DistinctKeys(b)
    requires d == DotCommon(a, b) && sa == SumSquares(a) && sb == SumSquares(b)
    ensures d * d <= sa * sb
  {
    var xs, ys := Values(a), Aligned(a, b);
    CauchySchwarz(xs, ys);
    DotCommonIsDot(a, b);
    SumSquaresIsSq(a);
    SqNonNegative(xs);
    AlignedSqBound(a, b);
    BoundChain(d, Dot(xs, ys), sa, Sq(xs), Sq(ys), sb);
  }

  /** d' * d' <= sa' * sp and sp <= sb give d * d <= sa * sb for the equal d and sa. */
  lemma BoundChain(d: real, d': real, sa: real, sa': real, sp: real, sb: real)
    requires d == d' && sa == sa' && d' * d' <= sa' * sp && 0.0 <= sa && sp <= sb
    ensures d * d <= sa * sb
  {
    assert sa * (sb - sp) >= 0.0;
  }

  /** The dot product of a vector with itself is its sum of squares. */
  lemma {:induction false} DotCommonSelf(v: seq<(Label, real)>)
    requires DistinctKeys(v)
    ensures DotCommon(v, v) == SumSquares(v)
  {
    DotCommonSelfSuffix(v, 0);
  }

  lemma {:induction false} DotCommonSelfSuffix(v: seq<(Label, real)>, i: nat)
    requires DistinctKeys(v) && i <= |v|
    ensures DotCommon(v[i..], v) == SumSquares(v[i..])
    decreases |v| - i
  {
    if i < |v| {
      DotCommonSelfSuffix(v, i + 1);
      assert v[i..][1..] == v[i + 1..];
      KeysIndex(v, v[i].0);
      GetAt(v, i);
    }
  }

  lemma {:induction false} GetAt(v: seq<(Label, real)>, i: nat)
    requires DistinctKeys(v) && i < |v|
    ensures Get(v, v[i].0) == v[i].1
  {
    if i > 0 {
      DistinctTail(v);
      GetAt(v[1..], i - 1);
    }
  }
}
