/** The arithmetic of `vec<N,T>` for a real (arithmetic) element type, modelled
    with unbounded `int` scalars. The functions at the top are the specification
    of the operators; the methods further down run the source's index loops on
    the vector's array and are proved to compute those functions. */
module RealVec {
  import opened Vectors

  // ---------------------------------------------------------------------------
  // Specification

  /** A vector of n copies of `val`. */
  function Fill(n: nat, val: int): seq<int> {
    seq(n, _ => val)
  }

  function Add(a: seq<int>, b: seq<int>): seq<int>
    requires |a| == |b|
  {
    seq(|a|, i requires 0 <= i < |a| => a[i] + b[i])
  }

  function Sub(a: seq<int>, b: seq<int>): seq<int>
    requires |a| == |b|
  {
    seq(|a|, i requires 0 <= i < |a| => a[i] - b[i])
  }

  function Neg(a: seq<int>): seq<int> {
    seq(|a|, i requires 0 <= i < |a| => -a[i])
  }

  /** Every element multiplied (on the right) by the scalar `c`. */
  function Scale(a: seq<int>, c: int): seq<int> {
    seq(|a|, i requires 0 <= i < |a| => a[i] * c)
  }

  /** The dot product: the sum over i of a[i] * b[i], starting from 0 and adding
      the terms in index order. */
  function Dot(a: seq<int>, b: seq<int>): int
    requires |a| == |b|
  {
    if |a| == 0 then 0
    else Dot(a[..|a| - 1], b[..|b| - 1]) + a[|a| - 1] * b[|b| - 1]
  }

  /** The 3-D cross product. */
  function Cross(a: seq<int>, b: seq<int>): seq<int>
    requires |a| == 3 && |b| == 3
  {
    [a[1] * b[2] - a[2] * b[1],
     a[2] * b[0] - a[0] * b[2],
     a[0] * b[1] - a[1] * b[0]]
  }

  /** Integer division as the source's `/` performs it: truncated toward zero. */
  function TruncDiv(x: int, y: int): int
    requires y != 0
  {
    var q := Abs(x) / Abs(y);
    if (x < 0) == (y < 0) then q else -q
  }

  function Abs(x: int): nat {
    if x < 0 then -x else x
  }

  function Quot(a: seq<int>, c: int): seq<int>
    requires c != 0
  {
    seq(|a|, i requires 0 <= i < |a| => TruncDiv(a[i], c))
  }

  /** What `v *= v[k]` leaves in `a`. `operator*=` takes its scalar by reference,
      so with an element of the receiver as the scalar the elements up to and
      including k are multiplied by the old a[k], and every later one by the value
      element k holds by then, a[k] * a[k]. */
  function ScaleByOwn(a: seq<int>, k: nat): seq<int>
    requires k < |a|
  {
    seq(|a|, i requires 0 <= i < |a| => if i <= k then a[i] * a[k] else a[i] * (a[k] * a[k]))
  }

  /** What `v /= v[k]` leaves in `a`: the elements up to and including k are
      divided by the old a[k]; element k then holds 1, so the later ones keep
      their values. */
  function QuotByOwn(a: seq<int>, k: nat): seq<int>
    requires k < |a| && a[k] != 0
  {
    seq(|a|, i requires 0 <= i < |a| => if i <= k then TruncDiv(a[i], a[k]) else a[i])
  }

  // ---------------------------------------------------------------------------
  // Properties of the specification

  /** `(a + b) - a == b`, and `((a + b) - a) += (a + b)` followed by `-= b` gives
      back `a + b`: the additive round trips hold exactly over the integers. */
  lemma AddRoundTrip(a: seq<int>, b: seq<int>)
    requires |a| == |b|
    ensures Sub(Add(a, b), a) == b
    ensures Sub(Add(Sub(Add(a, b), a), Add(a, b)), b) == Add(a, b)
  {
  }

  /** Negation is an involution and is the additive inverse. */
  lemma NegInverse(a: seq<int>)
    ensures Neg(Neg(a)) == a
    ensures Add(a, Neg(a)) == Fill(|a|, 0)
    ensures Neg(a) == Scale(a, -1)
  {
  }

  /** `val * v` multiplies each element on the right, yet equals multiplying on
      the left, since integer multiplication commutes. */
  lemma ScaleCommutes(a: seq<int>, c: int)
    ensures forall i :: 0 <= i < |a| ==> Scale(a, c)[i] == c * a[i]
  {
  }

  lemma DotLength(a: seq<int>, b: seq<int>, n: nat)
    requires |a| == |b| && n < |a|
    ensures Dot(a[..n + 1], b[..n + 1]) == Dot(a[..n], b[..n]) + a[n] * b[n]
  {
    assert a[..n + 1][..n] == a[..n];
    assert b[..n + 1][..n] == b[..n];
  }

  lemma {:induction false} DotSymmetric(a: seq<int>, b: seq<int>)
    requires |a| == |b|
    ensures Dot(a, b) == Dot(b, a)
  {
    if |a| > 0 {
      DotSymmetric(a[..|a| - 1], b[..|b| - 1]);
    }
  }

  /** Scaling the first operand scales the dot product. */
  lemma {:induction false} DotScale(a: seq<int>, b: seq<int>, c: int)
    requires |a| == |b|
    ensures Dot(Scale(a, c), b) == c * Dot(a, b)
  {
    if |a| > 0 {
      var n := |a| - 1;
      assert Scale(a, c)[..n] == Scale(a[..n], c);
      DotScale(a[..n], b[..n], c);
      calc {
        Dot(Scale(a, c), b);
        c * Dot(a[..n], b[..n]) + (a[n] * c) * b[n];
        { assert (a[n] * c) * b[n] == c * (a[n] * b[n]); }
        c * (Dot(a[..n], b[..n]) + a[n] * b[n]);
      }
    }
  }

  /** The dot product distributes over vector addition in its first operand. */
  lemma {:induction false} DotAdd(a: seq<int>, b: seq<int>, c: seq<int>)
    requires |a| == |b| == |c|
    ensures Dot(Add(a, b), c) == Dot(a, c) + Dot(b, c)
  {
    if |a| > 0 {
      var n := |a| - 1;
      assert Add(a, b)[..n] == Add(a[..n], b[..n]);
      DotAdd(a[..n], b[..n], c[..n]);
    }
  }

  /** The squared norm `v * v` is never negative, and is zero only for the zero vector. */
  lemma {:induction false} DotSelfNonnegative(a: seq<int>)
    ensures Dot(a, a) >= 0
    ensures Dot(a, a) == 0 <==> a == Fill(|a|, 0)
  {
    if |a| > 0 {
      var n := |a| - 1;
      DotSelfNonnegative(a[..n]);
      if a[n] != 0 {
        assert a[n] * a[n] > 0;
        assert a[n] != Fill(|a|, 0)[n];
      }
      if a == Fill(|a|, 0) {
        assert a[..n] == Fill(n, 0);
      } else if a[n] == 0 {
        assert a[..n] != Fill(n, 0) by {
          var k :| 0 <= k < |a| && a[k] != 0;
          assert a[..n][k] != 0;
        }
      }
    }
  }

  /** A vector filled with 1 has squared norm N. */
  lemma {:induction false} DotOnes(n: nat)
    ensures Dot(Fill(n, 1), Fill(n, 1)) == n
  {
    if n > 0 {
      assert Fill(n, 1)[..n - 1] == Fill(n - 1, 1);
      DotOnes(n - 1);
    }
  }

  /** Scaling a vector by c multiplies its squared norm by c²: the exact form of
      `|c| * norm(v) == norm(c * v)`. */
  lemma DotSelfScale(a: seq<int>, c: int)
    ensures Dot(Scale(a, c), Scale(a, c)) == c * c * Dot(a, a)
  {
    DotScale(a, Scale(a, c), c);
    DotSymmetric(a, Scale(a, c));
    DotScale(a, a, c);
  }

  /** The cross product is orthogonal to both operands, exactly. */
  lemma CrossOrthogonal(a: seq<int>, b: seq<int>)
    requires |a| == 3 && |b| == 3
    ensures Dot(a, Cross(a, b)) == 0
    ensures Dot(b, Cross(a, b)) == 0
  {
    CrossOrthogonalFirst(a, b);
    CrossOrthogonalSecond(a, b);
  }

  lemma CrossOrthogonalFirst(a: seq<int>, b: seq<int>)
    requires |a| == 3 && |b| == 3
    ensures Dot(a, Cross(a, b)) == 0
  {
    var c := Cross(a, b);
    Dot3(a, c);
    var a0, a1, a2, b0, b1, b2 := a[0], a[1], a[2], b[0], b[1], b[2];
    assert c[0] == a1 * b2 - a2 * b1 && c[1] == a2 * b0 - a0 * b2 && c[2] == a0 * b1 - a1 * b0;
    assert Dot(a, c) == a0 * (a1 * b2 - a2 * b1) + a1 * (a2 * b0 - a0 * b2) + a2 * (a0 * b1 - a1 * b0);
    TripleProductVanishes(a0, a1, a2, b0, b1, b2);
  }

  lemma CrossOrthogonalSecond(a: seq<int>, b: seq<int>)
    requires |a| == 3 && |b| == 3
    ensures Dot(b, Cross(a, b)) == 0
  {
    var c := Cross(a, b);
    Dot3(b, c);
    var a0, a1, a2, b0, b1, b2 := a[0], a[1], a[2], b[0], b[1], b[2];
    assert c[0] == a1 * b2 - a2 * b1 && c[1] == a2 * b0 - a0 * b2 && c[2] == a0 * b1 - a1 * b0;
    assert Dot(b, c) == b0 * (a1 * b2 - a2 * b1) + b1 * (a2 * b0 - a0 * b2) + b2 * (a0 * b1 - a1 * b0);
    TripleProductVanishesRight(a0, a1, a2, b0, b1, b2);
  }

  /** Swapping the operands negates the cross product. */
  lemma CrossAntiCommutes(a: seq<int>, b: seq<int>)
    requires |a| == 3 && |b| == 3
    ensures Cross(b, a) == Neg(Cross(a, b))
  {
  }

  /** Lagrange's identity |a × b|² == |a|² |b|² − (a · b)², the exact form of the
      sin²θ relation between cross and dot products. */
  lemma CrossLagrange(a: seq<int>, b: seq<int>)
    requires |a| == 3 && |b| == 3
    ensures Dot(Cross(a, b), Cross(a, b)) == Dot(a, a) * Dot(b, b) - Dot(a, b) * Dot(a, b)
  {
    var c := Cross(a, b);
    Dot3(a, a);
    Dot3(b, b);
    Dot3(a, b);
    Dot3(c, c);
    var a0, a1, a2, b0, b1, b2 := a[0], a[1], a[2], b[0], b[1], b[2];
    SquareSums(a0, a1, a2, b0, b1, b2);
    Rearrange(a1, b2, a2, b1);
    Rearrange(a1, b1, a2, b2);
    Rearrange(a2, b0, a0, b2);
    Rearrange(a2, b2, a0, b0);
    Rearrange(a0, b1, a1, b0);
    Rearrange(a0, b0, a1, b1);
    QuadraticLagrange(a0 * b0, a0 * b1, a0 * b2, a1 * b0, a1 * b1, a1 * b2, a2 * b0, a2 * b1, a2 * b2);
  }

  lemma Dot3(a: seq<int>, b: seq<int>)
    requires |a| == 3 && |b| == 3
    ensures Dot(a, b) == a[0] * b[0] + a[1] * b[1] + a[2] * b[2]
  {
    DotLength(a, b, 0);
    DotLength(a, b, 1);
    DotLength(a, b, 2);
    assert a[..3] == a && b[..3] == b;
  }

  // Integer identities behind the cross-product lemmas, split so that each step
  // stays within reach of the solver's nonlinear arithmetic.

  lemma TripleProductVanishes(a0: int, a1: int, a2: int, b0: int, b1: int, b2: int)
    ensures a0 * (a1 * b2 - a2 * b1) + a1 * (a2 * b0 - a0 * b2) + a2 * (a0 * b1 - a1 * b0) == 0
  {
  }

  lemma TripleProductVanishesRight(a0: int, a1: int, a2: int, b0: int, b1: int, b2: int)
    ensures b0 * (a1 * b2 - a2 * b1) + b1 * (a2 * b0 - a0 * b2) + b2 * (a0 * b1 - a1 * b0) == 0
  {
  }

  lemma Rearrange(w: int, x: int, y: int, z: int)
    ensures (w * x) * (y * z) == (w * y) * (x * z)
  {
  }

  lemma Distribute3(p: int, q: int, r: int, s: int)
    ensures (p + q + r) * s == p * s + q * s + r * s
  {
  }

  /** (Σ aᵢ²)(Σ bⱼ²) is the sum of all nine (aᵢbⱼ)². */
  lemma SquareSums(a0: int, a1: int, a2: int, b0: int, b1: int, b2: int)
    ensures (a0 * a0 + a1 * a1 + a2 * a2) * (b0 * b0 + b1 * b1 + b2 * b2)
      == (a0 * b0) * (a0 * b0) + (a0 * b1) * (a0 * b1) + (a0 * b2) * (a0 * b2)
       + (a1 * b0) * (a1 * b0) + (a1 * b1) * (a1 * b1) + (a1 * b2) * (a1 * b2)
       + (a2 * b0) * (a2 * b0) + (a2 * b1) * (a2 * b1) + (a2 * b2) * (a2 * b2)
  {
    var sa := a0 * a0 + a1 * a1 + a2 * a2;
    assert sa * (b0 * b0 + b1 * b1 + b2 * b2) == sa * (b0 * b0) + sa * (b1 * b1) + sa * (b2 * b2);
    Distribute3(a0 * a0, a1 * a1, a2 * a2, b0 * b0);
    Distribute3(a0 * a0, a1 * a1, a2 * a2, b1 * b1);
    Distribute3(a0 * a0, a1 * a1, a2 * a2, b2 * b2);
    Rearrange(a0, a0, b0, b0); Rearrange(a0, a0, b1, b1); Rearrange(a0, a0, b2, b2);
    Rearrange(a1, a1, b0, b0); Rearrange(a1, a1, b1, b1); Rearrange(a1, a1, b2, b2);
    Rearrange(a2, a2, b0, b0); Rearrange(a2, a2, b1, b1); Rearrange(a2, a2, b2, b2);
  }

  /** Lagrange's identity written over the nine products xᵢⱼ = aᵢbⱼ, which obey
      xᵢⱼxⱼᵢ == xᵢᵢxⱼⱼ. */
  lemma QuadraticLagrange(x00: int, x01: int, x02: int, x10: int, x11: int, x12: int,
                          x20: int, x21: int, x22: int)
    requires x12 * x21 == x11 * x22 && x20 * x02 == x22 * x00 && x01 * x10 == x00 * x11
    ensures (x12 - x21) * (x12 - x21) + (x20 - x02) * (x20 - x02) + (x01 - x10) * (x01 - x10)
      == x00 * x00 + x01 * x01 + x02 * x02 + x10 * x10 + x11 * x11 + x12 * x12
       + x20 * x20 + x21 * x21 + x22 * x22 - (x00 + x11 + x22) * (x00 + x11 + x22)
  {
  }

  /** The worked example: (1,2,3) - (3,2,1) == (-2,0,2), halved with truncation to
      (-1,0,1); cross((1,2,3), (3,2,1)) == (-4, 8, -4), and it is orthogonal to
      (1,2,3). */
  lemma CrossExample()
    ensures Sub([1, 2, 3], [3, 2, 1]) == [-2, 0, 2]
    ensures Quot([-2, 0, 2], 2) == [-1, 0, 1]
    ensures Cross([1, 2, 3], [3, 2, 1]) == [-4, 8, -4]
    ensures Dot([-4, 8, -4], [1, 2, 3]) == 0
  {
    Dot3([-4, 8, -4], [1, 2, 3]);
  }

  /** Truncating division leaves a remainder with the sign of the dividend and
      smaller in magnitude than the divisor, and rounds the quotient toward zero. */
  lemma TruncDivRemainder(x: int, y: int)
    requires y != 0
    ensures Abs(x - y * TruncDiv(x, y)) < Abs(y)
    ensures x - y * TruncDiv(x, y) == 0 || ((x - y * TruncDiv(x, y) < 0) == (x < 0))
    ensures Abs(TruncDiv(x, y)) == Abs(x) / Abs(y)
  {
    var ax, ay := Abs(x), Abs(y);
    var q: int, r: int := ax / ay, ax % ay;
    assert ax == ay * q + r && 0 <= r < ay;
    TruncProduct(x, y);
    assert x - y * TruncDiv(x, y) == (if x < 0 then -r else r);
  }

  lemma TruncProduct(x: int, y: int)
    requires y != 0
    ensures y * TruncDiv(x, y) == if x < 0 then -(Abs(y) * (Abs(x) / Abs(y)))
                                  else Abs(y) * (Abs(x) / Abs(y))
  {
    var ay: int, q: int := Abs(y), Abs(x) / Abs(y);
    var t := TruncDiv(x, y);
    SignedProduct(ay, q);
    if y < 0 {
      assert y == -ay;
      if x < 0 {
        assert t == q;
        assert y * t == (-ay) * q;
      } else {
        assert t == -q;
        assert y * t == (-ay) * (-q);
      }
    } else {
      assert y == ay;
      if x < 0 {
        assert t == -q;
        assert y * t == ay * (-q);
      }
    }
  }

  lemma SignedProduct(a: int, b: int)
    ensures (-a) * b == -(a * b) && (-a) * (-b) == a * b && a * (-b) == -(a * b)
  {
  }

  /** Dividing a scaled vector by the same nonzero scalar restores it. */
  lemma QuotScale(a: seq<int>, c: int)
    requires c != 0
    ensures Quot(Scale(a, c), c) == a
  {
    forall i | 0 <= i < |a|
      ensures TruncDiv(a[i] * c, c) == a[i]
    {
      var x := a[i] * c;
      assert Abs(x) == Abs(a[i]) * Abs(c);
      MulDivCancel(Abs(a[i]), Abs(c));
    }
  }

  lemma MulDivCancel(x: nat, y: nat)
    requires y > 0
    ensures (x * y) / y == x
  {
    var q, r := (x * y) / y, (x * y) % y;
    assert x * y == q * y + r && 0 <= r < y;
    assert (q - x) * y == -r;
    SmallMultiple(q - x, y);
  }

  lemma SmallMultiple(k: int, y: int)
    requires y > 0 && -y < k * y < y
    ensures k == 0
  {
  }

  /** Dividing a nonzero number by itself gives 1, and dividing by 1 changes
      nothing. */
  lemma TruncDivUnit(x: int, y: int)
    requires x != 0
    ensures TruncDiv(x, x) == 1
    ensures TruncDiv(y, 1) == y
  {
  }

  /** Scaling by an element of the vector itself agrees with scaling by a copy of
      that element exactly when v[k] is 0 or 1, or every element after k is 0. */
  lemma ScaleByOwnIsScale(a: seq<int>, k: nat)
    requires k < |a|
    ensures ScaleByOwn(a, k) == Scale(a, a[k]) <==>
            (a[k] == 0 || a[k] == 1 || forall i :: k < i < |a| ==> a[i] == 0)
  {
    if a[k] != 0 && a[k] != 1 && exists i :: k < i < |a| && a[i] != 0 {
      var i :| k < i < |a| && a[i] != 0;
      var x := a[i] * a[k];
      assert x != 0;
      assert a[i] * (a[k] * a[k]) == x * a[k];
      ProductIsSelf(x, a[k]);
      assert ScaleByOwn(a, k)[i] != Scale(a, a[k])[i];
    } else {
      forall i | 0 <= i < |a| ensures ScaleByOwn(a, k)[i] == Scale(a, a[k])[i] {
        if a[k] == 1 {
          assert a[k] * a[k] == a[k];
        }
      }
    }
  }

  lemma ProductIsSelf(x: int, y: int)
    requires x != 0 && y != 1
    ensures x * y != x
  {
    assert x * y - x == x * (y - 1);
  }

  /** `v *= v[0]` on (2,3) yields (4,12), where a copy of v[0] yields (4,6). */
  lemma MulAssignAtExample()
    ensures ScaleByOwn([2, 3], 0) == [4, 12]
    ensures Scale([2, 3], 2) == [4, 6]
  {
  }

  /** `v /= v[0]` on (2,4,6) yields (1,4,6), where a copy of v[0] yields (1,2,3). */
  lemma DivAssignAtExample()
    ensures QuotByOwn([2, 4, 6], 0) == [1, 4, 6]
    ensures Quot([2, 4, 6], 2) == [1, 2, 3]
  {
  }

  // ---------------------------------------------------------------------------
  // The operators on vectors

  /** `v += rhs`: element i grows by rhs[i]. `rhs` may be `v` itself. */
  method AddAssign(v: Vec<int>, rhs: Vec<int>)
    requires v.N() == rhs.N()
    modifies v.data
    ensures v.Elems() == Add(old(v.Elems()), old(rhs.Elems()))
  {
    ghost var a, b := v.Elems(), rhs.Elems();
    var i := 0;
    while i < v.N()
      invariant 0 <= i <= v.N()
      invariant forall k :: 0 <= k < i ==> v.data[k] == a[k] + b[k]
      invariant forall k :: i <= k < v.N() ==> v.data[k] == a[k] && rhs.data[k] == b[k]
    {
      v.data[i] := v.data[i] + rhs.data[i];
      i := i + 1;
    }
  }

  /** `v -= rhs`: element i shrinks by rhs[i]. `rhs` may be `v` itself. */
  method SubAssign(v: Vec<int>, rhs: Vec<int>)
    requires v.N() == rhs.N()
    modifies v.data
    ensures v.Elems() == Sub(old(v.Elems()), old(rhs.Elems()))
  {
    ghost var a, b := v.Elems(), rhs.Elems();
    var i := 0;
    while i < v.N()
      invariant 0 <= i <= v.N()
      invariant forall k :: 0 <= k < i ==> v.data[k] == a[k] - b[k]
      invariant forall k :: i <= k < v.N() ==> v.data[k] == a[k] && rhs.data[k] == b[k]
    {
      v.data[i] := v.data[i] - rhs.data[i];
      i := i + 1;
    }
  }

  /** `v *= val`: every element multiplied by the scalar. */
  method MulAssign(v: Vec<int>, val: int)
    modifies v.data
    ensures v.Elems() == Scale(old(v.Elems()), val)
  {
    ghost var a := v.Elems();
    var i := 0;
    while i < v.N()
      invariant 0 <= i <= v.N()
      invariant forall k :: 0 <= k < i ==> v.data[k] == a[k] * val
      invariant forall k :: i <= k < v.N() ==> v.data[k] == a[k]
    {
      v.data[i] := v.data[i] * val;
      i := i + 1;
    }
  }

  /** `v /= val` with truncating integer division; the divisor must not be zero. */
  method DivAssign(v: Vec<int>, val: int)
    requires val != 0
    modifies v.data
    ensures v.Elems() == Quot(old(v.Elems()), val)
  {
    ghost var a := v.Elems();
    var i := 0;
    while i < v.N()
      invariant 0 <= i <= v.N()
      invariant forall k :: 0 <= k < i ==> v.data[k] == TruncDiv(a[k], val)
      invariant forall k :: i <= k < v.N() ==> v.data[k] == a[k]
    {
      v.data[i] := TruncDiv(v.data[i], val);
      i := i + 1;
    }
  }

  /** `v *= v[k]`: the scalar is the receiver's own element k, read afresh at
      every step, so the steps after k see its updated value. */
  method MulAssignAt(v: Vec<int>, k: nat)
    requires k < v.N()
    modifies v.data
    ensures v.Elems() == ScaleByOwn(old(v.Elems()), k)
  {
    ghost var a := v.Elems();
    var i := 0;
    while i < v.N()
      invariant 0 <= i <= v.N()
      invariant forall j :: 0 <= j < i ==> v.data[j] == ScaleByOwn(a, k)[j]
      invariant forall j :: i <= j < v.N() ==> v.data[j] == a[j]
    {
      v.data[i] := v.data[i] * v.data[k];
      i := i + 1;
    }
  }

  /** `v /= v[k]`: the divisor is the receiver's own element k, read afresh at
      every step; it is 1 once step k has run. */
  method DivAssignAt(v: Vec<int>, k: nat)
    requires k < v.N() && v.data[k] != 0
    modifies v.data
    ensures v.Elems() == QuotByOwn(old(v.Elems()), k)
  {
    ghost var a := v.Elems();
    var i := 0;
    while i < v.N()
      invariant 0 <= i <= v.N()
      invariant forall j :: 0 <= j < i ==> v.data[j] == QuotByOwn(a, k)[j]
      invariant forall j :: i <= j < v.N() ==> v.data[j] == a[j]
    {
      TruncDivUnit(a[k], v.data[i]);
      v.data[i] := TruncDiv(v.data[i], v.data[k]);
      i := i + 1;
    }
  }

  /** `v *= T(v[k])`: scaling by a copy of element k multiplies every element by
      the same original value. */
  method MulByElement(v: Vec<int>, k: nat)
    requires k < v.N()
    modifies v.data
    ensures v.Elems() == Scale(old(v.Elems()), old(v.data[k]))
  {
    var val := v.data[k];
    MulAssign(v, val);
  }

  /** `v /= T(v[k])`: dividing by a copy of element k divides every element by the
      same original value, and element k becomes 1. */
  method DivByElement(v: Vec<int>, k: nat)
    requires k < v.N() && v.data[k] != 0
    modifies v.data
    ensures v.Elems() == Quot(old(v.Elems()), old(v.data[k]))
    ensures v.Elems()[k] == 1
  {
    var val := v.data[k];
    DivAssign(v, val);
    TruncDivUnit(val, val);
  }

  /** Unary minus: a fresh vector holding -v[i] in every slot. */
  method Negate(v: Vec<int>) returns (res: Vec<int>)
    ensures fresh(res.data)
    ensures res.Elems() == Neg(v.Elems())
  {
    res := new Vec<int>.Uninitialized(v.N());
    var i := 0;
    while i < v.N()
      invariant 0 <= i <= v.N()
      invariant forall k :: 0 <= k < i ==> res.data[k] == -v.data[k]
    {
      res.data[i] := -v.data[i];
      i := i + 1;
    }
  }

  /** Binary `lhs + rhs`: copy `lhs`, then `+= rhs`; both operands are unchanged. */
  method Plus(lhs: Vec<int>, rhs: Vec<int>) returns (res: Vec<int>)
    requires lhs.N() == rhs.N()
    ensures fresh(res.data)
    ensures res.Elems() == Add(lhs.Elems(), rhs.Elems())
  {
    res := new Vec<int>.Copy(lhs);
    AddAssign(res, rhs);
  }

  /** Binary `lhs - rhs`: copy `lhs`, then `-= rhs`; both operands are unchanged. */
  method Minus(lhs: Vec<int>, rhs: Vec<int>) returns (res: Vec<int>)
    requires lhs.N() == rhs.N()
    ensures fresh(res.data)
    ensures res.Elems() == Sub(lhs.Elems(), rhs.Elems())
  {
    res := new Vec<int>.Copy(lhs);
    SubAssign(res, rhs);
  }

  /** `val * rhs`: copy `rhs`, then `*= val`. */
  method ScaleLeft(val: int, rhs: Vec<int>) returns (res: Vec<int>)
    ensures fresh(res.data)
    ensures res.Elems() == Scale(rhs.Elems(), val)
  {
    res := new Vec<int>.Copy(rhs);
    MulAssign(res, val);
  }

  /** `lhs * val`: copy `lhs`, then `*= val`. */
  method ScaleRight(lhs: Vec<int>, val: int) returns (res: Vec<int>)
    ensures fresh(res.data)
    ensures res.Elems() == Scale(lhs.Elems(), val)
  {
    res := new Vec<int>.Copy(lhs);
    MulAssign(res, val);
  }

  /** `lhs / val`: copy `lhs`, then `/= val`. */
  method Divide(lhs: Vec<int>, val: int) returns (res: Vec<int>)
    requires val != 0
    ensures fresh(res.data)
    ensures res.Elems() == Quot(lhs.Elems(), val)
  {
    res := new Vec<int>.Copy(lhs);
    DivAssign(res, val);
  }

  /** The dot product `lhs * rhs`, accumulated from zero over the indices in order. */
  method DotProduct(lhs: Vec<int>, rhs: Vec<int>) returns (sum: int)
    requires lhs.N() == rhs.N()
    ensures sum == Dot(lhs.Elems(), rhs.Elems())
  {
    sum := 0;
    var i := 0;
    while i < lhs.N()
      invariant 0 <= i <= lhs.N()
      invariant sum == Dot(lhs.data[..i], rhs.data[..i])
    {
      DotLength(lhs.data[..], rhs.data[..], i);
      assert lhs.data[..][..i + 1] == lhs.data[..i + 1];
      assert rhs.data[..][..i + 1] == rhs.data[..i + 1];
      sum := sum + lhs.data[i] * rhs.data[i];
      i := i + 1;
    }
    assert lhs.data[..i] == lhs.Elems() && rhs.data[..i] == rhs.Elems();
  }

  /** The squared norm `v * v`; never negative. */
  method NormSq(v: Vec<int>) returns (r: int)
    ensures r == Dot(v.Elems(), v.Elems())
    ensures r >= 0
  {
    r := DotProduct(v, v);
    DotSelfNonnegative(v.Elems());
  }

  /** `cross(lhs, rhs)` for 3-vectors, built through the initializer-list constructor. */
  method CrossProduct(lhs: Vec<int>, rhs: Vec<int>) returns (res: Vec<int>)
    requires lhs.N() == 3 && rhs.N() == 3
    ensures fresh(res.data)
    ensures res.Elems() == Cross(lhs.Elems(), rhs.Elems())
  {
    res := new Vec<int>.FromList(3,
      [lhs.data[1] * rhs.data[2] - lhs.data[2] * rhs.data[1],
       lhs.data[2] * rhs.data[0] - lhs.data[0] * rhs.data[2],
       lhs.data[0] * rhs.data[1] - lhs.data[1] * rhs.data[0]]);
  }

  // ---------------------------------------------------------------------------
  // The real dot product as written, with an accumulator that is never initialised

  /** The real dot-product loop run from an arbitrary starting value `init` of the
      accumulator, which is what an uninitialised `sum` amounts to. */
  function DotAsWritten(init: int, a: seq<int>, b: seq<int>): (r: int)
    requires |a| == |b|
    ensures r == init + Dot(a, b)
  {
    if |a| == 0 then init
    else DotAsWritten(init, a[..|a| - 1], b[..|b| - 1]) + a[|a| - 1] * b[|b| - 1]
  }

  /** With any garbage start other than zero, the loop as written misses the dot
      product: for (2)·(3) and a leftover accumulator of 1 it yields 7, not 6. */
  lemma DotAsWrittenWrong()
    ensures DotAsWritten(1, [2], [3]) == 7
    ensures Dot([2], [3]) == 6
  {
  }
}
