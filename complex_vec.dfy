/** The arithmetic of `vec<N,T>` for a complex element type, modelled with
    Gaussian integers so that every identity holds exactly. Compared with the
    real case the dot product conjugates its first operand, `norm_sq` keeps the
    real part of `v * v`, the cross product conjugates its three components, and
    conjugation (free and in place) exists. */
module ComplexVec {
  import opened Vectors
  import G = Gaussian

  type Complex = G.Complex

  // ---------------------------------------------------------------------------
  // Specification

  function Add(a: seq<Complex>, b: seq<Complex>): seq<Complex>
    requires |a| == |b|
  {
    seq(|a|, i requires 0 <= i < |a| => G.Add(a[i], b[i]))
  }

  function Sub(a: seq<Complex>, b: seq<Complex>): seq<Complex>
    requires |a| == |b|
  {
    seq(|a|, i requires 0 <= i < |a| => G.Sub(a[i], b[i]))
  }

  function Neg(a: seq<Complex>): seq<Complex> {
    seq(|a|, i requires 0 <= i < |a| => G.Neg(a[i]))
  }

  /** Every element multiplied (on the right) by the scalar `c`. */
  function Scale(a: seq<Complex>, c: Complex): seq<Complex> {
    seq(|a|, i requires 0 <= i < |a| => G.Mul(a[i], c))
  }

  /** Element-wise complex conjugate. */
  function Conj(a: seq<Complex>): seq<Complex> {
    seq(|a|, i requires 0 <= i < |a| => G.Conj(a[i]))
  }

  /** The inner product: the sum over i of conj(a[i]) * b[i], starting from zero
      and adding the terms in index order. */
  function Dot(a: seq<Complex>, b: seq<Complex>): Complex
    requires |a| == |b|
  {
    if |a| == 0 then G.Zero
    else G.Add(Dot(a[..|a| - 1], b[..|b| - 1]), G.Mul(G.Conj(a[|a| - 1]), b[|b| - 1]))
  }

  /** The sum of the squared moduli of the elements. */
  function SumNormSq(a: seq<Complex>): int {
    if |a| == 0 then 0 else SumNormSq(a[..|a| - 1]) + G.NormSq(a[|a| - 1])
  }

  /** The cross-product formula with every component conjugated. */
  function Cross(a: seq<Complex>, b: seq<Complex>): seq<Complex>
    requires |a| == 3 && |b| == 3
  {
    [G.Conj(G.Sub(G.Mul(a[1], b[2]), G.Mul(a[2], b[1]))),
     G.Conj(G.Sub(G.Mul(a[2], b[0]), G.Mul(a[0], b[2]))),
     G.Conj(G.Sub(G.Mul(a[0], b[1]), G.Mul(a[1], b[0])))]
  }

  /** What `v *= v[k]` leaves in `a`: the scalar is a reference to element k, so
      the elements up to and including k are multiplied by the old a[k], and every
      later one by the value element k holds by then, a[k] * a[k]. */
  function ScaleByOwn(a: seq<Complex>, k: nat): seq<Complex>
    requires k < |a|
  {
    seq(|a|, i requires 0 <= i < |a| =>
      if i <= k then G.Mul(a[i], a[k]) else G.Mul(a[i], G.Mul(a[k], a[k])))
  }

  // ---------------------------------------------------------------------------
  // Properties of the specification

  /** `(a + b) - a == b`, and `((a + b) - a) += (a + b)` followed by `-= b` gives
      back `a + b`, exactly, for Gaussian-integer vectors. */
  lemma AddRoundTrip(a: seq<Complex>, b: seq<Complex>)
    requires |a| == |b|
    ensures Sub(Add(a, b), a) == b
    ensures Sub(Add(Sub(Add(a, b), a), Add(a, b)), b) == Add(a, b)
  {
  }

  /** Conjugating twice gives back the original vector. */
  lemma ConjInvolution(a: seq<Complex>)
    ensures Conj(Conj(a)) == a
  {
  }

  /** `val * v` multiplies each element on the right, yet equals multiplying on
      the left, since complex multiplication commutes. */
  lemma ScaleCommutes(a: seq<Complex>, c: Complex)
    ensures forall i :: 0 <= i < |a| ==> Scale(a, c)[i] == G.Mul(c, a[i])
  {
    forall i | 0 <= i < |a| ensures Scale(a, c)[i] == G.Mul(c, a[i]) {
      G.MulCommutes(a[i], c);
    }
  }

  lemma DotLength(a: seq<Complex>, b: seq<Complex>, n: nat)
    requires |a| == |b| && n < |a|
    ensures Dot(a[..n + 1], b[..n + 1]) == G.Add(Dot(a[..n], b[..n]), G.Mul(G.Conj(a[n]), b[n]))
  {
    assert a[..n + 1][..n] == a[..n];
    assert b[..n + 1][..n] == b[..n];
  }

  /** `v * v` is real: its imaginary part is zero and its real part is the sum of
      the squared moduli, which is never negative. */
  lemma {:induction false} DotSelf(a: seq<Complex>)
    ensures Dot(a, a) == G.Complex(SumNormSq(a), 0)
    ensures SumNormSq(a) >= 0
  {
    if |a| > 0 {
      var n := |a| - 1;
      DotSelf(a[..n]);
      G.ConjTimesSelf(a[n]);
      G.NormSqNonnegative(a[n]);
    }
  }

  /** Swapping the operands conjugates the inner product. */
  lemma {:induction false} DotHermitian(a: seq<Complex>, b: seq<Complex>)
    requires |a| == |b|
    ensures Dot(b, a) == G.Conj(Dot(a, b))
  {
    if |a| > 0 {
      var n := |a| - 1;
      DotHermitian(a[..n], b[..n]);
      var t := G.Mul(G.Conj(a[n]), b[n]);
      G.ConjAdd(Dot(a[..n], b[..n]), t);
      G.ConjMul(G.Conj(a[n]), b[n]);
      G.ConjInvolution(a[n]);
      G.MulCommutes(a[n], G.Conj(b[n]));
    }
  }

  /** The inner product is conjugate-linear in its first operand. */
  lemma {:induction false} DotScaleFirst(a: seq<Complex>, b: seq<Complex>, c: Complex)
    requires |a| == |b|
    ensures Dot(Scale(a, c), b) == G.Mul(G.Conj(c), Dot(a, b))
  {
    if |a| > 0 {
      var n := |a| - 1;
      assert Scale(a, c)[..n] == Scale(a[..n], c);
      DotScaleFirst(a[..n], b[..n], c);
      var d, an, bn := Dot(a[..n], b[..n]), a[n], b[n];
      calc {
        Dot(Scale(a, c), b);
        G.Add(G.Mul(G.Conj(c), d), G.Mul(G.Conj(G.Mul(an, c)), bn));
        { G.ConjMul(an, c); }
        G.Add(G.Mul(G.Conj(c), d), G.Mul(G.Mul(G.Conj(an), G.Conj(c)), bn));
        { G.MulCommutes(G.Conj(an), G.Conj(c));
          G.MulAssociates(G.Conj(c), G.Conj(an), bn); }
        G.Add(G.Mul(G.Conj(c), d), G.Mul(G.Conj(c), G.Mul(G.Conj(an), bn)));
        { G.MulAddRight(G.Conj(c), d, G.Mul(G.Conj(an), bn)); }
        G.Mul(G.Conj(c), Dot(a, b));
      }
    }
  }

  /** The inner product is linear in its second operand. */
  lemma {:induction false} DotScaleSecond(a: seq<Complex>, b: seq<Complex>, c: Complex)
    requires |a| == |b|
    ensures Dot(a, Scale(b, c)) == G.Mul(c, Dot(a, b))
  {
    if |a| > 0 {
      var n := |a| - 1;
      assert Scale(b, c)[..n] == Scale(b[..n], c);
      DotScaleSecond(a[..n], b[..n], c);
      var d, an, bn := Dot(a[..n], b[..n]), a[n], b[n];
      calc {
        Dot(a, Scale(b, c));
        G.Add(G.Mul(c, d), G.Mul(G.Conj(an), G.Mul(bn, c)));
        { G.MulCommutes(bn, c);
          G.MulAssociates(G.Conj(an), c, bn);
          G.MulCommutes(G.Conj(an), c);
          G.MulAssociates(c, G.Conj(an), bn); }
        G.Add(G.Mul(c, d), G.Mul(c, G.Mul(G.Conj(an), bn)));
        { G.MulAddRight(c, d, G.Mul(G.Conj(an), bn)); }
        G.Mul(c, Dot(a, b));
      }
    }
  }

  /** The inner product is additive in its first operand; with `DotScaleFirst`
      this makes it conjugate-linear there. */
  lemma {:induction false} DotAddFirst(a: seq<Complex>, b: seq<Complex>, c: seq<Complex>)
    requires |a| == |b| == |c|
    ensures Dot(Add(a, b), c) == G.Add(Dot(a, c), Dot(b, c))
  {
    if |a| > 0 {
      var n := |a| - 1;
      assert Add(a, b)[..n] == Add(a[..n], b[..n]);
      DotAddFirst(a[..n], b[..n], c[..n]);
      G.ConjAdd(a[n], b[n]);
      G.MulCommutes(G.Add(G.Conj(a[n]), G.Conj(b[n])), c[n]);
      G.MulAddRight(c[n], G.Conj(a[n]), G.Conj(b[n]));
      G.MulCommutes(c[n], G.Conj(a[n]));
      G.MulCommutes(c[n], G.Conj(b[n]));
    }
  }

  /** The inner product is additive in its second operand; with `DotScaleSecond`
      this makes it linear there. */
  lemma {:induction false} DotAddSecond(a: seq<Complex>, b: seq<Complex>, c: seq<Complex>)
    requires |a| == |b| == |c|
    ensures Dot(a, Add(b, c)) == G.Add(Dot(a, b), Dot(a, c))
  {
    if |a| > 0 {
      var n := |a| - 1;
      assert Add(b, c)[..n] == Add(b[..n], c[..n]);
      DotAddSecond(a[..n], b[..n], c[..n]);
      G.MulAddRight(G.Conj(a[n]), b[n], c[n]);
    }
  }

  /** `v *= v[k]` agrees with scaling by a copy of v[k] up to index k; every
      later element picks up one extra factor of v[k]. */
  lemma ScaleByOwnExtraFactor(a: seq<Complex>, k: nat)
    requires k < |a|
    ensures forall i :: 0 <= i <= k ==> ScaleByOwn(a, k)[i] == Scale(a, a[k])[i]
    ensures forall i :: k < i < |a| ==> ScaleByOwn(a, k)[i] == G.Mul(Scale(a, a[k])[i], a[k])
  {
    forall i | k < i < |a|
      ensures ScaleByOwn(a, k)[i] == G.Mul(Scale(a, a[k])[i], a[k])
    {
      G.MulAssociates(a[i], a[k], a[k]);
    }
  }

  /** Scaling a vector by c multiplies its squared norm by |c|²: the exact form of
      `|c| * norm(v) == norm(c * v)`. */
  lemma {:induction false} NormSqScale(a: seq<Complex>, c: Complex)
    ensures SumNormSq(Scale(a, c)) == G.NormSq(c) * SumNormSq(a)
  {
    if |a| > 0 {
      var n := |a| - 1;
      assert Scale(a, c)[..n] == Scale(a[..n], c);
      NormSqScale(a[..n], c);
      G.NormSqMul(a[n], c);
      calc {
        SumNormSq(Scale(a, c));
        G.NormSq(c) * SumNormSq(a[..n]) + G.NormSq(a[n]) * G.NormSq(c);
        G.NormSq(c) * (SumNormSq(a[..n]) + G.NormSq(a[n]));
      }
    }
  }

  lemma Dot3(a: seq<Complex>, b: seq<Complex>)
    requires |a| == 3 && |b| == 3
    ensures Dot(a, b) == G.Add(G.Add(G.Mul(G.Conj(a[0]), b[0]), G.Mul(G.Conj(a[1]), b[1])),
                               G.Mul(G.Conj(a[2]), b[2]))
  {
    DotLength(a, b, 0);
    DotLength(a, b, 1);
    DotLength(a, b, 2);
    assert a[..3] == a && b[..3] == b;
  }

  /** The conjugated cross product is orthogonal to both operands under the
      conjugate-linear inner product, exactly. */
  lemma CrossOrthogonal(a: seq<Complex>, b: seq<Complex>)
    requires |a| == 3 && |b| == 3
    ensures Dot(a, Cross(a, b)) == G.Zero
    ensures Dot(b, Cross(a, b)) == G.Zero
  {
    CrossOrthogonalFirst(a, b);
    CrossOrthogonalSecond(a, b);
  }

  lemma CrossOrthogonalFirst(a: seq<Complex>, b: seq<Complex>)
    requires |a| == 3 && |b| == 3
    ensures Dot(a, Cross(a, b)) == G.Zero
  {
    var c := Cross(a, b);
    Dot3(a, c);
    var r0 := G.Sub(G.Mul(a[1], b[2]), G.Mul(a[2], b[1]));
    var r1 := G.Sub(G.Mul(a[2], b[0]), G.Mul(a[0], b[2]));
    var r2 := G.Sub(G.Mul(a[0], b[1]), G.Mul(a[1], b[0]));
    ConjugatedSum(a[0], a[1], a[2], r0, r1, r2);
    TripleProductVanishes(a[0], a[1], a[2], b[0], b[1], b[2]);
  }

  lemma CrossOrthogonalSecond(a: seq<Complex>, b: seq<Complex>)
    requires |a| == 3 && |b| == 3
    ensures Dot(b, Cross(a, b)) == G.Zero
  {
    var c := Cross(a, b);
    Dot3(b, c);
    var r0 := G.Sub(G.Mul(a[1], b[2]), G.Mul(a[2], b[1]));
    var r1 := G.Sub(G.Mul(a[2], b[0]), G.Mul(a[0], b[2]));
    var r2 := G.Sub(G.Mul(a[0], b[1]), G.Mul(a[1], b[0]));
    ConjugatedSum(b[0], b[1], b[2], r0, r1, r2);
    TripleProductVanishesRight(a[0], a[1], a[2], b[0], b[1], b[2]);
  }

  /** Σ conj(xᵢ) conj(rᵢ) == conj(Σ xᵢ rᵢ) for three terms. */
  lemma ConjugatedSum(x0: Complex, x1: Complex, x2: Complex, r0: Complex, r1: Complex, r2: Complex)
    ensures G.Add(G.Add(G.Mul(G.Conj(x0), G.Conj(r0)), G.Mul(G.Conj(x1), G.Conj(r1))),
                  G.Mul(G.Conj(x2), G.Conj(r2)))
         == G.Conj(G.Add(G.Add(G.Mul(x0, r0), G.Mul(x1, r1)), G.Mul(x2, r2)))
  {
    G.ConjMul(x0, r0);
    G.ConjMul(x1, r1);
    G.ConjMul(x2, r2);
  }

  /** a · (a × b) == 0 for the unconjugated formula, in any commutative ring; here
      in the Gaussian integers. */
  lemma TripleProductVanishes(a0: Complex, a1: Complex, a2: Complex,
                              b0: Complex, b1: Complex, b2: Complex)
    ensures G.Add(G.Add(G.Mul(a0, G.Sub(G.Mul(a1, b2), G.Mul(a2, b1))),
                        G.Mul(a1, G.Sub(G.Mul(a2, b0), G.Mul(a0, b2)))),
                  G.Mul(a2, G.Sub(G.Mul(a0, b1), G.Mul(a1, b0)))) == G.Zero
  {
    G.MulSubRight(a0, G.Mul(a1, b2), G.Mul(a2, b1));
    G.MulSubRight(a1, G.Mul(a2, b0), G.Mul(a0, b2));
    G.MulSubRight(a2, G.Mul(a0, b1), G.Mul(a1, b0));
    G.MulLeftCommutes(a1, a0, b2);
    G.MulLeftCommutes(a2, a0, b1);
    G.MulLeftCommutes(a2, a1, b0);
  }

  /** b · (a × b) == 0 for the unconjugated formula. */
  lemma TripleProductVanishesRight(a0: Complex, a1: Complex, a2: Complex,
                                   b0: Complex, b1: Complex, b2: Complex)
    ensures G.Add(G.Add(G.Mul(b0, G.Sub(G.Mul(a1, b2), G.Mul(a2, b1))),
                        G.Mul(b1, G.Sub(G.Mul(a2, b0), G.Mul(a0, b2)))),
                  G.Mul(b2, G.Sub(G.Mul(a0, b1), G.Mul(a1, b0)))) == G.Zero
  {
    G.MulSubRight(b0, G.Mul(a1, b2), G.Mul(a2, b1));
    G.MulSubRight(b1, G.Mul(a2, b0), G.Mul(a0, b2));
    G.MulSubRight(b2, G.Mul(a0, b1), G.Mul(a1, b0));
    G.MulLeftCommutes(b0, a1, b2);
    G.MulLeftCommutes(b0, a2, b1);
    G.MulLeftCommutes(b1, a2, b0);
    G.MulLeftCommutes(b1, a0, b2);
    G.MulLeftCommutes(b2, a0, b1);
    G.MulLeftCommutes(b2, a1, b0);
    G.MulCommutes(b0, b2);
    G.MulCommutes(b0, b1);
    G.MulCommutes(b1, b2);
  }

  /** A worked example: for a = (1+i, 2−i) and b = (1−i, 2+i) the inner product is
      (1−i)(1−i) + (2+i)(2+i) = −2i + (3+4i) = 3+2i, and `a * a` is 2 + 5 = 7. */
  lemma DotExample(a: seq<Complex>, b: seq<Complex>)
    requires a == [G.Complex(1, 1), G.Complex(2, -1)]
    requires b == [G.Complex(1, -1), G.Complex(2, 1)]
    ensures Dot(a, b) == G.Complex(3, 2)
    ensures Dot(a, a) == G.Complex(7, 0)
  {
    Dot2(a, b);
    Dot2(a, a);
  }

  lemma Dot2(a: seq<Complex>, b: seq<Complex>)
    requires |a| == 2 && |b| == 2
    ensures Dot(a, b) == G.Add(G.Mul(G.Conj(a[0]), b[0]), G.Mul(G.Conj(a[1]), b[1]))
  {
    DotLength(a, b, 0);
    DotLength(a, b, 1);
    assert a[..2] == a && b[..2] == b;
  }

  // ---------------------------------------------------------------------------
  // The operators on vectors

  /** `v += rhs`: element i grows by rhs[i]. `rhs` may be `v` itself. */
  method AddAssign(v: Vec<Complex>, rhs: Vec<Complex>)
    requires v.N() == rhs.N()
    modifies v.data
    ensures v.Elems() == Add(old(v.Elems()), old(rhs.Elems()))
  {
    ghost var a, b := v.Elems(), rhs.Elems();
    var i := 0;
    while i < v.N()
      invariant 0 <= i <= v.N()
      invariant forall k :: 0 <= k < i ==> v.data[k] == G.Add(a[k], b[k])
      invariant forall k :: i <= k < v.N() ==> v.data[k] == a[k] && rhs.data[k] == b[k]
    {
      v.data[i] := G.Add(v.data[i], rhs.data[i]);
      i := i + 1;
    }
  }

  /** `v -= rhs`: element i shrinks by rhs[i]. `rhs` may be `v` itself. */
  method SubAssign(v: Vec<Complex>, rhs: Vec<Complex>)
    requires v.N() == rhs.N()
    modifies v.data
    ensures v.Elems() == Sub(old(v.Elems()), old(rhs.Elems()))
  {
    ghost var a, b := v.Elems(), rhs.Elems();
    var i := 0;
    while i < v.N()
      invariant 0 <= i <= v.N()
      invariant forall k :: 0 <= k < i ==> v.data[k] == G.Sub(a[k], b[k])
      invariant forall k :: i <= k < v.N() ==> v.data[k] == a[k] && rhs.data[k] == b[k]
    {
      v.data[i] := G.Sub(v.data[i], rhs.data[i]);
      i := i + 1;
    }
  }

  /** `v *= val`: every element multiplied by the scalar. */
  method MulAssign(v: Vec<Complex>, val: Complex)
    modifies v.data
    ensures v.Elems() == Scale(old(v.Elems()), val)
  {
    ghost var a := v.Elems();
    var i := 0;
    while i < v.N()
      invariant 0 <= i <= v.N()
      invariant forall k :: 0 <= k < i ==> v.data[k] == G.Mul(a[k], val)
      invariant forall k :: i <= k < v.N() ==> v.data[k] == a[k]
    {
      v.data[i] := G.Mul(v.data[i], val);
      i := i + 1;
    }
  }

  /** `v *= v[k]`: the scalar is the receiver's own element k, read afresh at
      every step, so the steps after k see its updated value. */
  method MulAssignAt(v: Vec<Complex>, k: nat)
    requires k < v.N()
    modifies v.data
    ensures v.Elems() == ScaleByOwn(old(v.Elems()), k)
  {
    ghost var a := v.Elems();
    var i := 0;
    while i < v.N()
      invariant 0 <= i <= v.N()
      invariant forall j :: 0 <= j < i ==> v.data[j] == ScaleByOwn(a, k)[j]
      invariant forall j :: i <= j < v.N() ==> v.data[j] == a[j]
    {
      v.data[i] := G.Mul(v.data[i], v.data[k]);
      i := i + 1;
    }
  }

  /** `v *= T(v[k])`: scaling by a copy of element k multiplies every element by
      the same original value. */
  method MulByElement(v: Vec<Complex>, k: nat)
    requires k < v.N()
    modifies v.data
    ensures v.Elems() == Scale(old(v.Elems()), old(v.data[k]))
  {
    var val := v.data[k];
    MulAssign(v, val);
  }

  /** In-place `conj()`: every element replaced by its conjugate. */
  method ConjInPlace(v: Vec<Complex>)
    modifies v.data
    ensures v.Elems() == Conj(old(v.Elems()))
  {
    ghost var a := v.Elems();
    var i := 0;
    while i < v.N()
      invariant 0 <= i <= v.N()
      invariant forall k :: 0 <= k < i ==> v.data[k] == G.Conj(a[k])
      invariant forall k :: i <= k < v.N() ==> v.data[k] == a[k]
    {
      v.data[i] := G.Conj(v.data[i]);
      i := i + 1;
    }
  }

  /** Unary minus: a fresh vector holding -v[i] in every slot. */
  method Negate(v: Vec<Complex>) returns (res: Vec<Complex>)
    ensures fresh(res.data)
    ensures res.Elems() == Neg(v.Elems())
  {
    res := new Vec<Complex>.Uninitialized(v.N());
    var i := 0;
    while i < v.N()
      invariant 0 <= i <= v.N()
      invariant forall k :: 0 <= k < i ==> res.data[k] == G.Neg(v.data[k])
    {
      res.data[i] := G.Neg(v.data[i]);
      i := i + 1;
    }
  }

  /** Free `conj(c)`: copy `c`, then conjugate the copy in place; `c` is unchanged. */
  method Conjugated(c: Vec<Complex>) returns (res: Vec<Complex>)
    ensures fresh(res.data)
    ensures res.Elems() == Conj(c.Elems())
  {
    res := new Vec<Complex>.Copy(c);
    ConjInPlace(res);
  }

  /** Binary `lhs + rhs`: copy `lhs`, then `+= rhs`; both operands are unchanged. */
  method Plus(lhs: Vec<Complex>, rhs: Vec<Complex>) returns (res: Vec<Complex>)
    requires lhs.N() == rhs.N()
    ensures fresh(res.data)
    ensures res.Elems() == Add(lhs.Elems(), rhs.Elems())
  {
    res := new Vec<Complex>.Copy(lhs);
    AddAssign(res, rhs);
  }

  /** Binary `lhs - rhs`: copy `lhs`, then `-= rhs`; both operands are unchanged. */
  method Minus(lhs: Vec<Complex>, rhs: Vec<Complex>) returns (res: Vec<Complex>)
    requires lhs.N() == rhs.N()
    ensures fresh(res.data)
    ensures res.Elems() == Sub(lhs.Elems(), rhs.Elems())
  {
    res := new Vec<Complex>.Copy(lhs);
    SubAssign(res, rhs);
  }

  /** `val * rhs`: copy `rhs`, then `*= val`. */
  method ScaleLeft(val: Complex, rhs: Vec<Complex>) returns (res: Vec<Complex>)
    ensures fresh(res.data)
    ensures res.Elems() == Scale(rhs.Elems(), val)
  {
    res := new Vec<Complex>.Copy(rhs);
    MulAssign(res, val);
  }

  /** `lhs * val`: copy `lhs`, then `*= val`. */
  method ScaleRight(lhs: Vec<Complex>, val: Complex) returns (res: Vec<Complex>)
    ensures fresh(res.data)
    ensures res.Elems() == Scale(lhs.Elems(), val)
  {
    res := new Vec<Complex>.Copy(lhs);
    MulAssign(res, val);
  }

  /** The inner product `lhs * rhs`, accumulated from zero over the indices in order. */
  method DotProduct(lhs: Vec<Complex>, rhs: Vec<Complex>) returns (sum: Complex)
    requires lhs.N() == rhs.N()
    ensures sum == Dot(lhs.Elems(), rhs.Elems())
  {
    sum := G.Zero;
    var i := 0;
    while i < lhs.N()
      invariant 0 <= i <= lhs.N()
      invariant sum == Dot(lhs.data[..i], rhs.data[..i])
    {
      DotLength(lhs.data[..], rhs.data[..], i);
      assert lhs.data[..][..i + 1] == lhs.data[..i + 1];
      assert rhs.data[..][..i + 1] == rhs.data[..i + 1];
      sum := G.Add(sum, G.Mul(G.Conj(lhs.data[i]), rhs.data[i]));
      i := i + 1;
    }
    assert lhs.data[..i] == lhs.Elems() && rhs.data[..i] == rhs.Elems();
  }

  /** `norm_sq()`: the real part of `v * v`, which is the sum of the squared moduli. */
  method NormSq(v: Vec<Complex>) returns (r: int)
    ensures r == Dot(v.Elems(), v.Elems()).re
    ensures r == SumNormSq(v.Elems()) && r >= 0
  {
    var d := DotProduct(v, v);
    r := d.re;
    DotSelf(v.Elems());
  }

  /** `cross(lhs, rhs)` for complex 3-vectors, built through the initializer-list
      constructor with each component conjugated. */
  method CrossProduct(lhs: Vec<Complex>, rhs: Vec<Complex>) returns (res: Vec<Complex>)
    requires lhs.N() == 3 && rhs.N() == 3
    ensures fresh(res.data)
    ensures res.Elems() == Cross(lhs.Elems(), rhs.Elems())
  {
    res := new Vec<Complex>.FromList(3,
      [G.Conj(G.Sub(G.Mul(lhs.data[1], rhs.data[2]), G.Mul(lhs.data[2], rhs.data[1]))),
       G.Conj(G.Sub(G.Mul(lhs.data[2], rhs.data[0]), G.Mul(lhs.data[0], rhs.data[2]))),
       G.Conj(G.Sub(G.Mul(lhs.data[0], rhs.data[1]), G.Mul(lhs.data[1], rhs.data[0])))]);
  }
}
