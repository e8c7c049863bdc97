/** The library's own usage scenarios, as calls on the verified operators: each
    method performs the same sequence of calls as one of the test programs and
    proves, for every input, the outcome those programs check on one input. */
module Scenarios {
  import opened Vectors
  import R = RealVec
  import C = ComplexVec
  import G = Gaussian

  /** c = a + b; d = c - a (equal to b); d += c; d -= b (equal to c). */
  method AddScenario(a: Vec<int>, b: Vec<int>) returns (dIsB: bool, dIsC: bool)
    requires a.N() == b.N()
    ensures dIsB && dIsC
  {
    var c := R.Plus(a, b);
    var d := R.Minus(c, a);
    R.AddRoundTrip(a.Elems(), b.Elems());
    dIsB := Equal(d, b);
    R.AddAssign(d, c);
    R.SubAssign(d, b);
    dIsC := Equal(d, c);
  }

  /** The same round trip for Gaussian-integer vectors. */
  method ComplexAddScenario(a: Vec<G.Complex>, b: Vec<G.Complex>) returns (dIsB: bool, dIsC: bool)
    requires a.N() == b.N()
    ensures dIsB && dIsC
  {
    var c := C.Plus(a, b);
    var d := C.Minus(c, a);
    C.AddRoundTrip(a.Elems(), b.Elems());
    dIsB := Equal(d, b);
    C.AddAssign(d, c);
    C.SubAssign(d, b);
    dIsC := Equal(d, c);
  }

  /** c = cross(a, b); then a * c and b * c are both exactly zero. */
  method CrossScenario(a: Vec<int>, b: Vec<int>) returns (ac: int, bc: int)
    requires a.N() == 3 && b.N() == 3
    ensures ac == 0 && bc == 0
  {
    var c := R.CrossProduct(a, b);
    ac := R.DotProduct(a, c);
    bc := R.DotProduct(b, c);
    R.CrossOrthogonal(a.Elems(), b.Elems());
  }

  /** f = cross(d, e) for complex 3-vectors; then d * f and e * f are both zero. */
  method ComplexCrossScenario(d: Vec<G.Complex>, e: Vec<G.Complex>) returns (df: G.Complex, ef: G.Complex)
    requires d.N() == 3 && e.N() == 3
    ensures df == G.Zero && ef == G.Zero
  {
    var f := C.CrossProduct(d, e);
    df := C.DotProduct(d, f);
    ef := C.DotProduct(e, f);
    C.CrossOrthogonal(d.Elems(), e.Elems());
  }

  /** A vector filled with 1 has squared norm N; scaling it by `s` scales the
      squared norm by s². */
  method NormScenario(n: nat, s: int) returns (a2: int, b2: int)
    ensures a2 == n
    ensures b2 == s * s * n
  {
    var a := new Vec<int>.Fill(n, 1);
    assert a.Elems() == R.Fill(n, 1);
    a2 := R.NormSq(a);
    R.DotOnes(n);
    var b := R.ScaleLeft(s, a);
    b2 := R.NormSq(b);
    R.DotSelfScale(a.Elems(), s);
  }

  /** c_star = conj(c) holds conj(c[i]) at each index; after c.conj() the two
      vectors compare equal, and conjugating c once more restores it. */
  method ConjScenario(c: Vec<G.Complex>) returns (sameAsFree: bool, restored: bool)
    modifies c.data
    ensures sameAsFree && restored
    ensures c.Elems() == old(c.Elems())
  {
    var original := new Vec<G.Complex>.Copy(c);
    var cStar := C.Conjugated(c);
    C.ConjInPlace(c);
    sameAsFree := Equal(c, cStar);
    C.ConjInPlace(c);
    C.ConjInvolution(original.Elems());
    restored := Equal(c, original);
  }

  /** After swapping, each vector compares equal to a copy of the other's
      original contents. */
  method SwapScenario(a: Vec<int>, b: Vec<int>) returns (aIsOldB: bool, bIsOldA: bool)
    requires a.N() == b.N()
    modifies a.data, b.data
    ensures aIsOldB && bIsOldA
  {
    var c := new Vec<int>.Copy(a);
    var d := new Vec<int>.Copy(b);
    Swap(a, b);
    aIsOldB := Equal(a, d);
    bIsOldA := Equal(b, c);
  }
}
