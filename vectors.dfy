/** The fixed-size vector `vec<N,T>`: exactly N scalars held in one array that is
    never replaced, so N is the array's length and can never change. This module
    holds everything that does not depend on whether T is real or complex:
    construction, assignment, element access, unary plus, equality and exchange.
    The arithmetic lives in RealVec (T = int) and ComplexVec (T = Gaussian.Complex). */
module Vectors {

  class Vec<T(0)> {
    /** The inline buffer `T data[N]`. */
    const data: array<T>

    /** The dimension N. */
    function N(): nat {
      data.Length
    }

    /** The elements, in index order. */
    function Elems(): seq<T>
      reads data
    {
      data[..]
    }

    /** The default constructor: N elements whose values the caller must not rely on. */
    constructor Uninitialized(n: nat)
      ensures N() == n && fresh(data)
    {
      data := new T[n];
    }

    /** Fill constructor: every element is `val`. */
    constructor Fill(n: nat, val: T)
      ensures N() == n && fresh(data)
      ensures forall i :: 0 <= i < n ==> data[i] == val
    {
      data := new T[n];
      new;
      var i := 0;
      while i < n
        invariant 0 <= i <= n
        invariant forall k :: 0 <= k < i ==> data[k] == val
      {
        data[i] := val;
        i := i + 1;
      }
    }

    /** Construction from a raw buffer: element i is `p[i]` for i < n; the caller
        guarantees that the buffer holds at least n elements. */
    constructor FromBuffer(n: nat, p: array<T>)
      requires n <= p.Length
      ensures N() == n && fresh(data)
      ensures Elems() == p[..n]
    {
      data := new T[n];
      new;
      var i := 0;
      while i < n
        invariant 0 <= i <= n
        invariant data[..i] == p[..i]
      {
        data[i] := p[i];
        i := i + 1;
      }
    }

    /** Copy constructor: allocates N elements and assigns from `x`. */
    constructor Copy(x: Vec<T>)
      ensures N() == x.N() && fresh(data)
      ensures Elems() == x.Elems()
    {
      data := new T[x.N()];
      new;
      Assign(x);
    }

    /** Initializer-list constructor; the list must hold exactly N elements. */
    constructor FromList(n: nat, il: seq<T>)
      requires |il| == n
      ensures N() == n && fresh(data)
      ensures Elems() == il
    {
      data := new T[n];
      new;
      var i := 0;
      while i < |il|
        invariant 0 <= i <= n
        invariant data[..i] == il[..i]
      {
        data[i] := il[i];
        i := i + 1;
      }
    }

    /** Copy assignment: afterwards this vector holds what `x` held; assigning a
        vector to itself leaves it as it was. */
    method Assign(x: Vec<T>)
      requires x.N() == N()
      modifies data
      ensures Elems() == old(x.Elems())
      ensures x.data != data ==> x.Elems() == old(x.Elems())
    {
      ghost var src := x.Elems();
      var i := 0;
      while i < N()
        invariant 0 <= i <= N()
        invariant data[..i] == src[..i]
        invariant forall k :: i <= k < N() ==> x.data[k] == src[k]
      {
        data[i] := x.data[i];
        i := i + 1;
      }
    }

    /** Read access `v[i]`; the index must be in range (there is no bounds check). */
    method Get(i: nat) returns (x: T)
      requires i < N()
      ensures x == Elems()[i]
    {
      x := data[i];
    }

    /** Write access `v[i] = x`: only element i changes. */
    method Set(i: nat, x: T)
      requires i < N()
      modifies data
      ensures Elems() == old(Elems())[i := x]
    {
      data[i] := x;
    }

    /** Unary plus: a fresh copy with the same elements. */
    method UnaryPlus() returns (res: Vec<T>)
      ensures fresh(res.data)
      ensures res.Elems() == Elems()
    {
      res := new Vec<T>.Copy(this);
    }
  }

  /** `lhs == rhs`: scans the indices in order and answers false at the first one
      where the elements differ. */
  method Equal<T(==,0)>(lhs: Vec<T>, rhs: Vec<T>) returns (eq: bool)
    requires lhs.N() == rhs.N()
    ensures eq <==> forall i :: 0 <= i < lhs.N() ==> lhs.data[i] == rhs.data[i]
    ensures eq <==> lhs.Elems() == rhs.Elems()
  {
    var i := 0;
    while i < lhs.N()
      invariant 0 <= i <= lhs.N()
      invariant forall k :: 0 <= k < i ==> lhs.data[k] == rhs.data[k]
    {
      if lhs.data[i] != rhs.data[i] {
        assert lhs.Elems()[i] != rhs.Elems()[i];
        return false;
      }
      i := i + 1;
    }
    assert lhs.Elems() == rhs.Elems();
    return true;
  }

  /** `lhs != rhs`: the negation of `==`, so it holds exactly when some index differs. */
  method NotEqual<T(==,0)>(lhs: Vec<T>, rhs: Vec<T>) returns (ne: bool)
    requires lhs.N() == rhs.N()
    ensures ne <==> exists i :: 0 <= i < lhs.N() && lhs.data[i] != rhs.data[i]
  {
    var eq := Equal(lhs, rhs);
    ne := !eq;
  }

  /** The generic exchange `std::swap(a, b)` as it works on this class: copy `a`
      into a temporary, assign `b` to `a`, then the temporary to `b`. */
  method Swap<T(0)>(a: Vec<T>, b: Vec<T>)
    requires a.N() == b.N()
    modifies a.data, b.data
    ensures a.Elems() == old(b.Elems())
    ensures b.Elems() == old(a.Elems())
  {
    var tmp := new Vec<T>.Copy(a);
    a.Assign(b);
    b.Assign(tmp);
  }
}
