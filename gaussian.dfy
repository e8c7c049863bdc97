/** Complex scalars with integer parts (Gaussian integers), the exact stand-in for
    the element type `std::complex<S>` of the vector library. Every operation the
    vector code applies to a complex element is defined here: addition,
    subtraction, negation, multiplication and conjugation, plus the squared
    modulus `std::norm`. */
module Gaussian {

  datatype Complex = Complex(re: int, im: int)

  /** The additive identity; also what `std::complex`'s default constructor yields. */
  const Zero := Complex(0, 0)

  function Add(x: Complex, y: Complex): Complex {
    Complex(x.re + y.re, x.im + y.im)
  }

  function Sub(x: Complex, y: Complex): Complex {
    Complex(x.re - y.re, x.im - y.im)
  }

  function Neg(x: Complex): Complex {
    Complex(-x.re, -x.im)
  }

  function Mul(x: Complex, y: Complex): Complex {
    Complex(x.re * y.re - x.im * y.im, x.re * y.im + x.im * y.re)
  }

  function Conj(x: Complex): Complex {
    Complex(x.re, -x.im)
  }

  /** Squared modulus, re² + im². */
  function NormSq(x: Complex): int {
    x.re * x.re + x.im * x.im
  }

  lemma NormSqNonnegative(x: Complex)
    ensures NormSq(x) >= 0
    ensures NormSq(x) == 0 <==> x == Zero
  {
    if x.re != 0 {
      assert x.re * x.re > 0;
    }
    if x.im != 0 {
      assert x.im * x.im > 0;
    }
  }

  /** Conjugation is an involution. */
  lemma ConjInvolution(x: Complex)
    ensures Conj(Conj(x)) == x
  {
  }

  lemma MulCommutes(x: Complex, y: Complex)
    ensures Mul(x, y) == Mul(y, x)
  {
  }

  /** A number times its own conjugate is real and equals its squared modulus. */
  lemma ConjTimesSelf(x: Complex)
    ensures Mul(Conj(x), x) == Complex(NormSq(x), 0)
  {
  }

  lemma ConjAdd(x: Complex, y: Complex)
    ensures Conj(Add(x, y)) == Add(Conj(x), Conj(y))
  {
  }

  lemma ConjMul(x: Complex, y: Complex)
    ensures Conj(Mul(x, y)) == Mul(Conj(x), Conj(y))
  {
  }

  /** Multiplication distributes over addition (on the right operand). */
  lemma MulAddRight(c: Complex, x: Complex, y: Complex)
    ensures Mul(c, Add(x, y)) == Add(Mul(c, x), Mul(c, y))
  {
    calc {
      Mul(c, Add(x, y)).re;
      c.re * (x.re + y.re) - c.im * (x.im + y.im);
      (c.re * x.re - c.im * x.im) + (c.re * y.re - c.im * y.im);
    }
    calc {
      Mul(c, Add(x, y)).im;
      c.re * (x.im + y.im) + c.im * (x.re + y.re);
      (c.re * x.im + c.im * x.re) + (c.re * y.im + c.im * y.re);
    }
  }

  lemma MulSubRight(c: Complex, x: Complex, y: Complex)
    ensures Mul(c, Sub(x, y)) == Sub(Mul(c, x), Mul(c, y))
  {
  }

  /** x(yz) == y(xz): associativity and commutativity together. */
  lemma MulLeftCommutes(x: Complex, y: Complex, z: Complex)
    ensures Mul(x, Mul(y, z)) == Mul(y, Mul(x, z))
  {
  }

  lemma MulAssociates(x: Complex, y: Complex, z: Complex)
    ensures Mul(Mul(x, y), z) == Mul(x, Mul(y, z))
  {
  }

  /** The squared modulus is multiplicative (the two-squares identity). */
  lemma NormSqMul(x: Complex, y: Complex)
    ensures NormSq(Mul(x, y)) == NormSq(x) * NormSq(y)
  {
  }
}
