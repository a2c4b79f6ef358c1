/**
 * Exact complex arithmetic: a complex number is a pair of reals.
 * This stands in for numpy's complex128 values, without rounding.
 */
module ComplexArith {

  datatype Complex = Complex(re: real, im: real)

  const Zero: Complex := Complex(0.0, 0.0)
  const One: Complex := Complex(1.0, 0.0)
  /** The imaginary unit, Python's `1j`. */
  const I: Complex := Complex(0.0, 1.0)

  /** A real number seen as a complex one. */
  function OfReal(x: real): Complex {
    Complex(x, 0.0)
  }

  function Add(a: Complex, b: Complex): Complex {
    Complex(a.re + b.re, a.im + b.im)
  }

  function Neg(a: Complex): Complex {
    Complex(-a.re, -a.im)
  }

  function Mul(a: Complex, b: Complex): Complex {
    Complex(a.re * b.re - a.im * b.im, a.re * b.im + a.im * b.re)
  }

  /** Complex conjugate, numpy's `np.conj` on a scalar. */
  function Conj(a: Complex): Complex {
    Complex(a.re, -a.im)
  }

  /** |a|^2 */
  function NormSq(a: Complex): real {
    a.re * a.re + a.im * a.im
  }

  // Field laws used by the proofs about dot products.

  lemma MulComm(a: Complex, b: Complex)
    ensures Mul(a, b) == Mul(b, a)
  {}

  lemma MulAssoc(a: Complex, b: Complex, c: Complex)
    ensures Mul(Mul(a, b), c) == Mul(a, Mul(b, c))
  {
    var ar, ai, br, bi, cr, ci := a.re, a.im, b.re, b.im, c.re, c.im;
    assert (ar * br - ai * bi) * cr - (ar * bi + ai * br) * ci
        == ar * (br * cr - bi * ci) - ai * (br * ci + bi * cr);
    assert (ar * br - ai * bi) * ci + (ar * bi + ai * br) * cr
        == ar * (br * ci + bi * cr) + ai * (br * cr - bi * ci);
  }

  /** A scalar factor can be moved across a product: b * (a * c) == a * (b * c). */
  lemma MulScaleSwap(a: Complex, b: Complex, c: Complex)
    ensures Mul(b, Mul(a, c)) == Mul(a, Mul(b, c))
  {
    MulAssoc(b, a, c);
    MulComm(a, b);
    MulAssoc(a, b, c);
  }

  /** Multiplying by the purely imaginary number e*1j is multiplying by e, then by 1j. */
  lemma MulImaginary(e: real, x: Complex)
    ensures Mul(Complex(0.0, e), x) == Mul(I, Mul(OfReal(e), x))
  {}

  lemma MulAddLeft(a: Complex, b: Complex, c: Complex)
    ensures Mul(Add(a, b), c) == Add(Mul(a, c), Mul(b, c))
  {}

  lemma MulAddRight(a: Complex, b: Complex, c: Complex)
    ensures Mul(a, Add(b, c)) == Add(Mul(a, b), Mul(a, c))
  {}

  lemma ConjMul(a: Complex, b: Complex)
    ensures Conj(Mul(a, b)) == Mul(Conj(a), Conj(b))
  {}
}
