/** Complex amplitudes: just enough arithmetic to talk about gate matrices. */
module Amplitudes {

  datatype Complex = Complex(re: real, im: real)

  const ZERO := Complex(0.0, 0.0)
  const ONE := Complex(1.0, 0.0)
  const I := Complex(0.0, 1.0)
  const MINUS_I := Complex(0.0, -1.0)

  function Add(a: Complex, b: Complex): Complex {
    Complex(a.re + b.re, a.im + b.im)
  }

  function Mul(a: Complex, b: Complex): Complex {
    Complex(a.re * b.re - a.im * b.im, a.re * b.im + a.im * b.re)
  }

  function Neg(a: Complex): Complex {
    Complex(-a.re, -a.im)
  }

  function Conj(a: Complex): Complex {
    Complex(a.re, -a.im)
  }

  function Real(x: real): Complex {
    Complex(x, 0.0)
  }

  /** |a| == 1, written without a square root. */
  predicate IsPhase(a: Complex) {
    a.re * a.re + a.im * a.im == 1.0
  }

  lemma MulAssoc(a: Complex, b: Complex, c: Complex)
    ensures Mul(Mul(a, b), c) == Mul(a, Mul(b, c))
  {
  }

  lemma MulComm(a: Complex, b: Complex)
    ensures Mul(a, b) == Mul(b, a)
  {
  }

  lemma MulDistributes(c: Complex, a: Complex, b: Complex)
    ensures Mul(c, Add(a, b)) == Add(Mul(c, a), Mul(c, b))
  {
  }

  /** Scaling the vector or the row by c scales their product by c. */
  lemma DotScaled(c: Complex, u: Complex, v: Complex, x: Complex, y: Complex)
    ensures Add(Mul(u, Mul(c, x)), Mul(v, Mul(c, y))) == Mul(c, Add(Mul(u, x), Mul(v, y)))
    ensures Add(Mul(Mul(c, u), x), Mul(Mul(c, v), y)) == Mul(c, Add(Mul(u, x), Mul(v, y)))
  {
    var ux, vy := Mul(u, x), Mul(v, y);
    MulDistributes(c, ux, vy);
    assert Mul(u, Mul(c, x)) == Mul(Mul(c, u), x) == Mul(c, ux) by { Rotate(c, u, x); }
    assert Mul(v, Mul(c, y)) == Mul(Mul(c, v), y) == Mul(c, vy) by { Rotate(c, v, y); }
  }

  lemma Rotate(c: Complex, u: Complex, x: Complex)
    ensures Mul(u, Mul(c, x)) == Mul(Mul(c, u), x) == Mul(c, Mul(u, x))
  {
    MulAssoc(c, u, x);
    MulAssoc(u, c, x);
    MulComm(c, u);
  }

  lemma RealDot(r: real, x: Complex, y: Complex)
    ensures Add(Mul(Real(r), x), Mul(Real(r), y)) == Complex(r * (x.re + y.re), r * (x.im + y.im))
    ensures Add(Mul(Real(r), x), Mul(Real(-r), y)) == Complex(r * (x.re - y.re), r * (x.im - y.im))
  {
  }

  lemma MulZero(a: Complex)
    ensures Mul(a, ZERO) == Mul(ZERO, a) == ZERO
    ensures Add(a, ZERO) == Add(ZERO, a) == a
    ensures Mul(ONE, a) == Mul(a, ONE) == a
  {
  }

  lemma PhasesMultiply(a: Complex, b: Complex)
    requires IsPhase(a) && IsPhase(b)
    ensures IsPhase(Mul(a, b))
  {
    var na, nb := a.re * a.re + a.im * a.im, b.re * b.re + b.im * b.im;
    var m := Mul(a, b);
    assert m.re * m.re + m.im * m.im == na * nb;
  }
}
