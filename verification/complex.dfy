/** Exact complex amplitudes: a pair of reals, standing for std::complex<double>. */
module Complex {

  datatype Complex = Complex(re: real, im: real)

  const Zero: Complex := Complex(0.0, 0.0)
  const One: Complex := Complex(1.0, 0.0)
  const MinusOne: Complex := Complex(-1.0, 0.0)
  const I: Complex := Complex(0.0, 1.0)
  const MinusI: Complex := Complex(0.0, -1.0)

  function Add(x: Complex, y: Complex): Complex
  {
    Complex(x.re + y.re, x.im + y.im)
  }

  function Mul(x: Complex, y: Complex): Complex
  {
    Complex(x.re * y.re - x.im * y.im, x.re * y.im + x.im * y.re)
  }

  lemma AddZeroLeft(x: Complex)
    ensures Add(Zero, x) == x
  {
  }

  lemma AddZeroRight(x: Complex)
    ensures Add(x, Zero) == x
  {
  }

  lemma AddComm(x: Complex, y: Complex)
    ensures Add(x, y) == Add(y, x)
  {
  }
}
