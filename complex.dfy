// Complex amplitudes, as exact pairs of reals.  The source's single- or
// double-precision `complex` is modelled without rounding.
module Amplitudes {

  datatype Complex = Complex(re: real, im: real)

  function Sub(a: Complex, b: Complex): Complex
  {
    Complex(a.re - b.re, a.im - b.im)
  }

  /** Unary minus. */
  function Neg(a: Complex): (r: Complex)
    ensures r.re + a.re == 0.0 && r.im + a.im == 0.0
  {
    Complex(-a.re, -a.im)
  }

  /** `std::norm`: the squared magnitude. */
  function Norm(a: Complex): (r: real)
    ensures r >= 0.0
  {
    a.re * a.re + a.im * a.im
  }

  /** `a / m` for a real divisor m. */
  function Scale(a: Complex, m: real): Complex
    requires m != 0.0
  {
    Complex(a.re / m, a.im / m)
  }
}
