// Complex numbers with exact parts.
module ComplexNumbers {
  datatype Complex = C(re: real, im: real)

  function Plus(x: Complex, y: Complex): Complex {
    C(x.re + y.re, x.im + y.im)
  }

  function Times(x: Complex, y: Complex): Complex {
    C(x.re * y.re - x.im * y.im, x.re * y.im + x.im * y.re)
  }
}
