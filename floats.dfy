/** The floating-point types the readers work with.

    The base reader parses every number at the widest precision available
    (`long double`), modelled here as an exact `real`. The validating reader
    then narrows each number to the caller's precision (`float`, `double` or
    `long double`) with a `static_cast` and checks the result with
    `std::isfinite`. */
module Floats {

  /** The three instantiations of the reader templates. */
  datatype Precision = Single | Double | Extended

  /** A number after narrowing: finite with an exact value, or not finite. */
  datatype Float = Finite(value: real) | NonFinite

  /** Largest finite `float`: (2^24 - 1) * 2^104. */
  const SingleMax: real := 340282346638528859811704183484516925440.0

  /** Smallest positive subnormal `float`: 2^-149. */
  const SingleMinPositive: real := 1.0 / 713623846352979940529142984724747568191373312.0

  /** Largest finite `double`: (2^53 - 1) * 2^971. */
  const DoubleMax: real := 179769313486231570814527423731704356798070567525844996598917476803157260780028538760589558632766878171540458953514382464234321326889464182768467546703537516986049910576551282076245490090389328944075868508455133942304583236903222948165808559332123348274797826204144723168738177180919299881250404026184124858368.0

  /** Smallest positive subnormal `double`: 2^-1074. */
  const DoubleMinPositive: real := 1.0 / 202402253307310618352495346718917307049556649764142118356901358027430339567995346891960383701437124495187077864316811911389808737385793476867013399940738509921517424276566361364466907742093216341239767678472745068562007483424692698618103355649159556340810056512358769552333414615230502532186327508646006263307707741093494784.0

  function Abs(x: real): (r: real)
    ensures r >= 0.0 && (r == x || r == -x)
  {
    if x < 0.0 then -x else x
  }

  /** `static_cast<Type>(x)` for a value parsed as `long double`.

      Narrowing to `long double` changes nothing. Narrowing to `float` or
      `double` overflows to infinity above the largest finite value and
      underflows to zero below the smallest subnormal; in between the value
      is kept exactly (rounding to the nearest representable value is not
      modelled). */
  function Narrow(p: Precision, x: real): (r: Float)
    ensures r.Finite? && x >= 0.0 ==> r.value >= 0.0
    ensures r.Finite? && x <= 0.0 ==> r.value <= 0.0
    ensures p == Extended ==> r == Finite(x)
  {
    match p
    case Extended => Finite(x)
    case Single =>
      if Abs(x) > SingleMax then NonFinite
      else if Abs(x) < SingleMinPositive then Finite(0.0)
      else Finite(x)
    case Double =>
      if Abs(x) > DoubleMax then NonFinite
      else if Abs(x) < DoubleMinPositive then Finite(0.0)
      else Finite(x)
  }

  /** `x` is a value of the target type: narrowing it gives it back. */
  predicate Representable(p: Precision, x: real) {
    Narrow(p, x) == Finite(x)
  }

  /** A narrowed value is a value of the target type, so narrowing twice is
      the same as narrowing once. */
  lemma NarrowIsIdempotent(p: Precision, x: real)
    requires Narrow(p, x).Finite?
    ensures Representable(p, Narrow(p, x).value)
  {
  }

  /** Narrowing never reorders two numbers (the comparisons made before and
      after narrowing agree on order). */
  lemma NarrowIsMonotone(p: Precision, x: real, y: real)
    requires 0.0 <= x <= y
    requires Narrow(p, x).Finite? && Narrow(p, y).Finite?
    ensures Narrow(p, x).value <= Narrow(p, y).value
  {
  }

  /** Zero, one half and small whole numbers, such as the ones in the test
      fixtures, are values of every precision. */
  lemma SmallNumbersAreRepresentable(p: Precision, x: real)
    requires x == 0.0 || x == 0.5 || (x == x.Floor as real && 1.0 <= Abs(x) <= 1000000.0)
    ensures Representable(p, x)
  {
  }
}
