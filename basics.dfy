/** Values shared by the three components: optional values, results with an
    error channel (the place of a thrown exception), and Java doubles. */
module Basics {

  /** `None` stands for Java's `null`. */
  datatype Option<+T> = None | Some(value: T)

  /** `Failure` stands for an exception thrown by the modelled operation. */
  datatype Result<+T, +E> = Success(value: T) | Failure(error: E)

  /** A Java `double`: NaN, one of the two infinities, or a finite value.
      Finite values are exact reals; IEEE rounding is not modelled. */
  datatype Double = NaN | PositiveInfinity | NegativeInfinity | Finite(value: real)
}
