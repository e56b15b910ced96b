/** Construction failures of the value types, and the result type that carries them.
    The library raises an exception where these model an `Err`. */
module Results {

  datatype Error =
    | InvalidDimensions   // a width or height that is not positive
    | OutOfBounds         // a point or rectangle outside its space
    | DivisionByZero      // a pixel-centre ratio over a one-pixel axis

  /** An optional argument (Python's `X | None = None`). */
  datatype Option<+T> = None | Some(value: T)

  datatype Result<+T> = Ok(value: T) | Err(error: Error)
}
