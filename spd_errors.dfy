/** Result values shared by every layer of the SPD reader.

    The source reports failures as `std::expected<void, std::string>` holding
    a message; the model uses one constructor per message instead, so that the
    layers can be compared without depending on the exact wording. */
module SpdErrors {

  /** Every failure the readers can report. `Custom` is an error produced by
      a caller-supplied handler (for example a test double), passed through
      unchanged. */
  datatype Error =
    | BadStream                 // the input stream could not be read
    | MismatchedLineEndings     // a later line break differs from the first one
    | UnparsableToken           // a value token is not a number
    | OddNumberOfTokens         // a wavelength is left without its value
    | NegativeWavelength
    | NegativeSpectralPower
    | WavelengthZero            // zero after narrowing to the target precision
    | NonFiniteWavelength       // not finite after narrowing
    | NonFiniteSpectralPower    // not finite after narrowing
    | DuplicateWavelength
    | PowerGreaterThanOne       // reflective data only
    | Custom(message: string)

  /** `std::expected<void, std::string>`: success, or the first error. */
  datatype Outcome = Pass | Fail(error: Error)

  datatype Option<+T> = None | Some(value: T)

  /** `std::expected<T, std::string>`. */
  datatype Result<+T> = Success(value: T) | Failure(error: Error)
}
