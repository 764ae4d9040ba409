/** Vocabulary shared by every module: error outcomes, identifiers and the 64-bit bound. */
module Common {

  /** One past the largest value an unsigned 64-bit counter of nanoseconds or bytes can hold. */
  const U64_LIMIT: nat := 0x1_0000_0000_0000_0000

  /** Identifiers are opaque and totally ordered; the nil identifier is the least one. */
  type Id = nat

  const NIL: Id := 0

  datatype ErrorCode =
    | InvalidInput
    | ResourceLimitExceeded
    | ArtifactGenerationFailed
    | Cancelled
    | NotFound
    | EvidenceInvalidated
    | Internal

  datatype Result<+T> = Ok(value: T) | Err(error: ErrorCode)

  datatype Option<+T> = None | Some(value: T)

  function Min(a: int, b: int): int {
    if a <= b then a else b
  }

  function Max(a: int, b: int): int {
    if a >= b then a else b
  }
}
