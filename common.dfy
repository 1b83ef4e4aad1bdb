/** Values shared by every layer of the account service: optional values,
    results, Go errors as the callers observe them, and UUIDs. */
module Common {

  datatype Option<+T> = None | Some(value: T)

  datatype Result<+T, +E> = Success(value: T) | Failure(error: E)

  /** A Go `error` as its callers can observe it: whether
      `errors.Is(err, context.DeadlineExceeded)` holds, and `err.Error()`. */
  datatype Error = Error(deadline: bool, text: string)

  /** A `uuid.UUID`: sixteen bytes, here as two 64-bit halves. */
  datatype Uuid = Uuid(hi: bv64, lo: bv64)

  /** The zero `uuid.UUID` (`uuid.Nil`). */
  const NilUuid := Uuid(0, 0)

  /** The pair `uuid.Parse` returns: the (possibly partly filled) UUID and the error. */
  datatype ParsedUuid = ParsedUuid(id: Uuid, err: Option<Error>)
}
