/** Values shared by every part of the catalogue: optional fields (Java `null`),
    the three exception kinds the core raises, and results that carry them. */
module Common {

  /** A field that Java leaves `null` is `None`. */
  datatype Option<+T> = None | Some(value: T)

  /** The exceptions of the core, one constructor per exception class. */
  datatype ErrorKind =
    | NotFound          // NotFoundException: missing/blank field, absent id
    | ConditionsNotMet  // ConditionsNotMetException: value out of range or malformed
    | Duplicated        // DuplicatedDataException: an equal entity is already stored

  /** What a `void` operation ends with: normal return or a thrown exception. */
  datatype Outcome = Pass | Fail(kind: ErrorKind)

  /** What an operation returning a value ends with. */
  datatype Result<+T> = Ok(value: T) | Err(kind: ErrorKind)
}
