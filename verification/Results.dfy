/** The errors of errors.go, and results that carry them. */
module Results {

  datatype Error =
    | PreconditionViolated
    | SpoolerClosed
    | HubClosed
    | CorruptRecord
    | TruncatedData
    | SpoolFull
    | StorageUnavailable
    | CorruptAt(offset: nat, cause: Error)
    | SinkUnavailable
    | PermanentRejection
    | ContextDone

  datatype Option<+T> = None | Some(value: T)

  datatype Result<+T> = Ok(value: T) | Err(error: Error)
}
