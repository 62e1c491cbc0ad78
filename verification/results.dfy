/** Outcome wrappers shared by the encoder and the benchmark models: a Go
    panic or an aborted operation is a Failure value rather than a crash. */
module Results {

  datatype Option<+T> = None | Some(value: T)

  datatype Result<+T, +E> = Success(value: T) | Failure(error: E)
}
