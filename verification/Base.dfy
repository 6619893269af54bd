/** Small shared vocabulary: optional values and results. */
module Base {

  datatype Option<+T> = None | Some(value: T)

  datatype Result<+T, +E> = Success(value: T) | Failure(error: E)

  /** One GPU of one node; it names the GPU's lock file. */
  datatype LockKey = LockKey(node: string, index: int)
}
