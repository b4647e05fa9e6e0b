/** Failure-carrying values shared by every module of the model.
    `Failure` stands for a thrown JavaScript `Error` and keeps its message. */
module Results {

  datatype Option<+T> = None | Some(value: T)

  datatype Result<+T> = Success(value: T) | Failure(error: string)

  /** Sequence concatenation regroups freely. */
  lemma AppendAssoc<T>(x: seq<T>, y: seq<T>, z: seq<T>)
    ensures x + (y + z) == (x + y) + z
  {
  }
}
