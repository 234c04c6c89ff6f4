/** Value types shared by the whole model. */
module Types {

  /** The outcome of an operation that may raise an error in the source. */
  datatype Result<+T, +E> = Ok(value: T) | Err(error: E)

  /** The outcome of a check that either passes or raises. */
  datatype Outcome<+E> = Pass | Fail(error: E)

  datatype Option<+T> = None | Some(value: T)

  /** One named nucleotide sequence: a chromosome or scaffold. */
  datatype SequenceRecord = SequenceRecord(name: string, sequence: string)

  /** Concatenation regroups; the solver does not always find this step alone. */
  lemma Assoc<X>(x: seq<X>, y: seq<X>, z: seq<X>)
    ensures x + y + z == x + (y + z)
  {
  }
}
