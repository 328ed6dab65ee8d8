/** Value wrappers shared by the model: Java's nullable references and thrown
    exceptions become explicit values. */
module Wrappers {

  /** A nullable Java reference: None stands for null. */
  datatype Option<+T> = None | Some(value: T)

  /** A value or the error that a Java method would have thrown instead. */
  datatype Result<+T, +E> = Ok(value: T) | Err(error: E)

  /** A check that either passes or fails with an error: a Java `void` validator. */
  datatype Outcome<+E> = Pass | Fail(error: E)
}
