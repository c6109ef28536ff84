/** Error outcomes of the pipeline. */
module Results {

  /** The only error the pipeline raises on its own: the encoder's table
      lookup fails for a character outside A/C/G/T/N in either case
      (Python's KeyError, which carries the offending key). */
  datatype Error = InvalidCharacter(c: char)

  datatype Result<T> = Ok(value: T) | Err(error: Error)

  datatype Option<T> = None | Some(value: T)
}
