/** Failure-carrying values shared by the other modules. */
module Results {

  /** An optional value: None stands for the source's `None` return or a dropped item. */
  datatype Option<+T> = None | Some(value: T)

  /** Either a value or the error the source reports instead of it. */
  datatype Result<+T, +E> = Ok(value: T) | Err(error: E)
}
