/** Result shapes shared by the repositories and the services. */
module Outcomes {

  /** Java's `Optional`: a lookup that may find nothing. */
  datatype Option<+T> = None | Some(value: T)

  /**
   * What a service call ends with. The services signal failure by throwing
   * `NotFoundException` or `InvalidEmailException`; here each failure is a
   * distinct constructor, and a `void` operation succeeds with `Ok(())`.
   */
  datatype Outcome<+T> = Ok(value: T) | NotFound | InvalidEmail
}
