/** Value wrappers shared by the modules of the storefront model. */
module Common {

  /** An optional value: `None` stands for JavaScript's `null`/`undefined`,
      or for the `NaN` that `parseInt` returns on text that is not a number. */
  datatype Option<+T> = None | Some(value: T)

  /** The `{ success, ... }` objects the data-access layer returns:
      `Ok` carries the payload, `Err` the `errors` object. */
  datatype Result<+T, +E> = Ok(value: T) | Err(errors: E)
}
