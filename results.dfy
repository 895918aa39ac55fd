/** Optional values and the outcome of an operation that may throw. */
module Results {

  datatype Option<+T> = None | Some(value: T)

  /** `Err` carries the message of the JavaScript `Error` the source throws. */
  datatype Result<+T> = Ok(value: T) | Err(error: string)

  /** The message of the `TypeError` thrown when reading property `key` of `undefined`. */
  function UndefinedProperty(key: string): string {
    "Cannot read properties of undefined (reading '" + key + "')"
  }
}
