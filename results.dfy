/** Optional values and the error outcome of a parse, shared by every module. */
module Results {

  datatype Option<T> = None | Some(value: T)

  /** The three ways a record parse throws, named after the message the
      thrown CKError.custom carries: "Can not get attribute name from string",
      "Can not get attribute attr from string" and "Can not get attribute
      value from string". */
  datatype ParseError = MissingName | MalformedParameter | MissingValue

  /** What a throwing initializer produces: a value, or the first error. */
  datatype Result<T> = Ok(value: T) | Err(error: ParseError)
}
