/** Result values for the Go functions that return `(T, error)`. */
module Results {

  /** `Ok(v)` stands for `(v, nil)`, `Err(e)` for `(nil, e)`. */
  datatype Result<T, E> = Ok(value: T) | Err(error: E)
}
