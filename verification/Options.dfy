/** A value that may be missing. */
module Options {
  datatype Option<+T> = None | Some(value: T)

  function Listed<T>(x: Option<T>): seq<T> {
    match x { case None => [] case Some(v) => [v] }
  }
}
