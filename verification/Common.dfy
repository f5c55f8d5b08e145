/** Shapes shared by every other module. */
module Common {
  datatype Option<+T> = None | Some(value: T)

  /** Go's `(value, error)` pair. */
  datatype Result<+T> = Ok(value: T) | Err(error: string)

  /** All elements of a list of lists, in order. */
  function Flatten<T>(lists: seq<seq<T>>): seq<T> {
    if lists == [] then [] else Flatten(lists[..|lists| - 1]) + lists[|lists| - 1]
  }
}
