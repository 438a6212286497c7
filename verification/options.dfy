/** Optional values, standing for Python's `Optional[...]` / `None`. */
module Options {

  datatype Option<+T> = None | Some(value: T)

}
