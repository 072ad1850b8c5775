/** Optional values: a JSON field or dictionary entry that may be absent,
    a parse that may fail. */
module Options {

  datatype Option<T> = None | Some(value: T)
}
