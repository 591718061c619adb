/** Nullable values as the application's state holds them: `null`/`undefined` or a value. */
module Options {

  datatype Option<+T> = None | Some(value: T)

  /** JavaScript's `xs || []` for an array-or-null state field. */
  function OrEmpty<T>(o: Option<seq<T>>): seq<T>
  {
    if o.Some? then o.value else []
  }
}
