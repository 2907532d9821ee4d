/** The optional value used where the source either produces something or
    produces nothing (a failed parse, a failed translation, no match). */
module Options {
  datatype Option<T> = None | Some(value: T)
}
