/** The optional value used wherever the service reads `[0]` of a possibly
    empty array or tests a possibly missing record. */
module Options {

  datatype Option<+T> = None | Some(value: T)
}
