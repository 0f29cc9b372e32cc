/** The optional value shared by the other modules: JavaScript's `null` or
    `undefined` against a present value. */
module Options {

  datatype Option<T> = None | Some(value: T)
}
