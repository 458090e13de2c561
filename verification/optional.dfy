/** The absent-or-present value used wherever the source returns `undefined`,
    `null` or throws in place of a value. */
module Optional {

  datatype Option<+T> = None | Some(value: T)

}
