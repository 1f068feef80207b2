/** The absent-or-present value that stands for TypeScript's `T | null`. */
module Optional {

  datatype Option<+T> = None | Some(value: T)

}
