/** Result shapes shared by the open-file layer. */
module Wrappers {

  /** A value that may be absent; `None` plays the role of the null pointer. */
  datatype Option<+T> = None | Some(value: T)

  /**
   * What a kernel routine does: it returns a value, or it stops the machine
   * with `panic(msg)`, which the caller never observes as a return.
   */
  datatype Outcome<+T> = Returned(value: T) | Panicked(msg: string)
}
