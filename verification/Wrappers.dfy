/** Values that may be missing, and how a call comes back. */
module Wrappers {

  /** Go's nil error, nil reply or absent map entry is None. */
  datatype Option<+T> = None | Some(value: T)

  /**
   * How a handler comes back: with a reply and an error, either of which may be nil; with a
   * panic on the calling goroutine; or not at all, because a panic on another goroutine, which
   * no recover can see, ended the process.
   */
  datatype Outcome<+R, +E> = Return(reply: Option<R>, err: Option<E>) | Panic | Crash
}
