/** Return codes of the library, as its documentation lists them. */
module Codes {
  const SUCCESS: int := 0
  const INVALID: int := -1
  const NOMEM: int := -2
  const IO_ERROR: int := -3
  const BUSY: int := -4
  const NODEV: int := -5

  /** Status that a completion callback reports for the device's verdict. */
  function StatusOf(ok: bool): int { if ok then SUCCESS else IO_ERROR }

  datatype Option<+T> = None | Some(value: T)
}
