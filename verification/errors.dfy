/**
 * The libxl error codes xl passes on (libxl_types.idl is not part of this
 * model): only the values the modelled code uses.
 */
module Errors {
  const ERROR_FAIL: int := -3
  const ERROR_INVAL: int := -6
  /** The guest did not suspend in time. */
  const ERROR_GUEST_TIMEDOUT: int := -8
}
