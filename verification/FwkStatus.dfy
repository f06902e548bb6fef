/** Status codes of the framework (framework/include/fwk_status.h) and an option type. */
module FwkStatus {

  const SUCCESS: int := 0
  const PENDING: int := 1
  const E_PARAM: int := -1
  const E_ALIGN: int := -2
  const E_HANDLER: int := -4
  const E_ACCESS: int := -5
  const E_RANGE: int := -6
  const E_NOMEM: int := -8
  const E_SUPPORT: int := -10
  const E_BUSY: int := -12
  const E_DATA: int := -14
  const E_STATE: int := -15
  const E_PANIC: int := -18

  /** Number of values of a 32-bit unsigned counter. */
  const TWO32: nat := 0x1_0000_0000

  const TWO64: nat := 0x1_0000_0000_0000_0000

  datatype Option<+T> = None | Some(value: T)
}
