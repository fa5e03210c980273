/** Small value types shared by the model: optional results, success/error outcomes and the source's unsigned widths. */
module Wrappers {

  /** A value that may be absent (an optional index, a null pointer result). */
  datatype Option<+T> = None | Some(value: T)

  /** The exceptions the core can raise. */
  datatype Error = InvalidArgument  // std::invalid_argument("Tried to deallocate an invalid pointer.")

  /** Completion of an operation that may throw: Pass, or Fail with the exception raised. */
  datatype Outcome = Pass | Fail(error: Error)

  const UINT32_LIMIT: nat := 0x1_0000_0000

  /** The source's `uint32_t` (entity ids, component owner ids). */
  type uint32 = x: int | 0 <= x < UINT32_LIMIT

  /** std::abs on integers. */
  function Abs(v: int): (r: nat)
    ensures r == v || r == -v
  {
    if v < 0 then -v else v
  }
}
