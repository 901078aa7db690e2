/** Fixed-width integers, the library's status vocabulary and the Option type
    shared by every module of the model. */
module Types {

  /** C `uint8_t`. */
  newtype byte = x: int | 0 <= x < 0x100

  const U32_MODULUS: int := 0x1_0000_0000
  const U64_MODULUS: int := 0x1_0000_0000_0000_0000

  /** C `uint32_t`; arithmetic on it is reduced modulo U32_MODULUS where the source wraps. */
  type u32 = x: int | 0 <= x < 0x1_0000_0000

  /** C `uint64_t`. */
  type u64 = x: int | 0 <= x < 0x1_0000_0000_0000_0000

  /** `mccr_status_t`. */
  datatype Status =
    | Ok
    | Failed
    | NotFound
    | Internal
    | NotOpen
    | WriteFailed
    | ReadFailed
    | ReportFailed
    | Delayed
    | InvalidOperation
    | InvalidInput
    | UnexpectedFormat
    | TimedOut

  datatype Option<+T> = None | Some(value: T)
}
