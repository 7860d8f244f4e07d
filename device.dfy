/**
 * The device session as the range engine sees it: one read request of a
 * kind, a start address and a count gives one response. The session is a
 * pure function here, so the device's own state between requests is not
 * part of the model.
 */
module Device {
  import opened Wrappers

  /** The four Modbus read functions (1, 2, 3 and 4). */
  datatype ReadKind = Coils | DiscreteInputs | HoldingRegisters | InputRegisters

  predicate IsBitKind(kind: ReadKind) {
    kind.Coils? || kind.DiscreteInputs?
  }

  /**
   * A response: bit values for a coil or discrete-input read, register
   * values for a register read, or an exception response, which has
   * neither `.bits` nor `.registers`.
   */
  datatype Response =
    | BitsResponse(bits: seq<bool>)
    | RegistersResponse(registers: seq<int>)
    | ExceptionResponse(code: int)

  /** `session.read_<kind>(start, count)`. */
  type Session = (ReadKind, int, int) -> Response

  /** `response.bits`, absent on any other kind of response. */
  function Bits(r: Response): Option<seq<bool>> {
    if r.BitsResponse? then Some(r.bits) else None
  }

  /** `response.registers`, absent on any other kind of response. */
  function Registers(r: Response): Option<seq<int>> {
    if r.RegistersResponse? then Some(r.registers) else None
  }

  /** `int(b)` for a bool. */
  function BoolToInt(b: bool): int {
    if b then 1 else 0
  }
}
