/**
 * What the three actuator helpers of serial_cmds/ share: `port or default`
 * and `baud or default`, and one `with serial.Serial(...)` exchange that
 * writes a line, flushes it and maps a `SerialException` to `False`.
 * Which step of the exchange fails, if any, is an oracle.
 */
module SerialLink {
  import opened Wrappers
  import opened Bytes

  /** Where a `SerialException` is raised, if at all. */
  datatype SerialFault = NoFault | OpenFails | WriteFails | FlushFails

  /** One call of a `send` helper: the resolved port and baud, the bytes that reached the line, the returned flag. */
  datatype Exchange = Exchange(port: string, baud: int, written: seq<uint8>, ok: bool)

  /** `port or default`: `None` and "" are falsy. */
  function ResolvePort(port: Option<string>, default: string): (p: string)
    ensures p == default <==> port == None || port == Some("") || port == Some(default)
    ensures p != default ==> port == Some(p)
  {
    if port == None || port == Some("") then default else port.value
  }

  /** `baud or default`: `None` and 0 are falsy. */
  function ResolveBaud(baud: Option<int>, default: int): (b: int)
    ensures b == default <==> baud == None || baud == Some(0) || baud == Some(default)
    ensures b != default ==> baud == Some(b)
  {
    if baud == None || baud == Some(0) then default else baud.value
  }

  /** Open, write `line`, flush; `True` only if no step raised. */
  function Transmit(port: string, baud: int, line: seq<uint8>, fault: SerialFault): (x: Exchange)
    ensures x.port == port && x.baud == baud
    ensures x.ok <==> fault == NoFault
    ensures x.ok ==> x.written == line
    ensures x.written == [] || x.written == line
  {
    match fault
    case NoFault => Exchange(port, baud, line, true)
    case FlushFails => Exchange(port, baud, line, false)
    case _ => Exchange(port, baud, [], false)
  }
}
