/** serial_cmds/stop.py: the STOP command and its `send` helper. */
module SerialStop {
  import opened Wrappers
  import opened Bytes
  import opened SerialLink
  import opened DetectionConfig

  const Command: string := "STOP\n"

  /** `stop.send(port, baud)` against the configured defaults, with the serial outcome as an oracle. */
  function Send(cfg: Config, fault: SerialFault, port: Option<string> := None, baud: Option<int> := None): (x: Exchange)
    ensures x.port == ResolvePort(port, cfg.serialPortDefault)
    ensures x.baud == ResolveBaud(baud, cfg.serialBaudDefault)
    ensures x.ok <==> fault == NoFault
    ensures x.ok ==> x.written == [83, 84, 79, 80, 10]
  {
    Transmit(ResolvePort(port, cfg.serialPortDefault), ResolveBaud(baud, cfg.serialBaudDefault), AsciiBytes(Command), fault)
  }
}
