/** serial_cmds/forward.py: the `FWD:<speed>` line and its `send` helper. */
module SerialForward {
  import opened Wrappers
  import opened Text
  import opened Bytes
  import opened SerialLink
  import opened DetectionConfig

  const DefaultSpeed: int := 100

  /** `COMMAND_TEMPLATE.format(speed=speed)`. */
  function Format(speed: int): string {
    "FWD:" + IntToDecimal(speed) + "\n"
  }

  /** `forward.send(port, baud, speed)`, with the serial outcome as an oracle. */
  function Send(cfg: Config, fault: SerialFault, port: Option<string> := None, baud: Option<int> := None,
                speed: int := DefaultSpeed): (x: Exchange)
    ensures IsAscii(Format(speed))
    ensures x.port == ResolvePort(port, cfg.serialPortDefault)
    ensures x.baud == ResolveBaud(baud, cfg.serialBaudDefault)
    ensures x.ok <==> fault == NoFault
    ensures x.ok ==> x.written == AsciiBytes(Format(speed))
  {
    FormatIsAscii(speed);
    Transmit(ResolvePort(port, cfg.serialPortDefault), ResolveBaud(baud, cfg.serialBaudDefault),
             AsciiBytes(Format(speed)), fault)
  }

  /** How a reader of the line protocol recovers the speed from a FWD line. */
  function Parse(line: string): Option<int> {
    if |line| >= 5 && line[..4] == "FWD:" && line[|line| - 1] == '\n' then ParseInt(line[4..|line| - 1])
    else None
  }

  /** The line is ASCII: "FWD:", an optional '-', decimal digits, then a newline. */
  lemma FormatIsAscii(speed: int)
    ensures IsAscii(Format(speed))
    ensures var line := Format(speed); var digits := line[4..|line| - 1];
      && line[..4] == "FWD:" && line[|line| - 1] == '\n'
      && (speed < 0 <==> digits[0] == '-')
      && IsDigits(if speed < 0 then digits[1..] else digits)
  {
    var line := Format(speed);
    IntToDecimalShape(speed);
    assert line[4..|line| - 1] == IntToDecimal(speed);
    assert forall k :: 0 <= k < |line| ==> line[k] == if k < 4 then "FWD:"[k] else if k < |line| - 1 then IntToDecimal(speed)[k - 4] else '\n';
  }

  /** Every speed survives the round trip through the line. */
  lemma ParseFormat(speed: int)
    ensures Parse(Format(speed)) == Some(speed)
  {
    var line := Format(speed);
    assert line[4..|line| - 1] == IntToDecimal(speed);
    IntToDecimalRoundTrip(speed);
  }

  /** Without a speed argument the helper sends "FWD:100\n". */
  lemma DefaultLine(cfg: Config, fault: SerialFault)
    ensures Send(cfg, fault).ok ==> Send(cfg, fault).written == AsciiBytes("FWD:100\n")
  {
    assert IntToDecimal(100) == "100";
  }
}
