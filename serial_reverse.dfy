/** serial_cmds/reverse.py: the `REV:<speed>:<duration>` line and its `send` helper. */
module SerialReverse {
  import opened Wrappers
  import opened Text
  import opened Bytes
  import opened SerialLink
  import opened DetectionConfig

  const DefaultSpeed: int := 80
  /** Python's rendering of the default `duration=1.5`. */
  const DefaultDuration: string := "1.5"

  /** `COMMAND_TEMPLATE.format(speed=speed, duration=duration)`; the float arrives rendered as text. */
  function Format(speed: int, duration: string): string {
    "REV:" + IntToDecimal(speed) + ":" + duration + "\n"
  }

  /** `reverse.send(port, baud, speed, duration)`, with the serial outcome as an oracle. */
  function Send(cfg: Config, fault: SerialFault, port: Option<string> := None, baud: Option<int> := None,
                speed: int := DefaultSpeed, duration: string := DefaultDuration): (x: Exchange)
    requires IsAscii(duration)
    ensures IsAscii(Format(speed, duration))
    ensures x.port == ResolvePort(port, cfg.serialPortDefault)
    ensures x.baud == ResolveBaud(baud, cfg.serialBaudDefault)
    ensures x.ok <==> fault == NoFault
    ensures x.ok ==> x.written == AsciiBytes(Format(speed, duration))
  {
    FormatIsAscii(speed, duration);
    Transmit(ResolvePort(port, cfg.serialPortDefault), ResolveBaud(baud, cfg.serialBaudDefault),
             AsciiBytes(Format(speed, duration)), fault)
  }

  /** How a reader of the line protocol splits a REV line at its first ':' after the prefix. */
  function Parse(line: string): Option<(int, string)> {
    if |line| >= 5 && line[..4] == "REV:" && line[|line| - 1] == '\n' then
      var body := line[4..|line| - 1];
      if ':' in body then
        var i := IndexOf(body, ':');
        match ParseInt(body[..i])
        case Some(speed) => Some((speed, body[i + 1..]))
        case None => None
      else None
    else None
  }

  lemma FormatIsAscii(speed: int, duration: string)
    requires IsAscii(duration)
    ensures IsAscii(Format(speed, duration))
  {
    IntToDecimalShape(speed);
  }

  /** Speed and duration text both survive the round trip through the line. */
  lemma ParseFormat(speed: int, duration: string)
    ensures Parse(Format(speed, duration)) == Some((speed, duration))
  {
    var line := Format(speed, duration);
    var dec := IntToDecimal(speed);
    var body := line[4..|line| - 1];
    assert body == dec + ":" + duration;
    DecimalHasNoColon(speed);
    IndexOfAfterPrefix(dec, ':', duration);
    assert body[..|dec|] == dec && body[|dec| + 1..] == duration;
    IntToDecimalRoundTrip(speed);
  }

  lemma DecimalHasNoColon(speed: int)
    ensures ':' !in IntToDecimal(speed)
  {
    var dec := IntToDecimal(speed);
    IntToDecimalShape(speed);
    var digits := if speed < 0 then dec[1..] else dec;
    assert forall k :: 0 <= k < |digits| ==> digits[k] != ':';
    assert forall k :: 0 <= k < |dec| ==> dec[k] == '-' || dec[k] in digits;
  }

  /** With no arguments the helper sends "REV:80:1.5\n". */
  lemma DefaultLine(cfg: Config, fault: SerialFault)
    ensures Send(cfg, fault).ok ==> Send(cfg, fault).written == AsciiBytes("REV:80:1.5\n")
  {
    assert IntToDecimal(80) == "80";
  }
}
