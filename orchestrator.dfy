/**
 * orchestrator/main.py: the runtime that supervises the detector process,
 * turns detection events into serial safety sequences and advertises
 * itself over mDNS.
 *
 * Time is an integer count of milliseconds. An event is handled at
 * `max(clock, arrival)`: the reader thread calls the handler, so an event
 * that arrives while a sequence sleeps waits for it. Sleeps advance the
 * clock; sends take no time. Which serial step fails is an oracle indexed by
 * the number of sends made so far.
 */
module Orchestrator {
  import opened Wrappers
  import opened Text
  import opened Json
  import opened Bytes
  import opened SerialLink
  import opened DetectionConfig
  import SerialStop
  import SerialReverse
  import SerialForward
  import ZeroconfRegister
  import EventsClient
  import opened Numbers

  // ---------------------------------------------------------------------------
  // The event log: `deque(maxlen=MAX_EVENT_LOG_SIZE)` filled with `appendleft`.

  /** `appendleft` on a bounded deque: the new payload goes first and the oldest falls off the end. */
  function PushFront(log: seq<map<string, Json>>, p: map<string, Json>, maxLen: nat): (r: seq<map<string, Json>>)
    requires |log| <= maxLen
    ensures |r| <= maxLen
  {
    ([p] + log)[..Min(maxLen, |log| + 1)]
  }

  /** The log after `appendleft` of each payload in turn. */
  function PushAll(log: seq<map<string, Json>>, ps: seq<map<string, Json>>, maxLen: nat): seq<map<string, Json>>
    requires |log| <= maxLen
    decreases |ps|
  {
    if ps == [] then log else PushAll(PushFront(log, ps[0], maxLen), ps[1..], maxLen)
  }

  function Reverse<T>(s: seq<T>): (r: seq<T>)
    ensures |r| == |s|
    decreases |s|
  {
    if s == [] then [] else Reverse(s[1..]) + [s[0]]
  }

  /** The reference view of the log: the `maxLen` most recent payloads, newest first. */
  function Newest(ps: seq<map<string, Json>>, maxLen: nat): seq<map<string, Json>> {
    Reverse(ps)[..Min(maxLen, |ps|)]
  }

  lemma {:induction false} ReverseIndex<T>(s: seq<T>, i: int)
    requires 0 <= i < |s|
    ensures Reverse(s)[i] == s[|s| - 1 - i]
    decreases |s|
  {
    if i < |s| - 1 {
      ReverseIndex(s[1..], i);
    }
  }

  /** Appending payloads one by one onto a log leaves the newest of all of them, the old ones last. */
  lemma {:induction false} PushAllKeepsNewest(log: seq<map<string, Json>>, ps: seq<map<string, Json>>, maxLen: nat)
    requires |log| <= maxLen
    ensures PushAll(log, ps, maxLen) == (Reverse(ps) + log)[..Min(maxLen, |ps| + |log|)]
    decreases |ps|
  {
    if ps != [] {
      var log1 := PushFront(log, ps[0], maxLen);
      PushAllKeepsNewest(log1, ps[1..], maxLen);
      var a := (Reverse(ps[1..]) + log1)[..Min(maxLen, |ps| - 1 + |log1|)];
      var b := (Reverse(ps) + log)[..Min(maxLen, |ps| + |log|)];
      assert Reverse(ps) == Reverse(ps[1..]) + [ps[0]];
      assert |a| == |b|;
      forall i | 0 <= i < |a|
        ensures a[i] == b[i]
      {
        if i < |ps| - 1 {
          assert a[i] == Reverse(ps[1..])[i] == b[i];
        } else {
          assert a[i] == log1[i - (|ps| - 1)];
          assert b[i] == ([ps[0]] + log)[i - (|ps| - 1)];
        }
      }
    }
  }

  /** Started empty, the log holds exactly the `maxLen` most recent payloads, newest first. */
  lemma EventLogIsNewestPayloads(ps: seq<map<string, Json>>, maxLen: nat)
    ensures PushAll([], ps, maxLen) == Newest(ps, maxLen)
    ensures |ps| > 0 && maxLen > 0 ==> PushAll([], ps, maxLen)[0] == ps[|ps| - 1]
  {
    PushAllKeepsNewest([], ps, maxLen);
    assert Reverse(ps) + [] == Reverse(ps);
    if |ps| > 0 && maxLen > 0 {
      ReverseIndex(ps, 0);
    }
  }

  // ---------------------------------------------------------------------------
  // Reading an event: `_handle_event` up to the watch-set test.

  /**
   * What the handler makes of a decoded event: nothing (`Skip`), a crash
   * before anything is recorded (`Malformed`: `.get` on something that is not
   * a dict), or a payload with a truthy label.
   */
  datatype Reading = Skip | Malformed | Labelled(payload: map<string, Json>, labelValue: Json)

  /** `event.get("type")`, `event.get("payload") or {}` and `payload.get("label")`. */
  function ReadEvent(event: Json): (r: Reading)
    ensures r.Labelled? ==> Truthy(r.labelValue) && Get(r.payload, "label") == Some(r.labelValue)
    ensures r.Labelled? ==> event.JObj? && Get(event.fields, "type") == Some(JStr("detection"))
    ensures r.Labelled? ==> Get(event.fields, "payload") == Some(JObj(r.payload))
  {
    match event
    case JObj(fields) =>
      if Get(fields, "type") != Some(JStr("detection")) then Skip
      else
        var p := Get(fields, "payload");
        if p.None? || !Truthy(p.value) then Skip
        else if !p.value.JObj? then Malformed
        else
          var lbl := Get(p.value.fields, "label");
          if lbl.None? || !Truthy(lbl.value) then Skip else Labelled(p.value.fields, lbl.value)
    case _ => Malformed
  }

  /** `label in WATCH_CLASSES` for a hashable label: only a string can equal a member. */
  predicate Watched(v: Json, watch: set<string>) {
    v.JStr? && v.s in watch
  }

  /**
   * The independent description of when the handler raises: the event is not
   * a dict; or it is a detection whose truthy payload is not a dict; or the
   * payload is a dict with a truthy label that is a list or a dict.
   */
  predicate HandlerRaises(event: Json) {
    || !event.JObj?
    || (&& Get(event.fields, "type") == Some(JStr("detection"))
        && "payload" in event.fields
        && Truthy(event.fields["payload"])
        && (|| !event.fields["payload"].JObj?
            || (&& "label" in event.fields["payload"].fields
                && Truthy(event.fields["payload"].fields["label"])
                && (event.fields["payload"].fields["label"].JArr? || event.fields["payload"].fields["label"].JObj?))))
  }

  // ---------------------------------------------------------------------------
  // The safety sequence.

  /** A command written to the controller. */
  datatype Command = StopCmd | ReverseCmd(speed: int, duration: string) | ForwardCmd(speed: int)

  /** One `send` helper call: which command, and the exchange on the serial line. */
  datatype Sent = Sent(cmd: Command, exchange: Exchange)

  /** The runtime's sequencing state: `event_log`, `last_detection`, `_serial_cooldown`, the clock and what was sent. */
  datatype Runtime = Runtime(
    eventLog: seq<map<string, Json>>,
    lastDetection: Option<map<string, Json>>,
    cooldown: int,
    clock: int,
    sent: seq<Sent>)

  datatype EventOutcome = Ignored | Handled(sequenceRan: bool) | Raised

  /** The text line each command puts on the wire. */
  function Line(cmd: Command): string {
    match cmd
    case StopCmd => SerialStop.Command
    case ReverseCmd(speed, duration) => SerialReverse.Format(speed, duration)
    case ForwardCmd(speed) => SerialForward.Format(speed)
  }

  function Commands(sent: seq<Sent>): (cmds: seq<Command>)
    ensures |cmds| == |sent|
    ensures forall i :: 0 <= i < |sent| ==> cmds[i] == sent[i].cmd
  {
    seq(|sent|, i requires 0 <= i < |sent| => sent[i].cmd)
  }

  /** The commands of one sequence: STOP, REV at the default speed for the configured duration, and FWD when resuming. */
  function SequenceCommands(cfg: Config): seq<Command> {
    [StopCmd, ReverseCmd(SerialReverse.DefaultSpeed, cfg.reverseDurationText)]
      + (if cfg.resumeWithForward then [ForwardCmd(SerialForward.DefaultSpeed)] else [])
  }

  predicate Ready(cfg: Config, st: Runtime, now: int) {
    now - st.cooldown >= cfg.reverseDurationMs
  }

  /**
   * `_execute_safety_sequence` at time `now`: inside the cooldown nothing
   * happens; otherwise STOP, the stop-to-reverse sleep, REV, the cooldown
   * stamp, and, when resuming, the forward sleep and FWD.
   */
  function SafetySequence(cfg: Config, st: Runtime, now: int, fault: nat -> SerialFault): Runtime
    requires IsAscii(cfg.reverseDurationText)
  {
    if !Ready(cfg, st, now) then st
    else
      var s1 := st.sent + [Sent(StopCmd, SerialStop.Send(cfg, fault(|st.sent|)))];
      var stamp := now + cfg.stopToReverseMs;
      var s2 := s1 + [Sent(ReverseCmd(SerialReverse.DefaultSpeed, cfg.reverseDurationText),
                           SerialReverse.Send(cfg, fault(|s1|), duration := cfg.reverseDurationText))];
      if cfg.resumeWithForward then
        var s3 := s2 + [Sent(ForwardCmd(SerialForward.DefaultSpeed), SerialForward.Send(cfg, fault(|s2|)))];
        st.(cooldown := stamp, clock := stamp + cfg.forwardResumeMs, sent := s3)
      else
        st.(cooldown := stamp, clock := stamp, sent := s2)
  }

  /** `_handle_event` for an event arriving at `arrival`. */
  function HandleEventSpec(cfg: Config, st: Runtime, event: Json, arrival: int, fault: nat -> SerialFault): (EventOutcome, Runtime)
    requires IsAscii(cfg.reverseDurationText)
    requires |st.eventLog| <= cfg.maxEventLogSize
  {
    var now := Max(st.clock, arrival);
    var st0 := st.(clock := now);
    match ReadEvent(event)
    case Skip => (Ignored, st0)
    case Malformed => (Raised, st0)
    case Labelled(p, lbl) =>
      var logged := st0.(lastDetection := Some(p), eventLog := PushFront(st0.eventLog, p, cfg.maxEventLogSize));
      if !Hashable(lbl) then (Raised, logged)
      else if !Watched(lbl, cfg.watchClasses) then (Handled(false), logged)
      else (Handled(Ready(cfg, logged, now)), SafetySequence(cfg, logged, now, fault))
  }

  /** The runtime invariant: a bounded log, a cooldown stamp never ahead of the clock. */
  predicate Sane(cfg: Config, st: Runtime) {
    |st.eventLog| <= cfg.maxEventLogSize && st.cooldown <= st.clock
  }

  /** Every exchange went to the configured port and baud and, when it succeeded, wrote its command's line. */
  predicate WellSent(cfg: Config, sent: seq<Sent>) {
    forall i :: 0 <= i < |sent| ==> WellSentAt(cfg, sent, i)
  }

  // ---------------------------------------------------------------------------
  // Properties of event handling.

  /** An event that reads as nothing only moves the clock. */
  lemma IgnoredEventsChangeNothing(cfg: Config, st: Runtime, event: Json, arrival: int, fault: nat -> SerialFault)
    requires IsAscii(cfg.reverseDurationText) && |st.eventLog| <= cfg.maxEventLogSize
    ensures HandleEventSpec(cfg, st, event, arrival, fault).0 == Ignored <==> ReadEvent(event).Skip?
    ensures ReadEvent(event).Skip? ==> HandleEventSpec(cfg, st, event, arrival, fault).1 == st.(clock := Max(st.clock, arrival))
  {
  }

  /** The handler raises exactly on the events the independent description names. */
  lemma RaisedExactlyWhenHandlerRaises(cfg: Config, st: Runtime, event: Json, arrival: int, fault: nat -> SerialFault)
    requires IsAscii(cfg.reverseDurationText) && |st.eventLog| <= cfg.maxEventLogSize
    ensures HandleEventSpec(cfg, st, event, arrival, fault).0 == Raised <==> HandlerRaises(event)
  {
    if event.JObj? && Get(event.fields, "type") == Some(JStr("detection")) && "payload" in event.fields {
      var p := event.fields["payload"];
      if Truthy(p) && p.JObj? && "label" in p.fields {
        assert Get(p.fields, "label") == Some(p.fields["label"]);
      }
    }
  }

  /** A labelled payload is recorded as the last detection and logged first, whether or not its label is watched; nothing else is. */
  lemma LabelledEventsAreLogged(cfg: Config, st: Runtime, event: Json, arrival: int, fault: nat -> SerialFault)
    requires IsAscii(cfg.reverseDurationText) && |st.eventLog| <= cfg.maxEventLogSize
    ensures var r := HandleEventSpec(cfg, st, event, arrival, fault).1;
      match ReadEvent(event)
      case Labelled(p, _) =>
        && r.lastDetection == Some(p)
        && r.eventLog == PushFront(st.eventLog, p, cfg.maxEventLogSize)
        && (cfg.maxEventLogSize > 0 ==> r.eventLog[0] == p)
      case _ => r.lastDetection == st.lastDetection && r.eventLog == st.eventLog
  {
  }

  /** Handling an event keeps the runtime invariant and the record of what was sent. */
  lemma HandlingKeepsInvariant(cfg: Config, st: Runtime, event: Json, arrival: int, fault: nat -> SerialFault)
    requires IsAscii(cfg.reverseDurationText) && Sane(cfg, st) && WellSent(cfg, st.sent)
    ensures var r := HandleEventSpec(cfg, st, event, arrival, fault).1;
      Sane(cfg, r) && WellSent(cfg, r.sent) && r.clock >= Max(st.clock, arrival) && r.cooldown >= st.cooldown
  {
    var now := Max(st.clock, arrival);
    var r := HandleEventSpec(cfg, st, event, arrival, fault).1;
    if ReadEvent(event).Labelled? && r.sent != st.sent {
      SequenceIsWellSent(cfg, st.(clock := now, lastDetection := r.lastDetection, eventLog := r.eventLog), now, fault);
    }
  }

  lemma SequenceIsWellSent(cfg: Config, st: Runtime, now: int, fault: nat -> SerialFault)
    requires IsAscii(cfg.reverseDurationText) && WellSent(cfg, st.sent)
    ensures WellSent(cfg, SafetySequence(cfg, st, now, fault).sent)
  {
    if Ready(cfg, st, now) {
      var r := SafetySequence(cfg, st, now, fault).sent;
      var n := |st.sent|;
      StopLineBytes();
      SerialReverse.FormatIsAscii(SerialReverse.DefaultSpeed, cfg.reverseDurationText);
      SerialForward.FormatIsAscii(SerialForward.DefaultSpeed);
      assert r[..n] == st.sent;
      forall i | 0 <= i < |r|
        ensures WellSentAt(cfg, r, i)
      {
        if i < n {
          assert r[i] == st.sent[i];
          assert WellSentAt(cfg, st.sent, i);
        }
      }
    }
  }

  predicate WellSentAt(cfg: Config, sent: seq<Sent>, i: int)
    requires 0 <= i < |sent|
  {
    && sent[i].exchange.port == cfg.serialPortDefault
    && sent[i].exchange.baud == cfg.serialBaudDefault
    && (sent[i].exchange.ok ==> IsAscii(Line(sent[i].cmd)) && sent[i].exchange.written == AsciiBytes(Line(sent[i].cmd)))
  }

  /** The STOP line is ASCII and its bytes are the ones the helper writes. */
  lemma StopLineBytes()
    ensures IsAscii(SerialStop.Command) && AsciiBytes(SerialStop.Command) == [83, 84, 79, 80, 10]
  {
    var s := SerialStop.Command;
    assert s[0] == 'S' && s[1] == 'T' && s[2] == 'O' && s[3] == 'P' && s[4] == '\n';
  }

  /**
   * A sequence runs exactly when the event carries a watched string label and
   * the cooldown has elapsed; it then appends exactly STOP, REV and, when
   * resuming, FWD, whatever the serial line does.
   */
  lemma SequenceRunsExactlyWhenDue(cfg: Config, st: Runtime, event: Json, arrival: int, fault: nat -> SerialFault)
    requires IsAscii(cfg.reverseDurationText) && |st.eventLog| <= cfg.maxEventLogSize
    ensures var (out, r) := HandleEventSpec(cfg, st, event, arrival, fault);
      var due := ReadEvent(event).Labelled? && Watched(ReadEvent(event).labelValue, cfg.watchClasses)
        && Max(st.clock, arrival) - st.cooldown >= cfg.reverseDurationMs;
      && (out == Handled(true) <==> due)
      && (due ==> |r.sent| > |st.sent| && r.sent[..|st.sent|] == st.sent && Commands(r.sent[|st.sent|..]) == SequenceCommands(cfg))
      && (!due ==> r.sent == st.sent && r.cooldown == st.cooldown)
  {
    var (out, r) := HandleEventSpec(cfg, st, event, arrival, fault);
    var due := ReadEvent(event).Labelled? && Watched(ReadEvent(event).labelValue, cfg.watchClasses)
      && Max(st.clock, arrival) - st.cooldown >= cfg.reverseDurationMs;
    if due {
      assert r.sent[..|st.sent|] == st.sent;
      assert Commands(r.sent[|st.sent|..]) == SequenceCommands(cfg);
    }
  }

  /** After a sequence the cooldown is stamped after the stop-to-reverse sleep, and the clock has reached it. */
  lemma CooldownStampedAfterStop(cfg: Config, st: Runtime, now: int, fault: nat -> SerialFault)
    requires IsAscii(cfg.reverseDurationText) && Ready(cfg, st, now)
    ensures var r := SafetySequence(cfg, st, now, fault);
      && r.cooldown == now + cfg.stopToReverseMs
      && r.clock == r.cooldown + (if cfg.resumeWithForward then cfg.forwardResumeMs else 0)
  {
  }

  /**
   * Once a sequence has run, an event handled less than the reverse duration
   * after the cooldown stamp sends nothing and leaves the stamp alone.
   */
  lemma NoSecondSequenceWithinCooldown(cfg: Config, st: Runtime, e1: Json, a1: int, e2: Json, a2: int, fault: nat -> SerialFault)
    requires IsAscii(cfg.reverseDurationText) && |st.eventLog| <= cfg.maxEventLogSize
    requires HandleEventSpec(cfg, st, e1, a1, fault).0 == Handled(true)
    ensures var r1 := HandleEventSpec(cfg, st, e1, a1, fault).1;
      Max(r1.clock, a2) < r1.cooldown + cfg.reverseDurationMs ==>
        var r2 := HandleEventSpec(cfg, r1, e2, a2, fault).1;
        r2.sent == r1.sent && r2.cooldown == r1.cooldown
  {
    var r1 := HandleEventSpec(cfg, st, e1, a1, fault).1;
    SequenceRunsExactlyWhenDue(cfg, st, e1, a1, fault);
    SequenceRunsExactlyWhenDue(cfg, r1, e2, a2, fault);
  }

  // ---------------------------------------------------------------------------
  // A concrete run with the default configuration.

  /** `{"type": "detection", "payload": {"label": name}}`. */
  function DetectionOf(name: string): Json {
    JObj(map["type" := JStr("detection"), "payload" := JObj(map["label" := JStr(name)])])
  }

  lemma ReadDetectionOf(name: string)
    requires name != ""
    ensures ReadEvent(DetectionOf(name)) == Labelled(map["label" := JStr(name)], JStr(name))
  {
    var fields := map["type" := JStr("detection"), "payload" := JObj(map["label" := JStr(name)])];
    assert "type" != "payload";
    assert Get(fields, "type") == Some(JStr("detection"));
    assert Get(fields, "payload") == Some(JObj(map["label" := JStr(name)]));
    var p := map["label" := JStr(name)];
    assert "label" in p && Truthy(JObj(p)) && Truthy(JStr(name));
    assert Get(p, "label") == Some(JStr(name));
  }

  const Epoch: int := 1_700_000_000_000

  /** The timing the run below depends on, as the default configuration sets it. */
  predicate DefaultTiming(cfg: Config) {
    && "person" in cfg.watchClasses && "bottle" in cfg.watchClasses
    && cfg.reverseDurationMs == 1500 && cfg.reverseDurationText == "1.5" && IsAscii(cfg.reverseDurationText)
    && cfg.stopToReverseMs == 1000 && cfg.forwardResumeMs == 1000
    && cfg.resumeWithForward && cfg.maxEventLogSize == 100
  }

  /** The default configuration has that timing, so the run below is the one a fresh deployment sees. */
  lemma DefaultsHaveDefaultTiming()
    ensures DefaultTiming(FromEnv(None, None))
  {
    var cfg := FromEnv(None, None);
    DefaultWatchSet();
    assert cfg.watchClasses == {"person", "bottle"};
    ResumeWithForwardExamples();
    assert cfg.resumeWithForward;
    DurationTextIsAscii();
  }

  lemma DurationTextIsAscii()
    ensures IsAscii("1.5")
  {
    var d := "1.5";
    assert d[0] == '1' && d[1] == '.' && d[2] == '5';
  }

  /** person at 0 ms triggers: from a cold start the cooldown stamp is far in the past. */
  lemma FirstPersonTriggers(cfg: Config, st: Runtime, fault: nat -> SerialFault)
    requires DefaultTiming(cfg)
    requires st == Runtime([], None, 0, Epoch, [])
    ensures var (out, r) := HandleEventSpec(cfg, st, DetectionOf("person"), Epoch, fault);
      out == Handled(true) && r.cooldown == Epoch + 1000 && r.clock == Epoch + 2000
      && Commands(r.sent) == [StopCmd, ReverseCmd(80, "1.5"), ForwardCmd(100)] && |r.eventLog| == 1
  {
    ReadDetectionOf("person");
    SequenceRunsExactlyWhenDue(cfg, st, DetectionOf("person"), Epoch, fault);
    var r := HandleEventSpec(cfg, st, DetectionOf("person"), Epoch, fault).1;
    assert r.sent[|st.sent|..] == r.sent;
  }

  /** A watched event handled within 1500 ms of the stamp is dropped but still logged. */
  lemma WatchedEventInCooldownDropped(cfg: Config, st: Runtime, name: string, arrival: int, fault: nat -> SerialFault)
    requires DefaultTiming(cfg) && |st.eventLog| < 100
    requires name != "" && Max(st.clock, arrival) - st.cooldown < 1500
    ensures var (out, r) := HandleEventSpec(cfg, st, DetectionOf(name), arrival, fault);
      && r.sent == st.sent && r.cooldown == st.cooldown && r.clock == Max(st.clock, arrival)
      && |r.eventLog| == |st.eventLog| + 1
  {
    ReadDetectionOf(name);
  }

  /**
   * The run person@0, person@200, bottle@300, person@2000 ms triggers a single
   * sequence: the stamp is taken after the 1000 ms stop-to-reverse sleep, so
   * the last event is handled 1000 ms after it, inside the 1500 ms cooldown.
   */
  lemma FourEventRunHasOneSequence(cfg: Config, fault: nat -> SerialFault)
    requires DefaultTiming(cfg)
    ensures var s0 := Runtime([], None, 0, Epoch, []);
      var s1 := HandleEventSpec(cfg, s0, DetectionOf("person"), Epoch, fault).1;
      var s2 := HandleEventSpec(cfg, s1, DetectionOf("person"), Epoch + 200, fault).1;
      var s3 := HandleEventSpec(cfg, s2, DetectionOf("bottle"), Epoch + 300, fault).1;
      var s4 := HandleEventSpec(cfg, s3, DetectionOf("person"), Epoch + 2000, fault).1;
      Commands(s4.sent) == [StopCmd, ReverseCmd(80, "1.5"), ForwardCmd(100)] && |s4.eventLog| == 4
  {
    var s0 := Runtime([], None, 0, Epoch, []);
    FirstPersonTriggers(cfg, s0, fault);
    var s1 := HandleEventSpec(cfg, s0, DetectionOf("person"), Epoch, fault).1;
    WatchedEventInCooldownDropped(cfg, s1, "person", Epoch + 200, fault);
    var s2 := HandleEventSpec(cfg, s1, DetectionOf("person"), Epoch + 200, fault).1;
    WatchedEventInCooldownDropped(cfg, s2, "bottle", Epoch + 300, fault);
    var s3 := HandleEventSpec(cfg, s2, DetectionOf("bottle"), Epoch + 300, fault).1;
    WatchedEventInCooldownDropped(cfg, s3, "person", Epoch + 2000, fault);
  }

  // ---------------------------------------------------------------------------
  // Supervising the detector process.

  const HealthTimeoutMs: int := 45000
  const PollSleepMs: nat := 1000

  /** `f"http://{YOLO_SERVER_HOST}:{YOLO_SERVER_PORT}{path}"`. */
  function DetectorUrl(cfg: Config, path: string): string {
    "http://" + cfg.yoloHost + ":" + IntToDecimal(cfg.yoloPort) + path
  }

  /** The uvicorn command line of `_launch_yolo_server`. */
  function YoloCommand(cfg: Config, executable: string): (cmd: seq<string>)
    ensures |cmd| == 8 && cmd[0] == executable
  {
    [executable, "-m", "uvicorn", "backend.yolo_server:app", "--host", cfg.yoloHost, "--port", IntToDecimal(cfg.yoloPort)]
  }

  /** The host and port a server launched with the command listens on read back from its arguments. */
  lemma YoloCommandNamesServer(cfg: Config, executable: string)
    ensures var cmd := YoloCommand(cfg, executable);
      cmd[4] == "--host" && cmd[5] == cfg.yoloHost && cmd[6] == "--port" && ParseInt(cmd[7]) == Some(cfg.yoloPort)
  {
    IntToDecimalRoundTrip(cfg.yoloPort);
  }

  datatype Signal = Terminate | Kill

  /** A `subprocess.Popen` child: its command line, whether it has exited, and the signals sent to it. */
  class ChildProcess {
    const command: seq<string>
    var exited: bool
    var signals: seq<Signal>

    constructor (command: seq<string>)
      ensures this.command == command && !exited && signals == []
    {
      this.command := command;
      exited := false;
      signals := [];
    }
  }

  /** What one polling round observes: whether `poll()` reports an exit, the probe's answer, and how long the probe took. */
  datatype Probe = Status(code: int) | RequestError
  datatype Round = Round(exited: bool, probe: Probe, probeMs: nat)

  /** How `_wait_for_yolo_health` ends: it returns, or raises `RuntimeError` or `TimeoutError` (with the URL). */
  datatype Health = Healthy | ProcessExited | TimedOut(url: string)

  /**
   * `_wait_for_yolo_health` from round `k` at `clock`: while less than
   * `timeout` has elapsed, a watched process that has exited ends the wait,
   * a 200 answer ends it, and anything else sleeps a second. Returns the
   * outcome and the clock.
   */
  function HealthSpec(cfg: Config, watched: bool, start: int, clock: int, k: nat, rounds: nat -> Round, timeout: int): (Health, int)
    decreases timeout - (clock - start)
  {
    if clock - start >= timeout then (TimedOut(DetectorUrl(cfg, "/health")), clock)
    else
      var r := rounds(k);
      if watched && r.exited then (ProcessExited, clock)
      else if r.probe == Status(200) then (Healthy, clock + r.probeMs)
      else HealthSpec(cfg, watched, start, clock + r.probeMs + PollSleepMs, k + 1, rounds, timeout)
  }

  /** Round `r` ends the wait: the watched process has exited, or the probe got a 200. */
  predicate Decisive(watched: bool, r: Round) {
    (watched && r.exited) || r.probe == Status(200)
  }

  /** The time rounds `k` up to (not including) `j` take: each probe and the second's sleep after it. */
  function Elapsed(rounds: nat -> Round, k: nat, j: nat): nat
    decreases j - k
  {
    if j <= k then 0 else rounds(k).probeMs + PollSleepMs + Elapsed(rounds, k + 1, j)
  }

  /** Round `j` is polled when the wait starts at round `k` at `clock`: no round before it ends the wait, and it starts before the deadline. */
  predicate Polled(watched: bool, start: int, clock: int, k: nat, j: nat, rounds: nat -> Round, timeout: int) {
    && k <= j
    && clock + Elapsed(rounds, k, j) - start < timeout
    && forall i :: k <= i < j ==> !Decisive(watched, rounds(i))
  }

  /**
   * How a polled decisive round `j` ends the wait: the exit is checked first
   * (`RuntimeError` at the clock the round starts), otherwise the 200 returns
   * once its probe is done.
   */
  function DecidedBy(watched: bool, clock: int, k: nat, j: nat, rounds: nat -> Round): (Health, int) {
    if watched && rounds(j).exited then (ProcessExited, clock + Elapsed(rounds, k, j))
    else (Healthy, clock + Elapsed(rounds, k, j) + rounds(j).probeMs)
  }

  /** The first decisive round, when it starts before the deadline, decides the outcome and the clock. */
  lemma {:induction false} FirstDecisiveRoundDecides(cfg: Config, watched: bool, start: int, clock: int, k: nat, j: nat, rounds: nat -> Round, timeout: int)
    requires Polled(watched, start, clock, k, j, rounds, timeout) && Decisive(watched, rounds(j))
    ensures HealthSpec(cfg, watched, start, clock, k, rounds, timeout) == DecidedBy(watched, clock, k, j, rounds)
    decreases j - k
  {
    if k < j {
      var r := rounds(k);
      var next := clock + r.probeMs + PollSleepMs;
      assert !Decisive(watched, r);
      assert Elapsed(rounds, k, j) == r.probeMs + PollSleepMs + Elapsed(rounds, k + 1, j);
      assert Polled(watched, start, next, k + 1, j, rounds, timeout);
      FirstDecisiveRoundDecides(cfg, watched, start, next, k + 1, j, rounds, timeout);
    }
  }

  /** A wait that does not time out was decided by a polled decisive round, as `DecidedBy` says. */
  lemma {:induction false} HealthyMeansProbeAnswered(cfg: Config, watched: bool, start: int, clock: int, k: nat, rounds: nat -> Round, timeout: int)
    ensures var outcome := HealthSpec(cfg, watched, start, clock, k, rounds, timeout);
      !outcome.0.TimedOut? ==>
        exists j: nat :: Polled(watched, start, clock, k, j, rounds, timeout)
          && Decisive(watched, rounds(j)) && outcome == DecidedBy(watched, clock, k, j, rounds)
    decreases timeout - (clock - start)
  {
    if clock - start < timeout {
      var r := rounds(k);
      if Decisive(watched, r) {
        assert Polled(watched, start, clock, k, k, rounds, timeout);
      } else {
        var next := clock + r.probeMs + PollSleepMs;
        HealthyMeansProbeAnswered(cfg, watched, start, next, k + 1, rounds, timeout);
        var outcome := HealthSpec(cfg, watched, start, next, k + 1, rounds, timeout);
        if !outcome.0.TimedOut? {
          var j: nat :| Polled(watched, start, next, k + 1, j, rounds, timeout)
            && Decisive(watched, rounds(j)) && outcome == DecidedBy(watched, next, k + 1, j, rounds);
          assert Elapsed(rounds, k, j) == r.probeMs + PollSleepMs + Elapsed(rounds, k + 1, j);
          assert Polled(watched, start, clock, k, j, rounds, timeout);
        }
      }
    }
  }

  /**
   * The wait ends on an exit only for a watched process, and times out only
   * once the timeout has elapsed and when no round that started before the
   * deadline saw a watched exit or a 200.
   */
  lemma {:induction false} HealthFailuresAreJustified(cfg: Config, watched: bool, start: int, clock: int, k: nat, rounds: nat -> Round, timeout: int)
    requires clock >= start
    ensures var (h, end) := HealthSpec(cfg, watched, start, clock, k, rounds, timeout);
      && end >= clock
      && (h == ProcessExited ==> watched && exists j: nat :: k <= j && rounds(j).exited)
      && (h.TimedOut? ==> end - start >= timeout && h.url == "http://" + cfg.yoloHost + ":" + IntToDecimal(cfg.yoloPort) + "/health")
      && (h.TimedOut? ==> forall j: nat :: k <= j && clock + Elapsed(rounds, k, j) - start < timeout ==> !Decisive(watched, rounds(j)))
    decreases timeout - (clock - start)
  {
    if clock - start < timeout {
      var r := rounds(k);
      if !Decisive(watched, r) {
        var next := clock + r.probeMs + PollSleepMs;
        HealthFailuresAreJustified(cfg, watched, start, next, k + 1, rounds, timeout);
        forall j: nat | k < j
          ensures Elapsed(rounds, k, j) == r.probeMs + PollSleepMs + Elapsed(rounds, k + 1, j)
        {
        }
        assert Elapsed(rounds, k, k) == 0;
      }
    }
  }

  /** When no round that starts before the deadline ends the wait, it raises `TimeoutError` with the health URL. */
  lemma {:induction false} NoDecisiveRoundTimesOut(cfg: Config, watched: bool, start: int, clock: int, k: nat, rounds: nat -> Round, timeout: int)
    requires forall j: nat :: k <= j && clock + Elapsed(rounds, k, j) - start < timeout ==> !Decisive(watched, rounds(j))
    ensures var (h, end) := HealthSpec(cfg, watched, start, clock, k, rounds, timeout);
      h == TimedOut(DetectorUrl(cfg, "/health")) && end - start >= timeout
    decreases timeout - (clock - start)
  {
    if clock - start < timeout {
      var r := rounds(k);
      assert Elapsed(rounds, k, k) == 0;
      var next := clock + r.probeMs + PollSleepMs;
      forall j: nat | k + 1 <= j && next + Elapsed(rounds, k + 1, j) - start < timeout
        ensures !Decisive(watched, rounds(j))
      {
        assert Elapsed(rounds, k, j) == r.probeMs + PollSleepMs + Elapsed(rounds, k + 1, j);
      }
      NoDecisiveRoundTimesOut(cfg, watched, start, next, k + 1, rounds, timeout);
    }
  }

  /** A detector that answers 200 in the first round and keeps running is healthy at once. */
  lemma ImmediateAnswerIsHealthy(cfg: Config, watched: bool, start: int, rounds: nat -> Round)
    requires rounds(0).probe == Status(200) && !rounds(0).exited
    ensures HealthSpec(cfg, watched, start, start, 0, rounds, HealthTimeoutMs) == (Healthy, start + rounds(0).probeMs)
  {
  }

  /** The mDNS properties: the root path and where the detector listens. */
  function MdnsProperties(cfg: Config): map<string, string> {
    map["path" := "/", "detector" := cfg.yoloHost + ":" + IntToDecimal(cfg.yoloPort)]
  }

  /** The properties hold the root path and a detector entry that reads back as the detector's host and port. */
  lemma MdnsPropertiesNameDetector(cfg: Config)
    ensures var m := MdnsProperties(cfg);
      && m.Keys == {"path", "detector"} && m["path"] == "/"
      && var d := m["detector"];
        d[..|cfg.yoloHost|] == cfg.yoloHost && d[|cfg.yoloHost|] == ':' && ParseInt(d[|cfg.yoloHost| + 1..]) == Some(cfg.yoloPort)
  {
    var d := MdnsProperties(cfg)["detector"];
    assert d[|cfg.yoloHost| + 1..] == IntToDecimal(cfg.yoloPort);
    IntToDecimalRoundTrip(cfg.yoloPort);
  }

  /** How `start()` ends: all four steps ran, or the health wait or the mDNS registration raised. */
  datatype StartOutcome = Started | HealthFailed(health: Health) | MdnsFailed(failure: ZeroconfRegister.Failure)

  /** The handle advertises the orchestrator: its name, type, port and properties, registered at the local address. */
  predicate Advertises(cfg: Config, h: ZeroconfRegister.ZeroconfHandle, localIp: string)
    reads h
  {
    && h.name == cfg.mdnsOrchestratorName && h.serviceType == cfg.mdnsTypeOrchestrator
    && h.port == cfg.orchestratorPort && h.properties == Some(MdnsProperties(cfg))
    && h.info.Some?
    && |h.info.value.addresses| == 1 && |h.info.value.addresses[0]| == 4
    && ZeroconfRegister.Dotted(h.info.value.addresses[0]) == localIp
  }

  /** Registration fails on an address that is not IPv4 text, then on a daemon error. */
  function RegistrationError(localIp: string, daemonFails: bool): Option<ZeroconfRegister.Failure> {
    if ZeroconfRegister.AddressBytes(localIp).None? then Some(ZeroconfRegister.InvalidAddress)
    else if daemonFails then Some(ZeroconfRegister.DaemonError)
    else None
  }

  /**
   * `_register_mdns`: the `register_service` call with `address=detect_local_ip()`.
   * `localIp` is what `detect_local_ip` answers (`ZeroconfRegister.DetectLocalIp`
   * of the UDP probe); the handle's own fallback to it answers the same.
   * On failure it raised and the caller stores no handle.
   */
  method RegisterOrchestrator(cfg: Config, localIp: string, daemonFails: bool)
    returns (handle: ZeroconfRegister.ZeroconfHandle, err: Option<ZeroconfRegister.Failure>)
    ensures fresh(handle) && handle.Valid()
    ensures err == RegistrationError(localIp, daemonFails)
    ensures err.None? ==> Advertises(cfg, handle, localIp)
  {
    handle, err := ZeroconfRegister.RegisterService(cfg.mdnsOrchestratorName, cfg.mdnsTypeOrchestrator, cfg.orchestratorPort,
                                                    Some(MdnsProperties(cfg)), Some(localIp), Some(localIp), daemonFails);
  }

  // ---------------------------------------------------------------------------
  // The runtime object.

  class OrchestratorRuntime {
    const cfg: Config
    var yoloProcess: ChildProcess?
    var zeroconfHandle: ZeroconfRegister.ZeroconfHandle?
    var eventsClient: EventsClient.DetectionEventsClient?
    var eventLog: seq<map<string, Json>>
    var lastDetection: Option<map<string, Json>>
    var cooldown: int
    var clock: int
    var sent: seq<Sent>
    /** `_shutdown.is_set()`. */
    var shutdown: bool

    predicate Valid()
      reads this, zeroconfHandle
    {
      && IsAscii(cfg.reverseDurationText)
      && Sane(cfg, State())
      && WellSent(cfg, sent)
      && (zeroconfHandle != null ==> zeroconfHandle.Valid())
    }

    function State(): Runtime
      reads this
    {
      Runtime(eventLog, lastDetection, cooldown, clock, sent)
    }

    /** `__init__`: no process, handle or client; an empty log; the cooldown stamp at 0. */
    constructor (cfg: Config, clock: int)
      requires IsAscii(cfg.reverseDurationText) && clock >= 0
      ensures Valid() && this.cfg == cfg
      ensures State() == Runtime([], None, 0, clock, [])
      ensures yoloProcess == null && zeroconfHandle == null && eventsClient == null && !shutdown
    {
      this.cfg := cfg;
      yoloProcess := null;
      zeroconfHandle := null;
      eventsClient := null;
      eventLog := [];
      lastDetection := None;
      cooldown := 0;
      this.clock := clock;
      sent := [];
      shutdown := false;
    }

    /** `_execute_safety_sequence` at the current clock; `ran` says whether the cooldown let it through. */
    method ExecuteSafetySequence(fault: nat -> SerialFault) returns (ran: bool)
      requires Valid()
      modifies this
      ensures Valid()
      ensures State() == SafetySequence(cfg, old(State()), old(clock), fault)
      ensures ran <==> Ready(cfg, old(State()), old(clock))
      ensures yoloProcess == old(yoloProcess) && zeroconfHandle == old(zeroconfHandle)
      ensures eventsClient == old(eventsClient) && shutdown == old(shutdown)
    {
      SequenceIsWellSent(cfg, State(), clock, fault);
      var now := clock;
      if now - cooldown < cfg.reverseDurationMs {
        return false;
      }
      sent := sent + [Sent(StopCmd, SerialStop.Send(cfg, fault(|sent|)))];
      clock := clock + cfg.stopToReverseMs;
      sent := sent + [Sent(ReverseCmd(SerialReverse.DefaultSpeed, cfg.reverseDurationText),
                           SerialReverse.Send(cfg, fault(|sent|), duration := cfg.reverseDurationText))];
      cooldown := clock;
      if cfg.resumeWithForward {
        clock := clock + cfg.forwardResumeMs;
        sent := sent + [Sent(ForwardCmd(SerialForward.DefaultSpeed), SerialForward.Send(cfg, fault(|sent|)))];
      }
      ran := true;
    }

    /** `_handle_event` for a decoded event arriving at `arrival`. */
    method HandleEvent(event: Json, arrival: int, fault: nat -> SerialFault) returns (outcome: EventOutcome)
      requires Valid()
      modifies this
      ensures Valid()
      ensures (outcome, State()) == HandleEventSpec(cfg, old(State()), event, arrival, fault)
      ensures yoloProcess == old(yoloProcess) && zeroconfHandle == old(zeroconfHandle)
      ensures eventsClient == old(eventsClient) && shutdown == old(shutdown)
    {
      clock := Max(clock, arrival);
      if !event.JObj? {
        return Raised;
      }
      if Get(event.fields, "type") != Some(JStr("detection")) {
        return Ignored;
      }
      var p := Get(event.fields, "payload");
      var payload: map<string, Json>;
      if p.None? || !Truthy(p.value) {
        payload := map[];
      } else if !p.value.JObj? {
        return Raised;
      } else {
        payload := p.value.fields;
      }
      var lbl := Get(payload, "label");
      if lbl.None? || !Truthy(lbl.value) {
        return Ignored;
      }
      lastDetection := Some(payload);
      eventLog := PushFront(eventLog, payload, cfg.maxEventLogSize);
      if !Hashable(lbl.value) {
        return Raised;
      }
      if lbl.value.JStr? && lbl.value.s in cfg.watchClasses {
        var ran := ExecuteSafetySequence(fault);
        return Handled(ran);
      }
      outcome := Handled(false);
    }

    /** `_launch_yolo_server`: a running child is kept; otherwise a new one is started with the uvicorn command. */
    method LaunchYoloServer(executable: string)
      requires Valid()
      modifies this
      ensures Valid()
      ensures old(yoloProcess) != null && !old(yoloProcess.exited) ==> yoloProcess == old(yoloProcess)
      ensures !(old(yoloProcess) != null && !old(yoloProcess.exited)) ==>
        yoloProcess != null && fresh(yoloProcess) && yoloProcess.command == YoloCommand(cfg, executable)
        && !yoloProcess.exited && yoloProcess.signals == []
      ensures zeroconfHandle == old(zeroconfHandle) && eventsClient == old(eventsClient)
      ensures State() == old(State()) && shutdown == old(shutdown)
    {
      if yoloProcess != null && !yoloProcess.exited {
        return;
      }
      yoloProcess := new ChildProcess(YoloCommand(cfg, executable));
    }

    /** `_wait_for_yolo_health(timeout)`; `rounds(k)` is what the k-th round observes. */
    method WaitForYoloHealth(rounds: nat -> Round, timeout: int := HealthTimeoutMs) returns (h: Health)
      requires Valid() && (yoloProcess != null ==> !yoloProcess.exited)
      modifies this, yoloProcess
      ensures Valid() && clock >= old(clock)
      ensures (h, clock) == HealthSpec(cfg, old(yoloProcess) != null, old(clock), old(clock), 0, rounds, timeout)
      ensures yoloProcess == old(yoloProcess)
      ensures yoloProcess != null ==> yoloProcess.exited == (h == ProcessExited) && yoloProcess.signals == old(yoloProcess.signals)
      ensures zeroconfHandle == old(zeroconfHandle) && eventsClient == old(eventsClient)
      ensures eventLog == old(eventLog) && lastDetection == old(lastDetection) && cooldown == old(cooldown)
      ensures sent == old(sent) && shutdown == old(shutdown)
    {
      var start := clock;
      var k: nat := 0;
      while clock - start < timeout
        invariant clock >= start
        invariant HealthSpec(cfg, yoloProcess != null, start, clock, k, rounds, timeout)
          == HealthSpec(cfg, yoloProcess != null, start, start, 0, rounds, timeout)
        invariant yoloProcess == old(yoloProcess) && (yoloProcess != null ==> !yoloProcess.exited)
        invariant yoloProcess != null ==> yoloProcess.signals == old(yoloProcess.signals)
        invariant zeroconfHandle == old(zeroconfHandle) && eventsClient == old(eventsClient)
        invariant eventLog == old(eventLog) && lastDetection == old(lastDetection) && cooldown == old(cooldown)
        invariant sent == old(sent) && shutdown == old(shutdown)
        decreases timeout - (clock - start)
      {
        var r := rounds(k);
        if yoloProcess != null && r.exited {
          yoloProcess.exited := true;
          return ProcessExited;
        }
        clock := clock + r.probeMs;
        if r.probe == Status(200) {
          return Healthy;
        }
        clock := clock + PollSleepMs;
        k := k + 1;
      }
      h := TimedOut(DetectorUrl(cfg, "/health"));
    }

    /** `_terminate_process(process)`: nothing for an exited child; else SIGTERM, and SIGKILL when the grace period runs out. */
    method TerminateProcess(process: ChildProcess, exitsInGrace: bool)
      modifies process
      ensures process.exited
      ensures old(process.exited) ==> process.signals == old(process.signals)
      ensures !old(process.exited) ==>
        process.signals == old(process.signals) + (if exitsInGrace then [Terminate] else [Terminate, Kill])
    {
      if process.exited {
        return;
      }
      process.signals := process.signals + [Terminate];
      if !exitsInGrace {
        process.signals := process.signals + [Kill];
      }
      process.exited := true;
    }

    /** `_start_event_client`: a client for the detector's `/events` stream, started. */
    method StartEventClient()
      requires Valid()
      modifies this
      ensures Valid()
      ensures eventsClient != null && fresh(eventsClient)
      ensures eventsClient.url == DetectorUrl(cfg, "/events")
      ensures eventsClient.hasThread && !eventsClient.stopSet && eventsClient.spawned == 1
      ensures yoloProcess == old(yoloProcess) && zeroconfHandle == old(zeroconfHandle)
      ensures State() == old(State()) && shutdown == old(shutdown)
    {
      var c := new EventsClient.DetectionEventsClient(DetectorUrl(cfg, "/events"));
      c.Start(false);
      eventsClient := c;
    }

    /** The first half of `start()`: launch the detector if needed, then wait for its health endpoint. */
    method StartDetector(executable: string, rounds: nat -> Round) returns (h: Health)
      requires Valid()
      modifies this, yoloProcess
      ensures Valid() && yoloProcess != null
      ensures h == HealthSpec(cfg, true, old(clock), old(clock), 0, rounds, HealthTimeoutMs).0
      ensures zeroconfHandle == old(zeroconfHandle) && eventsClient == old(eventsClient)
      ensures eventLog == old(eventLog) && lastDetection == old(lastDetection) && cooldown == old(cooldown)
      ensures sent == old(sent) && shutdown == old(shutdown)
    {
      LaunchYoloServer(executable);
      h := WaitForYoloHealth(rounds);
    }

    /** The second half of `start()`: start the event client, then register over mDNS. */
    method StartServices(localIp: string, daemonFails: bool) returns (err: Option<ZeroconfRegister.Failure>)
      requires Valid()
      modifies this
      ensures Valid()
      ensures eventsClient != null && fresh(eventsClient) && eventsClient.url == DetectorUrl(cfg, "/events") && eventsClient.hasThread
      ensures err == RegistrationError(localIp, daemonFails)
      ensures err.None? ==> zeroconfHandle != null && fresh(zeroconfHandle) && Advertises(cfg, zeroconfHandle, localIp)
      ensures err.Some? ==> zeroconfHandle == old(zeroconfHandle)
      ensures yoloProcess == old(yoloProcess) && State() == old(State()) && shutdown == old(shutdown)
    {
      StartEventClient();
      var handle;
      handle, err := RegisterOrchestrator(cfg, localIp, daemonFails);
      if err.None? {
        zeroconfHandle := handle;
      }
    }

    /**
     * `start()`: launch, wait for health, start the event client, register
     * over mDNS. A step that raises ends `start()`: nothing after it runs.
     */
    method Start(executable: string, rounds: nat -> Round, localIp: string, daemonFails: bool) returns (outcome: StartOutcome)
      requires Valid()
      modifies this, yoloProcess
      ensures Valid() && yoloProcess != null
      ensures var h := HealthSpec(cfg, true, old(clock), old(clock), 0, rounds, HealthTimeoutMs).0;
        outcome == if h != Healthy then HealthFailed(h)
                   else if RegistrationError(localIp, daemonFails).Some? then MdnsFailed(RegistrationError(localIp, daemonFails).value)
                   else Started
      ensures outcome.HealthFailed? ==> eventsClient == old(eventsClient) && zeroconfHandle == old(zeroconfHandle)
      ensures !outcome.HealthFailed? ==> eventsClient != null && fresh(eventsClient) && eventsClient.url == DetectorUrl(cfg, "/events")
      ensures outcome.MdnsFailed? ==> zeroconfHandle == old(zeroconfHandle)
      ensures outcome == Started ==> zeroconfHandle != null && fresh(zeroconfHandle) && Advertises(cfg, zeroconfHandle, localIp)
      ensures eventLog == old(eventLog) && lastDetection == old(lastDetection) && cooldown == old(cooldown)
      ensures sent == old(sent) && shutdown == old(shutdown)
    {
      var h := StartDetector(executable, rounds);
      if h != Healthy {
        return HealthFailed(h);
      }
      var err := StartServices(localIp, daemonFails);
      if err.Some? {
        return MdnsFailed(err.value);
      }
      outcome := Started;
    }

    /**
     * `stop()`: set the shutdown flag, stop and drop the event client, close
     * and drop the mDNS handle, terminate and drop the detector process. When
     * closing the handle raises, `stop()` raises there: the handle is kept and
     * the process is left running.
     */
    method Stop(daemonFails: bool, exitsInGrace: bool) returns (err: Option<ZeroconfRegister.Failure>)
      requires Valid()
      modifies this, eventsClient, zeroconfHandle, yoloProcess
      ensures Valid()
      ensures shutdown && eventsClient == null
      ensures old(eventsClient) != null ==> old(eventsClient).stopSet
      ensures err.Some? <==> old(zeroconfHandle) != null && old(zeroconfHandle.info).Some? && daemonFails
      ensures err.Some? ==> zeroconfHandle == old(zeroconfHandle) && yoloProcess == old(yoloProcess)
      ensures err.Some? && yoloProcess != null ==> yoloProcess.exited == old(yoloProcess.exited) && yoloProcess.signals == old(yoloProcess.signals)
      ensures err.None? ==> zeroconfHandle == null && yoloProcess == null
      ensures err.None? && old(yoloProcess) != null ==> old(yoloProcess).exited
      ensures err.None? && old(yoloProcess) != null && !old(yoloProcess.exited) ==>
        old(yoloProcess).signals == old(yoloProcess.signals) + (if exitsInGrace then [Terminate] else [Terminate, Kill])
      ensures old(zeroconfHandle) != null ==> |old(zeroconfHandle).calls| >= 1 && old(zeroconfHandle).calls[|old(zeroconfHandle).calls| - 1] == ZeroconfRegister.CloseCall
      ensures State() == old(State())
    {
      shutdown := true;
      if eventsClient != null {
        eventsClient.Stop();
        eventsClient := null;
      }
      err := None;
      if zeroconfHandle != null {
        err := zeroconfHandle.Close(daemonFails);
        if err.Some? {
          return;
        }
        zeroconfHandle := null;
      }
      if yoloProcess != null {
        TerminateProcess(yoloProcess, exitsInGrace);
        yoloProcess := null;
      }
    }
  }

  /** A second `stop()` finds nothing left to tear down and raises nothing. */
  method StopTwice(rt: OrchestratorRuntime, daemonFails: bool, exitsInGrace: bool) returns (first: Option<ZeroconfRegister.Failure>, second: Option<ZeroconfRegister.Failure>)
    requires rt.Valid()
    modifies rt, rt.eventsClient, rt.zeroconfHandle, rt.yoloProcess
    ensures first.None? ==> second.None? && rt.eventsClient == null && rt.zeroconfHandle == null && rt.yoloProcess == null
  {
    first := rt.Stop(daemonFails, exitsInGrace);
    second := rt.Stop(daemonFails, exitsInGrace);
  }
}
