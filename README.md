# train_shunting, modelled in Dafny

train_shunting drives a model train away from obstacles. A detector process (`backend/yolo_server.py`) watches a camera. It broadcasts a server-sent event for the most confident watched object in each inference pass. An orchestrator (`orchestrator/main.py`) does four things:

- it launches the detector and waits for its health endpoint;
- it consumes the event stream (`orchestrator/events_client.py`);
- it answers a watched label with a cooldown-gated safety sequence on the serial line to the controller: `STOP`, then `REV:<speed>:<duration>`, then optionally `FWD:<speed>` (`serial_cmds/`);
- it advertises itself over mDNS (`backend/utils/zeroconf_register.py`).

Small helpers cover the rest: configuration parsing, serial-port choice, service discovery, the `/_discover` body and a PID-registry stopper.

The Dafny project models each of these files as one module. The file names follow the source.

- **Pure code** becomes datatypes, functions and lemmas: configuration, address parsing, framing, selection, camera-source parsing and line formats.
- **Code that mutates state** becomes classes with `modifies` frames: `OrchestratorRuntime`, `DetectionState`, `ZeroconfHandle`, `DetectionEventsClient` and the child process.
- **Loops** become methods proved against a specification function: the SSE run loop, the health wait, the detection loop, the stop-all registry loop and the mDNS callback loop.

What the program cannot see is passed in as a parameter:

- **Time** is an integer clock in milliseconds. Sleeps advance it and serial sends take no time.
- **Each orchestrator event** is handled at `max(clock, arrival)`. The SSE reader thread runs the handler, so an event that arrives during a sequence's sleeps waits for the sequence to finish.
- **Serial failures** come from an oracle, indexed by the number of sends so far.
- **Other outside answers** are inputs: health probes, process exits, the UDP probe of `detect_local_ip`, zeroconf daemon failures, browse events, kernel answers to `os.kill`, and the model's boxes. JSON decoding is an abstract partial function.

Shared modules:

- `Wrappers`: Option.
- `Text`: Python's `str` methods (`strip`, `split`, `lower`, `splitlines`) and decimal rendering, each with its round-trip lemmas.
- `Json`: values and Python truthiness.
- `Utf8`: UTF-8 encoding with a decoder proved to invert it.
- `Bytes`: ASCII encoding.

## Behaviour of the code worth knowing

- **The cooldown is stamped after the stop-to-reverse sleep.** The code sets `_serial_cooldown = time.time()` only after sleeping between STOP and REV (`orchestrator/main.py:151-153`). With the default delays, the run person@0 s, person@0.2 s, bottle@0.3 s, person@2.0 s therefore triggers one safety sequence: the last event is handled 1.0 s after the stamp, inside the 1.5 s cooldown. `Orchestrator.FourEventRunHasOneSequence` proves this.
- **A failed close stays registered.** `ZeroconfHandle.close` drops `_info` only when `unregister_service` returns (`backend/utils/zeroconf_register.py:69-81`). When the daemon raises, the handle stays registered. The daemon is closed either way.
- **`stop()` stops at a failed close.** `OrchestratorRuntime.stop` does not catch a failing `close()` (`orchestrator/main.py:68-70`). The exception ends `stop()`: the handle is kept and the detector process is not terminated. `DetectionState.close` behaves the same way.
- **SSE framing.** The client frames the stream itself. Compared with the event-stream format of section 9.2.6 of the WHATWG HTML Living Standard, it differs in three ways:
  - it strips each `data:` value on both sides;
  - it joins the values with no separator instead of a line feed;
  - it ignores every other field.
- **`scripts/stop_all.py` stops at the first failing `os.kill`.** `stop_process` catches only `ProcessLookupError`, and only around SIGTERM and the probe (`scripts/stop_all.py:14-23`). A `PermissionError` there, or any error at SIGKILL, ends `main()`: the later entries are not signalled and the registry file is not removed.
- **`orchestrator/mdns_discover.py` has a stray header.** Line 4 is a `def` header with no body, so the file does not parse as written. The function at lines 14-40 is the one modelled.

## Model

| member | source | states |
|---|---|---|
| Orchestrator.PushFront | orchestrator/main.py:50 | `appendleft` on the bounded log never takes it past `MAX_EVENT_LOG_SIZE` |
| Orchestrator.PushAllKeepsNewest | orchestrator/main.py:139 | a sequence of `appendleft`s leaves the new payloads newest first, followed by the old log, cut at the bound |
| Orchestrator.EventLogIsNewestPayloads | orchestrator/main.py:139 | started empty, the log is exactly the most recent `maxLen` payloads, newest first; its head is the last payload received |
| Orchestrator.ReadEvent | orchestrator/main.py:131-136 | a payload is read only from a `"detection"` event, is its `"payload"` dict, and carries a truthy label |
| Orchestrator.IgnoredEventsChangeNothing | orchestrator/main.py:130-136 | the handler ignores an event exactly when it has no detection type or no truthy label; the log, the last detection, the cooldown and the sends then stay the same |
| Orchestrator.RaisedExactlyWhenHandlerRaises | orchestrator/main.py:130-140 | the handler raises exactly in these cases: the event is not a dict; a truthy payload is not a dict; a truthy label is a list or a dict |
| Orchestrator.LabelledEventsAreLogged | orchestrator/main.py:138-139 | every labelled payload becomes `last_detection` and the head of the log, watched or not; nothing else touches them |
| Orchestrator.HandlingKeepsInvariant | orchestrator/main.py:130-156 | handling an event keeps the log bounded and the cooldown stamp no later than the clock; every send used the configured port and baud and wrote its command's ASCII line; the clock and the stamp never go back |
| Orchestrator.SequenceIsWellSent | orchestrator/main.py:150-156 | each exchange of a sequence went to the configured port and baud, and a successful one wrote the command's exact bytes |
| Orchestrator.StopLineBytes | serial_cmds/stop.py:18 | the STOP command is the ASCII bytes `S T O P \n` |
| Orchestrator.SequenceRunsExactlyWhenDue | orchestrator/main.py:140-156 | a sequence runs exactly when the label is a watched string and `now - cooldown >= REVERSE_DURATION`; it then appends exactly STOP, REV(80, duration) and, when resuming, FWD(100), whatever the line does; otherwise nothing is sent and the stamp is unchanged |
| Orchestrator.CooldownStampedAfterStop | orchestrator/main.py:150-155 | after a sequence the stamp is `now + STOP_TO_REVERSE_DELAY`, and the clock has passed the forward delay when resuming |
| Orchestrator.NoSecondSequenceWithinCooldown | orchestrator/main.py:143-153 | after a sequence, an event handled less than `REVERSE_DURATION` after the stamp sends nothing and leaves the stamp |
| Orchestrator.ReadDetectionOf | orchestrator/main.py:131-136 | a detection event with a non-empty string label reads as that payload and label |
| Orchestrator.DefaultsHaveDefaultTiming | backend/detection_config.py:13-51 | the default configuration watches person and bottle, has delays of 1000/1500/1000 ms, resumes forward, and keeps a log of 100 |
| Orchestrator.FirstPersonTriggers | orchestrator/main.py:143-156 | from a cold start, a person event runs STOP, REV(80,"1.5"), FWD(100), stamps the cooldown 1000 ms later and ends 2000 ms later |
| Orchestrator.WatchedEventInCooldownDropped | orchestrator/main.py:138-148 | a watched event inside the default cooldown sends nothing and keeps the stamp, but is still logged |
| Orchestrator.FourEventRunHasOneSequence | orchestrator/main.py:143-156 | person@0, person@200, bottle@300 and person@2000 ms send exactly one STOP, REV, FWD and log all four payloads |
| Orchestrator.YoloCommand | orchestrator/main.py:82-91 | the launch command has eight arguments and starts with the interpreter |
| Orchestrator.YoloCommandNamesServer | orchestrator/main.py:82-91 | the command passes `--host` with the configured host and `--port` with text that parses back to the configured port |
| Orchestrator.FirstDecisiveRoundDecides | orchestrator/main.py:99-110 | when round `j` is the first polled round to see a watched exit or a 200, and it starts before the deadline, the wait raises `RuntimeError` if that round saw a watched exit (the exit is checked first) and returns otherwise; it ends at the start clock plus each earlier round's probe time and one-second sleep, plus round `j`'s probe time when it returns |
| Orchestrator.HealthyMeansProbeAnswered | orchestrator/main.py:99-110 | a wait that does not time out was decided by a round that started before the deadline, after rounds that saw neither a watched exit nor a 200, with that round's outcome and clock |
| Orchestrator.HealthFailuresAreJustified | orchestrator/main.py:96-111 | `RuntimeError` only for a watched process that exited; `TimeoutError` only once the timeout has elapsed, with the `/health` URL, and only when no round that started before the deadline saw a watched exit or a 200; the clock never goes back |
| Orchestrator.NoDecisiveRoundTimesOut | orchestrator/main.py:99-111 | when no round that starts before the deadline sees a watched exit or a 200, the wait raises `TimeoutError` with the `/health` URL after the timeout has elapsed |
| Orchestrator.ImmediateAnswerIsHealthy | orchestrator/main.py:99-107 | a first probe answering 200 from a live process ends the wait at once |
| Orchestrator.MdnsPropertiesNameDetector | orchestrator/main.py:166 | the properties are exactly `path` = "/" and `detector` = host, ':', and text that parses back to the detector port |
| Orchestrator.RegisterOrchestrator | orchestrator/main.py:160-168 | the registration fails on a non-IPv4 local address, then on a daemon error; on success the handle advertises the orchestrator's name, type, port and properties at the local address |
| Orchestrator.ChildProcess.constructor | orchestrator/main.py:94 | a new child runs the given command, has not exited and has been sent no signal |
| Orchestrator.OrchestratorRuntime.constructor | orchestrator/main.py:46-54 | there is no process, handle or client, the log is empty, and the cooldown stamp is 0 |
| Orchestrator.OrchestratorRuntime.ExecuteSafetySequence | orchestrator/main.py:143-156 | the new state is the cooldown-gated sequence at the current clock; `ran` holds exactly when the cooldown had elapsed; the handles are unchanged |
| Orchestrator.OrchestratorRuntime.HandleEvent | orchestrator/main.py:130-141 | the outcome and the new state are the handler's specification, under the runtime invariant |
| Orchestrator.OrchestratorRuntime.LaunchYoloServer | orchestrator/main.py:78-94 | a running child is kept; otherwise a fresh child runs the uvicorn command |
| Orchestrator.OrchestratorRuntime.WaitForYoloHealth | orchestrator/main.py:96-111 | the polling loop ends with the outcome and clock of the health specification; the child is marked exited exactly when the wait failed for that reason |
| Orchestrator.OrchestratorRuntime.TerminateProcess | orchestrator/main.py:113-121 | an exited child gets no signal; otherwise SIGTERM, then SIGKILL only when it outlives the grace period |
| Orchestrator.OrchestratorRuntime.StartEventClient | orchestrator/main.py:125-128 | a fresh client for `http://host:port/events` has started its run loop |
| Orchestrator.OrchestratorRuntime.StartDetector | orchestrator/main.py:58-59 | a detector process exists, and the outcome is the health wait's, with a 45 s timeout |
| Orchestrator.OrchestratorRuntime.StartServices | orchestrator/main.py:60-61 | the event client is started, then the registration is stored only if it succeeded |
| Orchestrator.OrchestratorRuntime.Start | orchestrator/main.py:56-61 | a failed health wait stops the start before the client and registration; a failed registration leaves no handle; otherwise the runtime advertises itself |
| Orchestrator.OrchestratorRuntime.Stop | orchestrator/main.py:63-74 | `stop()` sets shutdown and stops and drops the client; it raises exactly when closing a registered handle fails, keeping the handle and the process; otherwise the handle is closed and dropped and the child is terminated and dropped |
| Orchestrator.StopTwice | orchestrator/main.py:63-74 | after a `stop()` that did not raise, a second one raises nothing and leaves nothing to tear down |
| EventsClient.Run | orchestrator/events_client.py:38-60 | the reconnect loop produces exactly the run specification's deliveries and sleeps, starting at the base backoff |
| EventsClient.ReadStream | orchestrator/events_client.py:46-55 | the line loop dispatches exactly the frames the framing rule cuts, in order, and stops at the first callback that raises |
| EventsClient.FramesOfStream | orchestrator/events_client.py:46-55 | events written as non-blank lines plus one blank line come back as one frame each, lines joined by "\n", in order |
| EventsClient.FramesOfEvent | orchestrator/events_client.py:50-55 | non-blank lines accumulate, and the next blank line flushes the whole buffer as one frame |
| EventsClient.TrailingLinesAreDropped | orchestrator/events_client.py:46-55 | lines still buffered when a stream ends are never dispatched |
| EventsClient.BlankLineWithEmptyBuffer | orchestrator/events_client.py:50-54 | a blank line with nothing buffered dispatches nothing |
| EventsClient.DispatchOfDataLines | orchestrator/events_client.py:62-70 | a frame of `data:` lines decodes the values, stripped and concatenated with no separator |
| EventsClient.OtherLinesIgnored | orchestrator/events_client.py:64-66 | a line not starting with `data:` contributes nothing |
| EventsClient.UndeliveredFrameSkipped | orchestrator/events_client.py:67-73 | a frame without data lines, or whose data fails to decode, calls nothing and raises nothing |
| EventsClient.DeliveriesConcat | orchestrator/events_client.py:47-52 | the callback gets the frames' payloads in stream order, and nothing after one that raised |
| EventsClient.FailuresFollowSchedule | orchestrator/events_client.py:57-60 | consecutive failing connections sleep exactly B, min(2B,30 s), … and deliver nothing |
| EventsClient.ScheduleClosedForm | orchestrator/events_client.py:57-60 | the k-th sleep of that schedule is min(B·2^k, 30 s) |
| EventsClient.SleepsWithinCap | orchestrator/events_client.py:57-60 | no sleep ever exceeds 30 s when the base does not |
| EventsClient.CompletedStreamResets | orchestrator/events_client.py:56 | after a stream completes, the run no longer depends on the backoff before it |
| EventsClient.CompletedStreamResetsToBase | orchestrator/events_client.py:56 | a completed stream delivers its events, does not sleep, and the run goes on from `SSE_BACKOFF_SEC` |
| EventsClient.FailedAttemptDoubles | orchestrator/events_client.py:57-60 | a failed connection delivers its events, sleeps the current backoff, and the run goes on from twice it, capped at 30 s |
| EventsClient.CompletedThenFailures | orchestrator/events_client.py:56-60 | a completed stream followed by `n` failed connections sleeps the doubling schedule that starts at `SSE_BACKOFF_SEC` |
| EventsClient.DeliveriesHaveNoSleep | orchestrator/events_client.py:47-55 | reading a stream never sleeps |
| EventsClient.DetectionEventsClient.constructor | orchestrator/events_client.py:20-24 | a new client has no thread and its stop flag is clear |
| EventsClient.DetectionEventsClient.Start | orchestrator/events_client.py:26-31 | a live thread is kept and no second loop is spawned; otherwise the flag is cleared and one loop is spawned |
| EventsClient.DetectionEventsClient.Stop | orchestrator/events_client.py:33-36 | `stop()` sets the stop flag and changes nothing else |
| YoloServer.ParseCameraSource | backend/yolo_server.py:47-53 | an all-digit source is the device index it spells; any other source is kept as given |
| YoloServer.CameraIndexRoundTrip | backend/yolo_server.py:47-53 | `str(n)` reads back as device `n` |
| YoloServer.ResolveLabel | backend/yolo_server.py:184 | the label is the `names` entry when there is one, otherwise the decimal class index |
| YoloServer.BoxCandidatesAreWatchedBoxes | backend/yolo_server.py:182-194 | a box yields a detection exactly when its label is watched; the detection carries the box's fields and `now` |
| YoloServer.CandidatesAreWatched | backend/yolo_server.py:177-194 | every candidate over all result sets is watched and stamped with `now` |
| YoloServer.CollectDetections | backend/yolo_server.py:177-194 | the nested loops build exactly the candidate list, skipping results without boxes |
| YoloServer.SelectTop | backend/yolo_server.py:196-197 | `max` by confidence picks the first detection of greatest confidence |
| YoloServer.InferenceIsPaced | backend/yolo_server.py:170-174 | inference runs are at least the capture interval apart, the first at least that long after `last_emit` = 0 |
| YoloServer.TopsAreWatched | backend/yolo_server.py:155-200 | every recorded top is a watched detection stamped with an inference time |
| YoloServer.PushedTwice | backend/yolo_server.py:112-119 | successive broadcasts queue their payloads in broadcast order |
| YoloServer.PushedNothing | backend/yolo_server.py:112-119 | broadcasting nothing changes no queue |
| YoloServer.RemoveFirstOfDistinct | backend/yolo_server.py:107-110 | removing a subscriber drops exactly that one and keeps the list duplicate-free |
| YoloServer.LatestOfAppend | backend/yolo_server.py:199 | the last recorded top is the last detection |
| YoloServer.EventName | backend/yolo_server.py:277 | the event is named by the payload's "type", or "message" when it has none |
| YoloServer.SseEvents | backend/yolo_server.py:275-277 | one event per queued payload, in queue order, carrying the payload |
| YoloServer.DetectionEventName | backend/yolo_server.py:200 | a detection broadcast is published as a "detection" event carrying the top |
| YoloServer.DetectionState.constructor | backend/yolo_server.py:59-68 | no subscribers, no loop, no detection, no handle, and the stop flag is clear |
| YoloServer.DetectionState.SetEventLoop | backend/yolo_server.py:70-71 | the loop is set and nothing else changes |
| YoloServer.DetectionState.UpdateDetection | backend/yolo_server.py:97-99 | `last_detection` becomes the payload and nothing else changes |
| YoloServer.DetectionState.RegisterQueue | backend/yolo_server.py:101-105 | a fresh, empty queue is appended to the subscribers |
| YoloServer.DetectionState.UnregisterQueue | backend/yolo_server.py:107-110 | the queue is removed if listed and nothing happens otherwise; the other subscribers are unchanged |
| YoloServer.DetectionState.Broadcast | backend/yolo_server.py:112-119 | the payload is appended to every queue of the snapshot and to no other; without an event loop nothing is delivered; the subscribers are unchanged |
| YoloServer.DetectionState.Close | backend/yolo_server.py:121-128 | the stop flag is set, the handle is closed and then forgotten, and a failing close leaves it set |
| YoloServer.DetectionState.EventPublisher | backend/yolo_server.py:273-281 | a client reading `n` events gets the first `n` queued payloads, named and in order; its queue is then unregistered |
| YoloServer.DetectionState.DetectionLoop | backend/yolo_server.py:155-200 | the loop infers at exactly the paced times; it records the last top as `last_detection` and broadcasts each top once, in order |
| YoloServer.DetectionState.HandleTick | backend/yolo_server.py:162-200 | one pass skips failed reads and early frames; otherwise it records and broadcasts the top detection, or nothing when no watched object is seen |
| ZeroconfRegister.DetectLocalIp | backend/utils/zeroconf_register.py:28-36 | the probe's address, or "127.0.0.1" on `OSError` |
| ZeroconfRegister.ChooseAddress | backend/utils/zeroconf_register.py:57 | a non-empty given address is used; otherwise `detect_local_ip()` is |
| ZeroconfRegister.ParseOctet | backend/utils/zeroconf_register.py:22-25 | an accepted octet is 1-3 digits, with no leading zero, spelling its value |
| ZeroconfRegister.AddressBytes | backend/utils/zeroconf_register.py:22-25 | accepted IPv4 text packs to exactly four bytes |
| ZeroconfRegister.AddressBytesOfDotted | backend/utils/zeroconf_register.py:22-25 | every four bytes, written dotted-quad, pack back to themselves |
| ZeroconfRegister.DottedOfAddressBytes | backend/utils/zeroconf_register.py:22-25 | accepted text is exactly the dotted-quad of its bytes, in network order |
| ZeroconfRegister.EncodeProperties | backend/utils/zeroconf_register.py:58 | the TXT map has the same keys, and no properties give an empty map |
| ZeroconfRegister.EncodedPropertiesDecode | backend/utils/zeroconf_register.py:58 | every encoded value UTF-8-decodes back to its text |
| ZeroconfRegister.BuildInfo | backend/utils/zeroconf_register.py:57-65 | the record has the service type, the name `name.type`, the port, one address whose dotted text is the address, and the encoded properties; a non-IPv4 address raises |
| ZeroconfRegister.ZeroconfHandle.constructor | backend/utils/zeroconf_register.py:49-51 | a new handle has its fields, no record and a fresh daemon |
| ZeroconfRegister.ZeroconfHandle.Register | backend/utils/zeroconf_register.py:53-67 | a registered handle does nothing; otherwise the record is stored and registered; a daemon error leaves it stored |
| ZeroconfRegister.ZeroconfHandle.Unregister | backend/utils/zeroconf_register.py:69-74 | an unregistered handle does nothing; otherwise the record is unregistered and then dropped, and kept when the daemon raises |
| ZeroconfRegister.ZeroconfHandle.Close | backend/utils/zeroconf_register.py:76-81 | unregistering is followed by closing the daemon, always |
| ZeroconfRegister.RegisterService | backend/utils/zeroconf_register.py:87-91 | the returned handle has already registered its record |
| MdnsDiscover.Record | orchestrator/mdns_discover.py:27-31 | the result has exactly the keys name, port and addresses |
| MdnsDiscover.RecordReadsBack | orchestrator/mdns_discover.py:28-31 | the port text parses back to the port, and comma-free addresses split back out |
| MdnsDiscover.DiscoverFirst | orchestrator/mdns_discover.py:14-40 | the callback loop finds the first added event that resolves and looks up each added name until then; the daemon is always closed |
| MdnsDiscover.FirstResolvedIsFirst | orchestrator/mdns_discover.py:20-32 | nothing is found exactly when no added event resolves; otherwise the result is the first such event's record |
| MdnsDiscover.LaterEventsIgnored | orchestrator/mdns_discover.py:22 | once a service is found, later events never overwrite it |
| MdnsDiscover.OnlyAddedCounts | orchestrator/mdns_discover.py:22 | non-`Added` changes set nothing and trigger no lookup |
| MdnsDiscover.UnresolvedAddIsSkipped | orchestrator/mdns_discover.py:23-25 | an added event that does not resolve records nothing, so a later one can win |
| DetectionConfig.WatchClassesAreClean | backend/detection_config.py:13-17 | no watched label is empty or has whitespace at either end |
| DetectionConfig.WatchClassesArePieces | backend/detection_config.py:13-17 | a label is watched exactly when it is the strip of a non-blank comma-separated piece |
| DetectionConfig.DefaultWatchSet | backend/detection_config.py:15 | unset, the watch set is exactly {person, bottle} |
| DetectionConfig.ResumeWithForwardCases | backend/detection_config.py:46 | the flag is true exactly for "1", or "true"/"yes" in any ASCII case |
| DetectionConfig.ResumeWithForwardExamples | backend/detection_config.py:46 | unset means true; "YES" is true; a padded " true" and "on" are false |
| SerialDiscovery.EffectiveHints | backend/serial_discovery.py:39-40 | a missing or empty hint list becomes the defaults; a non-empty one is kept |
| SerialDiscovery.FirstPortMatchingIsFirst | backend/serial_discovery.py:43-45 | the inner loop returns the first port that matches the hint, and nothing when none does |
| SerialDiscovery.FirstMatchIsEarliest | backend/serial_discovery.py:42-45 | the search stops at the earliest hint that matches any port, at its first matching port |
| SerialDiscovery.ResultIsAPort | backend/serial_discovery.py:35-47 | the result is missing exactly when there are no ports, and otherwise is one of them |
| SerialDiscovery.ResultIsEarliestMatch | backend/serial_discovery.py:39-47 | the result is the earliest hint's first matching port, or the first port when nothing matches |
| SerialDiscovery.MatchIgnoresCase | backend/serial_discovery.py:44 | matching ignores ASCII letter case |
| SerialLink.ResolvePort | serial_cmds/stop.py:23 | a missing or empty port falls back to the default, and any other port is kept |
| SerialLink.ResolveBaud | serial_cmds/stop.py:24 | a missing or zero baud falls back to the default, and any other baud is kept |
| SerialLink.Transmit | serial_cmds/stop.py:26-34 | the helper returns `True` exactly when no step raised, and then wrote the whole line; otherwise it wrote all or nothing |
| SerialStop.Send | serial_cmds/stop.py:21-34 | `send` uses the resolved port and baud and reports success exactly without a `SerialException`; on success it wrote "STOP\n" |
| SerialForward.Send | serial_cmds/forward.py:21-35 | as for STOP, writing the ASCII `FWD:<speed>\n` line |
| SerialForward.FormatIsAscii | serial_cmds/forward.py:18 | the line is ASCII: "FWD:", an optional '-', digits, then a newline |
| SerialForward.ParseFormat | serial_cmds/forward.py:18 | the speed reads back from the line |
| SerialForward.DefaultLine | serial_cmds/forward.py:21 | the default speed sends "FWD:100\n" |
| SerialReverse.Send | serial_cmds/reverse.py:21-41 | as for STOP, writing the ASCII `REV:<speed>:<duration>\n` line |
| SerialReverse.FormatIsAscii | serial_cmds/reverse.py:18 | the line is ASCII when the duration text is |
| SerialReverse.ParseFormat | serial_cmds/reverse.py:18 | the speed and the duration text both read back from the line |
| SerialReverse.DefaultLine | serial_cmds/reverse.py:21 | the defaults send "REV:80:1.5\n" |
| DiscoveryHttp.Discover | backend/utils/discovery_http.py:20-24 | the body has the keys host, port and the extra keys; extra values win on collision; host and port come from the resolvers otherwise |
| StopAll.StopProcess | scripts/stop_all.py:13-23 | the signals sent are a non-empty prefix of SIGTERM, probe, SIGKILL; only SIGTERM is sent when SIGTERM is not delivered; SIGKILL is sent exactly when SIGTERM and the probe are delivered; the call raises exactly on a non-lookup error at SIGTERM or the probe, or any error at SIGKILL |
| StopAll.StopRegistered | scripts/stop_all.py:26-36 | without a registry nothing happens; otherwise the pids are stopped in registry order up to and including the first whose stop raises, and the registry is removed exactly when none raised |
| StopAll.CallsTargetRegisteredPids | scripts/stop_all.py:26-36 | every `os.kill` goes to a registered pid (at most three per pid) whose earlier entries did not raise, and SIGKILL only to a pid that took SIGTERM and the probe |

## Left out

- Threads, locks, `threading.Event`, `asyncio` and `join(timeout)` are modelled as sequential execution. The SSE reader runs the handler inline, and the stop flag is seen where the input sequence ends.
- Floating point is left out:
  - times, delays and intervals are integer milliseconds;
  - confidences are ordered integers;
  - `REVERSE_DURATION` reaches the REV line as its Python rendering, carried as text ("1.5").
- Camera capture, `update_frame` with its PNG/base64 encoding, `init_model`, `init_camera` and YOLO inference come from foreign libraries. The read result, the clock and the model's boxes are inputs of each `Tick`.
- FastAPI routes, CORS, `EventSourceResponse`, uvicorn, the `/last_frame` proxy, `/detect_once`, `/status`, `/cmd/*` and signal handlers are HTTP plumbing. The detector's own startup registration is plumbing too.
- Network and daemon I/O are left out. The `requests` probes, the UDP probe of `detect_local_ip`, zeroconf's daemon and browser, and pyserial are replaced by oracles and traces. A serial error other than `SerialException` is not modelled.
- JSON encoding and decoding are an abstract partial function. `JSONDecodeError` raised inside the callback (a nested decode) is not modelled separately.
- `Orchestrator.RegisterOrchestrator` takes the answer of `detect_local_ip()` as its `localIp` input. The handle's own fallback probe is given the same answer, because two UDP probes in a row are taken to agree.
- `Orchestrator.OrchestratorRuntime.TerminateProcess` marks the child as exited after SIGKILL. The kernel's answer to the kill is not modelled.
- IPv6 addresses and Python's Unicode-wide `isdigit`/`lower` are left out. Addresses are IPv4 dotted quads; digits and lowercase are ASCII.
- Environment and dotenv loading are left out, and so is int/float parsing of numeric variables. Only `WATCH_CLASSES` and `RESUME_WITH_FORWARD` are parsed from text; the other values are carried at their defaults in `DetectionConfig.FromEnv`.
- scripts/init_all.py is not part of this model. It is argparse, subprocess launches and PID-file writes.
- Logging is left out everywhere.
- `MdnsDiscover.DiscoverFirst`: the browse events delivered before the timeout are an input sequence. The wait's timing is not modelled.
- `EventsClient.Run`: the `session.get` timeout and `raise_for_status` are folded into each attempt's `failed` flag.
