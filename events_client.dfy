/**
 * orchestrator/events_client.py: the SSE consumer. The network is replaced
 * by the sequence of connection attempts the run loop makes, each giving the
 * lines read before the stream ended and whether it ended with a
 * `RequestException`. The end of that sequence is where the stop flag is
 * seen. JSON decoding is the partial function `decode`, and `raises` says
 * for which payloads the callback raises (which ends the thread).
 */
module EventsClient {
  import opened Wrappers
  import opened Text
  import opened Json
  import opened Numbers

  /** `min(backoff * 2, 30)`: the cap on the reconnect delay, in milliseconds. */
  const BackoffCapMs: nat := 30000

  /** What the run loop does that can be observed: sleep before reconnecting, or call `on_event`. */
  datatype Step = Sleep(ms: nat) | Deliver(payload: Json)

  /** One connection: the lines `iter_lines` yielded, and whether a `RequestException` ended it. */
  datatype Attempt = Attempt(lines: seq<string>, failed: bool)

  /** The observable steps, and whether the callback raised and ended the thread. */
  datatype Outcome = Outcome(steps: seq<Step>, crashed: bool)

  /** The values of the "data:" lines, each stripped on both sides, in order. */
  function DataPieces(lines: seq<string>): (pieces: seq<string>)
    ensures |pieces| <= |lines|
    decreases |lines|
  {
    if lines == [] then []
    else if StartsWith(lines[0], "data:") then [Strip(lines[0][5..])] + DataPieces(lines[1..])
    else DataPieces(lines[1..])
  }

  /** `_dispatch(raw)`: the payload handed to `on_event`, or `None` for no data lines or undecodable data. */
  function Dispatch(raw: string, decode: string -> Option<Json>): Option<Json> {
    var pieces := DataPieces(SplitLines(raw));
    if pieces == [] then None else decode(Join(pieces, ""))
  }

  /** The frames dispatched while reading `lines` with `buffer` already accumulated. */
  function Frames(buffer: seq<string>, lines: seq<string>): seq<string>
    decreases |lines|
  {
    if lines == [] then []
    else if lines[0] == "" then
      (if buffer != [] then [Join(buffer, "\n")] else []) + Frames([], lines[1..])
    else Frames(buffer + [lines[0]], lines[1..])
  }

  /** Dispatching frames in order; the first payload on which the callback raises ends everything. */
  function Deliveries(frames: seq<string>, decode: string -> Option<Json>, raises: Json -> bool): Outcome
    decreases |frames|
  {
    if frames == [] then Outcome([], false)
    else match Dispatch(frames[0], decode)
      case None => Deliveries(frames[1..], decode, raises)
      case Some(p) =>
        if raises(p) then Outcome([Deliver(p)], true)
        else
          var rest := Deliveries(frames[1..], decode, raises);
          Outcome([Deliver(p)] + rest.steps, rest.crashed)
  }

  /** A frame with no "data:" line, or whose data does not decode, calls nothing: the frames after it go on as if it were absent. */
  lemma UndeliveredFrameSkipped(frame: string, rest: seq<string>, decode: string -> Option<Json>, raises: Json -> bool)
    requires DataPieces(SplitLines(frame)) == [] || decode(Join(DataPieces(SplitLines(frame)), "")) == None
    ensures Dispatch(frame, decode) == None
    ensures Deliveries([frame] + rest, decode, raises) == Deliveries(rest, decode, raises)
  {
    assert ([frame] + rest)[1..] == rest;
  }

  /** Frames are dispatched in stream order: the first run's payloads, then (unless the callback raised) the second's. */
  lemma {:induction false} DeliveriesConcat(a: seq<string>, b: seq<string>, decode: string -> Option<Json>, raises: Json -> bool)
    ensures var da := Deliveries(a, decode, raises);
      Deliveries(a + b, decode, raises) == if da.crashed then da else Glue(da.steps, Deliveries(b, decode, raises))
    decreases |a|
  {
    if a == [] {
      assert a + b == b;
    } else {
      assert (a + b)[0] == a[0];
      assert (a + b)[1..] == a[1..] + b;
      DeliveriesConcat(a[1..], b, decode, raises);
      match Dispatch(a[0], decode)
      case None =>
      case Some(p) =>
        var d1 := Deliveries(a[1..], decode, raises);
        var db := Deliveries(b, decode, raises);
        assert [Deliver(p)] + (d1.steps + db.steps) == ([Deliver(p)] + d1.steps) + db.steps;
    }
  }

  /** The whole run from the given backoff: per attempt, its deliveries, then a sleep if it failed. */
  function RunSpec(backoff: nat, attempts: seq<Attempt>, base: nat, decode: string -> Option<Json>, raises: Json -> bool): Outcome
    decreases |attempts|
  {
    if attempts == [] then Outcome([], false)
    else
      var d := Deliveries(Frames([], attempts[0].lines), decode, raises);
      if d.crashed then d
      else
        var rest := RunSpec(NextBackoff(backoff, attempts[0].failed, base), attempts[1..], base, decode, raises);
        Outcome(d.steps + Pause(backoff, attempts[0].failed) + rest.steps, rest.crashed)
  }

  /** The backoff after a connection: doubled up to the cap after a failure, back to `base` after a completed stream. */
  function NextBackoff(backoff: nat, failed: bool, base: nat): nat {
    if failed then Min(2 * backoff, BackoffCapMs) else base
  }

  /** The sleep after a connection: the current backoff after a failure, none after a completed stream. */
  function Pause(backoff: nat, failed: bool): seq<Step> {
    if failed then [Sleep(backoff)] else []
  }

  /** One connection of the run, unfolded. */
  lemma RunSpecFirst(backoff: nat, attempts: seq<Attempt>, base: nat, decode: string -> Option<Json>, raises: Json -> bool)
    requires attempts != []
    ensures var d := Deliveries(Frames([], attempts[0].lines), decode, raises);
      RunSpec(backoff, attempts, base, decode, raises)
        == if d.crashed then d
           else Glue(d.steps + Pause(backoff, attempts[0].failed),
                     RunSpec(NextBackoff(backoff, attempts[0].failed, base), attempts[1..], base, decode, raises))
  {
  }

  /**
   * `_run`: reconnect until stopped; each connection has a fresh line
   * buffer; a failure sleeps the current backoff and doubles it up to the
   * cap; a stream that ends normally resets it to `base`.
   */
  method Run(attempts: seq<Attempt>, base: nat, decode: string -> Option<Json>, raises: Json -> bool)
    returns (trace: seq<Step>, crashed: bool)
    ensures Outcome(trace, crashed) == RunSpec(base, attempts, base, decode, raises)
  {
    var backoff := base;
    trace := [];
    crashed := false;
    var a := 0;
    while a < |attempts| && !crashed
      invariant 0 <= a <= |attempts|
      invariant !crashed ==> Glue(trace, RunSpec(backoff, attempts[a..], base, decode, raises)) == RunSpec(base, attempts, base, decode, raises)
      invariant crashed ==> Outcome(trace, true) == RunSpec(base, attempts, base, decode, raises)
      decreases |attempts| - a, !crashed
    {
      RunSpecFirst(backoff, attempts[a..], base, decode, raises);
      assert attempts[a..][0] == attempts[a] && attempts[a..][1..] == attempts[a + 1..];
      var steps, died := ReadStream(attempts[a].lines, decode, raises);
      var rest := RunSpec(NextBackoff(backoff, attempts[a].failed, base), attempts[a + 1..], base, decode, raises);
      if died {
        assert Glue(trace, Outcome(steps, true)) == Outcome(trace + steps, true);
        trace := trace + steps;
        crashed := true;
      } else {
        GlueAssoc(trace, steps + Pause(backoff, attempts[a].failed), rest);
        trace := trace + (steps + Pause(backoff, attempts[a].failed));
        backoff := NextBackoff(backoff, attempts[a].failed, base);
        a := a + 1;
      }
    }
    if !crashed {
      assert attempts[a..] == [];
    }
  }

  /**
   * The body of the `with session.get(...)` block: lines accumulate in
   * `event_lines`, a blank line dispatches and clears them, and a callback
   * that raises ends the thread.
   */
  method ReadStream(lines: seq<string>, decode: string -> Option<Json>, raises: Json -> bool)
    returns (steps: seq<Step>, crashed: bool)
    ensures Outcome(steps, crashed) == Deliveries(Frames([], lines), decode, raises)
  {
    steps := [];
    crashed := false;
    var eventLines: seq<string> := [];
    var j := 0;
    while j < |lines| && !crashed
      invariant 0 <= j <= |lines|
      invariant !crashed ==> Glue(steps, Deliveries(Frames(eventLines, lines[j..]), decode, raises)) == Deliveries(Frames([], lines), decode, raises)
      invariant crashed ==> Outcome(steps, true) == Deliveries(Frames([], lines), decode, raises)
      decreases |lines| - j, !crashed
    {
      var line := lines[j];
      assert lines[j..][1..] == lines[j + 1..];
      if line == "" {
        if eventLines != [] {
          var frame := Join(eventLines, "\n");
          var rest := Frames([], lines[j + 1..]);
          assert ([frame] + rest)[1..] == rest;
          assert Frames(eventLines, lines[j..]) == [frame] + rest;
          var payload := Dispatch(frame, decode);
          if payload.Some? {
            GlueAssoc(steps, [Deliver(payload.value)], Deliveries(rest, decode, raises));
            steps := steps + [Deliver(payload.value)];
            crashed := raises(payload.value);
          }
          eventLines := [];
        } else {
          assert Frames(eventLines, lines[j..]) == Frames([], lines[j + 1..]);
        }
      } else {
        eventLines := eventLines + [line];
      }
      j := j + 1;
    }
    if !crashed {
      assert lines[j..] == [];
    }
  }

  /** `prefix` followed by an outcome's steps. */
  function Glue(prefix: seq<Step>, o: Outcome): Outcome {
    Outcome(prefix + o.steps, o.crashed)
  }

  lemma GlueAssoc(a: seq<Step>, b: seq<Step>, o: Outcome)
    ensures Glue(a, Glue(b, o)) == Glue(a + b, o)
  {
    assert a + (b + o.steps) == (a + b) + o.steps;
  }

  // ---------------------------------------------------------------------
  // Framing

  /** A stream that writes each event's lines followed by one blank line. */
  function Stream(events: seq<seq<string>>): seq<string>
    decreases |events|
  {
    if events == [] then [] else events[0] + [""] + Stream(events[1..])
  }

  predicate WellFormedEvent(lines: seq<string>) {
    lines != [] && forall k :: 0 <= k < |lines| ==> lines[k] != ""
  }

  /** Framing the stream of well-formed events gives back each event's lines joined by "\n", in order. */
  lemma {:induction false} FramesOfStream(events: seq<seq<string>>)
    requires forall k :: 0 <= k < |events| ==> WellFormedEvent(events[k])
    ensures Frames([], Stream(events)) == Joined(events)
    decreases |events|
  {
    if events != [] {
      FramesOfStream(events[1..]);
      FramesOfEvent([], events[0], Stream(events[1..]));
      assert [] + events[0] == events[0];
      assert Joined(events)[1..] == Joined(events[1..]);
    }
  }

  /** Each event's lines joined by "\n". */
  function Joined(events: seq<seq<string>>): (frames: seq<string>)
    ensures |frames| == |events|
    ensures forall k :: 0 <= k < |events| ==> frames[k] == Join(events[k], "\n")
  {
    seq(|events|, k requires 0 <= k < |events| => Join(events[k], "\n"))
  }

  /** Non-blank lines accumulate, and the blank line after them flushes the whole buffer as one frame. */
  lemma {:induction false} FramesOfEvent(buffer: seq<string>, lines: seq<string>, rest: seq<string>)
    requires buffer + lines != []
    requires forall k :: 0 <= k < |lines| ==> lines[k] != ""
    ensures Frames(buffer, lines + [""] + rest) == [Join(buffer + lines, "\n")] + Frames([], rest)
    decreases |lines|
  {
    if lines == [] {
      assert lines + [""] + rest == [""] + rest;
      assert ([""] + rest)[1..] == rest;
      assert buffer + lines == buffer;
    } else {
      assert (lines + [""] + rest)[1..] == lines[1..] + [""] + rest;
      assert buffer + [lines[0]] + lines[1..] == buffer + lines;
      FramesOfEvent(buffer + [lines[0]], lines[1..], rest);
    }
  }

  /** Lines after the last blank line of a stream are still buffered when it ends and are never dispatched. */
  lemma {:induction false} TrailingLinesAreDropped(buffer: seq<string>, lines: seq<string>)
    requires forall k :: 0 <= k < |lines| ==> lines[k] != ""
    ensures Frames(buffer, lines) == []
    decreases |lines|
  {
    if lines != [] {
      TrailingLinesAreDropped(buffer + [lines[0]], lines[1..]);
    }
  }

  /** A blank line with nothing buffered dispatches nothing. */
  lemma BlankLineWithEmptyBuffer(rest: seq<string>)
    ensures Frames([], [""] + rest) == Frames([], rest)
  {
    assert ([""] + rest)[1..] == rest;
  }

  // ---------------------------------------------------------------------
  // Data extraction

  /** A frame made of "data:" lines is decoded from their stripped values concatenated with no separator. */
  lemma DispatchOfDataLines(values: seq<string>, decode: string -> Option<Json>)
    requires |values| >= 1
    requires forall k, j :: 0 <= k < |values| && 0 <= j < |values[k]| ==> !IsLineBreak(values[k][j])
    ensures Dispatch(Join(DataLines(values), "\n"), decode)
      == decode(Join(Stripped(values), ""))
  {
    var lines := DataLines(values);
    forall k | 0 <= k < |lines|
      ensures lines[k] != [] && forall j :: 0 <= j < |lines[k]| ==> !IsLineBreak(lines[k][j])
    {
      DataLineHasNoBreak(values[k]);
    }
    SplitLinesOfJoin(lines);
    DataPiecesOfDataLines(values);
  }

  lemma DataLineHasNoBreak(v: string)
    requires forall j :: 0 <= j < |v| ==> !IsLineBreak(v[j])
    ensures var line := "data:" + v; line != [] && forall j :: 0 <= j < |line| ==> !IsLineBreak(line[j])
  {
    var line := "data:" + v;
    forall j | 0 <= j < |line|
      ensures !IsLineBreak(line[j])
    {
      if j >= 5 {
        assert line[j] == v[j - 5];
      } else {
        assert line[j] == "data:"[j];
      }
    }
  }

  /** `"data:" + v` for each value. */
  function DataLines(values: seq<string>): (lines: seq<string>)
    ensures |lines| == |values|
    ensures forall k :: 0 <= k < |values| ==> lines[k] == "data:" + values[k]
    decreases |values|
  {
    if values == [] then [] else ["data:" + values[0]] + DataLines(values[1..])
  }

  lemma {:induction false} DataPiecesOfDataLines(values: seq<string>)
    ensures DataPieces(DataLines(values)) == Stripped(values)
    decreases |values|
  {
    if values != [] {
      var lines := DataLines(values);
      var first := "data:" + values[0];
      DataLineStartsWithData(values[0]);
      assert lines == [first] + DataLines(values[1..]);
      assert lines[1..] == DataLines(values[1..]);
      assert DataPieces(lines) == [Strip(values[0])] + DataPieces(DataLines(values[1..]));
      DataPiecesOfDataLines(values[1..]);
    }
  }

  lemma DataLineStartsWithData(v: string)
    ensures StartsWith("data:" + v, "data:") && ("data:" + v)[5..] == v
  {
    var line := "data:" + v;
    assert |"data:"| == 5;
    assert line[..5] == "data:";
  }

  /** Each value stripped on both sides. */
  function Stripped(values: seq<string>): (r: seq<string>)
    ensures |r| == |values|
    ensures forall k :: 0 <= k < |values| ==> r[k] == Strip(values[k])
    decreases |values|
  {
    if values == [] then [] else [Strip(values[0])] + Stripped(values[1..])
  }

  /** Lines that are not "data:" lines (comments, `event:`, `id:`) never contribute to the payload. */
  lemma {:induction false} OtherLinesIgnored(before: seq<string>, other: string, after: seq<string>)
    requires !StartsWith(other, "data:")
    ensures DataPieces(before + [other] + after) == DataPieces(before + after)
    decreases |before|
  {
    if before == [] {
      assert before + [other] + after == [other] + after;
      assert ([other] + after)[1..] == after;
      assert before + after == after;
    } else {
      assert (before + [other] + after)[1..] == before[1..] + [other] + after;
      assert (before + after)[1..] == before[1..] + after;
      OtherLinesIgnored(before[1..], other, after);
    }
  }

  // ---------------------------------------------------------------------
  // Backoff

  /** The sleeps of a run, in order. */
  function Sleeps(steps: seq<Step>): seq<nat>
    decreases |steps|
  {
    if steps == [] then []
    else if steps[0].Sleep? then [steps[0].ms] + Sleeps(steps[1..])
    else Sleeps(steps[1..])
  }

  /** `b * 2^k`. */
  function Scaled(b: nat, k: nat): nat {
    if k == 0 then b else 2 * Scaled(b, k - 1)
  }

  /** The reference schedule: sleep `b`, then continue from `min(2b, cap)`. */
  function Schedule(b: nat, n: nat): seq<nat>
    decreases n
  {
    if n == 0 then [] else [b] + Schedule(Min(2 * b, BackoffCapMs), n - 1)
  }

  /** `n` connections that each fail before yielding a line. */
  function Failures(n: nat): (attempts: seq<Attempt>)
    ensures |attempts| == n
  {
    if n == 0 then [] else [Attempt([], true)] + Failures(n - 1)
  }

  /** Failing connections sleep exactly the reference schedule, and deliver nothing. */
  lemma {:induction false} FailuresFollowSchedule(b: nat, base: nat, n: nat, decode: string -> Option<Json>, raises: Json -> bool)
    ensures RunSpec(b, Failures(n), base, decode, raises) == Outcome(SleepSteps(Schedule(b, n)), false)
    decreases n
  {
    if n > 0 {
      var next := Min(2 * b, BackoffCapMs);
      assert Failures(n)[1..] == Failures(n - 1);
      assert Frames([], []) == [];
      FailuresFollowSchedule(next, base, n - 1, decode, raises);
      var rest := RunSpec(next, Failures(n - 1), base, decode, raises);
      assert Deliveries(Frames([], []), decode, raises) == Outcome([], false);
      assert RunSpec(b, Failures(n), base, decode, raises) == Outcome([] + [Sleep(b)] + rest.steps, rest.crashed);
      assert Schedule(b, n) == [b] + Schedule(next, n - 1);
      assert SleepSteps(Schedule(b, n)) == [Sleep(b)] + SleepSteps(Schedule(next, n - 1));
    }
  }

  /** A `Sleep` step for each duration. */
  function SleepSteps(ms: seq<nat>): seq<Step>
    decreases |ms|
  {
    if ms == [] then [] else [Sleep(ms[0])] + SleepSteps(ms[1..])
  }

  /** The `k`-th sleep of the schedule is `min(b * 2^k, cap)`, for a base within the cap. */
  lemma {:induction false} ScheduleClosedForm(b: nat, n: nat, k: nat)
    requires b <= BackoffCapMs && k < n
    ensures |Schedule(b, n)| == n
    ensures Schedule(b, n)[k] == Min(Scaled(b, k), BackoffCapMs)
    decreases n
  {
    ScheduleLength(b, n);
    if k > 0 {
      var next := Min(2 * b, BackoffCapMs);
      ScheduleClosedForm(next, n - 1, k - 1);
      DoubledCap(b, k - 1);
    }
  }

  lemma {:induction false} ScheduleLength(b: nat, n: nat)
    ensures |Schedule(b, n)| == n
    decreases n
  {
    if n > 0 {
      ScheduleLength(Min(2 * b, BackoffCapMs), n - 1);
    }
  }

  /** Doubling-then-capping from `min(2b, cap)` agrees with capping `b * 2^(k+1)`. */
  lemma DoubledCap(b: nat, k: nat)
    requires b <= BackoffCapMs
    ensures Min(Scaled(Min(2 * b, BackoffCapMs), k), BackoffCapMs) == Min(Scaled(b, k + 1), BackoffCapMs)
  {
    ScaledShift(b, k);
    ScaledGrows(2 * b, k);
    ScaledGrows(BackoffCapMs, k);
  }

  lemma {:induction false} ScaledShift(b: nat, k: nat)
    ensures Scaled(b, k + 1) == Scaled(2 * b, k)
    decreases k
  {
    if k > 0 {
      ScaledShift(b, k - 1);
    }
  }

  lemma {:induction false} ScaledGrows(b: nat, k: nat)
    ensures Scaled(b, k) >= b
    decreases k
  {
    if k > 0 {
      ScaledGrows(b, k - 1);
    }
  }

  /** A connection whose stream completes resets the backoff: what came before it no longer matters. */
  lemma CompletedStreamResets(b1: nat, b2: nat, lines: seq<string>, rest: seq<Attempt>, base: nat,
                              decode: string -> Option<Json>, raises: Json -> bool)
    ensures RunSpec(b1, [Attempt(lines, false)] + rest, base, decode, raises)
         == RunSpec(b2, [Attempt(lines, false)] + rest, base, decode, raises)
  {
    assert ([Attempt(lines, false)] + rest)[1..] == rest;
  }

  /** After a completed stream the next connection starts again from `base`, whatever the backoff was. */
  lemma CompletedStreamResetsToBase(b: nat, lines: seq<string>, rest: seq<Attempt>, base: nat,
                                    decode: string -> Option<Json>, raises: Json -> bool)
    ensures var d := Deliveries(Frames([], lines), decode, raises);
      RunSpec(b, [Attempt(lines, false)] + rest, base, decode, raises)
        == if d.crashed then d else Glue(d.steps, RunSpec(base, rest, base, decode, raises))
  {
    assert ([Attempt(lines, false)] + rest)[1..] == rest;
    var d := Deliveries(Frames([], lines), decode, raises);
    assert d.steps + [] == d.steps;
  }

  /** After a failed connection the run sleeps the current backoff and goes on from twice it, up to the cap. */
  lemma FailedAttemptDoubles(b: nat, lines: seq<string>, rest: seq<Attempt>, base: nat,
                             decode: string -> Option<Json>, raises: Json -> bool)
    ensures var d := Deliveries(Frames([], lines), decode, raises);
      RunSpec(b, [Attempt(lines, true)] + rest, base, decode, raises)
        == if d.crashed then d else Glue(d.steps + [Sleep(b)], RunSpec(Min(2 * b, BackoffCapMs), rest, base, decode, raises))
  {
    assert ([Attempt(lines, true)] + rest)[1..] == rest;
  }

  /** A completed stream followed by `n` failed connections sleeps the schedule that starts at `base`. */
  lemma CompletedThenFailures(b: nat, lines: seq<string>, base: nat, n: nat,
                              decode: string -> Option<Json>, raises: Json -> bool)
    requires !Deliveries(Frames([], lines), decode, raises).crashed
    ensures RunSpec(b, [Attempt(lines, false)] + Failures(n), base, decode, raises)
         == Outcome(Deliveries(Frames([], lines), decode, raises).steps + SleepSteps(Schedule(base, n)), false)
  {
    CompletedStreamResetsToBase(b, lines, Failures(n), base, decode, raises);
    FailuresFollowSchedule(base, base, n, decode, raises);
  }

  predicate WithinCap(ms: seq<nat>) {
    forall k :: 0 <= k < |ms| ==> ms[k] <= BackoffCapMs
  }

  /** Every sleep stays within the cap when the base does. */
  lemma {:induction false} SleepsWithinCap(b: nat, attempts: seq<Attempt>, base: nat, decode: string -> Option<Json>, raises: Json -> bool)
    requires b <= BackoffCapMs && base <= BackoffCapMs
    ensures WithinCap(Sleeps(RunSpec(b, attempts, base, decode, raises).steps))
    decreases |attempts|
  {
    if attempts != [] {
      var d := Deliveries(Frames([], attempts[0].lines), decode, raises);
      DeliveriesHaveNoSleep(Frames([], attempts[0].lines), decode, raises);
      RunSpecFirst(b, attempts, base, decode, raises);
      if !d.crashed {
        var pause := Pause(b, attempts[0].failed);
        var rest := RunSpec(NextBackoff(b, attempts[0].failed, base), attempts[1..], base, decode, raises);
        SleepsWithinCap(NextBackoff(b, attempts[0].failed, base), attempts[1..], base, decode, raises);
        SleepsConcat(d.steps + pause, rest.steps);
        SleepsConcat(d.steps, pause);
        assert Sleeps(pause) == [] || Sleeps(pause) == [b] by {
          if attempts[0].failed {
            assert pause[1..] == [];
          }
        }
        assert Sleeps(RunSpec(b, attempts, base, decode, raises).steps) == Sleeps(pause) + Sleeps(rest.steps);
      }
    }
  }

  lemma {:induction false} DeliveriesHaveNoSleep(frames: seq<string>, decode: string -> Option<Json>, raises: Json -> bool)
    ensures Sleeps(Deliveries(frames, decode, raises).steps) == []
    decreases |frames|
  {
    if frames != [] {
      DeliveriesHaveNoSleep(frames[1..], decode, raises);
      match Dispatch(frames[0], decode)
      case None =>
      case Some(p) =>
        var rest := Deliveries(frames[1..], decode, raises);
        assert ([Deliver(p)] + rest.steps)[1..] == rest.steps;
    }
  }

  lemma {:induction false} SleepsConcat(a: seq<Step>, b: seq<Step>)
    ensures Sleeps(a + b) == Sleeps(a) + Sleeps(b)
    decreases |a|
  {
    if a != [] {
      assert (a + b)[1..] == a[1..] + b;
      SleepsConcat(a[1..], b);
    } else {
      assert a + b == b;
    }
  }

  // ---------------------------------------------------------------------
  // start / stop

  /** The client's thread bookkeeping: `_thread` and `_stop_event`. */
  class DetectionEventsClient {
    const url: string
    /** Whether `_thread` has been set. */
    var hasThread: bool
    /** `_stop_event.is_set()`. */
    var stopSet: bool
    /** How many run loops have been started. */
    var spawned: nat

    constructor (url: string)
      ensures this.url == url && !hasThread && !stopSet && spawned == 0
    {
      this.url := url;
      hasThread := false;
      stopSet := false;
      spawned := 0;
    }

    /** `start()`: `alive` is what `is_alive()` answers for the current thread; a live one is kept. */
    method Start(alive: bool)
      modifies this
      ensures old(hasThread) && alive ==> hasThread == old(hasThread) && stopSet == old(stopSet) && spawned == old(spawned)
      ensures !(old(hasThread) && alive) ==> hasThread && !stopSet && spawned == old(spawned) + 1
    {
      if hasThread && alive {
        return;
      }
      stopSet := false;
      hasThread := true;
      spawned := spawned + 1;
    }

    /** `stop()`: sets the flag the run loop polls; the bounded `join` changes no state. */
    method Stop()
      modifies this
      ensures stopSet && hasThread == old(hasThread) && spawned == old(spawned)
    {
      stopSet := true;
    }
  }
}
