/**
 * backend/yolo_server.py: the detector's broadcast hub and the decisions of
 * its detection loop. Camera frames, the YOLO model and the event loop are
 * replaced by inputs: each loop iteration is a `Tick` giving the read result,
 * the clock and the model's result sets. Subscriber queues are named by
 * numbers; their contents live in `buffers`.
 */
module YoloServer {
  import opened Wrappers
  import opened Text
  import opened Json
  import ZeroconfRegister

  // ---------------------------------------------------------------------
  // Camera source

  datatype CameraSource = Index(n: nat) | Path(s: string)

  /** `_parse_camera_source`: an all-digit string is a device index, anything else is kept as given. */
  function ParseCameraSource(source: string): (r: CameraSource)
    ensures r.Index? <==> IsDigits(source)
    ensures r.Index? ==> r.n == DigitsValue(source)
    ensures r.Path? ==> r.s == source
  {
    if IsDigits(source) then Index(DigitsValue(source)) else Path(source)
  }

  /** The camera variable written as `str(n)` is read back as device `n`. */
  lemma CameraIndexRoundTrip(n: nat)
    ensures ParseCameraSource(NatToDecimal(n)) == Index(n)
  {
    DecimalRoundTrip(n);
  }

  // ---------------------------------------------------------------------
  // Detections

  /** What the model reports for one box: class index, confidence (as an ordered integer), corners. */
  datatype Box = Box(cls: int, conf: int, xyxy: seq<int>)

  /** One entry of `results`: the optional `names` table and the optional `boxes`. */
  datatype ResultSet = ResultSet(names: Option<map<int, string>>, boxes: Option<seq<Box>>)

  /** One detection payload: `{"label", "confidence", "bbox", "timestamp"}`. */
  datatype Detection = Detection(labelName: string, confidence: int, bbox: seq<int>, timestamp: int)

  function DetectionJson(d: Detection): map<string, Json> {
    map["label" := JStr(d.labelName), "confidence" := JNum(d.confidence),
        "bbox" := JArr(seq(|d.bbox|, k requires 0 <= k < |d.bbox| => JNum(d.bbox[k]))),
        "timestamp" := JNum(d.timestamp)]
  }

  /** `r.names.get(cls, str(cls))`, or `str(cls)` when the result has no `names`. */
  function ResolveLabel(names: Option<map<int, string>>, cls: int): (lbl: string)
    ensures names.Some? && cls in names.value ==> lbl == names.value[cls]
    ensures names.None? || cls !in names.value ==> lbl == IntToDecimal(cls)
  {
    if names.Some? && cls in names.value then names.value[cls] else IntToDecimal(cls)
  }

  /** The watched detections among `boxes`, in order. */
  function BoxCandidates(names: Option<map<int, string>>, boxes: seq<Box>, watch: set<string>, now: int): seq<Detection>
    decreases |boxes|
  {
    if boxes == [] then []
    else
      var box := boxes[|boxes| - 1];
      var lbl := ResolveLabel(names, box.cls);
      BoxCandidates(names, boxes[..|boxes| - 1], watch, now)
        + (if lbl in watch then [Detection(lbl, box.conf, box.xyxy, now)] else [])
  }

  /** The `detections` list built over all result sets, in order. */
  function Candidates(results: seq<ResultSet>, watch: set<string>, now: int): seq<Detection>
    decreases |results|
  {
    if results == [] then []
    else
      var r := results[|results| - 1];
      Candidates(results[..|results| - 1], watch, now)
        + (if r.boxes.Some? then BoxCandidates(r.names, r.boxes.value, watch, now) else [])
  }

  /** A box is kept exactly when its label is watched; its detection carries the box's fields and `now`. */
  lemma {:induction false} BoxCandidatesAreWatchedBoxes(names: Option<map<int, string>>, boxes: seq<Box>, watch: set<string>, now: int)
    ensures forall d :: d in BoxCandidates(names, boxes, watch, now) <==>
      exists k :: 0 <= k < |boxes| && ResolveLabel(names, boxes[k].cls) in watch
        && d == Detection(ResolveLabel(names, boxes[k].cls), boxes[k].conf, boxes[k].xyxy, now)
    decreases |boxes|
  {
    if boxes != [] {
      var init := boxes[..|boxes| - 1];
      BoxCandidatesAreWatchedBoxes(names, init, watch, now);
      forall k | 0 <= k < |init|
        ensures init[k] == boxes[k]
      {
      }
    }
  }

  /** Every kept detection is watched and stamped with `now`. */
  lemma {:induction false} CandidatesAreWatched(results: seq<ResultSet>, watch: set<string>, now: int)
    ensures forall d :: d in Candidates(results, watch, now) ==> d.labelName in watch && d.timestamp == now
    decreases |results|
  {
    if results != [] {
      var r := results[|results| - 1];
      CandidatesAreWatched(results[..|results| - 1], watch, now);
      if r.boxes.Some? {
        BoxCandidatesAreWatchedBoxes(r.names, r.boxes.value, watch, now);
      }
    }
  }

  /** `max(detections, key=confidence)`: the index of the first detection of greatest confidence. */
  function SelectTop(ds: seq<Detection>): (i: nat)
    requires ds != []
    ensures i < |ds|
    ensures forall k :: 0 <= k < |ds| ==> ds[k].confidence <= ds[i].confidence
    ensures forall k :: 0 <= k < i ==> ds[k].confidence < ds[i].confidence
    decreases |ds|
  {
    if |ds| == 1 then 0
    else
      var j := SelectTop(ds[..|ds| - 1]);
      if ds[|ds| - 1].confidence > ds[j].confidence then |ds| - 1 else j
  }

  /** The capture-cadence gate: inference runs when at least `interval` has passed since the last run. */
  predicate DueForInference(now: int, lastEmit: int, interval: int) {
    !(now - lastEmit < interval)
  }

  /** Whether a tick runs inference: the frame was read and the capture interval has passed. */
  predicate Runs(t: Tick, lastEmit: int, interval: int) {
    t.readOk && DueForInference(t.now, lastEmit, interval)
  }

  /** `last_emit` after a tick. */
  function NextEmit(t: Tick, lastEmit: int, interval: int): int {
    if Runs(t, lastEmit, interval) then t.now else lastEmit
  }

  /** The detection a tick records and broadcasts, if any. */
  function TickTop(t: Tick, lastEmit: int, interval: int, watch: set<string>): Option<Detection> {
    if !Runs(t, lastEmit, interval) then None
    else
      var ds := Candidates(t.results, watch, t.now);
      if ds == [] then None else Some(ds[SelectTop(ds)])
  }

  function OptionSeq(o: Option<Detection>): seq<Detection> {
    if o.Some? then [o.value] else []
  }

  /** The top detection of each tick that ran inference and found a watched object, in order. */
  function Tops(ticks: seq<Tick>, lastEmit: int, interval: int, watch: set<string>): seq<Detection>
    decreases |ticks|
  {
    if ticks == [] then []
    else OptionSeq(TickTop(ticks[0], lastEmit, interval, watch)) + Tops(ticks[1..], NextEmit(ticks[0], lastEmit, interval), interval, watch)
  }

  /** The clock readings at which inference ran. */
  function InferenceTimes(ticks: seq<Tick>, lastEmit: int, interval: int): seq<int>
    decreases |ticks|
  {
    if ticks == [] then []
    else
      var t := ticks[0];
      if !Runs(t, lastEmit, interval) then InferenceTimes(ticks[1..], lastEmit, interval)
      else [t.now] + InferenceTimes(ticks[1..], t.now, interval)
  }

  /** Inference runs are at least `interval` apart, and the first is at least `interval` after `lastEmit`. */
  lemma {:induction false} InferenceIsPaced(ticks: seq<Tick>, lastEmit: int, interval: int)
    ensures var times := InferenceTimes(ticks, lastEmit, interval);
      && (times != [] ==> times[0] - lastEmit >= interval)
      && forall k :: 0 <= k < |times| - 1 ==> times[k + 1] - times[k] >= interval
    decreases |ticks|
  {
    if ticks != [] {
      var t := ticks[0];
      if !Runs(t, lastEmit, interval) {
        InferenceIsPaced(ticks[1..], lastEmit, interval);
      } else {
        InferenceIsPaced(ticks[1..], t.now, interval);
        var rest := InferenceTimes(ticks[1..], t.now, interval);
        assert InferenceTimes(ticks, lastEmit, interval) == [t.now] + rest;
      }
    }
  }

  /** Every reported top is a watched detection stamped with an inference time. */
  lemma {:induction false} TopsAreWatched(ticks: seq<Tick>, lastEmit: int, interval: int, watch: set<string>)
    ensures forall d :: d in Tops(ticks, lastEmit, interval, watch) ==>
      d.labelName in watch && d.timestamp in InferenceTimes(ticks, lastEmit, interval)
    decreases |ticks|
  {
    if ticks != [] {
      var t := ticks[0];
      if !Runs(t, lastEmit, interval) {
        TopsAreWatched(ticks[1..], lastEmit, interval, watch);
      } else {
        TopsAreWatched(ticks[1..], t.now, interval, watch);
        CandidatesAreWatched(t.results, watch, t.now);
      }
    }
  }

  /** One pass of `_detection_loop`: the read result, `time.time()` and the model's output. */
  datatype Tick = Tick(readOk: bool, now: int, results: seq<ResultSet>)

  /** `{"type": "detection", "payload": top}`. */
  function DetectionEvent(d: Detection): map<string, Json> {
    map["type" := JStr("detection"), "payload" := JObj(DetectionJson(d))]
  }

  function DetectionEvents(ds: seq<Detection>): (events: seq<map<string, Json>>)
    ensures |events| == |ds|
    ensures forall k :: 0 <= k < |ds| ==> events[k] == DetectionEvent(ds[k])
  {
    seq(|ds|, k requires 0 <= k < |ds| => DetectionEvent(ds[k]))
  }

  // ---------------------------------------------------------------------
  // Subscriber queues

  /** Every queue among `targets` gets `payloads` appended; the others are untouched. */
  function Pushed(buffers: map<nat, seq<map<string, Json>>>, targets: seq<nat>, payloads: seq<map<string, Json>>): (r: map<nat, seq<map<string, Json>>>)
    ensures r.Keys == buffers.Keys
  {
    map q | q in buffers :: if q in targets then buffers[q] + payloads else buffers[q]
  }

  /** Successive broadcasts to the same subscribers queue their payloads in broadcast order. */
  lemma PushedTwice(buffers: map<nat, seq<map<string, Json>>>, targets: seq<nat>, first: seq<map<string, Json>>, second: seq<map<string, Json>>)
    ensures Pushed(Pushed(buffers, targets, first), targets, second) == Pushed(buffers, targets, first + second)
  {
    var lhs := Pushed(Pushed(buffers, targets, first), targets, second);
    var rhs := Pushed(buffers, targets, first + second);
    forall q | q in lhs
      ensures lhs[q] == rhs[q]
    {
      if q in targets {
        assert buffers[q] + first + second == buffers[q] + (first + second);
      }
    }
  }

  /** Pushing nothing changes nothing. */
  lemma PushedNothing(buffers: map<nat, seq<map<string, Json>>>, targets: seq<nat>)
    ensures Pushed(buffers, targets, []) == buffers
  {
    var r := Pushed(buffers, targets, []);
    forall q | q in r
      ensures r[q] == buffers[q]
    {
      assert buffers[q] + [] == buffers[q];
    }
  }

  /** The position of the first `x` in `s`. */
  function FirstIndex(s: seq<nat>, x: nat): (i: nat)
    requires x in s
    ensures i < |s| && s[i] == x && x !in s[..i]
    decreases |s|
  {
    if s[0] == x then 0 else 1 + FirstIndex(s[1..], x)
  }

  /** `list.remove(x)` guarded by `x in list`: drops the first occurrence of `x`, keeping the rest in order. */
  function RemoveFirst(s: seq<nat>, x: nat): seq<nat> {
    if x in s then var i := FirstIndex(s, x); s[..i] + s[i + 1..] else s
  }

  predicate Distinct(s: seq<nat>) {
    forall i, j :: 0 <= i < j < |s| ==> s[i] != s[j]
  }

  /** Removing from a list of distinct subscribers removes exactly that one and keeps the others distinct. */
  lemma RemoveFirstOfDistinct(s: seq<nat>, x: nat)
    requires Distinct(s)
    ensures Distinct(RemoveFirst(s, x))
    ensures forall y :: y in RemoveFirst(s, x) <==> y in s && y != x
  {
    if x in s {
      var i := FirstIndex(s, x);
      RemovedAt(s, i);
    }
  }

  lemma RemovedAt(s: seq<nat>, i: nat)
    requires Distinct(s) && i < |s|
    ensures Distinct(s[..i] + s[i + 1..])
    ensures forall y :: y in s[..i] + s[i + 1..] <==> y in s && y != s[i]
  {
    var r := s[..i] + s[i + 1..];
    assert forall a :: 0 <= a < i ==> r[a] == s[a];
    assert forall a :: i <= a < |r| ==> r[a] == s[a + 1];
    forall a, b | 0 <= a < b < |r|
      ensures r[a] != r[b]
    {
      var a' := if a < i then a else a + 1;
      var b' := if b < i then b else b + 1;
      assert a' < b';
    }
    forall y
      ensures y in r <==> y in s && y != s[i]
    {
      if y in s && y != s[i] {
        var k :| 0 <= k < |s| && s[k] == y;
        if k < i { assert r[k] == y; } else { assert r[k - 1] == y; }
      }
      if y in r {
        var k :| 0 <= k < |r| && r[k] == y;
        var k' := if k < i then k else k + 1;
        assert s[k'] == y && k' != i;
      }
    }
  }

  /** `DetectionState`: the subscriber list, the queues' contents and the last detection. */
  class DetectionState {
    /** `event_queues`, by queue number, in registration order. */
    var queues: seq<nat>
    /** The contents of every queue ever handed out, registered or not. */
    var buffers: map<nat, seq<map<string, Json>>>
    /** The number the next `register_queue` hands out. */
    var nextId: nat
    /** Whether `set_event_loop` has been called. */
    var loopSet: bool
    var lastDetection: Option<map<string, Json>>
    /** `stop_event.is_set()`. */
    var stopped: bool
    var zeroconfHandle: ZeroconfRegister.ZeroconfHandle?

    /** Each registered queue is listed once and exists; every queue number was handed out. */
    predicate Valid()
      reads this
    {
      && Distinct(queues)
      && (forall q :: q in queues ==> q in buffers)
      && (forall q :: q in buffers ==> q < nextId)
    }

    constructor ()
      ensures Valid()
      ensures queues == [] && buffers == map[] && !loopSet && lastDetection.None? && !stopped && zeroconfHandle == null
    {
      queues := [];
      buffers := map[];
      nextId := 0;
      loopSet := false;
      lastDetection := None;
      stopped := false;
      zeroconfHandle := null;
    }

    method SetEventLoop()
      modifies this
      ensures loopSet
      ensures queues == old(queues) && buffers == old(buffers) && nextId == old(nextId)
      ensures lastDetection == old(lastDetection) && stopped == old(stopped) && zeroconfHandle == old(zeroconfHandle)
    {
      loopSet := true;
    }

    /** `update_detection`. */
    method UpdateDetection(d: map<string, Json>)
      modifies this
      ensures lastDetection == Some(d)
      ensures queues == old(queues) && buffers == old(buffers) && nextId == old(nextId)
      ensures loopSet == old(loopSet) && stopped == old(stopped) && zeroconfHandle == old(zeroconfHandle)
    {
      lastDetection := Some(d);
    }

    /** `register_queue`: a fresh, empty queue appended to the subscriber list. */
    method RegisterQueue() returns (q: nat)
      requires Valid()
      modifies this
      ensures Valid()
      ensures q !in old(buffers)
      ensures queues == old(queues) + [q] && buffers == old(buffers)[q := []]
      ensures loopSet == old(loopSet) && lastDetection == old(lastDetection)
      ensures stopped == old(stopped) && zeroconfHandle == old(zeroconfHandle)
    {
      q := nextId;
      assert q !in queues;
      queues := queues + [q];
      buffers := buffers[q := []];
      nextId := nextId + 1;
    }

    /** `unregister_queue`: removes a listed queue, does nothing otherwise; its contents stay with its holder. */
    method UnregisterQueue(q: nat)
      requires Valid()
      modifies this
      ensures Valid()
      ensures queues == RemoveFirst(old(queues), q)
      ensures q !in queues && forall p :: p in queues <==> p in old(queues) && p != q
      ensures buffers == old(buffers) && nextId == old(nextId) && loopSet == old(loopSet)
      ensures lastDetection == old(lastDetection) && stopped == old(stopped) && zeroconfHandle == old(zeroconfHandle)
    {
      RemoveFirstOfDistinct(queues, q);
      queues := RemoveFirst(queues, q);
    }

    /**
     * `broadcast`: the subscriber list is copied first and the payload goes
     * to each queue of the copy; with no event loop every queue is skipped.
     */
    method Broadcast(payload: map<string, Json>)
      requires Valid()
      modifies this
      ensures Valid()
      ensures buffers == if loopSet then Pushed(old(buffers), old(queues), [payload]) else old(buffers)
      ensures queues == old(queues) && nextId == old(nextId) && loopSet == old(loopSet)
      ensures lastDetection == old(lastDetection) && stopped == old(stopped) && zeroconfHandle == old(zeroconfHandle)
    {
      var snapshot := queues;
      PushedNothing(buffers, []);
      var i := 0;
      while i < |snapshot|
        invariant 0 <= i <= |snapshot|
        invariant buffers == if loopSet then Pushed(old(buffers), snapshot[..i], [payload]) else old(buffers)
        invariant queues == old(queues) && nextId == old(nextId) && loopSet == old(loopSet)
        invariant lastDetection == old(lastDetection) && stopped == old(stopped) && zeroconfHandle == old(zeroconfHandle)
      {
        if loopSet {
          var q := snapshot[i];
          assert q !in snapshot[..i];
          PushOneMore(old(buffers), snapshot, i, payload);
          buffers := buffers[q := buffers[q] + [payload]];
        }
        i := i + 1;
      }
      assert snapshot[..i] == snapshot;
    }

    /** `close`: sets the stop flag, then closes the mDNS handle and forgets it; a failing close leaves it set. */
    method Close(daemonFails: bool) returns (err: Option<ZeroconfRegister.Failure>)
      requires zeroconfHandle != null ==> zeroconfHandle.Valid()
      modifies this, zeroconfHandle
      ensures stopped
      ensures old(zeroconfHandle) == null ==> zeroconfHandle == null && err.None?
      ensures old(zeroconfHandle) != null ==>
        var h := old(zeroconfHandle);
        && h.Valid()
        && |h.calls| >= 1 && h.calls[|h.calls| - 1] == ZeroconfRegister.CloseCall
        && (err.None? ==> zeroconfHandle == null)
        && (err.Some? ==> zeroconfHandle == h && h.info.Some?)
      ensures queues == old(queues) && buffers == old(buffers) && nextId == old(nextId)
      ensures loopSet == old(loopSet) && lastDetection == old(lastDetection)
    {
      stopped := true;
      err := None;
      if zeroconfHandle != null {
        err := zeroconfHandle.Close(daemonFails);
        if err.None? {
          zeroconfHandle := null;
        }
      }
    }

    /**
     * `_event_publisher(queue)` for a client that reads `n` events and then
     * disconnects: each event is named by the payload's "type" (or
     * "message"), taken in queue order, and the queue is unregistered at the end.
     */
    method EventPublisher(q: nat, n: nat) returns (events: seq<SseEvent>)
      requires Valid() && q in buffers && n <= |buffers[q]|
      modifies this
      ensures Valid()
      ensures events == SseEvents(old(buffers)[q][..n])
      ensures buffers == old(buffers)[q := old(buffers)[q][n..]]
      ensures queues == RemoveFirst(old(queues), q) && q !in queues
      ensures nextId == old(nextId) && loopSet == old(loopSet)
      ensures lastDetection == old(lastDetection) && stopped == old(stopped) && zeroconfHandle == old(zeroconfHandle)
    {
      events := [];
      var i := 0;
      while i < n
        invariant 0 <= i <= n
        invariant q in buffers && buffers == old(buffers)[q := old(buffers)[q][i..]]
        invariant events == SseEvents(old(buffers)[q][..i])
        invariant queues == old(queues) && nextId == old(nextId) && Valid()
        invariant lastDetection == old(lastDetection) && stopped == old(stopped)
        invariant loopSet == old(loopSet) && zeroconfHandle == old(zeroconfHandle)
      {
        var payload := buffers[q][0];
        assert payload == old(buffers)[q][i];
        assert old(buffers)[q][i..][1..] == old(buffers)[q][i + 1..];
        buffers := buffers[q := buffers[q][1..]];
        assert old(buffers)[q][..i + 1] == old(buffers)[q][..i] + [payload];
        events := events + [SseEvent(EventName(payload), payload)];
        i := i + 1;
      }
      UnregisterQueue(q);
    }

    /**
     * `_detection_loop` until the stop flag is seen after the last tick:
     * failed reads and ticks inside the capture interval are skipped; a
     * tick that runs inference records and broadcasts its top detection.
     */
    method DetectionLoop(ticks: seq<Tick>, interval: int, watch: set<string>) returns (inferred: seq<int>)
      requires Valid()
      modifies this
      ensures Valid()
      ensures inferred == InferenceTimes(ticks, 0, interval)
      ensures var tops := Tops(ticks, 0, interval, watch);
        && buffers == (if loopSet then Pushed(old(buffers), old(queues), DetectionEvents(tops)) else old(buffers))
        && lastDetection == Latest(old(lastDetection), tops)
      ensures queues == old(queues) && nextId == old(nextId) && loopSet == old(loopSet)
      ensures stopped == old(stopped) && zeroconfHandle == old(zeroconfHandle)
    {
      var lastEmit := 0;
      inferred := [];
      ghost var emitted: seq<Detection> := [];
      PushedNothing(buffers, queues);
      var i := 0;
      while i < |ticks|
        invariant 0 <= i <= |ticks| && Valid()
        invariant inferred + InferenceTimes(ticks[i..], lastEmit, interval) == InferenceTimes(ticks, 0, interval)
        invariant emitted + Tops(ticks[i..], lastEmit, interval, watch) == Tops(ticks, 0, interval, watch)
        invariant buffers == (if loopSet then Pushed(old(buffers), old(queues), DetectionEvents(emitted)) else old(buffers))
        invariant lastDetection == Latest(old(lastDetection), emitted)
        invariant queues == old(queues) && nextId == old(nextId) && loopSet == old(loopSet)
        invariant stopped == old(stopped) && zeroconfHandle == old(zeroconfHandle)
      {
        var t := ticks[i];
        assert ticks[i..][1..] == ticks[i + 1..];
        assert Tops(ticks[i..], lastEmit, interval, watch)
          == OptionSeq(TickTop(t, lastEmit, interval, watch)) + Tops(ticks[i + 1..], NextEmit(t, lastEmit, interval), interval, watch);
        assert InferenceTimes(ticks[i..], lastEmit, interval)
          == (if Runs(t, lastEmit, interval) then [t.now] else []) + InferenceTimes(ticks[i + 1..], NextEmit(t, lastEmit, interval), interval);
        ghost var rest := Tops(ticks[i + 1..], NextEmit(t, lastEmit, interval), interval, watch);
        var top := HandleTick(t, lastEmit, interval, watch);
        if top.Some? {
          PushedTwice(old(buffers), old(queues), DetectionEvents(emitted), [DetectionEvent(top.value)]);
          assert DetectionEvents(emitted) + [DetectionEvent(top.value)] == DetectionEvents(emitted + [top.value]);
          assert emitted + ([top.value] + rest) == (emitted + [top.value]) + rest;
          LatestOfAppend(old(lastDetection), emitted, top.value);
          emitted := emitted + [top.value];
        } else {
          assert OptionSeq(top) + rest == rest;
        }
        if Runs(t, lastEmit, interval) {
          assert inferred + ([t.now] + InferenceTimes(ticks[i + 1..], t.now, interval))
            == (inferred + [t.now]) + InferenceTimes(ticks[i + 1..], t.now, interval);
          inferred := inferred + [t.now];
        }
        lastEmit := NextEmit(t, lastEmit, interval);
        i := i + 1;
      }
      assert ticks[i..] == [];
      assert emitted + [] == emitted && inferred + [] == inferred;
      assert emitted == Tops(ticks, 0, interval, watch);
    }

    /** One pass of the loop body after the read: the cadence gate, the selection, the record and the broadcast. */
    method HandleTick(t: Tick, lastEmit: int, interval: int, watch: set<string>) returns (top: Option<Detection>)
      requires Valid()
      modifies this
      ensures Valid()
      ensures top == TickTop(t, lastEmit, interval, watch)
      ensures buffers == (if loopSet && top.Some? then Pushed(old(buffers), old(queues), [DetectionEvent(top.value)]) else old(buffers))
      ensures lastDetection == (if top.Some? then Some(DetectionJson(top.value)) else old(lastDetection))
      ensures queues == old(queues) && nextId == old(nextId) && loopSet == old(loopSet)
      ensures stopped == old(stopped) && zeroconfHandle == old(zeroconfHandle)
    {
      top := None;
      if !t.readOk || !DueForInference(t.now, lastEmit, interval) {
        return;
      }
      var detections := CollectDetections(t.results, watch, t.now);
      if detections != [] {
        var best := detections[SelectTop(detections)];
        UpdateDetection(DetectionJson(best));
        Broadcast(DetectionEvent(best));
        top := Some(best);
      }
    }
  }

  /** `last_detection` after recording `tops` in order: the last one, or `previous` when there is none. */
  function Latest(previous: Option<map<string, Json>>, tops: seq<Detection>): Option<map<string, Json>> {
    if tops == [] then previous else Some(DetectionJson(tops[|tops| - 1]))
  }

  lemma LatestOfAppend(previous: Option<map<string, Json>>, tops: seq<Detection>, d: Detection)
    ensures Latest(previous, tops + [d]) == Some(DetectionJson(d))
  {
  }

  /** A pushed map grows by one queue when the next distinct subscriber of the copy is reached. */
  lemma PushOneMore(buffers: map<nat, seq<map<string, Json>>>, snapshot: seq<nat>, i: nat, payload: map<string, Json>)
    requires i < |snapshot| && snapshot[i] in buffers && snapshot[i] !in snapshot[..i]
    ensures var q := snapshot[i]; var before := Pushed(buffers, snapshot[..i], [payload]);
      Pushed(buffers, snapshot[..i + 1], [payload]) == before[q := before[q] + [payload]]
  {
    var q := snapshot[i];
    var before := Pushed(buffers, snapshot[..i], [payload]);
    var after := Pushed(buffers, snapshot[..i + 1], [payload]);
    assert snapshot[..i + 1] == snapshot[..i] + [q];
    forall p | p in after
      ensures after[p] == before[q := before[q] + [payload]][p]
    {
    }
  }

  /** The nested loops that build `detections` over the result sets and their boxes. */
  method CollectDetections(results: seq<ResultSet>, watch: set<string>, now: int) returns (detections: seq<Detection>)
    ensures detections == Candidates(results, watch, now)
  {
    detections := [];
    var i := 0;
    while i < |results|
      invariant 0 <= i <= |results|
      invariant detections == Candidates(results[..i], watch, now)
    {
      var r := results[i];
      assert results[..i + 1][..i] == results[..i];
      if r.boxes.Some? {
        var boxes := r.boxes.value;
        var start := detections;
        var j := 0;
        while j < |boxes|
          invariant 0 <= j <= |boxes|
          invariant detections == start + BoxCandidates(r.names, boxes[..j], watch, now)
        {
          var box := boxes[j];
          assert boxes[..j + 1][..j] == boxes[..j];
          var lbl := ResolveLabel(r.names, box.cls);
          if lbl in watch {
            detections := detections + [Detection(lbl, box.conf, box.xyxy, now)];
          }
          j := j + 1;
        }
        assert boxes[..j] == boxes;
      }
      i := i + 1;
    }
    assert results[..i] == results;
  }

  /** One server-sent event: its `event` name and the payload its `data` encodes. */
  datatype SseEvent = SseEvent(event: Json, data: map<string, Json>)

  /** `payload.get("type", "message")`. */
  function EventName(payload: map<string, Json>): (name: Json)
    ensures "type" in payload ==> name == payload["type"]
    ensures "type" !in payload ==> name == JStr("message")
  {
    if "type" in payload then payload["type"] else JStr("message")
  }

  function SseEvents(payloads: seq<map<string, Json>>): (events: seq<SseEvent>)
    ensures |events| == |payloads|
    ensures forall k :: 0 <= k < |payloads| ==> events[k] == SseEvent(EventName(payloads[k]), payloads[k])
    decreases |payloads|
  {
    if payloads == [] then [] else SseEvents(payloads[..|payloads| - 1]) + [SseEvent(EventName(payloads[|payloads| - 1]), payloads[|payloads| - 1])]
  }

  /** Detection broadcasts are published under the event name "detection". */
  lemma DetectionEventName(d: Detection)
    ensures EventName(DetectionEvent(d)) == JStr("detection")
    ensures DetectionEvent(d)["payload"] == JObj(DetectionJson(d))
  {
  }
}
