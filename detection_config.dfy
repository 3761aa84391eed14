/**
 * The configuration shared by the detector and the orchestrator
 * (backend/detection_config.py). Only the watch-set and the boolean flag are
 * parsed from environment text; the other values are carried with their
 * documented defaults, durations in integer milliseconds.
 */
module DetectionConfig {
  import opened Wrappers
  import opened Text

  const DefaultWatchClasses: string := "person,bottle"
  const DefaultResumeWithForward: string := "true"

  /** `WATCH_CLASSES`: the stripped, non-blank comma-separated pieces of the variable (or of the default). */
  function WatchClasses(env: Option<string>): set<string> {
    WatchSetOf(env.GetOr(DefaultWatchClasses))
  }

  function WatchSetOf(raw: string): set<string> {
    set piece | piece in Split(raw, ',') && Strip(piece) != [] :: Strip(piece)
  }

  /** `RESUME_WITH_FORWARD`: the lowercased value is one of "1", "true", "yes"; whitespace is not stripped. */
  predicate ResumeWithForward(env: Option<string>) {
    Lower(env.GetOr(DefaultResumeWithForward)) in {"1", "true", "yes"}
  }

  /** The typed configuration the rest of the model reads. */
  datatype Config = Config(
    watchClasses: set<string>,
    captureIntervalMs: int,
    yoloHost: string,
    yoloPort: int,
    orchestratorPort: int,
    mdnsTypeDetector: string,
    mdnsTypeOrchestrator: string,
    mdnsDetectorName: string,
    mdnsOrchestratorName: string,
    serialPortDefault: string,
    serialBaudDefault: int,
    stopToReverseMs: nat,
    reverseDurationMs: int,
    reverseDurationText: string,
    forwardResumeMs: nat,
    resumeWithForward: bool,
    sseBackoffMs: nat,
    maxEventLogSize: nat)

  /** The configuration for the two parsed variables, every other value at its default. */
  function FromEnv(watchEnv: Option<string>, resumeEnv: Option<string>): Config {
    Config(
      watchClasses := WatchClasses(watchEnv),
      captureIntervalMs := 500,
      yoloHost := "127.0.0.1",
      yoloPort := 8001,
      orchestratorPort := 8000,
      mdnsTypeDetector := "_yolo._tcp.local.",
      mdnsTypeOrchestrator := "_robot._tcp.local.",
      mdnsDetectorName := "YOLO-Detector",
      mdnsOrchestratorName := "TrainShunting-Orchestrator",
      serialPortDefault := "/dev/ttyUSB0",
      serialBaudDefault := 115200,
      stopToReverseMs := 1000,
      reverseDurationMs := 1500,
      reverseDurationText := "1.5",
      forwardResumeMs := 1000,
      resumeWithForward := ResumeWithForward(resumeEnv),
      sseBackoffMs := 2000,
      maxEventLogSize := 100)
  }

  /** No watched label is empty or carries whitespace at either end. */
  lemma WatchClassesAreClean(env: Option<string>)
    ensures forall w :: w in WatchClasses(env) ==> w != [] && !IsSpace(w[0]) && !IsSpace(w[|w| - 1])
  {
    forall w | w in WatchClasses(env)
      ensures w != [] && !IsSpace(w[0]) && !IsSpace(w[|w| - 1])
    {
      var piece :| piece in Split(env.GetOr(DefaultWatchClasses), ',') && Strip(piece) != [] && Strip(piece) == w;
      StripHasNoSpaceAtEnds(piece);
    }
  }

  /**
   * A label is watched exactly when it is the stripped form of some non-blank
   * piece of the value, where the pieces are comma-free and joined by commas give the value back.
   */
  lemma WatchClassesArePieces(env: Option<string>, w: string)
    ensures var pieces := Split(env.GetOr(DefaultWatchClasses), ',');
      && Join(pieces, ",") == env.GetOr(DefaultWatchClasses)
      && (forall p :: p in pieces ==> ',' !in p)
      && (w in WatchClasses(env) <==> w != [] && exists p :: p in pieces && Strip(p) == w)
  {
    JoinOfSplit(env.GetOr(DefaultWatchClasses), ',');
  }

  /** With the variable unset the watch set is exactly {"person", "bottle"}. */
  lemma DefaultWatchSet()
    ensures WatchClasses(None) == {"person", "bottle"}
  {
    DefaultWatchSetOf();
    assert WatchClasses(None) == WatchSetOf(DefaultWatchClasses);
  }

  lemma DefaultWatchSetOf()
    ensures WatchSetOf(DefaultWatchClasses) == {"person", "bottle"}
  {
    DefaultPieces();
    StripPerson();
    StripBottle();
    TwoPieceWatchSet(DefaultWatchClasses, "person", "bottle");
  }

  lemma StripPerson()
    ensures Strip("person") == "person"
  {
    var a := "person";
    assert |a| == 6 && a[0] == 'p' && a[5] == 'n';
    StripOfWord(a);
  }

  lemma StripBottle()
    ensures Strip("bottle") == "bottle"
  {
    var b := "bottle";
    assert |b| == 6 && b[0] == 'b' && b[5] == 'e';
    StripOfWord(b);
  }

  /** A step towards the default watch set: a value of two clean pieces watches exactly those two labels. */
  lemma TwoPieceWatchSet(raw: string, a: string, b: string)
    requires Split(raw, ',') == [a, b]
    requires Strip(a) == a && a != [] && Strip(b) == b && b != []
    ensures WatchSetOf(raw) == {a, b}
  {
    assert a in Split(raw, ',') && b in Split(raw, ',');
    forall w | w in WatchSetOf(raw) ensures w == a || w == b {
      OnlyPiecesWatched(raw, a, b, w);
    }
  }

  /** A step towards `TwoPieceWatchSet`: with two pieces, every watched label is the strip of one of them. */
  lemma OnlyPiecesWatched(raw: string, a: string, b: string, w: string)
    requires Split(raw, ',') == [a, b]
    requires w in WatchSetOf(raw)
    ensures w == Strip(a) || w == Strip(b)
  {
    var p :| p in Split(raw, ',') && Strip(p) != [] && Strip(p) == w;
  }

  lemma DefaultPieces()
    ensures Split(DefaultWatchClasses, ',') == ["person", "bottle"]
  {
    var parts := ["person", "bottle"];
    assert parts[1..] == ["bottle"];
    assert Join(parts, [',']) == "person" + "," + "bottle";
    assert "person" + "," + "bottle" == DefaultWatchClasses;
    NoCommaIn("person");
    NoCommaIn("bottle");
    SplitOfJoin(parts, ',');
  }

  lemma NoCommaIn(w: string)
    requires |w| == 6 && forall i :: 0 <= i < 6 ==> 'a' <= w[i] <= 'z'
    ensures ',' !in w
  {
  }

  /** A string whose two ends are not whitespace is its own strip. */
  lemma StripOfWord(s: string)
    requires s != [] && !IsSpace(s[0]) && !IsSpace(s[|s| - 1])
    ensures Strip(s) == s
  {
  }

  /** The flag is true exactly for "1" and for "true" or "yes" in any ASCII letter case. */
  lemma ResumeWithForwardCases(v: string)
    ensures ResumeWithForward(Some(v)) <==>
      v == "1" || SameIgnoringCase(v, "true") || SameIgnoringCase(v, "yes")
  {
    assert Lower("true") == "true";
    assert Lower("yes") == "yes";
    SameIgnoringCaseIsLowerEquality(v, "true");
    SameIgnoringCaseIsLowerEquality(v, "yes");
    if v == "1" {
      assert Lower(v) == "1";
    }
    if Lower(v) == "1" {
      assert LowerChar(v[0]) == '1';
      assert v == "1";
    }
  }

  predicate SameIgnoringCase(a: string, b: string) {
    |a| == |b| && forall i :: 0 <= i < |a| ==> LowerChar(a[i]) == LowerChar(b[i])
  }

  lemma SameIgnoringCaseIsLowerEquality(a: string, b: string)
    ensures SameIgnoringCase(a, b) <==> Lower(a) == Lower(b)
  {
    if Lower(a) == Lower(b) {
      forall i | 0 <= i < |a| ensures LowerChar(a[i]) == LowerChar(b[i]) {
        assert Lower(a)[i] == Lower(b)[i];
      }
    }
  }

  /** Unset, the flag defaults to true; padded with a space, "true" is false. */
  lemma ResumeWithForwardExamples()
    ensures ResumeWithForward(None)
    ensures ResumeWithForward(Some("YES"))
    ensures !ResumeWithForward(Some(" true"))
    ensures !ResumeWithForward(Some("on"))
  {
    assert Lower("true") == "true";
    assert Lower("YES") == "yes";
    assert Lower(" true") != "true";
  }
}
