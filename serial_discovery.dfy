/**
 * backend/serial_discovery.py: choosing the most likely Arduino port from
 * the enumerated device paths. The enumeration itself (pyserial's
 * `list_ports`) is the input sequence `ports`.
 */
module SerialDiscovery {
  import opened Wrappers
  import opened Text

  const DefaultHints: seq<string> := ["usb", "ttyacm", "wch", "ch340"]

  /** `hint.lower() in port.lower()`. */
  predicate Matches(hint: string, port: string) {
    Contains(Lower(port), Lower(hint))
  }

  /** The inner loop: the first port that matches `hint`. */
  function FirstPortMatching(hint: string, ports: seq<string>): Option<string>
    decreases |ports|
  {
    if ports == [] then None
    else if Matches(hint, ports[0]) then Some(ports[0])
    else FirstPortMatching(hint, ports[1..])
  }

  /** The outer loop: hints in order, each tried against every port. */
  function FirstMatch(hints: seq<string>, ports: seq<string>): Option<string>
    decreases |hints|
  {
    if hints == [] then None
    else match FirstPortMatching(hints[0], ports)
      case Some(p) => Some(p)
      case None => FirstMatch(hints[1..], ports)
  }

  /** `preferred_substrings or DEFAULT`: `None` and the empty list select the defaults. */
  function EffectiveHints(hints: Option<seq<string>>): (hs: seq<string>)
    ensures hs != []
    ensures hints.Some? && hints.value != [] ==> hs == hints.value
  {
    if hints == None || hints == Some([]) then DefaultHints else hints.value
  }

  /** `find_default_serial_port(preferred_substrings)` over the enumerated `ports`. */
  function FindDefaultSerialPort(ports: seq<string>, hints: Option<seq<string>>): Option<string> {
    if ports == [] then None
    else Some(FirstMatch(EffectiveHints(hints), ports).GetOr(ports[0]))
  }

  /** `ports[i]` is where the search stops: the earliest hint with any match, its first matching port. */
  ghost predicate EarliestAt(hints: seq<string>, ports: seq<string>, k: int, i: int) {
    && 0 <= k < |hints| && 0 <= i < |ports|
    && Matches(hints[k], ports[i])
    && (forall j, q :: 0 <= j < k && 0 <= q < |ports| ==> !Matches(hints[j], ports[q]))
    && (forall q :: 0 <= q < i ==> !Matches(hints[k], ports[q]))
  }

  ghost predicate NoMatch(hints: seq<string>, ports: seq<string>) {
    forall j, q :: 0 <= j < |hints| && 0 <= q < |ports| ==> !Matches(hints[j], ports[q])
  }

  lemma {:induction false} FirstPortMatchingIsFirst(hint: string, ports: seq<string>)
    ensures FirstPortMatching(hint, ports).None? <==> forall q :: 0 <= q < |ports| ==> !Matches(hint, ports[q])
    ensures FirstPortMatching(hint, ports).Some? ==>
      exists i :: 0 <= i < |ports| && FirstPortMatching(hint, ports) == Some(ports[i]) && Matches(hint, ports[i]) &&
        forall q :: 0 <= q < i ==> !Matches(hint, ports[q])
    decreases |ports|
  {
    if ports != [] && !Matches(hint, ports[0]) {
      FirstPortMatchingIsFirst(hint, ports[1..]);
      if FirstPortMatching(hint, ports).Some? {
        var i :| 0 <= i < |ports[1..]| && FirstPortMatching(hint, ports[1..]) == Some(ports[1..][i]) &&
          Matches(hint, ports[1..][i]) && forall q :: 0 <= q < i ==> !Matches(hint, ports[1..][q]);
        assert EarliestInPorts(hint, ports, i + 1);
      }
    } else if ports != [] {
      assert EarliestInPorts(hint, ports, 0);
    }
  }

  ghost predicate EarliestInPorts(hint: string, ports: seq<string>, i: int) {
    0 <= i < |ports| && Matches(hint, ports[i]) && forall q :: 0 <= q < i ==> !Matches(hint, ports[q])
  }

  /** The nested search finds nothing exactly when no hint matches any port, and otherwise stops at the earliest pair. */
  lemma {:induction false} FirstMatchIsEarliest(hints: seq<string>, ports: seq<string>)
    ensures FirstMatch(hints, ports).None? <==> NoMatch(hints, ports)
    ensures FirstMatch(hints, ports).Some? ==>
      exists k, i :: EarliestAt(hints, ports, k, i) && FirstMatch(hints, ports) == Some(ports[i])
    decreases |hints|
  {
    if hints != [] {
      FirstPortMatchingIsFirst(hints[0], ports);
      FirstMatchIsEarliest(hints[1..], ports);
      match FirstPortMatching(hints[0], ports)
      case Some(p) =>
        var i :| 0 <= i < |ports| && FirstPortMatching(hints[0], ports) == Some(ports[i]) &&
          Matches(hints[0], ports[i]) && forall q :: 0 <= q < i ==> !Matches(hints[0], ports[q]);
        assert EarliestAt(hints, ports, 0, i);
      case None =>
        if FirstMatch(hints[1..], ports).Some? {
          var k, i :| EarliestAt(hints[1..], ports, k, i) && FirstMatch(hints[1..], ports) == Some(ports[i]);
          assert EarliestAt(hints, ports, k + 1, i);
        } else {
          forall j, q | 0 <= j < |hints| && 0 <= q < |ports| ensures !Matches(hints[j], ports[q]) {
            if j > 0 {
              assert hints[j] == hints[1..][j - 1];
            }
          }
        }
    }
  }

  /** No port means `None`; otherwise the result is always one of the ports. */
  lemma ResultIsAPort(ports: seq<string>, hints: Option<seq<string>>)
    ensures FindDefaultSerialPort(ports, hints).None? <==> ports == []
    ensures FindDefaultSerialPort(ports, hints).Some? ==> FindDefaultSerialPort(ports, hints).value in ports
  {
    if ports != [] {
      FirstMatchIsEarliest(EffectiveHints(hints), ports);
    }
  }

  /** The chosen port is the first port matching the earliest hint that matches anything; with no match it is `ports[0]`. */
  lemma ResultIsEarliestMatch(ports: seq<string>, hints: Option<seq<string>>)
    requires ports != []
    ensures var hs := EffectiveHints(hints);
      && (NoMatch(hs, ports) ==> FindDefaultSerialPort(ports, hints) == Some(ports[0]))
      && (!NoMatch(hs, ports) ==>
            exists k, i :: EarliestAt(hs, ports, k, i) && FindDefaultSerialPort(ports, hints) == Some(ports[i]))
  {
    FirstMatchIsEarliest(EffectiveHints(hints), ports);
  }

  /** Matching ignores ASCII letter case on both sides. */
  lemma MatchIgnoresCase(hint: string, port: string)
    ensures Matches(hint, port) == Matches(Lower(hint), Lower(port))
  {
    LowerIsIdempotent(hint);
    LowerIsIdempotent(port);
  }

  lemma LowerIsIdempotent(s: string)
    ensures Lower(Lower(s)) == Lower(s)
  {
  }
}
