/**
 * orchestrator/mdns_discover.py, `discover_first` (lines 14-40): the
 * browser's callback keeps the first added service that resolves. The
 * browse events delivered before the wait ends are an input sequence, each
 * carrying what `get_service_info` answers for it.
 */
module MdnsDiscover {
  import opened Wrappers
  import opened Text

  datatype StateChange = Added | Removed | Updated

  /** The parts of a resolved `ServiceInfo` the result uses. */
  datatype Resolved = Resolved(port: int, addresses: seq<string>)

  /** One callback: service name, state change, and the lookup's answer (`None` when unresolved). */
  datatype BrowseEvent = BrowseEvent(name: string, change: StateChange, lookup: Option<Resolved>)

  /** The dictionary `discover_first` returns for a resolved service. */
  function Record(name: string, info: Resolved): (r: map<string, string>)
    ensures r.Keys == {"name", "port", "addresses"} && r["name"] == name
  {
    map["name" := name, "port" := IntToDecimal(info.port), "addresses" := Join(info.addresses, ",")]
  }

  /** The port text reads back as the port, and comma-free addresses split back out of the joined text. */
  lemma RecordReadsBack(name: string, info: Resolved)
    ensures ParseInt(Record(name, info)["port"]) == Some(info.port)
    ensures |info.addresses| >= 1 && (forall k :: 0 <= k < |info.addresses| ==> ',' !in info.addresses[k]) ==>
      Split(Record(name, info)["addresses"], ',') == info.addresses
  {
    IntToDecimalRoundTrip(info.port);
    if |info.addresses| >= 1 && (forall k :: 0 <= k < |info.addresses| ==> ',' !in info.addresses[k]) {
      SplitOfJoin(info.addresses, ',');
    }
  }

  predicate Wins(e: BrowseEvent) {
    e.change == Added && e.lookup.Some?
  }

  /** The result: the record of the first added event whose lookup resolves. */
  function FirstResolved(events: seq<BrowseEvent>): Option<map<string, string>>
    decreases |events|
  {
    if events == [] then None
    else if Wins(events[0]) then Some(Record(events[0].name, events[0].lookup.value))
    else FirstResolved(events[1..])
  }

  /** The names `get_service_info` is asked about: each added event until one resolves. */
  function Lookups(events: seq<BrowseEvent>): seq<string>
    decreases |events|
  {
    if events == [] then []
    else if events[0].change != Added then Lookups(events[1..])
    else if events[0].lookup.Some? then [events[0].name]
    else [events[0].name] + Lookups(events[1..])
  }

  /**
   * `discover_first`: the callback runs once per event, in order; it acts
   * only on `Added` while nothing is found. The daemon is closed before
   * returning in every outcome.
   */
  method DiscoverFirst(events: seq<BrowseEvent>) returns (found: Option<map<string, string>>, asked: seq<string>, closed: bool)
    ensures found == FirstResolved(events)
    ensures asked == Lookups(events)
    ensures closed
  {
    found := None;
    asked := [];
    closed := false;
    var i := 0;
    while i < |events|
      invariant 0 <= i <= |events|
      invariant found.None? ==> FirstResolved(events) == FirstResolved(events[i..])
      invariant found.None? ==> asked + Lookups(events[i..]) == Lookups(events)
      invariant found.Some? ==> found == FirstResolved(events) && asked == Lookups(events)
    {
      var e := events[i];
      assert events[i..][1..] == events[i + 1..];
      if e.change == Added && found.None? {
        asked := asked + [e.name];
        if e.lookup.Some? {
          found := Some(Record(e.name, e.lookup.value));
        }
      }
      i := i + 1;
    }
    closed := true;
  }

  /** The result is the record of an added, resolved event, and every earlier event loses. */
  lemma {:induction false} FirstResolvedIsFirst(events: seq<BrowseEvent>)
    ensures FirstResolved(events).None? <==> forall k :: 0 <= k < |events| ==> !Wins(events[k])
    ensures FirstResolved(events).Some? ==>
      exists i :: 0 <= i < |events| && Wins(events[i])
        && (forall k :: 0 <= k < i ==> !Wins(events[k]))
        && FirstResolved(events) == Some(Record(events[i].name, events[i].lookup.value))
    decreases |events|
  {
    if events != [] && !Wins(events[0]) {
      FirstResolvedIsFirst(events[1..]);
      if FirstResolved(events).Some? {
        var i :| 0 <= i < |events[1..]| && Wins(events[1..][i])
          && (forall k :: 0 <= k < i ==> !Wins(events[1..][k]))
          && FirstResolved(events[1..]) == Some(Record(events[1..][i].name, events[1..][i].lookup.value));
        assert Wins(events[i + 1]);
      }
    } else if events != [] {
      assert Wins(events[0]);
    }
  }

  /** Once a service has won, later events never change the result. */
  lemma {:induction false} LaterEventsIgnored(events: seq<BrowseEvent>, later: seq<BrowseEvent>)
    requires FirstResolved(events).Some?
    ensures FirstResolved(events + later) == FirstResolved(events)
    decreases |events|
  {
    if !Wins(events[0]) {
      assert (events + later)[1..] == events[1..] + later;
      LaterEventsIgnored(events[1..], later);
    }
  }

  /** Only `Added` changes can set the result: inserting removals and updates anywhere changes nothing. */
  lemma {:induction false} OnlyAddedCounts(before: seq<BrowseEvent>, other: BrowseEvent, after: seq<BrowseEvent>)
    requires other.change != Added
    ensures FirstResolved(before + [other] + after) == FirstResolved(before + after)
    ensures Lookups(before + [other] + after) == Lookups(before + after)
    decreases |before|
  {
    if before == [] {
      assert before + [other] + after == [other] + after;
      assert before + after == after;
      assert ([other] + after)[1..] == after;
    } else {
      assert (before + [other] + after)[1..] == before[1..] + [other] + after;
      assert (before + after)[1..] == before[1..] + after;
      OnlyAddedCounts(before[1..], other, after);
    }
  }

  /** An added event that does not resolve records nothing, so a later event can still win. */
  lemma UnresolvedAddIsSkipped(e: BrowseEvent, rest: seq<BrowseEvent>)
    requires e.change == Added && e.lookup.None?
    ensures FirstResolved([e] + rest) == FirstResolved(rest)
    ensures Lookups([e] + rest) == [e.name] + Lookups(rest)
  {
    assert ([e] + rest)[1..] == rest;
  }
}
