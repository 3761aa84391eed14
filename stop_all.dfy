/**
 * scripts/stop_all.py: stopping the processes recorded in the PID registry.
 * The kernel's answer to each `os.kill` call is an oracle: the signal is
 * delivered, the process does not exist (`ProcessLookupError`), or the call
 * fails in another way (`PermissionError` or any other `OSError`).
 */
module StopAll {
  import opened Wrappers

  datatype Signal = SigTerm | SigProbe | SigKill

  /** One `os.kill(pid, sig)` call. */
  datatype KillCall = KillCall(pid: int, sig: Signal)

  /** The kernel's answer to one `os.kill` call. */
  datatype KillAnswer = Delivered | NoSuchProcess | Denied

  /** What the kernel answers for one process at SIGTERM, at the probe (signal 0) and at SIGKILL. */
  datatype ProcessFate = ProcessFate(atTerm: KillAnswer, atProbe: KillAnswer, atKill: KillAnswer)

  /** The signals `stop_process` sends, in order, whether or not the last one raises. */
  function StopSignals(fate: ProcessFate): seq<Signal> {
    if fate.atTerm != Delivered then [SigTerm]
    else if fate.atProbe != Delivered then [SigTerm, SigProbe]
    else [SigTerm, SigProbe, SigKill]
  }

  /**
   * Whether `stop_process` raises: only `ProcessLookupError` is caught, and
   * only around SIGTERM and the probe; the SIGKILL call catches nothing.
   */
  predicate Raises(fate: ProcessFate) {
    fate.atTerm == Denied
    || (fate.atTerm == Delivered && fate.atProbe == Denied)
    || (fate.atTerm == Delivered && fate.atProbe == Delivered && fate.atKill != Delivered)
  }

  /**
   * `stop_process(pid)`: SIGTERM, return on `ProcessLookupError`, sleep, probe,
   * return on `ProcessLookupError`, SIGKILL; any other failure propagates.
   */
  method StopProcess(pid: int, fate: ProcessFate) returns (sent: seq<Signal>, raised: bool)
    ensures sent == StopSignals(fate) && raised == Raises(fate)
    ensures 1 <= |sent| <= 3 && sent == [SigTerm, SigProbe, SigKill][..|sent|]
    ensures |sent| == 1 <==> fate.atTerm != Delivered
    ensures SigKill in sent <==> fate.atTerm == Delivered && fate.atProbe == Delivered
    ensures !raised && SigKill in sent ==> fate.atKill == Delivered
    ensures fate.atTerm == NoSuchProcess ==> !raised
  {
    sent := [SigTerm];
    if fate.atTerm != Delivered {
      raised := fate.atTerm == Denied;
      return;
    }
    sent := sent + [SigProbe];
    if fate.atProbe != Delivered {
      raised := fate.atProbe == Denied;
      return;
    }
    sent := sent + [SigKill];
    raised := fate.atKill != Delivered;
  }

  /**
   * The calls made for the registry entries from `from` on, in registry order;
   * the entry whose `stop_process` raises is the last one signalled.
   */
  function Calls(entries: seq<(string, int)>, fates: nat -> ProcessFate, from: nat): seq<KillCall>
    requires from <= |entries|
    decreases |entries| - from
  {
    if from == |entries| then []
    else
      var rest := if Raises(fates(from)) then [] else Calls(entries, fates, from + 1);
      ToCalls(entries[from].1, StopSignals(fates(from))) + rest
  }

  function ToCalls(pid: int, sigs: seq<Signal>): (calls: seq<KillCall>)
    ensures |calls| == |sigs|
    ensures forall i :: 0 <= i < |sigs| ==> calls[i] == KillCall(pid, sigs[i])
  {
    seq(|sigs|, i requires 0 <= i < |sigs| => KillCall(pid, sigs[i]))
  }

  /** No entry from `from` up to (not including) `upTo` makes `stop_process` raise. */
  predicate NoneRaise(fates: nat -> ProcessFate, from: nat, upTo: nat) {
    forall m :: from <= m < upTo ==> !Raises(fates(m))
  }

  /**
   * `main()`: with no registry file nothing is signalled and nothing removed.
   * Otherwise the entries are stopped in registry order; the first entry whose
   * `stop_process` raises ends `main()`, so later entries are not signalled and
   * the file is removed only when no entry raised.
   * `fates(i)` is the kernel's answer for the i-th entry.
   */
  method StopRegistered(registry: Option<seq<(string, int)>>, fates: nat -> ProcessFate)
    returns (calls: seq<KillCall>, removed: bool)
    ensures registry.None? ==> calls == [] && !removed
    ensures registry.Some? ==> calls == Calls(registry.value, fates, 0)
    ensures registry.Some? ==> (removed <==> NoneRaise(fates, 0, |registry.value|))
  {
    if registry.None? {
      return [], false;
    }
    var entries := registry.value;
    calls := [];
    var i := 0;
    while i < |entries|
      invariant 0 <= i <= |entries|
      invariant NoneRaise(fates, 0, i)
      invariant calls + Calls(entries, fates, i) == Calls(entries, fates, 0)
    {
      var sent, raised := StopProcess(entries[i].1, fates(i));
      var head := ToCalls(entries[i].1, sent);
      if raised {
        assert Calls(entries, fates, i) == head + [];
        assert !NoneRaise(fates, 0, |entries|) by { assert Raises(fates(i)); }
        return calls + head, false;
      }
      assert Calls(entries, fates, i) == head + Calls(entries, fates, i + 1);
      assert calls + Calls(entries, fates, i) == (calls + head) + Calls(entries, fates, i + 1);
      calls := calls + head;
      i := i + 1;
    }
    removed := true;
  }

  /**
   * Call `c` is made for entry `i`: it targets that entry's pid, no entry from
   * `from` before `i` raised, and a SIGKILL means the process was signalled and
   * outlived the probe.
   */
  predicate FromEntry(entries: seq<(string, int)>, fates: nat -> ProcessFate, from: nat, i: nat, c: KillCall) {
    from <= i < |entries| && entries[i].1 == c.pid && NoneRaise(fates, from, i)
    && (c.sig == SigKill ==> fates(i).atTerm == Delivered && fates(i).atProbe == Delivered)
  }

  ghost predicate CallFromEntry(entries: seq<(string, int)>, fates: nat -> ProcessFate, from: nat, c: KillCall) {
    exists i: nat :: from <= i < |entries| && FromEntry(entries, fates, from, i, c)
  }

  /**
   * Every call goes to a registered pid whose earlier entries did not raise,
   * and SIGKILL only to a pid whose process was signalled and outlived the probe.
   */
  lemma {:induction false} CallsTargetRegisteredPids(entries: seq<(string, int)>, fates: nat -> ProcessFate, from: nat)
    requires from <= |entries|
    ensures |Calls(entries, fates, from)| <= 3 * (|entries| - from)
    ensures forall c :: c in Calls(entries, fates, from) ==> CallFromEntry(entries, fates, from, c)
    decreases |entries| - from
  {
    if from < |entries| {
      CallsTargetRegisteredPids(entries, fates, from + 1);
      var head := ToCalls(entries[from].1, StopSignals(fates(from)));
      forall c | c in head
        ensures CallFromEntry(entries, fates, from, c)
      {
        var k :| 0 <= k < |head| && head[k] == c;
        assert FromEntry(entries, fates, from, from, c);
      }
      if !Raises(fates(from)) {
        forall c | c in Calls(entries, fates, from + 1)
          ensures CallFromEntry(entries, fates, from, c)
        {
          var i :| from + 1 <= i < |entries| && FromEntry(entries, fates, from + 1, i, c);
          assert FromEntry(entries, fates, from, i, c);
        }
      }
    }
  }
}
