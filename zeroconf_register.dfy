/**
 * backend/utils/zeroconf_register.py: advertising a service over mDNS.
 * The zeroconf daemon is replaced by a trace of the calls made on it; the
 * UDP probe of `detect_local_ip` and the daemon's own failures are oracles.
 */
module ZeroconfRegister {
  import opened Wrappers
  import opened Text
  import opened Bytes
  import Utf8

  const FallbackIp: string := "127.0.0.1"

  /** `detect_local_ip()`: the address the UDP probe reports, or the fallback when it raises `OSError` (`None`). */
  function DetectLocalIp(probe: Option<string>): (ip: string)
    ensures probe.Some? ==> ip == probe.value
    ensures probe.None? ==> ip == FallbackIp
  {
    probe.GetOr(FallbackIp)
  }

  /** `self.address or detect_local_ip()`: the probe is consulted only for a missing or empty address. */
  function ChooseAddress(address: Option<string>, probe: Option<string>): (a: string)
    ensures address.Some? && address.value != "" ==> a == address.value
    ensures address.None? || address.value == "" ==> a == DetectLocalIp(probe)
  {
    if address.Some? && address.value != "" then address.value else DetectLocalIp(probe)
  }

  /** One dotted-quad octet as Python's `ipaddress` reads it: 1 to 3 ASCII digits, no leading zero, at most 255. */
  function ParseOctet(p: string): (r: Option<uint8>)
    ensures r.Some? ==> IsDigits(p) && |p| <= 3 && (|p| > 1 ==> p[0] != '0') && r.value as int == DigitsValue(p)
  {
    if !IsDigits(p) || |p| > 3 || (|p| > 1 && p[0] == '0') then None
    else
      var v := DigitsValue(p);
      if v > 255 then None else Some(v as uint8)
  }

  function ParseOctets(parts: seq<string>): (r: Option<seq<uint8>>)
    ensures r.Some? ==> |r.value| == |parts|
    ensures r.Some? ==> forall k :: 0 <= k < |parts| ==> ParseOctet(parts[k]) == Some(r.value[k])
    decreases |parts|
  {
    if parts == [] then Some([])
    else match (ParseOctet(parts[0]), ParseOctets(parts[1..]))
      case (Some(b), Some(rest)) => Some([b] + rest)
      case _ => None
  }

  /** `ipaddress.ip_address(host).packed` for IPv4 text: exactly four octets, in network byte order. */
  function AddressBytes(host: string): (r: Option<seq<uint8>>)
    ensures r.Some? ==> |r.value| == 4
  {
    var parts := Split(host, '.');
    if |parts| != 4 then None else ParseOctets(parts)
  }

  function DecimalOctets(b: seq<uint8>): (parts: seq<string>)
    ensures |parts| == |b|
    ensures forall k :: 0 <= k < |b| ==> parts[k] == NatToDecimal(b[k] as nat)
  {
    seq(|b|, k requires 0 <= k < |b| => NatToDecimal(b[k] as nat))
  }

  /** The dotted-quad text of four octets; the reference the parser is checked against. */
  function Dotted(b: seq<uint8>): string
    requires |b| == 4
  {
    Join(DecimalOctets(b), ".")
  }

  /** Every four octets have dotted-quad text that reads back as those octets. */
  lemma AddressBytesOfDotted(b: seq<uint8>)
    requires |b| == 4
    ensures AddressBytes(Dotted(b)) == Some(b)
  {
    var parts := DecimalOctets(b);
    forall k | 0 <= k < 4
      ensures '.' !in parts[k] && ParseOctet(parts[k]) == Some(b[k])
    {
      DecimalWidth(b[k] as nat);
      DecimalRoundTrip(b[k] as nat);
      NoDotInDecimal(b[k] as nat);
    }
    SplitOfJoin(parts, '.');
    OctetsOfParsed(parts, b);
  }

  /** The address text that parses is exactly the dotted-quad text of what it parses to. */
  lemma DottedOfAddressBytes(host: string)
    requires AddressBytes(host).Some?
    ensures Dotted(AddressBytes(host).value) == host
  {
    var parts := Split(host, '.');
    var b := AddressBytes(host).value;
    forall k | 0 <= k < 4
      ensures DecimalOctets(b)[k] == parts[k]
    {
      CanonicalDecimal(parts[k]);
    }
    assert DecimalOctets(b) == parts;
    JoinOfSplit(host, '.');
  }

  lemma NoDotInDecimal(n: nat)
    ensures '.' !in NatToDecimal(n)
  {
    var s := NatToDecimal(n);
    assert forall i :: 0 <= i < |s| ==> s[i] != '.';
  }

  lemma {:induction false} OctetsOfParsed(parts: seq<string>, b: seq<uint8>)
    requires |parts| == |b|
    requires forall k :: 0 <= k < |b| ==> ParseOctet(parts[k]) == Some(b[k])
    ensures ParseOctets(parts) == Some(b)
    decreases |b|
  {
    if b != [] {
      OctetsOfParsed(parts[1..], b[1..]);
      assert [b[0]] + b[1..] == b;
    }
  }

  /** The `ServiceInfo` record handed to the daemon. */
  datatype ServiceInfo = ServiceInfo(
    serviceType: string,
    name: string,
    port: int,
    addresses: seq<seq<uint8>>,
    properties: map<string, seq<uint8>>)

  /** `{k: v.encode("utf-8") for k, v in (self.properties or {}).items()}`. */
  function EncodeProperties(props: Option<map<string, string>>): (m: map<string, seq<uint8>>)
    ensures props.None? ==> m == map[]
    ensures props.Some? ==> m.Keys == props.value.Keys
  {
    if props.None? then map[] else map k | k in props.value :: Utf8.Encode(props.value[k])
  }

  /** Every encoded property value decodes back to the text it came from. */
  lemma EncodedPropertiesDecode(props: map<string, string>)
    ensures forall k :: k in EncodeProperties(Some(props)) ==> Utf8.Decode(EncodeProperties(Some(props))[k]) == Some(props[k])
  {
    forall k | k in EncodeProperties(Some(props))
      ensures Utf8.Decode(EncodeProperties(Some(props))[k]) == Some(props[k])
    {
      Utf8.DecodeEncode(props[k]);
    }
  }

  /** The record `register` builds, or `None` when the address is not IPv4 text (`ValueError`). */
  function BuildInfo(name: string, serviceType: string, port: int, props: Option<map<string, string>>, address: string): (r: Option<ServiceInfo>)
    ensures r.None? <==> AddressBytes(address).None?
    ensures r.Some? ==> r.value.serviceType == serviceType && r.value.name == name + "." + serviceType && r.value.port == port
    ensures r.Some? ==> |r.value.addresses| == 1 && |r.value.addresses[0]| == 4 && Dotted(r.value.addresses[0]) == address
    ensures r.Some? ==> r.value.properties == EncodeProperties(props)
  {
    match AddressBytes(address)
    case None => None
    case Some(b) =>
      DottedOfAddressBytes(address);
      Some(ServiceInfo(serviceType, name + "." + serviceType, port, [b], EncodeProperties(props)))
  }

  /** A call made on the zeroconf daemon. */
  datatype DaemonCall = RegisterCall(info: ServiceInfo) | UnregisterCall(info: ServiceInfo) | CloseCall

  /** Why a handle operation raised: a bad address (`ValueError`) or the daemon's own exception. */
  datatype Failure = InvalidAddress | DaemonError

  class ZeroconfHandle {
    const name: string
    const serviceType: string
    const port: int
    const properties: Option<map<string, string>>
    const address: Option<string>
    /** `self._info`: `Some` exactly while the handle counts as registered. */
    var info: Option<ServiceInfo>
    /** Every call made so far on `self.zeroconf`. */
    var calls: seq<DaemonCall>

    /** A stored record always describes this handle's own service and was handed to the daemon. */
    predicate Valid()
      reads this
    {
      info.Some? ==>
        && info.value.serviceType == serviceType
        && info.value.name == name + "." + serviceType
        && info.value.port == port
        && info.value.properties == EncodeProperties(properties)
        && RegisterCall(info.value) in calls
    }

    /** The dataclass constructor plus `__post_init__`: a fresh daemon and no record. */
    constructor (name: string, serviceType: string, port: int, properties: Option<map<string, string>>, address: Option<string>)
      ensures this.name == name && this.serviceType == serviceType && this.port == port
      ensures this.properties == properties && this.address == address
      ensures info.None? && calls == []
      ensures Valid()
    {
      this.name := name;
      this.serviceType := serviceType;
      this.port := port;
      this.properties := properties;
      this.address := address;
      info := None;
      calls := [];
    }

    /**
     * `register()`. Already registered: nothing happens. Otherwise the record
     * is stored before the daemon is called, so a daemon failure leaves it
     * stored and a later `register` does nothing.
     */
    method Register(probe: Option<string>, daemonFails: bool) returns (err: Option<Failure>)
      requires Valid()
      modifies this
      ensures Valid()
      ensures old(info).Some? ==> info == old(info) && calls == old(calls) && err.None?
      ensures old(info).None? ==>
        var built := BuildInfo(name, serviceType, port, properties, ChooseAddress(address, probe));
        if built.None? then info.None? && calls == old(calls) && err == Some(InvalidAddress)
        else
          && info == built
          && calls == old(calls) + [RegisterCall(built.value)]
          && err == (if daemonFails then Some(DaemonError) else None)
    {
      if info.Some? {
        return None;
      }
      var built := BuildInfo(name, serviceType, port, properties, ChooseAddress(address, probe));
      if built.None? {
        return Some(InvalidAddress);
      }
      info := built;
      calls := calls + [RegisterCall(built.value)];
      err := if daemonFails then Some(DaemonError) else None;
    }

    /** `unregister()`: a no-op when unregistered; the record is dropped only when the daemon call returns. */
    method Unregister(daemonFails: bool) returns (err: Option<Failure>)
      requires Valid()
      modifies this
      ensures Valid()
      ensures old(info).None? ==> info.None? && calls == old(calls) && err.None?
      ensures old(info).Some? ==>
        && calls == old(calls) + [UnregisterCall(old(info).value)]
        && (if daemonFails then info == old(info) && err == Some(DaemonError) else info.None? && err.None?)
    {
      if info.None? {
        return None;
      }
      calls := calls + [UnregisterCall(info.value)];
      if daemonFails {
        return Some(DaemonError);
      }
      info := None;
      err := None;
    }

    /** `close()`: `unregister()` inside `try`, and the daemon is closed in `finally` whatever happened. */
    method Close(daemonFails: bool) returns (err: Option<Failure>)
      requires Valid()
      modifies this
      ensures Valid()
      ensures |calls| >= 1 && calls[|calls| - 1] == CloseCall
      ensures old(info).None? ==> info.None? && calls == old(calls) + [CloseCall] && err.None?
      ensures old(info).Some? ==>
        && calls == old(calls) + [UnregisterCall(old(info).value), CloseCall]
        && (if daemonFails then info == old(info) && err == Some(DaemonError) else info.None? && err.None?)
    {
      err := Unregister(daemonFails);
      calls := calls + [CloseCall];
    }
  }

  /** `register_service(...)`: a handle on which `register()` has already run; on `err` the caller gets no handle. */
  method RegisterService(name: string, serviceType: string, port: int, properties: Option<map<string, string>>,
                         address: Option<string>, probe: Option<string>, daemonFails: bool)
    returns (handle: ZeroconfHandle, err: Option<Failure>)
    ensures fresh(handle) && handle.Valid()
    ensures handle.name == name && handle.serviceType == serviceType && handle.port == port
    ensures handle.properties == properties && handle.address == address
    ensures var built := BuildInfo(name, serviceType, port, properties, ChooseAddress(address, probe));
      if built.None? then handle.info.None? && handle.calls == [] && err == Some(InvalidAddress)
      else
        && handle.info == built
        && handle.calls == [RegisterCall(built.value)]
        && err == (if daemonFails then Some(DaemonError) else None)
  {
    handle := new ZeroconfHandle(name, serviceType, port, properties, address);
    err := handle.Register(probe, daemonFails);
  }
}
