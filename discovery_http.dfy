/**
 * backend/utils/discovery_http.py: the body of `GET /_discover`. The three
 * resolver callables are given as the values they return.
 */
module DiscoveryHttp {
  import opened Wrappers
  import opened Json

  /** `payload = {"host": host, "port": port}` then `payload.update(extra)` when an extra callable exists. */
  method Discover(host: string, port: int, extra: Option<map<string, Json>>) returns (payload: map<string, Json>)
    ensures extra.None? ==> payload == map["host" := JStr(host), "port" := JNum(port)]
    ensures payload.Keys == {"host", "port"} + (if extra.Some? then extra.value.Keys else {})
    ensures extra.Some? ==> forall k :: k in extra.value ==> payload[k] == extra.value[k]
    ensures extra.None? || "host" !in extra.value ==> payload["host"] == JStr(host)
    ensures extra.None? || "port" !in extra.value ==> payload["port"] == JNum(port)
  {
    payload := map["host" := JStr(host), "port" := JNum(port)];
    if extra.Some? {
      payload := payload + extra.value;
    }
  }
}
