/**
 Which headers cross the proxy. Names compare without ASCII case.
 */
module HeaderRules {
  import opened Text
  import opened HttpReader

  const PROOF_HEADER: string := "x-saiai-client-proof"

  predicate IsHopByHop(name: string) {
    Lower(name) in {
      "connection", "keep-alive", "proxy-authenticate", "proxy-authorization",
      "te", "trailer", "transfer-encoding", "upgrade"}
  }

  predicate ForwardsResponseHeader(name: string) {
    !IsHopByHop(name) && Lower(name) != "content-length" && Lower(name) != "transfer-encoding"
  }

  predicate ForwardsRequestHeader(name: string) {
    && !IsHopByHop(name)
    && Lower(name) !in {
      PROOF_HEADER, "host", "content-length", "transfer-encoding", "proxy-authorization", "proxy-connection"}
  }

  /** `replaceAuthorization`: the gateway credential is substituted, so the caller's
      own credentials stay behind. */
  predicate ForwardsToGateway(name: string, replaceAuthorization: bool) {
    ForwardsRequestHeader(name)
    && !(replaceAuthorization && Lower(name) in {"authorization", "cookie"})
  }

  predicate IsWebSocketHandshake(name: string) {
    Lower(name) in {
      "connection", "upgrade", "sec-websocket-key", "sec-websocket-version",
      "sec-websocket-extensions", "sec-websocket-protocol"}
  }

  /** Names that `Connection` headers nominate as belonging to this hop only. */
  function Nominated(headers: Headers): set<string> {
    set i, part | 0 <= i < |headers| && Lower(headers[i].0) == "connection"
                  && part in Split(headers[i].1, {','}) :: Lower(Trim(part))
  }
}
