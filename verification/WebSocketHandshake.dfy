/**
 Rewriting a client's WebSocket handshake for the gateway.
 */
module WebSocketHandshake {
  import opened Text
  import opened HttpReader
  import opened HeaderRules
  import opened FieldLists

  /** A header map: lower-case name to its values in order. */
  type HeaderMap = map<string, seq<string>>

  function Values(m: HeaderMap, name: string): seq<string> {
    if name in m then m[name] else []
  }

  /** What the HTTP library accepts as a header name and as a header value. */
  datatype HeaderSyntax = HeaderSyntax(validName: string -> bool, validValue: string -> bool)

  datatype HandshakeError = NotBuilt | InvalidHeaderName | InvalidHeaderValue | InvalidCredential | InvalidHost

  predicate Copies(name: string, nominated: set<string>) {
    && (Lower(name) in nominated ==> IsWebSocketHandshake(name))
    && Lower(name) != "sec-websocket-extensions"
    && (IsWebSocketHandshake(name) || ForwardsToGateway(name, true))
  }

  lemma CopiesByLowerName(name: string, nominated: set<string>)
    ensures Copies(name, nominated) == Copies(Lower(name), nominated)
  {
    LowerTwice(name);
  }

  /** The client's values for the lower-case `name`, in the order sent. */
  function ClientValues(headers: Headers, name: string): seq<string> {
    if headers == [] then []
    else
      var last := headers[|headers| - 1];
      ClientValues(headers[..|headers| - 1], name) + if Lower(last.0) == name then [last.1] else []
  }

  predicate Sends(headers: Headers, name: string) {
    exists i :: 0 <= i < |headers| && Lower(headers[i].0) == name
  }

  lemma {:induction false} NothingSent(headers: Headers, name: string)
    ensures ClientValues(headers, name) == [] <==> !Sends(headers, name)
  {
    if headers != [] {
      var front, last := headers[..|headers| - 1], headers[|headers| - 1];
      NothingSent(front, name);
      if Sends(headers, name) && Lower(last.0) != name {
        var i :| 0 <= i < |headers| && Lower(headers[i].0) == name;
        assert front[i] == headers[i];
      }
      if Sends(front, name) {
        var i :| 0 <= i < |front| && Lower(front[i].0) == name;
        assert headers[i] == front[i];
      }
    }
  }

  /** Which client headers the handshake is refused for. */
  predicate Acceptable(headers: Headers, syntax: HeaderSyntax) {
    forall h :: h in headers && Copies(h.0, Nominated(headers)) ==> syntax.validName(h.0) && syntax.validValue(h.1)
  }

  /** Names the proxy sets itself. */
  const OWN_HEADERS: set<string> := {"authorization", "host", PROOF_HEADER}

  /** What the gateway gets for a name the proxy does not set itself: all of the client's
      values if the client sent the name and it crosses, else the generated default. */
  function Outgoing(defaults: HeaderMap, headers: Headers, name: string): seq<string> {
    if Sends(headers, name) && Copies(name, Nominated(headers)) then ClientValues(headers, name)
    else Values(defaults, name)
  }

  /** The client's headers that cross, over the generated ones. The first value of a
      name replaces the generated default, later ones are appended. */
  method CopyHeaders(defaults: HeaderMap, incoming: Headers, syntax: HeaderSyntax)
    returns (r: Result<HeaderMap, HandshakeError>)
    ensures r.Ok? <==> Acceptable(incoming, syntax)
    ensures r.Ok? ==> forall name :: Values(r.value, name) == Outgoing(defaults, incoming, name)
  {
    var nominated := Nominated(incoming);
    hide *;
    var upstream, copied := defaults, {};
    CopiedNone(defaults, nominated);
    var i := 0;
    while i < |incoming|
      invariant i <= |incoming|
      invariant forall j :: 0 <= j < i && Copies(incoming[j].0, nominated) ==>
        syntax.validName(incoming[j].0) && syntax.validValue(incoming[j].1)
      invariant CopiedSoFar(upstream, copied, defaults, incoming[..i], nominated)
    {
      var (name, value) := incoming[i];
      assert incoming[..i + 1] == incoming[..i] + [(name, value)];
      CopiedStep(upstream, copied, defaults, incoming[..i], (name, value), nominated);
      if Copies(name, nominated) {
        if !syntax.validName(name) {
          NotAcceptable(incoming, i, syntax);
          return Err(InvalidHeaderName);
        }
        if !syntax.validValue(value) {
          NotAcceptable(incoming, i, syntax);
          return Err(InvalidHeaderValue);
        }
        upstream := AppendCopied(upstream, Lower(name), value, copied);
        copied := copied + {Lower(name)};
      }
      i := i + 1;
    }
    assert incoming[..i] == incoming;
    CopiedAll(upstream, copied, defaults, incoming, syntax);
    return Ok(upstream);
  }

  ghost predicate CopiedSoFar(
    upstream: HeaderMap, copied: set<string>, defaults: HeaderMap, seen: Headers, nominated: set<string>)
  {
    && (forall name :: name in copied <==> Sends(seen, name) && Copies(name, nominated))
    && (forall name :: Values(upstream, name)
                    == if name in copied then ClientValues(seen, name) else Values(defaults, name))
  }

  lemma CopiedNone(defaults: HeaderMap, nominated: set<string>)
    ensures CopiedSoFar(defaults, {}, defaults, [], nominated)
  {
  }

  lemma CopiedStep(
    upstream: HeaderMap, copied: set<string>, defaults: HeaderMap, seen: Headers, h: (string, string),
    nominated: set<string>)
    requires CopiedSoFar(upstream, copied, defaults, seen, nominated)
    ensures if Copies(h.0, nominated)
            then CopiedSoFar(AppendCopied(upstream, Lower(h.0), h.1, copied), copied + {Lower(h.0)},
                             defaults, seen + [h], nominated)
            else CopiedSoFar(upstream, copied, defaults, seen + [h], nominated)
  {
    hide Copies, Lower, ClientValues, Sends, AppendCopied, Values;
    CopiesByLowerName(h.0, nominated);
    OneMore(seen, h);
    NothingSent(seen, Lower(h.0));
  }

  lemma CopiedAll(
    upstream: HeaderMap, copied: set<string>, defaults: HeaderMap, incoming: Headers, syntax: HeaderSyntax)
    requires CopiedSoFar(upstream, copied, defaults, incoming, Nominated(incoming))
    requires forall j :: 0 <= j < |incoming| && Copies(incoming[j].0, Nominated(incoming)) ==>
      syntax.validName(incoming[j].0) && syntax.validValue(incoming[j].1)
    ensures Acceptable(incoming, syntax)
    ensures forall name :: Values(upstream, name) == Outgoing(defaults, incoming, name)
  {
    hide Copies, Lower, ClientValues, Sends, Nominated;
  }

  lemma NotAcceptable(incoming: Headers, i: nat, syntax: HeaderSyntax)
    requires i < |incoming| && Copies(incoming[i].0, Nominated(incoming))
    requires !syntax.validName(incoming[i].0) || !syntax.validValue(incoming[i].1)
    ensures !Acceptable(incoming, syntax)
  {
    hide Copies, Nominated;
    assert incoming[i] in incoming;
  }

  function AppendCopied(m: HeaderMap, name: string, value: string, copied: set<string>): (r: HeaderMap)
    ensures Values(r, name) == (if name in copied then Values(m, name) else []) + [value]
    ensures forall other :: other != name ==> Values(r, other) == Values(m, other)
  {
    var cleared := if name in copied then m else m - {name};
    cleared[name := Values(cleared, name) + [value]]
  }

  /** `generated` is the library's request for the URL, if it builds one, `proof` the signature
      header for it, if there is one. */
  method BuildWebSocketRequest(
    generated: Option<HeaderMap>, incoming: Headers, gatewayKey: string, authority: string,
    proof: Option<string>, syntax: HeaderSyntax) returns (r: Result<HeaderMap, HandshakeError>)
    ensures r.Ok? <==> && generated.Some? && Acceptable(incoming, syntax)
                       && syntax.validValue("Bearer " + gatewayKey) && syntax.validValue(authority)
    ensures r.Ok? ==> forall name :: name !in OWN_HEADERS ==>
      Values(r.value, name) == Outgoing(generated.value, incoming, name)
    ensures r.Ok? && AllPlain(FieldValues(incoming, "connection")) ==>
      forall name :: name !in OWN_HEADERS && name != "" ==>
        Values(r.value, name) ==
        if Sends(incoming, name)
           && (name in HANDSHAKE || (name !in Combined(FieldValues(incoming, "connection")) && name !in STAYS_BEHIND))
        then ClientValues(incoming, name) else Values(generated.value, name)
    ensures r.Ok? ==> Values(r.value, "authorization") == ["Bearer " + gatewayKey]
    ensures r.Ok? ==> Values(r.value, "host") == [authority]
    ensures r.Ok? ==> (Values(r.value, PROOF_HEADER) ==
      if proof.Some? && syntax.validValue(proof.value) then [proof.value] else Values(generated.value, PROOF_HEADER))
  {
    if AllPlain(FieldValues(incoming, "connection")) && generated.Some? {
      OutgoingIs(generated.value, incoming);
    }
    ProofIsNotCopied(Nominated(incoming));
    hide AllPlain, FieldValues, Combined, HANDSHAKE, STAYS_BEHIND, Acceptable, Copies, Nominated, ClientValues, Sends;
    if generated.None? {
      return Err(NotBuilt);
    }
    var defaults := generated.value;
    r := CopyHeaders(defaults, incoming, syntax);
    if r.Err? {
      return;
    }
    var upstream := r.value;
    assert Values(upstream, PROOF_HEADER) == Values(defaults, PROOF_HEADER);
    assert "authorization" != "host" && "authorization" != PROOF_HEADER && "host" != PROOF_HEADER;
    if !syntax.validValue("Bearer " + gatewayKey) {
      return Err(InvalidCredential);
    }
    upstream := upstream["authorization" := ["Bearer " + gatewayKey]];
    if !syntax.validValue(authority) {
      return Err(InvalidHost);
    }
    upstream := upstream["host" := [authority]];
    if proof.Some? && syntax.validValue(proof.value) {
      upstream := upstream[PROOF_HEADER := [proof.value]];
    }
    return Ok(upstream);
  }

  lemma OneMore(seen: Headers, h: (string, string))
    ensures forall name :: Sends(seen + [h], name) <==> Sends(seen, name) || Lower(h.0) == name
    ensures forall name :: ClientValues(seen + [h], name)
                        == ClientValues(seen, name) + if Lower(h.0) == name then [h.1] else []
  {
    hide Lower;
    var now := seen + [h];
    assert now[..|seen|] == seen && now[|seen|] == h;
    forall name ensures Sends(now, name) <==> Sends(seen, name) || Lower(h.0) == name {
      if Sends(seen, name) {
        var i :| 0 <= i < |seen| && Lower(seen[i].0) == name;
        assert now[i] == seen[i];
      }
    }
  }

  lemma ProofIsNotCopied(nominated: set<string>)
    ensures !Copies(PROOF_HEADER, nominated)
  {
    assert Lower(PROOF_HEADER) == PROOF_HEADER;
  }

  // ---- what is nominated ------------------------------------------------

  /** A name is nominated exactly when the `Connection` lines together list it. */
  lemma NominatedIff(headers: Headers, name: string)
    requires name != "" && AllPlain(FieldValues(headers, "connection"))
    ensures name in Nominated(headers) <==> name in Combined(FieldValues(headers, "connection"))
  {
    CombinedIs(FieldValues(headers, "connection"), name);
    hide Lower, Trim, Split, Combined, PlainValue;
    var lines := FieldValues(headers, "connection");
    ValuesAre(headers, "connection");
    if name in Nominated(headers) {
      var i, part :| 0 <= i < |headers| && Lower(headers[i].0) == "connection"
                     && part in Split(headers[i].1, {','}) && Lower(Trim(part)) == name;
      assert headers[i].1 in lines && Lists(headers[i].1, name);
    }
    if v :| v in lines && Lists(v, name) {
      var i :| 0 <= i < |headers| && Lower(headers[i].0) == "connection" && headers[i].1 == v;
      assert headers[i].1 == v;
    }
  }

  lemma {:induction false} ValuesAre(headers: Headers, name: string)
    ensures forall v :: v in FieldValues(headers, name) <==>
      exists i :: 0 <= i < |headers| && Lower(headers[i].0) == name && headers[i].1 == v
    decreases |headers|
  {
    hide Lower;
    if headers != [] {
      var more := headers[1..];
      ValuesAre(more, name);
      forall v ensures v in FieldValues(headers, name) <==>
        exists i :: 0 <= i < |headers| && Lower(headers[i].0) == name && headers[i].1 == v
      {
        if v in FieldValues(more, name) {
          var i :| 0 <= i < |more| && Lower(more[i].0) == name && more[i].1 == v;
          assert headers[i + 1] == more[i];
        }
        if i :| 0 <= i < |headers| && Lower(headers[i].0) == name && headers[i].1 == v {
          assert i > 0 ==> more[i - 1] == headers[i];
        }
      }
    }
  }

  lemma {:induction false} SentIsLower(headers: Headers, name: string)
    requires Sends(headers, name)
    ensures Lower(name) == name
  {
    var i :| 0 <= i < |headers| && Lower(headers[i].0) == name;
    LowerTwice(headers[i].0);
  }

  /** What the gateway gets, stated over the lines the client sent. */
  lemma OutgoingIs(defaults: HeaderMap, headers: Headers)
    requires AllPlain(FieldValues(headers, "connection"))
    ensures forall name :: name != "" ==>
      Outgoing(defaults, headers, name) ==
      if Sends(headers, name)
         && (name in HANDSHAKE || (name !in Combined(FieldValues(headers, "connection")) && name !in STAYS_BEHIND))
      then ClientValues(headers, name) else Values(defaults, name)
  {
    hide Lower, Combined, FieldValues, Nominated, Copies, HANDSHAKE, STAYS_BEHIND, Sends, ClientValues, Values,
         AllPlain;
    forall name | name != ""
      ensures Outgoing(defaults, headers, name) ==
        if Sends(headers, name)
           && (name in HANDSHAKE || (name !in Combined(FieldValues(headers, "connection")) && name !in STAYS_BEHIND))
        then ClientValues(headers, name) else Values(defaults, name)
    {
      NominatedIff(headers, name);
      CopiedExactly(name, Nominated(headers));
      if Sends(headers, name) {
        SentIsLower(headers, name);
      }
    }
  }

  const HANDSHAKE: set<string> :=
    {"connection", "upgrade", "sec-websocket-key", "sec-websocket-version", "sec-websocket-protocol"}

  const STAYS_BEHIND: set<string> := {
    "authorization", "cookie", "host", PROOF_HEADER, "sec-websocket-extensions", "content-length", "transfer-encoding",
    "keep-alive", "te", "trailer", "proxy-authenticate", "proxy-authorization", "proxy-connection"}

  /** What crosses, however it is spelled: the handshake itself, nominated or not, and whatever
      else is neither nominated by `Connection` nor one of the names that stay behind, the
      client's own credentials, cookies, proof and extension offer among them. */
  lemma CopiedExactly(name: string, nominated: set<string>)
    ensures Copies(name, nominated) <==>
      Lower(name) in HANDSHAKE || (Lower(name) !in nominated && Lower(name) !in STAYS_BEHIND)
  {
    hide Lower;
    HandshakeIsFive(name);
    if Lower(name) !in HANDSHAKE && Lower(name) != "sec-websocket-extensions" {
      GatewayNames(name);
    }
    assert "sec-websocket-extensions" in STAYS_BEHIND;
    ExtensionsAreNotHandshake();
  }

  lemma HandshakeIsFive(name: string)
    ensures IsWebSocketHandshake(name) <==> Lower(name) in HANDSHAKE || Lower(name) == "sec-websocket-extensions"
  {
    hide Lower;
  }

  lemma GatewayNames(name: string)
    requires Lower(name) !in HANDSHAKE && Lower(name) != "sec-websocket-extensions"
    ensures ForwardsToGateway(name, true) <==> Lower(name) !in STAYS_BEHIND
  {
    hide Lower;
  }

  lemma ExtensionsAreNotHandshake()
    ensures "sec-websocket-extensions" !in HANDSHAKE
  {
    assert |"sec-websocket-extensions"| == 24;
  }
}
