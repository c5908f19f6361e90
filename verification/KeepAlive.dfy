/**
 Framing over a whole connection: well-formed requests sent back to back, however
 their senders spell them, are read one by one, each exactly as sent, none of their
 bytes left over or borrowed from the next.
 */
module KeepAlive {
  import opened Text
  import opened HttpReader
  import opened MessageSyntax
  import opened FieldLists
  import opened MessageFraming
  import opened ConnectionEnd

  // ---- requests as a client sends them -----------------------------------

  datatype Content = Plain(body: string) | InChunks(text: ChunkedText)

  datatype Sent = Sent(httpMethod: string, target: string, version: string, fields: seq<Field>, content: Content)

  function RequestLine(s: Sent): string {
    s.httpMethod + " " + s.target + " " + s.version + "\r\n"
  }

  function ContentBytes(content: Content): string {
    match content
    case Plain(body) => body
    case InChunks(text) => ChunkedBytes(text)
  }

  function BodyOf(content: Content): string {
    match content
    case Plain(body) => body
    case InChunks(text) => Payload(text.chunks)
  }

  function Wire(s: Sent): string {
    RequestLine(s) + FieldLines(s.fields) + "\r\n" + ContentBytes(s.content)
  }

  function RequestOf(s: Sent): IncomingRequest {
    IncomingRequest(s.httpMethod, s.target, s.version, HeadersOf(s.fields), BodyOf(s.content))
  }

  predicate GoodToken(token: string) {
    token != "" && Solid(token)
  }

  /** The content is what the header fields announce. */
  predicate GoodContent(s: Sent) {
    && |BodyOf(s.content)| <= 268_435_456
    && match SenderFraming(HeadersOf(s.fields))
       case Chunked => s.content.InChunks? && GoodChunkedText(s.content.text)
       case Length(n) => s.content.Plain? && |s.content.body| == n
       case NoBody => s.content == Plain("")
       case Unclear => false
  }

  predicate GoodHead(s: Sent) {
    && GoodToken(s.httpMethod) && GoodToken(s.target) && GoodToken(s.version) && StartsWith(s.version, "HTTP/")
    && GoodLine(RequestLine(s)) && GoodFields(s.fields)
    && |RequestLine(s)| + |FieldLines(s.fields)| + 2 <= 262_144
  }

  predicate WellFormed(s: Sent) {
    GoodHead(s) && GoodContent(s)
  }

  function HeadBytes(s: Sent): string {
    RequestLine(s) + FieldLines(s.fields) + "\r\n"
  }

  /** Chunked, if used, is listed on the first `Transfer-Encoding` line. */
  predicate FirstLineDecides(s: Sent) {
    var codings := FieldValues(HeadersOf(s.fields), "transfer-encoding");
    codings == [] || FirstLists(codings, "chunked")
  }

  // ---- the request line ---------------------------------------------------

  lemma SolidHasNoLineFeed(s: string)
    requires Solid(s)
    ensures '\n' !in s
  {
    forall i | 0 <= i < |s| ensures s[i] != '\n' {
      assert s[i..][0] == s[i] && SpaceAtStart(s[i..]) == 0;
    }
  }

  lemma RequestLineSplits(s: Sent)
    requires GoodToken(s.httpMethod) && GoodToken(s.target) && GoodToken(s.version)
    ensures SplitWhitespace(RequestLine(s)) == [s.httpMethod, s.target, s.version]
  {
    hide SplitWhitespace, Solid;
    var fromVersion := s.version + "\r\n";
    var fromTarget := s.target + (" " + fromVersion);
    assert RequestLine(s) == s.httpMethod + (" " + fromTarget);
    TokenThenRest(s.httpMethod, " " + fromTarget);
    SplitsAtSpace(s.httpMethod, fromTarget);
    TokenThenRest(s.target, " " + fromVersion);
    SplitsAtSpace(s.target, fromVersion);
    TokenThenRest(s.version, "\r\n");
    SplitsAtLineEnd(s.version);
  }

  lemma TokenThenRest(token: string, rest: string)
    requires Solid(token) && rest != "" && rest[0] < '\U{80}'
    ensures SplitWhitespace(token + rest) == SplitWhitespace(rest, token)
  {
    SplitWhitespaceToken(token, rest, "");
    assert "" + token == token;
  }

  lemma SplitsAtSpace(token: string, rest: string)
    requires token != ""
    ensures SplitWhitespace(" " + rest, token) == [token] + SplitWhitespace(rest, "")
  {
    assert (" " + rest)[1..] == rest;
  }

  lemma SplitsAtLineEnd(token: string)
    requires token != ""
    ensures SplitWhitespace("\r\n", token) == [token]
  {
    assert "\r\n"[1..] == "\n" && "\n"[1..] == "";
    assert SplitWhitespace("\n", "") == SplitWhitespace("", "");
  }

  lemma RequestLineIs(s: Sent, rest: string)
    requires GoodToken(s.httpMethod) && GoodToken(s.target) && GoodToken(s.version) && GoodLine(RequestLine(s))
    ensures ReadLine(RequestLine(s) + rest) == Got(RequestLine(s), rest)
  {
    hide ReadLine, GoodLine, Solid;
    SolidHasNoLineFeed(s.httpMethod);
    SolidHasNoLineFeed(s.target);
    SolidHasNoLineFeed(s.version);
    CrlfLineIs(s.httpMethod + " " + s.target + " " + s.version, rest);
  }

  // ---- one request ------------------------------------------------------

  lemma ContentReadsBack(s: Sent, tail: string)
    requires GoodContent(s) && FirstLineDecides(s)
    ensures ReadBody(ContentBytes(s.content) + tail, HeadersOf(s.fields), MAX_REQUEST_BODY_BYTES)
         == Got(BodyOf(s.content), tail)
  {
    hide ReadChunks, ReadBody, SenderFraming, ReaderFraming, GoodChunkedText, FirstLists, ChunkedBytes, Payload;
    var headers, input := HeadersOf(s.fields), ContentBytes(s.content) + tail;
    SenderIsFollowedIff(headers);
    ReadBodyFollows(input, headers, MAX_REQUEST_BODY_BYTES);
    match s.content {
      case Plain(body) =>
        assert input[..|body|] == body && input[|body|..] == tail;
        assert body == "" ==> input == tail;
      case InChunks(text) =>
        ChunkedReadsBack(text, tail, MAX_REQUEST_BODY_BYTES, "");
        assert "" + Payload(text.chunks) == Payload(text.chunks);
    }
  }

  lemma ContentIsMisread(s: Sent, tail: string)
    requires GoodContent(s) && !FirstLineDecides(s)
    ensures ReadBody(ContentBytes(s.content) + tail, HeadersOf(s.fields), MAX_REQUEST_BODY_BYTES)
         != Got(BodyOf(s.content), tail)
  {
    hide ReadChunks, ReadBody, FieldValues, Combined, EndsInChunked, HeaderContains, HeaderValue, GoodChunkedText,
         FirstLists, ChunkedBytes, Payload, ParseUnsigned;
    var headers, bytes := HeadersOf(s.fields), ContentBytes(s.content);
    var input := bytes + tail;
    ReaderSeesFirstLine(headers, "transfer-encoding", "chunked");
    ReadBodyFollows(input, headers, MAX_REQUEST_BODY_BYTES);
    PayloadIsShorter(s.content.text);
  }

  lemma HeadReadsAs(s: Sent, rest: string)
    requires GoodHead(s)
    ensures ReadRequest(HeadBytes(s) + rest)
         == match ReadBody(rest, HeadersOf(s.fields), MAX_REQUEST_BODY_BYTES)
            case Failed(e) => Failed(e)
            case Got(body, tail) => Got(RequestOf(s).(body := body), tail)
  {
    hide ReadLine, ReadHeaders, ReadBody, SplitWhitespace, FieldLines, GoodLine, Solid;
    var afterLine := FieldLines(s.fields) + "\r\n" + rest;
    assert HeadBytes(s) + rest == RequestLine(s) + afterLine;
    RequestLineIs(s, afterLine);
    RequestLineSplits(s);
    FieldsReadBack(s.fields, |RequestLine(s)|, MAX_HEADER_BYTES, rest);
  }

  lemma RequestReadsAs(s: Sent, tail: string)
    requires WellFormed(s)
    ensures ReadRequest(Wire(s) + tail)
         == match ReadBody(ContentBytes(s.content) + tail, HeadersOf(s.fields), MAX_REQUEST_BODY_BYTES)
            case Failed(e) => Failed(e)
            case Got(body, rest) => Got(RequestOf(s).(body := body), rest)
  {
    hide ReadRequest, ReadBody, GoodHead, GoodContent, RequestLine, FieldLines;
    HeadReadsAs(s, ContentBytes(s.content) + tail);
    assert Wire(s) + tail == HeadBytes(s) + (ContentBytes(s.content) + tail);
  }

  /** A well-formed request, followed by any bytes, is read back whole and alone exactly when
      chunked, if its sender uses it, is listed on the first `Transfer-Encoding` line. */
  lemma RequestReadsBackIff(s: Sent, tail: string)
    requires WellFormed(s)
    ensures ReadRequest(Wire(s) + tail) == Got(RequestOf(s), tail) <==> FirstLineDecides(s)
  {
    hide ReadRequest, ReadBody, GoodFields, GoodLine, GoodToken, RequestLine, FirstLineDecides, Wire;
    RequestReadsAs(s, tail);
    if FirstLineDecides(s) {
      ContentReadsBack(s, tail);
    } else {
      ContentIsMisread(s, tail);
    }
  }

  /** With at most one `Transfer-Encoding` line every well-formed request is read back. */
  lemma RequestReadsBack(s: Sent, tail: string)
    requires WellFormed(s) && |FieldValues(HeadersOf(s.fields), "transfer-encoding")| <= 1
    ensures ReadRequest(Wire(s) + tail) == Got(RequestOf(s), tail)
  {
    hide ReadRequest, FieldValues, Combined, EndsInChunked, FirstLists, Wire;
    var codings := FieldValues(HeadersOf(s.fields), "transfer-encoding");
    if codings != [] {
      OneLineIsListed(codings);
    }
    RequestReadsBackIff(s, tail);
  }

  // ---- the keep-alive loop ----------------------------------------------

  datatype End =
    | Quiet                      // the peer closed between requests
    | Rejected(status: nat)      // an unreadable request, answered with this status
    | Closed                     // a request asked for it
    | TakenOver                  // handling the request ended the loop (an upgrade, a failed response)

  datatype Served = Served(requests: seq<IncomingRequest>, end: End, rest: string)

  /** Whether handling a request, the `nat`-th one of its connection, does not come back. */
  type Handling = (nat, IncomingRequest) -> bool

  /** Requests a connection yields, in order, after the first `count`, why it stops yielding
      and what it has not used by then, a refused request included. */
  function Serve(input: string, count: nat, leaves: Handling): Served
    decreases |input|
  {
    match ReadRequest(input)
    case Failed(IdleClosed) => Served([], Quiet, input)
    case Failed(e) => Served([], Rejected(e.Status()), input)
    case Got(request, rest) =>
      if leaves(count, request) then Served([request], TakenOver, rest)
      else if WantsClose(request) then Served([request], Closed, rest)
      else var more := Serve(rest, count + 1, leaves); more.(requests := [request] + more.requests)
  }

  predicate Ends(count: nat, r: IncomingRequest, leaves: Handling) {
    leaves(count, r) || WantsClose(r)
  }

  lemma ServeGoesOn(input: string, count: nat, leaves: Handling)
    requires ReadRequest(input).Got? && !Ends(count, ReadRequest(input).value, leaves)
    ensures var r, more := ReadRequest(input), Serve(ReadRequest(input).rest, count + 1, leaves);
            Serve(input, count, leaves) == more.(requests := [r.value] + more.requests)
  {
    hide ReadRequest, WantsClose;
  }

  lemma ServeStops(input: string, count: nat, leaves: Handling)
    requires ReadRequest(input).Got? && Ends(count, ReadRequest(input).value, leaves)
    ensures var r := ReadRequest(input);
            Serve(input, count, leaves)
            == Served([r.value], if leaves(count, r.value) then TakenOver else Closed, r.rest)
  {
    hide ReadRequest, WantsClose;
  }

  lemma ServeFails(input: string, count: nat, leaves: Handling)
    requires ReadRequest(input).Failed?
    ensures var e := ReadRequest(input).error;
            Serve(input, count, leaves) == Served([], if e == IdleClosed then Quiet else Rejected(e.Status()), input)
  {
    hide ReadRequest;
  }

  method ServeConnection(source: Source, leaves: Handling) returns (served: Served)
    modifies source
    ensures served == Serve(old(source.rest), 0, leaves)
    ensures !served.end.Rejected? ==> served.rest == source.rest
  {
    hide ReadRequest, WantsClose, Serve;
    var requests: seq<IncomingRequest> := [];
    ghost var spec := Serve(source.rest, 0, leaves);
    assert [] + spec.requests == spec.requests;
    while true
      invariant var more := Serve(source.rest, |requests|, leaves);
                spec == more.(requests := requests + more.requests)
      decreases |source.rest|
    {
      var input := source.rest;
      var r := source.ReadHttpRequest();
      if r.Err? {
        ServeFails(input, |requests|, leaves);
        assert requests + [] == requests;
        return Served(requests, if r.error == IdleClosed then Quiet else Rejected(r.error.Status()), input);
      }
      var count := |requests|;
      if leaves(count, r.value) {
        ServeStops(input, count, leaves);
        return Served(requests + [r.value], TakenOver, source.rest);
      }
      if WantsClose(r.value) {
        ServeStops(input, count, leaves);
        return Served(requests + [r.value], Closed, source.rest);
      }
      ServeGoesOn(input, count, leaves);
      ghost var more := Serve(source.rest, count + 1, leaves).requests;
      assert requests + ([r.value] + more) == (requests + [r.value]) + more;
      requests := requests + [r.value];
    }
  }

  /** Only a body beyond the limit is answered with 413. */
  lemma StatusIs(e: ReadError)
    ensures e.Status() == 413 <==> e == PayloadTooLarge
    ensures e.Status() == 400 <==> e != PayloadTooLarge
  {
  }

  /** A request that declares more than 256 MiB is refused with 413 before any of its body is
      read, whatever has arrived of it. */
  lemma DeclaredTooLarge(s: Sent, n: nat, rest: string, count: nat, leaves: Handling)
    requires GoodHead(s) && n > 268_435_456
    requires FieldValues(HeadersOf(s.fields), "transfer-encoding") == []
    requires var lengths := FieldValues(HeadersOf(s.fields), "content-length");
             lengths != [] && ParseUnsigned(lengths[0], 10, USIZE_MAX) == Some(n)
    ensures Serve(HeadBytes(s) + rest, count, leaves) == Served([], Rejected(413), HeadBytes(s) + rest)
  {
    hide ReadRequest, ReadBody, FieldValues, HeaderContains, HeaderValue, ParseUnsigned, GoodHead, HeadBytes, Serve,
         Lower;
    var headers := HeadersOf(s.fields);
    HeadReadsAs(s, rest);
    Names();
    ReaderSeesFirstLine(headers, "transfer-encoding", "chunked");
    FirstValue(headers, "content-length");
    ReadBodyFollows(rest, headers, MAX_REQUEST_BODY_BYTES);
    ServeFails(HeadBytes(s) + rest, count, leaves);
  }

  // ---- framing over the whole run ---------------------------------------

  function Wires(sent: seq<Sent>): string {
    if sent == [] then "" else Wire(sent[0]) + Wires(sent[1..])
  }

  lemma NoWires(tail: string)
    ensures Wires([]) + tail == tail
  {
  }

  lemma WiresStep(sent: seq<Sent>, tail: string)
    requires sent != []
    ensures Wires(sent) + tail == Wire(sent[0]) + (Wires(sent[1..]) + tail)
  {
    hide Wire;
  }

  function Requests(sent: seq<Sent>): (rs: seq<IncomingRequest>)
    ensures |rs| == |sent| && forall i :: 0 <= i < |sent| ==> rs[i] == RequestOf(sent[i])
  {
    seq(|sent|, i requires 0 <= i < |sent| => RequestOf(sent[i]))
  }

  predicate AllReadable(sent: seq<Sent>) {
    forall i :: 0 <= i < |sent| ==> WellFormed(sent[i]) && FirstLineDecides(sent[i])
  }

  /** Handling the request does not come back, or its first `Connection` line, or the lack of
      one in HTTP/1.0, ends the connection. */
  predicate EndsAfter(count: nat, s: Sent, leaves: Handling) {
    leaves(count, RequestOf(s)) || FirstLineEnds(s.version, FieldValues(HeadersOf(s.fields), "connection"))
  }

  lemma EndsIff(count: nat, s: Sent, leaves: Handling)
    ensures Ends(count, RequestOf(s), leaves) <==> EndsAfter(count, s, leaves)
  {
    hide WantsClose, FirstLineEnds;
    WantsCloseIff(RequestOf(s));
  }

  /** With at most one `Connection` line, spaced by blanks, that is what the sender asks for. */
  lemma EndsAsAsked(count: nat, s: Sent, leaves: Handling)
    requires var lines := FieldValues(HeadersOf(s.fields), "connection"); AllPlain(lines) && |lines| <= 1
    ensures EndsAfter(count, s, leaves) <==>
      leaves(count, RequestOf(s)) || AsksToEnd(s.version, FieldValues(HeadersOf(s.fields), "connection"))
  {
    hide FirstLineEnds, AsksToEnd, PlainValue;
    OneLineIsFollowed(s.version, FieldValues(HeadersOf(s.fields), "connection"));
  }

  predicate NoneEnds(sent: seq<Sent>, count: nat, leaves: Handling) {
    forall i :: 0 <= i < |sent| ==> !EndsAfter(count + i, sent[i], leaves)
  }

  /** Requests that keep the connection open are each yielded exactly as sent, and the
      connection goes on with exactly the bytes after the last of them. */
  lemma {:induction false} Framing(sent: seq<Sent>, count: nat, tail: string, leaves: Handling)
    requires AllReadable(sent) && NoneEnds(sent, count, leaves)
    ensures var after := Serve(tail, count + |sent|, leaves);
            Serve(Wires(sent) + tail, count, leaves) == after.(requests := Requests(sent) + after.requests)
    decreases |sent|
  {
    hide WellFormed, FirstLineDecides, RequestOf, Wires, Wire, ReadRequest, Ends, EndsAfter, Serve;
    var after := Serve(tail, count + |sent|, leaves).requests;
    if sent == [] {
      NoWires(tail);
      assert Requests(sent) + after == after;
    } else {
      var first, more := sent[0], sent[1..];
      var rest := Wires(more) + tail;
      WiresStep(sent, tail);
      RequestReadsBackIff(first, rest);
      assert EndsAfter(count + 0, sent[0], leaves) == EndsAfter(count, first, leaves);
      EndsIff(count, first, leaves);
      ServeGoesOn(Wire(first) + rest, count, leaves);
      RestEnds(sent, count, leaves);
      Framing(more, count + 1, tail, leaves);
      assert Requests(sent) + after == [RequestOf(first)] + (Requests(more) + after);
    }
  }

  lemma RestEnds(sent: seq<Sent>, count: nat, leaves: Handling)
    requires sent != [] && AllReadable(sent) && NoneEnds(sent, count, leaves)
    ensures AllReadable(sent[1..]) && NoneEnds(sent[1..], count + 1, leaves)
  {
    hide WellFormed, FirstLineDecides, EndsAfter;
    var more := sent[1..];
    forall i | 0 <= i < |more| ensures !EndsAfter(count + 1 + i, more[i], leaves) {
      assert more[i] == sent[i + 1];
      assert count + (i + 1) == count + 1 + i;
    }
  }

  /** The first request that ends the connection is the last one yielded, and exactly
      what follows it stays unread. */
  lemma FramingStops(sent: seq<Sent>, last: Sent, tail: string, leaves: Handling)
    requires AllReadable(sent) && NoneEnds(sent, 0, leaves)
    requires WellFormed(last) && FirstLineDecides(last) && EndsAfter(|sent|, last, leaves)
    ensures Serve(Wires(sent) + (Wire(last) + tail), 0, leaves)
         == Served(Requests(sent) + [RequestOf(last)],
                   if leaves(|sent|, RequestOf(last)) then TakenOver else Closed, tail)
  {
    hide WellFormed, FirstLineDecides, RequestOf, Wire, ReadRequest, Ends, EndsAfter, Serve;
    EndsIff(|sent|, last, leaves);
    Framing(sent, 0, Wire(last) + tail, leaves);
    RequestReadsBackIff(last, tail);
    ServeStops(Wire(last) + tail, |sent|, leaves);
  }

  /** Nothing after the last request: all of them, then a quiet end. */
  lemma QuietEnd(sent: seq<Sent>, leaves: Handling)
    requires AllReadable(sent) && NoneEnds(sent, 0, leaves)
    ensures Serve(Wires(sent), 0, leaves) == Served(Requests(sent), Quiet, "")
  {
    hide AllReadable, NoneEnds, Wires;
    Framing(sent, 0, "", leaves);
    assert Wires(sent) + "" == Wires(sent);
    assert Serve("", |sent|, leaves) == Served([], Quiet, "");
    assert Requests(sent) + [] == Requests(sent);
  }
}
