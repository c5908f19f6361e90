/**
 Responses as a client reads them. The client is a reference one: a status line, a
 header section, and a body delimited as the headers say (section 6.3 of RFC 9112),
 with the readers this program uses for requests.
 */
module ResponseFraming {
  import opened Text
  import opened HttpReader
  import opened HeaderRules
  import opened ChunkedCodec
  import opened MessageSyntax
  import FieldLists
  import MessageFraming
  import ResponseWriter

  type Response = ResponseWriter.UpstreamResponse

  datatype Received = Received(status: nat, reason: string, headers: Headers, body: string)

  /** Version, three-digit status and reason of a status line. */
  function ParseStatusLine(line: string): Option<(nat, string)> {
    match SplitOnce(TrimCrlf(line), ' ')
    case None => None
    case Some((version, rest)) =>
      if !StartsWith(version, "HTTP/") then None
      else
        match SplitOnce(rest, ' ')
        case None => None
        case Some((digits, reason)) =>
          match ParseUnsigned(digits, 10, 999)
          case None => None
          case Some(status) => Some((status, reason))
  }

  /** Statuses whose responses have no body, whatever their headers say. */
  predicate Bodyless(status: nat) {
    100 <= status < 200 || status == 204 || status == 304
  }

  /** `most` and `limit` are what the client admits for a header section and a body. A
      response to HEAD has no body either; one without any framing lasts until the end. */
  function ReadResponse(input: string, head: bool, most: nat, limit: nat): Read<Received> {
    match ReadLine(input)
    case Failed(e) => Failed(e)
    case Got(line, rest) =>
      match ParseStatusLine(line)
      case None => Failed(InvalidRequestLine)
      case Some((status, reason)) =>
        match ReadHeaders(rest, |line|, most)
        case Failed(e) => Failed(e)
        case Got(headers, afterHeaders) =>
          if head || Bodyless(status) then Got(Received(status, reason, headers, ""), afterHeaders)
          else if Unframed(headers) then Got(Received(status, reason, headers, afterHeaders), "")
          else
            match ReadBody(afterHeaders, headers, limit)
            case Failed(e) => Failed(e)
            case Got(body, tail) => Got(Received(status, reason, headers, body), tail)
  }

  predicate Unframed(headers: Headers) {
    HeaderValue(headers, "transfer-encoding").None? && HeaderValue(headers, "content-length").None?
  }

  // ---- what the client should get ---------------------------------------

  function Forwarded(headers: Headers): Headers {
    if headers == [] then []
    else (if ForwardsResponseHeader(headers[0].0) then [headers[0]] else []) + Forwarded(headers[1..])
  }

  function FramingHeaders(status: nat, closeAfter: bool): Headers {
    [("Connection", if closeAfter then "close" else "keep-alive"),
     if Bodyless(status) then ("Content-Length", "0") else ("Transfer-Encoding", "chunked")]
  }

  function SentHeaders(r: Response, closeAfter: bool): Headers {
    Forwarded(r.headers) + FramingHeaders(r.status, closeAfter)
  }

  function Body(r: Response): string {
    if Bodyless(r.status) then "" else Concat(ResponseWriter.Arriving(r.stream))
  }

  function Expected(r: Response, closeAfter: bool): Received {
    Received(r.status, r.reason, SentHeaders(r, closeAfter), Body(r))
  }

  /** A response of the HTTP library that arrives in full, with header lines, a header section
      and a body that the client admits. */
  predicate Deliverable(r: Response, closeAfter: bool, most: nat, limit: nat) {
    && 100 <= r.status <= 999
    && '\n' !in r.reason && '\r' !in r.reason && GoodLine(ResponseWriter.StatusLine(r))
    && GoodFields(Fields(Forwarded(r.headers)))
    && |ResponseWriter.StatusLine(r)| + |FieldLines(Fields(SentHeaders(r, closeAfter)))| + 2 <= most
    && |Body(r)| <= limit <= USIZE_MAX
    && (!Bodyless(r.status) ==> !ResponseWriter.Broken(r.stream))
  }

  // ---- the head ---------------------------------------------------------

  /** Header lines with one space after the colon. */
  function Fields(headers: Headers): seq<Field> {
    if headers == [] then [] else [Field(headers[0].0, " ", headers[0].1, "")] + Fields(headers[1..])
  }

  lemma {:induction false} FieldsAre(headers: Headers)
    ensures HeadersOf(Fields(headers)) == headers
    decreases |headers|
  {
    if headers != [] {
      FieldsAre(headers[1..]);
      assert headers == [(headers[0].0, headers[0].1)] + headers[1..];
    }
  }

  lemma {:induction false} FieldsAppend(a: Headers, b: Headers)
    ensures Fields(a + b) == Fields(a) + Fields(b)
    decreases |a|
  {
    if a == [] {
      assert a + b == b;
    } else {
      assert (a + b)[1..] == a[1..] + b;
      FieldsAppend(a[1..], b);
    }
  }

  lemma {:induction false} FieldLinesAppend(a: seq<Field>, b: seq<Field>)
    ensures FieldLines(a + b) == FieldLines(a) + FieldLines(b)
    decreases |a|
  {
    hide FieldText;
    if a == [] {
      assert a + b == b;
    } else {
      assert (a + b)[1..] == a[1..] + b;
      FieldLinesAppend(a[1..], b);
    }
  }

  lemma HeaderTextAppend(a: Headers, b: Headers)
    ensures FieldLines(Fields(a + b)) == FieldLines(Fields(a)) + FieldLines(Fields(b))
  {
    FieldsAppend(a, b);
    FieldLinesAppend(Fields(a), Fields(b));
  }

  lemma {:induction false} ForwardedText(headers: Headers)
    ensures ResponseWriter.HeaderLines(headers) == FieldLines(Fields(Forwarded(headers)))
    decreases |headers|
  {
    hide ForwardsResponseHeader, ResponseWriter.HeaderLine, FieldLines, Fields;
    NoFields();
    if headers != [] {
      ForwardedText(headers[1..]);
      var kept := if ForwardsResponseHeader(headers[0].0) then [headers[0]] else [];
      HeaderTextAppend(kept, Forwarded(headers[1..]));
      if kept != [] {
        OneHeader(headers[0]);
      }
    }
  }

  lemma NoFields()
    ensures FieldLines(Fields([])) == ""
  {
  }

  lemma OneHeader(h: (string, string))
    ensures FieldLines(Fields([h])) == ResponseWriter.HeaderLine(h.0, h.1)
  {
    var f := Field(h.0, " ", h.1, "");
    assert Fields([h]) == [f];
    assert FieldLines([f]) == FieldText(f) + "\r\n" + FieldLines([]);
    assert FieldText(f) == h.0 + ": " + h.1;
  }

  lemma FramingText(r: Response, closeAfter: bool)
    requires r.status >= 100
    ensures ResponseWriter.FramingLines(r, closeAfter)
         == FieldLines(Fields(FramingHeaders(r.status, closeAfter))) + "\r\n"
  {
    hide FieldLines, Fields, ResponseWriter.HeaderLine, ResponseWriter.ConnectionLine, ResponseWriter.LengthLine;
    var hs := FramingHeaders(r.status, closeAfter);
    assert hs == [hs[0]] + [hs[1]];
    HeaderTextAppend([hs[0]], [hs[1]]);
    OneHeader(hs[0]);
    OneHeader(hs[1]);
    ConnectionText(closeAfter);
    LengthText(r.status);
  }

  lemma ConnectionText(closeAfter: bool)
    ensures ResponseWriter.HeaderLine("Connection", if closeAfter then "close" else "keep-alive")
         == ResponseWriter.ConnectionLine(closeAfter)
  {
  }

  lemma LengthText(status: nat)
    requires status >= 100
    ensures var h := if Bodyless(status) then ("Content-Length", "0") else ("Transfer-Encoding", "chunked");
            ResponseWriter.HeaderLine(h.0, h.1) == ResponseWriter.LengthLine(status)
  {
  }

  lemma HeadIs(r: Response, closeAfter: bool)
    requires r.status >= 100
    ensures ResponseWriter.Head(r, closeAfter)
         == ResponseWriter.StatusLine(r) + (FieldLines(Fields(SentHeaders(r, closeAfter))) + "\r\n")
  {
    hide ResponseWriter.StatusLine, ResponseWriter.FramingLines, ResponseWriter.HeaderLines, FieldLines, Fields,
         Forwarded, FramingHeaders;
    ForwardedText(r.headers);
    FramingText(r, closeAfter);
    HeaderTextAppend(Forwarded(r.headers), FramingHeaders(r.status, closeAfter));
  }

  lemma FramingIsGood(status: nat, closeAfter: bool)
    ensures GoodFields(Fields(FramingHeaders(status, closeAfter)))
  {
    hide GoodField;
    var hs := FramingHeaders(status, closeAfter);
    assert hs == [hs[0]] + [hs[1]];
    FieldsAppend([hs[0]], [hs[1]]);
    ConnectionIsGood(closeAfter);
    LengthIsGood();
    EncodingIsGood();
  }

  lemma ConnectionIsGood(closeAfter: bool)
    ensures GoodField(Field("Connection", " ", if closeAfter then "close" else "keep-alive", ""))
  {
    hide GoodField;
    PrintableFieldIsGood("Connection", if closeAfter then "close" else "keep-alive");
  }

  lemma LengthIsGood()
    ensures GoodField(Field("Content-Length", " ", "0", ""))
  {
    hide GoodField;
    PrintableFieldIsGood("Content-Length", "0");
  }

  lemma EncodingIsGood()
    ensures GoodField(Field("Transfer-Encoding", " ", "chunked", ""))
  {
    hide GoodField;
    PrintableFieldIsGood("Transfer-Encoding", "chunked");
  }

  // ---- the framing headers are the writer's own -------------------------

  predicate Absent(headers: Headers, name: string) {
    forall h :: h in headers ==> Lower(h.0) != name
  }

  lemma {:induction false} NoneForwarded(headers: Headers)
    ensures Absent(Forwarded(headers), "transfer-encoding") && Absent(Forwarded(headers), "content-length")
    decreases |headers|
  {
    hide Lower;
    if headers != [] {
      NoneForwarded(headers[1..]);
    }
  }

  /** Names that describe one hop or frame the message. */
  const STAYS_UPSTREAM: set<string> := {
    "connection", "keep-alive", "proxy-authenticate", "proxy-authorization", "te", "trailer", "transfer-encoding",
    "upgrade", "content-length"}

  lemma ForwardedName(name: string)
    ensures ForwardsResponseHeader(name) <==> Lower(name) !in STAYS_UPSTREAM
  {
    hide Lower;
  }

  /** The headers that reach the client are exactly the upstream's others, in any spelling. */
  lemma {:induction false} ForwardedAre(headers: Headers, h: (string, string))
    ensures h in Forwarded(headers) <==> h in headers && Lower(h.0) !in STAYS_UPSTREAM
    decreases |headers|
  {
    hide Lower, STAYS_UPSTREAM, ForwardsResponseHeader;
    if headers != [] {
      ForwardedName(headers[0].0);
      ForwardedAre(headers[1..], h);
      assert h in headers <==> h == headers[0] || h in headers[1..];
    }
  }

  lemma {:induction false} ValueBehind(a: Headers, b: Headers, name: string)
    requires Absent(a, name) && Lower(name) == name
    ensures HeaderValue(a + b, name) == HeaderValue(b, name)
    decreases |a|
  {
    hide Lower;
    if a == [] {
      assert a + b == b;
    } else {
      assert (a + b)[1..] == a[1..] + b;
      assert a[0] in a;
      ValueBehind(a[1..], b, name);
    }
  }

  lemma FramingNames()
    ensures Lower("Transfer-Encoding") == "transfer-encoding" == Lower("transfer-encoding")
    ensures Lower("Content-Length") == "content-length" == Lower("content-length")
    ensures Lower("Connection") == "connection"
  {
    hide Lower;
    MessageFraming.EncodingNames();
    MessageFraming.LengthNames();
    ConnectionName();
  }

  lemma ConnectionName()
    ensures Lower("Connection") == "connection"
  {
  }

  lemma DifferentNames()
    ensures "connection" != "transfer-encoding" && "connection" != "content-length"
    ensures "content-length" != "transfer-encoding"
  {
    assert |"connection"| == 10 && |"content-length"| == 14 && |"transfer-encoding"| == 17;
  }

  lemma ChunkedIsListed()
    ensures exists part :: part in Split("chunked", {','}) && Lower(Trim(part)) == Lower("chunked")
  {
    hide Lower, Trim, Split;
    MessageFraming.LowerChunkedIsTrimmed();
    FieldLists.OneMember("chunked");
    assert "chunked" in Split("chunked", {','});
  }

  /** The headers sent say chunked exactly when there is a body and a zero length otherwise:
      no upstream header can say anything else before them. */
  lemma FramingDecides(r: Response, closeAfter: bool)
    ensures var hs := SentHeaders(r, closeAfter);
            && (HeaderContains(hs, "transfer-encoding", "chunked") <==> !Bodyless(r.status))
            && (Bodyless(r.status) ==> HeaderValue(hs, "content-length") == Some("0"))
  {
    hide Lower, Split, Trim, Forwarded;
    FramingNames();
    DifferentNames();
    NoneForwarded(r.headers);
    var mine := FramingHeaders(r.status, closeAfter);
    ValueBehind(Forwarded(r.headers), mine, "transfer-encoding");
    ValueBehind(Forwarded(r.headers), mine, "content-length");
    ChunkedIsListed();
    FramingValues(r.status, closeAfter);
  }

  lemma FramingValues(status: nat, closeAfter: bool)
    requires Lower("Transfer-Encoding") == "transfer-encoding" == Lower("transfer-encoding")
    requires Lower("Content-Length") == "content-length" == Lower("content-length")
    requires Lower("Connection") == "connection"
    requires "connection" != "transfer-encoding" && "connection" != "content-length"
    requires "content-length" != "transfer-encoding"
    ensures var hs := FramingHeaders(status, closeAfter);
            if !Bodyless(status) then HeaderValue(hs, "transfer-encoding") == Some("chunked")
            else HeaderValue(hs, "transfer-encoding") == None && HeaderValue(hs, "content-length") == Some("0")
  {
    hide Lower, Bodyless;
    var hs := FramingHeaders(status, closeAfter);
    assert hs[1..] == [hs[1]] && hs[1..][1..] == [];
    assert HeaderValue(hs, "transfer-encoding") == HeaderValue(hs[1..], "transfer-encoding");
    assert HeaderValue(hs, "content-length") == HeaderValue(hs[1..], "content-length");
  }

  // ---- one response -----------------------------------------------------

  function BodyBytes(r: Response): string {
    if Bodyless(r.status) then "" else ResponseWriter.BodyText(r.stream)
  }

  lemma BodyReadsBack(r: Response, closeAfter: bool, most: nat, limit: nat, tail: string)
    requires Deliverable(r, closeAfter, most, limit)
    ensures ReadBody(BodyBytes(r) + tail, SentHeaders(r, closeAfter), limit) == Got(Body(r), tail)
  {
    hide ReadChunks, EncodeChunks, Concat, HeaderContains, SentHeaders, GoodFields, Bodyless,
         ResponseWriter.StatusLine, ResponseWriter.Arriving, ResponseWriter.Broken;
    FramingDecides(r, closeAfter);
    if !Bodyless(r.status) {
      RoundTrip(ResponseWriter.Arriving(r.stream), tail, limit, "");
      assert "" + Body(r) == Body(r);
    } else {
      ZeroLength();
      assert "" + tail == tail && tail[..0] == "" && tail[0..] == tail;
    }
  }

  lemma ZeroLength()
    ensures ParseUnsigned("0", 10, USIZE_MAX) == Some(0)
  {
  }

  /** A complete response followed by any bytes is read as its status line, its forwarded
      headers in order with the framing headers after them, and the upstream's body, and
      exactly its own bytes are consumed. */
  lemma ResponseReadsBack(r: Response, closeAfter: bool, most: nat, limit: nat, tail: string)
    requires Deliverable(r, closeAfter, most, limit)
    ensures ReadResponse(ResponseWriter.Everything(r, closeAfter) + tail, false, most, limit)
         == Got(Expected(r, closeAfter), tail)
  {
    HeadReadsAs(r, closeAfter, false, most, limit, tail);
    if !Bodyless(r.status) {
      BodyReadsBack(r, closeAfter, most, limit, tail);
      IsFramed(r, closeAfter);
    } else {
      assert BodyBytes(r) + tail == tail && Body(r) == "";
    }
    hide ReadBody, Body, Bodyless, BodyBytes, SentHeaders, Unframed, ReadResponse, Deliverable,
         ResponseWriter.Everything;
  }

  lemma IsFramed(r: Response, closeAfter: bool)
    ensures !Bodyless(r.status) ==> !Unframed(SentHeaders(r, closeAfter))
  {
    hide SentHeaders, Bodyless, Lower, Split, Trim;
    FramingDecides(r, closeAfter);
  }

  /** What the client makes of a response once its head is read. */
  lemma HeadReadsAs(r: Response, closeAfter: bool, head: bool, most: nat, limit: nat, tail: string)
    requires Deliverable(r, closeAfter, most, limit)
    ensures var hs, rest := SentHeaders(r, closeAfter), BodyBytes(r) + tail;
            ReadResponse(ResponseWriter.Everything(r, closeAfter) + tail, head, most, limit)
            == if head || Bodyless(r.status) then Got(Received(r.status, r.reason, hs, ""), rest)
               else if Unframed(hs) then Got(Received(r.status, r.reason, hs, rest), "")
               else match ReadBody(rest, hs, limit)
                    case Failed(e) => Failed(e)
                    case Got(body, more) => Got(Received(r.status, r.reason, hs, body), more)
  {
    HeadReadsBack(r, closeAfter, most, limit, BodyBytes(r) + tail);
    EverythingIs(r, closeAfter, tail);
    StatusLineParses(r);
    hide ReadLine, ReadHeaders, ReadBody, Bodyless, BodyBytes, ParseStatusLine, SentHeaders, Unframed, Deliverable,
         ResponseWriter.Everything, ResponseWriter.StatusLine, ResponseWriter.Head;
  }

  lemma EverythingIs(r: Response, closeAfter: bool, tail: string)
    requires r.status >= 100
    ensures ResponseWriter.Everything(r, closeAfter) + tail
         == ResponseWriter.Head(r, closeAfter) + (BodyBytes(r) + tail)
  {
    hide ResponseWriter.Head, ResponseWriter.BodyText;
  }

  lemma HeadReadsBack(r: Response, closeAfter: bool, most: nat, limit: nat, rest: string)
    requires Deliverable(r, closeAfter, most, limit)
    ensures var line, hs := ResponseWriter.StatusLine(r), SentHeaders(r, closeAfter);
            ReadLine(ResponseWriter.Head(r, closeAfter) + rest) == Got(line, FieldLines(Fields(hs)) + "\r\n" + rest)
            && ReadHeaders(FieldLines(Fields(hs)) + "\r\n" + rest, |line|, most) == Got(hs, rest)
  {
    hide ReadLine, ReadHeaders, FieldLines, Fields, Forwarded, FramingHeaders, ResponseWriter.StatusLine,
         ResponseWriter.Head, GoodField;
    var line, hs := ResponseWriter.StatusLine(r), SentHeaders(r, closeAfter);
    var lines := FieldLines(Fields(hs));
    HeadIs(r, closeAfter);
    assert line + (lines + "\r\n") + rest == line + (lines + "\r\n" + rest);
    StatusLineIs(r, lines + "\r\n" + rest);
    FramingIsGood(r.status, closeAfter);
    FieldsAppend(Forwarded(r.headers), FramingHeaders(r.status, closeAfter));
    FieldsReadBack(Fields(hs), |line|, most, rest);
    FieldsAre(hs);
  }

  lemma StatusLineIs(r: Response, rest: string)
    requires '\n' !in r.reason && GoodLine(ResponseWriter.StatusLine(r))
    ensures ReadLine(ResponseWriter.StatusLine(r) + rest) == Got(ResponseWriter.StatusLine(r), rest)
  {
    hide PrintNumber, GoodLine, ReadLine;
    StatusDigits(r.status);
    CrlfLineIs("HTTP/1.1 " + PrintNumber(r.status, 10) + " " + r.reason, rest);
  }

  /** The client reads the upstream's status and reason off the status line. */
  lemma StatusLineParses(r: Response)
    requires r.status <= 999 && '\n' !in r.reason && '\r' !in r.reason
    ensures ParseStatusLine(ResponseWriter.StatusLine(r)) == Some((r.status, r.reason))
  {
    var digits := PrintNumber(r.status, 10);
    ParsePrinted(r.status, 10, 999);
    NoSpaceInNumber(r.status);
    VersionIs();
    hide PrintNumber, ParseUnsigned;
    StatusTextParses("HTTP/1.1", digits, r.reason);
    assert "HTTP/1.1" + " " + digits + " " + r.reason + "\r\n" == ResponseWriter.StatusLine(r);
  }

  lemma NoSpaceInNumber(n: nat)
    ensures ' ' !in PrintNumber(n, 10)
  {
    PrintedDigits(n, 10);
  }

  lemma StatusTextParses(version: string, digits: string, reason: string)
    requires ' ' !in version && StartsWith(version, "HTTP/") && ' ' !in digits && '\n' !in reason && '\r' !in reason
    requires ParseUnsigned(digits, 10, 999).Some?
    ensures ParseStatusLine(version + " " + digits + " " + reason + "\r\n")
         == Some((ParseUnsigned(digits, 10, 999).value, reason))
  {
    hide ParseUnsigned, SplitOnce, TrimCrlf;
    var rest := digits + " " + reason;
    var text := version + " " + rest;
    assert version + " " + digits + " " + reason + "\r\n" == text + "\r\n";
    assert text[|text| - 1] == if reason == "" then ' ' else reason[|reason| - 1];
    TrimCrlfTail(text);
    SplitsAtSpace(version, rest);
    SplitsAtSpace(digits, reason);
  }

  lemma VersionIs()
    ensures ' ' !in "HTTP/1.1" && StartsWith("HTTP/1.1", "HTTP/")
  {
  }

  lemma SplitsAtSpace(word: string, rest: string)
    requires ' ' !in word
    ensures SplitOnce(word + " " + rest, ' ') == Some((word, rest))
  {
    var text := word + " " + rest;
    FindIs(text, {' '}, |word|);
    assert text[..|word|] == word && text[|word| + 1..] == rest;
  }

  lemma StatusDigits(n: nat)
    ensures '\n' !in PrintNumber(n, 10)
  {
    PrintedDigits(n, 10);
  }

  // ---- responses on one connection --------------------------------------

  function ReadResponses(input: string, count: nat, most: nat, limit: nat): Read<seq<Received>>
    decreases count
  {
    if count == 0 then Got([], input)
    else
      match ReadResponse(input, false, most, limit)
      case Failed(e) => Failed(e)
      case Got(first, rest) =>
        match ReadResponses(rest, count - 1, most, limit)
        case Failed(e) => Failed(e)
        case Got(more, tail) => Got([first] + more, tail)
  }

  function Wires(responses: seq<Response>): string {
    if responses == [] then "" else ResponseWriter.Everything(responses[0], false) + Wires(responses[1..])
  }

  function AllExpected(responses: seq<Response>): seq<Received> {
    if responses == [] then [] else [Expected(responses[0], false)] + AllExpected(responses[1..])
  }

  /** However many responses share a kept-alive connection, the client reads each one as sent
      and is left with exactly what follows the last. */
  lemma {:induction false} ResponsesReadBack(responses: seq<Response>, most: nat, limit: nat, tail: string)
    requires forall r :: r in responses ==> Deliverable(r, false, most, limit)
    ensures ReadResponses(Wires(responses) + tail, |responses|, most, limit) == Got(AllExpected(responses), tail)
    decreases |responses|
  {
    hide Deliverable, Expected, ReadResponse, ResponseWriter.Everything;
    if responses == [] {
      assert "" + tail == tail;
    } else {
      var first, more := responses[0], responses[1..];
      assert Wires(responses) + tail == ResponseWriter.Everything(first, false) + (Wires(more) + tail);
      ResponseReadsBack(first, false, most, limit, Wires(more) + tail);
      ResponsesReadBack(more, most, limit, tail);
    }
  }

  /** The writer does not know the request. To a client that asked with HEAD, and so reads no
      body, an empty upstream body leaves exactly what follows the response when the status
      never has a body, and the end marker of a body it does not expect otherwise. */
  lemma HeadResponseLeaves(r: Response, closeAfter: bool, most: nat, limit: nat, tail: string)
    requires Deliverable(r, closeAfter, most, limit) && r.stream == []
    ensures var read := ReadResponse(ResponseWriter.Everything(r, closeAfter) + tail, true, most, limit);
            && read == Got(Expected(r, closeAfter),
                           (if Bodyless(r.status) then "" else LAST_CHUNK) + tail)
            && (read == Got(Expected(r, closeAfter), tail) <==> Bodyless(r.status))
  {
    HeadReadsAs(r, closeAfter, true, most, limit, tail);
    NoBody(r);
    assert |LAST_CHUNK + tail| == |LAST_CHUNK| + |tail|;
    assert "" + tail == tail;
    hide ReadBody, Body, Bodyless, BodyBytes, SentHeaders, Unframed, ReadResponse, Deliverable,
         ResponseWriter.Everything;
  }

  lemma NoBody(r: Response)
    requires r.stream == []
    ensures Body(r) == "" && BodyBytes(r) == if Bodyless(r.status) then "" else LAST_CHUNK
  {
    hide Bodyless;
  }
}
