/**
 What becomes of a well-formed request that is not read back: its sender names
 chunked on a later `Transfer-Encoding` line only.
 */
module MisreadRequests {
  import opened Text
  import opened HttpReader
  import opened MessageSyntax
  import opened FieldLists
  import opened MessageFraming
  import opened KeepAlive

  /** Without a length to go by, a misread request loses its whole body to what follows. */
  lemma MisreadLeavesBody(s: Sent, tail: string)
    requires WellFormed(s) && !FirstLineDecides(s) && FieldValues(HeadersOf(s.fields), "content-length") == []
    ensures ReadRequest(Wire(s) + tail) == Got(RequestOf(s).(body := ""), ContentBytes(s.content) + tail)
  {
    hide ReadRequest, ReadBody, WellFormed, FieldValues, HeaderContains, HeaderValue, FirstLists, Wire, ContentBytes,
         RequestOf;
    var headers, rest := HeadersOf(s.fields), ContentBytes(s.content) + tail;
    RequestReadsAs(s, tail);
    Names();
    ReaderSeesFirstLine(headers, "transfer-encoding", "chunked");
    FirstValue(headers, "content-length");
    ReadBodyFollows(rest, headers, MAX_REQUEST_BODY_BYTES);
  }

  function FirstSize(text: ChunkedText): (string, string) {
    if text.chunks == [] then (text.lastDigits, text.lastExtension)
    else (text.chunks[0].digits, text.chunks[0].extension)
  }

  /** A chunked body does not begin like a request, if its first size line has no extension. */
  lemma ChunkIsNoRequest(text: ChunkedText, tail: string)
    requires GoodChunkedText(text) && |Payload(text.chunks)| <= USIZE_MAX && FirstSize(text).1 == ""
    ensures ReadRequest(ChunkedBytes(text) + tail) == Failed(InvalidRequestLine)
  {
    var digits := FirstSize(text).0;
    var rest := FirstLineRest(text, tail);
    assert digits + "" + "\r\n" == digits + "\r\n";
    SizeLineIs(digits, "", if text.chunks == [] then 0 else |text.chunks[0].data|, rest);
    DigitsAreSolid(digits);
    hide ReadLine, ReadHeaders, ReadBody, SplitWhitespace, GoodChunkedText, ChunkedBytes, ChunkSize, Solid;
    TokenThenRest(digits, "\r\n");
    SplitsAtLineEnd(digits);
  }

  lemma FirstLineRest(text: ChunkedText, tail: string) returns (rest: string)
    requires FirstSize(text).1 == "" && GoodChunkedText(text) && |Payload(text.chunks)| <= USIZE_MAX
    ensures ChunkedBytes(text) + tail == FirstSize(text).0 + "\r\n" + rest
    ensures GoodSize(FirstSize(text).0, "", if text.chunks == [] then 0 else |text.chunks[0].data|)
    ensures text.chunks != [] ==> |text.chunks[0].data| <= USIZE_MAX
  {
    FirstSizeIsGood(text);
    hide GoodSize, TrailerLines, GoodChunkedText, ChunkTexts, Payload;
    if text.chunks == [] {
      NoChunkTexts();
      var trailers := TrailerLines(text.trailers);
      rest := trailers + "\r\n" + tail;
      assert "" + LastText(text) + tail == LastText(text) + tail;
      LastRegrouped(text.lastDigits, trailers, tail);
    } else {
      var c, more, last := text.chunks[0], ChunkTexts(text.chunks[1..]), LastText(text);
      FirstChunkText(text.chunks);
      rest := c.data + "\r\n" + (more + last + tail);
      ChunkRegrouped(c.digits, c.data, more, last, tail);
    }
  }

  lemma LastRegrouped(digits: string, trailers: string, tail: string)
    ensures digits + "" + "\r\n" + trailers + "\r\n" + tail == digits + "\r\n" + (trailers + "\r\n" + tail)
  {
    assert digits + "" == digits;
  }

  lemma ChunkRegrouped(digits: string, data: string, more: string, last: string, tail: string)
    ensures digits + "" + "\r\n" + data + "\r\n" + more + last + tail
         == digits + "\r\n" + (data + "\r\n" + (more + last + tail))
  {
    assert digits + "" == digits;
  }

  lemma FirstSizeIsGood(text: ChunkedText)
    requires FirstSize(text).1 == "" && GoodChunkedText(text) && |Payload(text.chunks)| <= USIZE_MAX
    ensures GoodSize(FirstSize(text).0, "", if text.chunks == [] then 0 else |text.chunks[0].data|)
    ensures text.chunks != [] ==> |text.chunks[0].data| <= USIZE_MAX
  {
    hide GoodSize, TrailerLines, GoodTrailer;
    if text.chunks != [] {
      assert text.chunks[0] in text.chunks;
    }
  }

  lemma NoChunkTexts()
    ensures ChunkTexts([]) == ""
  {
  }

  lemma FirstChunkText(chunks: seq<Chunk>)
    requires chunks != []
    ensures ChunkTexts(chunks) == ChunkText(chunks[0]) + ChunkTexts(chunks[1..])
  {
    hide ChunkText;
  }

  lemma DigitsAreSolid(digits: string)
    requires AllDigits(digits, 16)
    ensures Solid(digits)
  {
    forall i | 0 <= i < |digits| ensures SpaceAtStart(digits[i..]) == 0 {
      assert IsDigit(digits[i], 16);
    }
  }

  /** So the connection yields the request without its body and then refuses the body. */
  lemma MisreadIsRefused(s: Sent, tail: string, count: nat, leaves: Handling)
    requires WellFormed(s) && !FirstLineDecides(s) && FieldValues(HeadersOf(s.fields), "content-length") == []
    requires s.content.InChunks? && FirstSize(s.content.text).1 == ""
    requires !Ends(count, RequestOf(s).(body := ""), leaves)
    ensures Serve(Wire(s) + tail, count, leaves)
         == Served([RequestOf(s).(body := "")], Rejected(400), ContentBytes(s.content) + tail)
  {
    ContentIsChunked(s);
    hide *;
    MisreadLeavesBody(s, tail);
    ChunkIsNoRequest(s.content.text, tail);
    BytesAre(s.content);
    ThenRefused(Wire(s) + tail, count, leaves, RequestOf(s).(body := ""), ContentBytes(s.content) + tail);
  }

  lemma BytesAre(content: Content)
    requires content.InChunks?
    ensures ContentBytes(content) == ChunkedBytes(content.text)
  {
    hide ChunkedBytes;
  }

  lemma ThenRefused(input: string, count: nat, leaves: Handling, r: IncomingRequest, rest: string)
    requires ReadRequest(input) == Got(r, rest) && !Ends(count, r, leaves)
    requires ReadRequest(rest) == Failed(InvalidRequestLine)
    ensures Serve(input, count, leaves) == Served([r], Rejected(400), rest)
  {
    hide ReadRequest, Ends, Serve;
    ServeGoesOn(input, count, leaves);
    ServeFails(rest, count + 1, leaves);
  }

  lemma ContentIsChunked(s: Sent)
    requires WellFormed(s) && !FirstLineDecides(s)
    ensures s.content.InChunks? && GoodChunkedText(s.content.text)
    ensures |Payload(s.content.text.chunks)| <= USIZE_MAX
  {
    hide FieldValues, Combined, EndsInChunked, FirstLists, GoodChunkedText, GoodFields, GoodToken, GoodLine;
  }

  // ---- one such request -------------------------------------------------

  const SPLIT_FIELDS: seq<Field> :=
    [Field("Transfer-Encoding", " ", "gzip", ""), Field("Transfer-Encoding", " ", "chunked", "")]

  const SPLIT_TEXT: ChunkedText := ChunkedText([Chunk("5", "", "hello")], "0", "", [])

  const SPLIT_REQUEST: Sent := Sent("POST", "/", "HTTP/1.1", SPLIT_FIELDS, InChunks(SPLIT_TEXT))

  lemma PrintableIsToken(s: string)
    requires Printable(s)
    ensures GoodToken(s)
  {
    forall i | 0 <= i < |s| ensures SpaceAtStart(s[i..]) == 0 {
      assert '!' <= s[i] <= '~';
    }
  }

  lemma SplitLineIsGood()
    ensures GoodToken("POST") && GoodToken("/") && GoodToken("HTTP/1.1") && StartsWith("HTTP/1.1", "HTTP/")
    ensures GoodLine(RequestLine(SPLIT_REQUEST)) && |RequestLine(SPLIT_REQUEST)| == 17
  {
    hide GoodToken;
    PrintableIsToken("POST");
    PrintableIsToken("/");
    PrintableIsToken("HTTP/1.1");
    AsciiIsUtf8("POST" + " " + "/" + " " + "HTTP/1.1" + "\r\n");
  }

  lemma SplitFieldsAreGood()
    ensures GoodFields(SPLIT_FIELDS) && |FieldLines(SPLIT_FIELDS)| == 25 + 28
  {
    hide GoodField;
    PrintableFieldIsGood("Transfer-Encoding", "gzip");
    PrintableFieldIsGood("Transfer-Encoding", "chunked");
    assert SPLIT_FIELDS[1..] == [SPLIT_FIELDS[1]] && SPLIT_FIELDS[1..][1..] == [];
    assert FieldLines(SPLIT_FIELDS)
        == FieldText(SPLIT_FIELDS[0]) + "\r\n" + (FieldText(SPLIT_FIELDS[1]) + "\r\n" + FieldLines([]));
  }

  lemma SplitHeadersAre()
    ensures HeadersOf(SPLIT_FIELDS) == [("Transfer-Encoding", "gzip"), ("Transfer-Encoding", "chunked")]
  {
    assert SPLIT_FIELDS[1..] == [SPLIT_FIELDS[1]] && SPLIT_FIELDS[1..][1..] == [];
  }

  lemma OneDigitIsGood(digit: char)
    requires '0' <= digit <= '9'
    ensures GoodSize([digit], "", digit as int - '0' as int)
  {
    var digits := [digit];
    AsciiIsUtf8(digits + "" + "\r\n");
    assert digits[..0] == "" && NumberValue("", 16) == 0;
  }

  lemma SplitTextIsGood()
    ensures GoodChunkedText(SPLIT_TEXT) && |Payload(SPLIT_TEXT.chunks)| == 5 && FirstSize(SPLIT_TEXT).1 == ""
  {
    hide GoodSize;
    OneDigitIsGood('5');
    OneDigitIsGood('0');
    assert "5" == ['5'] && "0" == ['0'];
    assert SPLIT_TEXT.chunks[1..] == [];
  }

  lemma SplitIsMeantChunked()
    ensures var headers := HeadersOf(SPLIT_FIELDS);
            && SenderFraming(headers) == Chunked && FieldValues(headers, "content-length") == []
            && FieldValues(headers, "transfer-encoding") == ["gzip", "chunked"]
            && !FirstLists(["gzip", "chunked"], "chunked")
  {
    GzipIsAnother();
    SplitHeadersAre();
    hide Lower, Trim, Split, Trimmed, SenderFraming, ReadBody;
    var headers := HeadersOf(SPLIT_FIELDS);
    Names();
    SplitCodings("gzip", "", 0);
    TwoValues(headers, "transfer-encoding");
    OtherValues(headers, "content-length");
    OneMember("gzip");
  }

  lemma GzipIsAnother()
    ensures "gzip" != "" && ',' !in "gzip" && Trimmed("gzip") && Lower("gzip") != "chunked"
  {
    assert |Lower("gzip")| == 4 && |"chunked"| == 7;
  }

  /** The refusal is met by a request that RFC 9112 allows. */
  lemma SplitRequestIsRefused(tail: string, count: nat, leaves: Handling)
    requires !Ends(count, RequestOf(SPLIT_REQUEST).(body := ""), leaves)
    ensures WellFormed(SPLIT_REQUEST)
    ensures Serve(Wire(SPLIT_REQUEST) + tail, count, leaves)
         == Served([RequestOf(SPLIT_REQUEST).(body := "")], Rejected(400), ChunkedBytes(SPLIT_TEXT) + tail)
  {
    SplitLineIsGood();
    SplitFieldsAreGood();
    SplitTextIsGood();
    SplitIsMeantChunked();
    hide GoodToken, GoodLine, RequestLine, FieldLines, SPLIT_FIELDS, SPLIT_TEXT, GoodFields, GoodChunkedText, Payload,
         SenderFraming, FieldValues, HeadersOf, FirstLists, Ends, Serve, Wire, RequestOf, ChunkedBytes;
    MisreadIsRefused(SPLIT_REQUEST, tail, count, leaves);
  }
}
