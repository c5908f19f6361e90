/**
 The other direction of reading back: whatever is read was there. A request or a body
 that is accepted takes the input apart into lines and data that say exactly that
 request or body; everything else is refused.
 */
module ReaderSoundness {
  import opened Text
  import opened HttpReader
  import opened FieldLists
  import opened MessageFraming
  import opened ChunkedCodec

  // ---- lines ------------------------------------------------------------

  lemma BlankIs(line: string)
    ensures IsBlankLine(line) <==> Trim(line) == ""
  {
    if |line| == 2 && line[0] == '\r' && line[1] == '\n' {
      assert line[1..] == "\n" && line[1..][1..] == "";
      assert TrimStart(line) == TrimStart(line[1..]) == TrimStart(line[1..][1..]) == "";
    }
    if |line| == 1 && line[0] == '\n' {
      assert line[1..] == "";
      assert TrimStart(line) == TrimStart(line[1..]) == "";
    }
  }

  /** A line within the limit that its line feed ends. */
  predicate FullLine(line: string) {
    && line != "" && |line| <= 32_768 && Utf8Valid(line)
    && line[|line| - 1] == '\n' && forall i :: 0 <= i < |line| - 1 ==> line[i] != '\n'
  }

  lemma ReadIsLine(input: string)
    requires ReadLine(input).Got?
    ensures var r := ReadLine(input);
            input == r.value + r.rest && (r.rest != "" ==> FullLine(r.value))
  {
    hide Utf8Valid;
  }

  // ---- trailers and header fields ---------------------------------------

  /** Lines that are not blank, and a blank one that ends them. */
  predicate IsSection(lines: seq<string>, blank: string) {
    Trim(blank) == "" && forall line :: line in lines ==> FullLine(line) && Trim(line) != ""
  }

  lemma {:induction false} SoundTrailers(input: string, used: nat, most: nat)
    returns (lines: seq<string>, blank: string)
    requires ReadTrailers(input, used, most).Got?
    ensures input == Concat(lines) + blank + ReadTrailers(input, used, most).rest
    ensures IsSection(lines, blank) && used + |Concat(lines)| + |blank| <= most
    decreases |input|
  {
    hide ReadLine, IsBlankLine, Trim, FullLine;
    var line, rest := ReadLine(input).value, ReadLine(input).rest;
    ReadIsLine(input);
    BlankIs(line);
    if Trim(line) == "" {
      lines, blank := [], line;
    } else {
      lines, blank := SoundTrailers(rest, used + |line|, most);
      lines := [line] + lines;
    }
  }

  /** A field line has a colon, its name before the first one and its value after it. */
  ghost predicate IsField(line: string, header: (string, string)) {
    exists name, value ::
      TrimCrlf(line) == name + ":" + value && ':' !in name && Trim(name) == header.0 && Trim(value) == header.1
  }

  ghost predicate AreFields(lines: seq<string>, headers: Headers) {
    |lines| == |headers| && forall i :: 0 <= i < |lines| ==> IsField(lines[i], headers[i])
  }

  lemma SplitIsField(line: string)
    requires SplitOnce(TrimCrlf(line), ':').Some?
    ensures var (name, value) := SplitOnce(TrimCrlf(line), ':').value; IsField(line, (Trim(name), Trim(value)))
  {
    hide TrimCrlf, Trim;
    var text := TrimCrlf(line);
    var (name, value) := SplitOnce(text, ':').value;
    assert text == name + ":" + value;
  }

  lemma {:induction false} SoundHeaders(input: string, used: nat, most: nat)
    returns (lines: seq<string>, blank: string)
    requires ReadHeaders(input, used, most).Got?
    ensures input == Concat(lines) + blank + ReadHeaders(input, used, most).rest
    ensures AreFields(lines, ReadHeaders(input, used, most).value)
    ensures IsSection(lines, blank) && used + |Concat(lines)| + |blank| <= most
    decreases |input|
  {
    hide ReadLine, IsBlankLine, Trim, TrimCrlf, SplitOnce, IsField, FullLine;
    var line, rest := ReadLine(input).value, ReadLine(input).rest;
    ReadIsLine(input);
    BlankIs(line);
    if Trim(line) == "" {
      lines, blank := [], line;
    } else {
      SplitIsField(line);
      lines, blank := SoundHeaders(rest, used + |line|, most);
      lines := [line] + lines;
    }
  }

  // ---- chunked bodies ---------------------------------------------------

  /** The line says `size`: hexadecimal digits, with or without a plus sign, before any semicolon. */
  ghost predicate SaysSize(line: string, size: nat) {
    exists digits :: digits != "" && AllDigits(digits, 16) && NumberValue(digits, 16) == size
                     && Trim(Split(TrimCrlf(line), {';'})[0]) in {digits, "+" + digits}
  }

  lemma SizeIsSaid(line: string)
    requires ChunkSize(line).Some?
    ensures SaysSize(line, ChunkSize(line).value) && ChunkSize(line).value <= USIZE_MAX
  {
    hide Trim, Split, TrimCrlf, NumberValue;
    var text := Trim(Split(TrimCrlf(line), {';'})[0]);
    var digits := if text != "" && text[0] == '+' then text[1..] else text;
    assert text == digits || text == "+" + digits;
    assert AllDigits(digits, 16);
  }

  datatype Piece = Piece(line: string, data: string)

  datatype Pieces = Pieces(chunks: seq<Piece>, lastLine: string, trailers: seq<string>, blank: string)

  function ChunkBytes(chunks: seq<Piece>): string {
    if chunks == [] then "" else chunks[0].line + chunks[0].data + "\r\n" + ChunkBytes(chunks[1..])
  }

  function ChunkData(chunks: seq<Piece>): string {
    if chunks == [] then "" else chunks[0].data + ChunkData(chunks[1..])
  }

  function PiecesBytes(p: Pieces): string {
    ChunkBytes(p.chunks) + p.lastLine + Concat(p.trailers) + p.blank
  }

  ghost predicate IsBody(p: Pieces) {
    && (forall c :: c in p.chunks ==> FullLine(c.line) && c.data != "" && SaysSize(c.line, |c.data|))
    && FullLine(p.lastLine) && SaysSize(p.lastLine, 0)
    && IsSection(p.trailers, p.blank) && |Concat(p.trailers)| + |p.blank| <= 262_144
  }

  lemma ChunkDataIs(input: string, size: nat, limit: nat, body: string)
    requires ReadChunkData(input, size, limit, body).Got?
    ensures var r := ReadChunkData(input, size, limit, body);
            && size <= |input| && input == input[..size] + "\r\n" + r.rest
            && r.value == body + input[..size] && |r.value| <= limit
  {
    assert input == input[..size] + input[size..size + 2] + input[size + 2..];
  }

  /** A body that decodes is made of chunks of the sizes their lines say, each ended by CR LF, a
      chunk of size zero and a trailer section, and is their data in order. */
  lemma {:induction false} SoundChunks(input: string, limit: nat, body: string) returns (p: Pieces)
    requires |body| <= limit && ReadChunks(input, limit, body).Got?
    ensures IsBody(p) && input == PiecesBytes(p) + ReadChunks(input, limit, body).rest
    ensures ReadChunks(input, limit, body).value == body + ChunkData(p.chunks)
    decreases |input|
  {
    hide ReadChunks, ReadLine, ChunkSize, IsBody, SaysSize, FullLine, PiecesBytes, ChunkData;
    SizeIsThere(input, limit, body);
    if ChunkSize(ReadLine(input).value).value == 0 {
      p := SoundLast(input, limit, body);
    } else {
      var c, rest, longer := FirstChunk(input, limit, body);
      var more := SoundChunks(rest, limit, longer);
      p := more.(chunks := [c] + more.chunks);
      PrefixChunk(c, more, body);
      var front, tail := c.line + c.data + "\r\n", ReadChunks(input, limit, body).rest;
      assert input == front + (PiecesBytes(more) + tail) == (front + PiecesBytes(more)) + tail;
    }
  }

  lemma SizeIsThere(input: string, limit: nat, body: string)
    requires |body| <= limit && ReadChunks(input, limit, body).Got?
    ensures ReadLine(input).Got? && ChunkSize(ReadLine(input).value).Some?
  {
    hide ReadLine, ChunkSize;
  }

  lemma FirstChunk(input: string, limit: nat, body: string) returns (c: Piece, rest: string, longer: string)
    requires |body| <= limit && ReadChunks(input, limit, body).Got?
    requires ReadLine(input).Got? && ChunkSize(ReadLine(input).value).Some?
    requires ChunkSize(ReadLine(input).value).value != 0
    ensures FullLine(c.line) && c.data != "" && SaysSize(c.line, |c.data|)
    ensures input == c.line + c.data + "\r\n" + rest && longer == body + c.data && |longer| <= limit && |rest| < |input|
    ensures ReadChunks(input, limit, body) == ReadChunks(rest, limit, longer)
  {
    hide ReadLine, ChunkSize, ReadTrailers, SaysSize, ReadChunkData, FullLine;
    var line, after := ReadLine(input).value, ReadLine(input).rest;
    ReadIsLine(input);
    SizeIsSaid(line);
    var size := ChunkSize(line).value;
    ChunkDataIs(after, size, limit, body);
    var data := ReadChunkData(after, size, limit, body);
    hide ReadChunks;
    c, rest, longer := Piece(line, after[..size]), data.rest, data.value;
    assert line + (after[..size] + "\r\n" + data.rest) == line + after[..size] + "\r\n" + data.rest;
  }

  lemma PrefixChunk(c: Piece, more: Pieces, body: string)
    requires IsBody(more) && FullLine(c.line) && c.data != "" && SaysSize(c.line, |c.data|)
    ensures var p := more.(chunks := [c] + more.chunks);
            && IsBody(p)
            && PiecesBytes(p) == c.line + c.data + "\r\n" + PiecesBytes(more)
            && body + ChunkData(p.chunks) == body + c.data + ChunkData(more.chunks)
  {
    hide FullLine, SaysSize, IsSection;
    var p := more.(chunks := [c] + more.chunks);
    assert p.chunks[1..] == more.chunks;
    var line, data, text := c.line, c.data, ChunkBytes(more.chunks);
    assert ChunkBytes(p.chunks) == line + data + "\r\n" + text;
    var last := more.lastLine + Concat(more.trailers) + more.blank;
    assert PiecesBytes(more) == text + last;
    assert PiecesBytes(p) == ChunkBytes(p.chunks) + last;
    Regroup(line, data, text, last);
    assert body + (c.data + ChunkData(more.chunks)) == body + c.data + ChunkData(more.chunks);
  }

  lemma Regroup(line: string, data: string, text: string, last: string)
    ensures line + data + "\r\n" + text + last == line + data + "\r\n" + (text + last)
  {
  }

  lemma SoundLast(input: string, limit: nat, body: string) returns (p: Pieces)
    requires |body| <= limit && ReadChunks(input, limit, body).Got? && ChunkSize(ReadLine(input).value) == Some(0)
    ensures IsBody(p) && input == PiecesBytes(p) + ReadChunks(input, limit, body).rest
    ensures ReadChunks(input, limit, body).value == body + ChunkData(p.chunks)
  {
    hide ReadLine, ChunkSize, ReadTrailers, SaysSize, IsSection, FullLine;
    var line, rest := ReadLine(input).value, ReadLine(input).rest;
    ReadIsLine(input);
    SizeIsSaid(line);
    var trailers, blank := SoundTrailers(rest, 0, MAX_HEADER_BYTES);
    p := Pieces([], line, trailers, blank);
    assert body + "" == body && "" + line == line;
  }

  // ---- whole requests ---------------------------------------------------

  /** The bytes of a body are what its framing says. */
  ghost predicate IsBodyOf(bytes: string, headers: Headers, body: string) {
    match ReaderFraming(headers)
    case NoBody => bytes == "" && body == ""
    case Length(n) => bytes == body && |body| == n
    case Chunked => exists p :: IsBody(p) && bytes == PiecesBytes(p) && body == ChunkData(p.chunks)
    case Unclear => false
  }

  lemma SoundBody(input: string, headers: Headers, limit: nat) returns (bytes: string)
    requires ReadBody(input, headers, limit).Got?
    ensures var r := ReadBody(input, headers, limit);
            input == bytes + r.rest && IsBodyOf(bytes, headers, r.value) && |r.value| <= limit
  {
    ReadBodyFollows(input, headers, limit);
    hide ReadBody, ReadChunks, IsBody, ReaderFraming;
    match ReaderFraming(headers) {
      case NoBody => bytes := "";
      case Length(n) => bytes := input[..n];
      case Chunked =>
        var p := SoundChunks(input, limit, "");
        bytes := PiecesBytes(p);
        assert "" + ChunkData(p.chunks) == ChunkData(p.chunks);
      case Unclear =>
    }
  }

  /** The parts of the input that say a request: its request line, one field line for each header
      in order, a blank line, and the bytes of its body. */
  datatype Parts = Parts(line: string, fields: seq<string>, blank: string, bytes: string)

  ghost predicate SaysRequest(p: Parts, r: IncomingRequest) {
    && FullLine(p.line) && SplitWhitespace(p.line) == [r.httpMethod, r.target, r.version]
    && StartsWith(r.version, "HTTP/")
    && AreFields(p.fields, r.headers) && IsSection(p.fields, p.blank)
    && |p.line| + |Concat(p.fields)| + |p.blank| <= 262_144
    && IsBodyOf(p.bytes, r.headers, r.body) && |r.body| <= 268_435_456
  }

  /** A request is read only from bytes that say it. */
  lemma SoundRequest(input: string) returns (p: Parts)
    requires ReadRequest(input).Got?
    ensures SaysRequest(p, ReadRequest(input).value)
    ensures input == p.line + Concat(p.fields) + p.blank + p.bytes + ReadRequest(input).rest
  {
    hide ReadLine, ReadHeaders, ReadBody, SplitWhitespace, FullLine, AreFields, IsSection, IsBodyOf;
    var line, rest := ReadLine(input).value, ReadLine(input).rest;
    ReadIsLine(input);
    var headers := ReadHeaders(rest, |line|, MAX_HEADER_BYTES);
    var fields, blank := SoundHeaders(rest, |line|, MAX_HEADER_BYTES);
    var bytes := SoundBody(headers.rest, headers.value, MAX_REQUEST_BODY_BYTES);
    p := Parts(line, fields, blank, bytes);
    var parts := SplitWhitespace(line);
    assert parts == [parts[0], parts[1], parts[2]];
  }
}
