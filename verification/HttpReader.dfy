/**
 Request side of the HTTP/1.1 codec: lines, header sections, Content-Length and
 chunked bodies, and whole requests. Each reader is first a function from
 the bytes still unread to a value and the bytes left over; the class `Source`
 below reads a connection in place and is proved to compute those functions.
 */
module HttpReader {
  import opened Text

  const MAX_REQUEST_BODY_BYTES: nat := 256 * 1024 * 1024
  const MAX_HEADER_LINE: nat := 32 * 1024
  const MAX_HEADER_BYTES: nat := 256 * 1024

  datatype ReadError =
    | IdleClosed
    | ConnectionClosed
    | InvalidUtf8
    | LineTooLarge
    | InvalidRequestLine
    | HeadersTooLarge
    | InvalidHeaderLine
    | InvalidContentLength
    | IncompleteBody
    | InvalidChunkSize
    | IncompleteChunk
    | MissingChunkTerminator
    | InvalidChunkTerminator
    | TrailersTooLarge
    | PayloadTooLarge
  {
    function Status(): nat {
      if this == PayloadTooLarge then 413 else 400
    }
  }

  datatype Read<+T> = Got(value: T, rest: string) | Failed(error: ReadError)

  type Headers = seq<(string, string)>

  datatype IncomingRequest = IncomingRequest(
    httpMethod: string, target: string, version: string, headers: Headers, body: string)

  // ---- lines ------------------------------------------------------------

  /** `read_line`: through the first line feed, or everything when there is none. */
  function FirstLine(input: string): (n: nat)
    ensures n <= |input| && (input != "" ==> n > 0)
  {
    var i := Find(input, {'\n'});
    if i == |input| then i else i + 1
  }

  function ReadLine(input: string): (r: Read<string>)
    ensures r.Got? ==> r.value != "" && r.value + r.rest == input && |r.value| <= MAX_HEADER_LINE
    ensures r != Failed(IdleClosed)
  {
    var n := FirstLine(input);
    var line := input[..n];
    if !Utf8Valid(line) then Failed(InvalidUtf8)
    else if n == 0 then Failed(ConnectionClosed)
    else if n > MAX_HEADER_LINE then Failed(LineTooLarge)
    else Got(line, input[n..])
  }

  function TrimCrlf(line: string): string {
    if line != "" && (line[|line| - 1] == '\r' || line[|line| - 1] == '\n')
    then TrimCrlf(line[..|line| - 1]) else line
  }

  predicate IsBlankLine(line: string) {
    || (|line| == 2 && line[0] == '\r' && line[1] == '\n')
    || (|line| == 1 && line[0] == '\n')
    || Trim(line) == ""
  }

  // ---- chunked bodies ---------------------------------------------------

  /** Size a chunk line declares: hexadecimal, before any `;` extension. */
  function ChunkSize(line: string): Option<nat> {
    ParseUnsigned(Trim(Split(TrimCrlf(line), {';'})[0]), 16, USIZE_MAX)
  }

  /** The trailer section, through its blank line. */
  function ReadTrailers(input: string, used: nat, most: nat): (r: Read<()>)
    ensures r.Got? ==> |r.rest| < |input|
    ensures r != Failed(IdleClosed)
    decreases |input|
  {
    match ReadLine(input)
    case Failed(e) => Failed(e)
    case Got(line, rest) =>
      if used + |line| > most then Failed(TrailersTooLarge)
      else if IsBlankLine(line) then Got((), rest)
      else ReadTrailers(rest, used + |line|, most)
  }

  /** One chunk's bytes, appended to `body`, and the line end that closes it. */
  function ReadChunkData(input: string, size: nat, limit: nat, body: string): (r: Read<string>)
    ensures r.Got? ==> |r.value| <= limit && body <= r.value && |r.rest| <= |input|
    ensures r != Failed(IdleClosed)
  {
    if |body| + size > USIZE_MAX || |body| + size > limit then Failed(PayloadTooLarge)
    else if |input| < size then Failed(IncompleteChunk)
    else if |input| < size + 2 then Failed(MissingChunkTerminator)
    else if input[size..size + 2] != "\r\n" then Failed(InvalidChunkTerminator)
    else Got(body + input[..size], input[size + 2..])
  }

  /** Remaining chunks after `body` has been decoded. The precondition is the
      bound on what is held: every recursive call has to meet it again. */
  function ReadChunks(input: string, limit: nat, body: string): (r: Read<string>)
    requires |body| <= limit
    ensures r.Got? ==> |r.value| <= limit && body <= r.value && |r.rest| < |input|
    ensures r != Failed(IdleClosed)
    decreases |input|
  {
    match ReadLine(input)
    case Failed(e) => Failed(e)
    case Got(line, rest) =>
      match ChunkSize(line)
      case None => Failed(InvalidChunkSize)
      case Some(size) =>
        if size == 0 then
          match ReadTrailers(rest, 0, MAX_HEADER_BYTES)
          case Failed(e) => Failed(e)
          case Got(_, tail) => Got(body, tail)
        else
          match ReadChunkData(rest, size, limit, body)
          case Failed(e) => Failed(e)
          case Got(longer, tail) => ReadChunks(tail, limit, longer)
  }

  // ---- headers and whole requests ---------------------------------------

  function HeaderValue(headers: Headers, name: string): Option<string> {
    if headers == [] then None
    else if Lower(headers[0].0) == Lower(name) then Some(headers[0].1)
    else HeaderValue(headers[1..], name)
  }

  /** Whether the first header called `name` lists `token`. */
  predicate HeaderContains(headers: Headers, name: string, token: string) {
    var value := HeaderValue(headers, name);
    value.Some? && exists part :: part in Split(value.value, {','}) && Lower(Trim(part)) == Lower(token)
  }

  function ReadHeaders(input: string, used: nat, most: nat): (r: Read<Headers>)
    ensures r.Got? ==> |r.rest| < |input|
    ensures r != Failed(IdleClosed)
    decreases |input|
  {
    match ReadLine(input)
    case Failed(e) => Failed(e)
    case Got(line, rest) =>
      if used + |line| > most then Failed(HeadersTooLarge)
      else if IsBlankLine(line) then Got([], rest)
      else
        match SplitOnce(TrimCrlf(line), ':')
        case None => Failed(InvalidHeaderLine)
        case Some((name, value)) =>
          match ReadHeaders(rest, used + |line|, most)
          case Failed(e) => Failed(e)
          case Got(more, tail) => Got([(Trim(name), Trim(value))] + more, tail)
  }

  function ReadBody(input: string, headers: Headers, limit: nat): (r: Read<string>)
    ensures r.Got? ==> |r.value| <= limit && |r.rest| <= |input|
    ensures r != Failed(IdleClosed)
  {
    if HeaderContains(headers, "transfer-encoding", "chunked") then ReadChunks(input, limit, "")
    else
      match HeaderValue(headers, "content-length")
      case None => Got("", input)
      case Some(text) =>
        match ParseUnsigned(text, 10, USIZE_MAX)
        case None => Failed(InvalidContentLength)
        case Some(length) =>
          if length > limit then Failed(PayloadTooLarge)
          else if |input| < length then Failed(IncompleteBody)
          else Got(input[..length], input[length..])
  }

  function ReadRequest(input: string): (r: Read<IncomingRequest>)
    ensures r.Got? ==> |r.rest| < |input| && |r.value.body| <= MAX_REQUEST_BODY_BYTES
    ensures r == Failed(IdleClosed) <==> input == ""
  {
    if input == "" then Failed(IdleClosed)
    else
      match ReadLine(input)
      case Failed(e) => Failed(e)
      case Got(line, rest) =>
        var parts := SplitWhitespace(line);
        if |parts| != 3 || !StartsWith(parts[2], "HTTP/") then Failed(InvalidRequestLine)
        else
          match ReadHeaders(rest, |line|, MAX_HEADER_BYTES)
          case Failed(e) => Failed(e)
          case Got(headers, afterHeaders) =>
            match ReadBody(afterHeaders, headers, MAX_REQUEST_BODY_BYTES)
            case Failed(e) => Failed(e)
            case Got(body, tail) =>
              Got(IncomingRequest(parts[0], parts[1], parts[2], headers, body), tail)
  }

  predicate WantsClose(request: IncomingRequest) {
    HeaderContains(request.headers, "connection", "close")
    || (Lower(request.version) == "http/1.0" && !HeaderContains(request.headers, "connection", "keep-alive"))
  }

  // ---- the connection, read in place ------------------------------------

  /** A reader's result and the bytes it leaves agree with the function `spec`. */
  ghost predicate ReadsAs<T>(r: Result<T, ReadError>, after: string, spec: Read<T>) {
    match spec
    case Got(value, rest) => r == Ok(value) && after == rest
    case Failed(e) => r == Err(e)
  }

  class Source {
    var rest: string

    constructor (bytes: string)
      ensures rest == bytes
    {
      rest := bytes;
    }

    method ReadLineLimited() returns (r: Result<string, ReadError>)
      modifies this
      ensures ReadsAs(r, rest, ReadLine(old(rest)))
      ensures r.Ok? ==> |rest| < |old(rest)|
    {
      var n := FirstLine(rest);
      var line := rest[..n];
      rest := rest[n..];
      if !Utf8Valid(line) {
        return Err(InvalidUtf8);
      }
      if n == 0 {
        return Err(ConnectionClosed);
      }
      if |line| > MAX_HEADER_LINE {
        return Err(LineTooLarge);
      }
      return Ok(line);
    }

    /** `take(n).read_to_end`: at most `n` bytes, fewer only at the end of the input. */
    method Take(n: nat) returns (bytes: string)
      modifies this
      ensures bytes + rest == old(rest)
      ensures |bytes| == if n <= |old(rest)| then n else |old(rest)|
    {
      var k := if n <= |rest| then n else |rest|;
      bytes := rest[..k];
      rest := rest[k..];
    }

    method ReadTrailerSection(most: nat) returns (r: Result<(), ReadError>)
      modifies this
      ensures ReadsAs(r, rest, ReadTrailers(old(rest), 0, most))
    {
      hide ReadLine, IsBlankLine;
      var used: nat := 0;
      ghost var spec := ReadTrailers(rest, 0, most);
      while true
        invariant spec == ReadTrailers(rest, used, most)
        decreases |rest|
      {
        var line := ReadLineLimited();
        if line.Err? {
          return Err(line.error);
        }
        used := used + |line.value|;
        if used > most {
          return Err(TrailersTooLarge);
        }
        if IsBlankLine(line.value) {
          return Ok(());
        }
      }
    }

    method ReadChunkedBodyWithLimit(limit: nat) returns (r: Result<string, ReadError>)
      modifies this
      ensures ReadsAs(r, rest, ReadChunks(old(rest), limit, ""))
    {
      var body := "";
      while true
        invariant |body| <= limit
        invariant ReadChunks(old(rest), limit, "") == ReadChunks(rest, limit, body)
        decreases |rest|
      {
        var line := ReadLineLimited();
        if line.Err? {
          return Err(line.error);
        }
        var size := ChunkSize(line.value);
        if size.None? {
          return Err(InvalidChunkSize);
        }
        if size.value == 0 {
          var trailers := ReadTrailerSection(MAX_HEADER_BYTES);
          if trailers.Err? {
            return Err(trailers.error);
          }
          return Ok(body);
        }
        var longer := ReadChunkDataWithLimit(size.value, limit, body);
        if longer.Err? {
          return Err(longer.error);
        }
        body := longer.value;
      }
    }

    method ReadChunkDataWithLimit(size: nat, limit: nat, body: string) returns (r: Result<string, ReadError>)
      requires |body| <= limit
      modifies this
      ensures ReadsAs(r, rest, ReadChunkData(old(rest), size, limit, body))
    {
      var end := |body| + size;
      if end > USIZE_MAX || end > limit {
        return Err(PayloadTooLarge);
      }
      var data := Take(size);
      if |body + data| != end {
        return Err(IncompleteChunk);
      }
      assert data == old(rest)[..size] && rest == old(rest)[size..];
      var crlf := Take(2);
      if |crlf| < 2 {
        return Err(MissingChunkTerminator);
      }
      assert crlf == old(rest)[size..size + 2] && rest == old(rest)[size + 2..];
      if crlf != "\r\n" {
        return Err(InvalidChunkTerminator);
      }
      return Ok(body + data);
    }

    method ReadRequestBodyWithLimit(headers: Headers, limit: nat) returns (r: Result<string, ReadError>)
      modifies this
      ensures ReadsAs(r, rest, ReadBody(old(rest), headers, limit))
    {
      if HeaderContains(headers, "transfer-encoding", "chunked") {
        r := ReadChunkedBodyWithLimit(limit);
        return;
      }
      var text := HeaderValue(headers, "content-length");
      if text.None? {
        return Ok("");
      }
      var length := ParseUnsigned(text.value, 10, USIZE_MAX);
      if length.None? {
        return Err(InvalidContentLength);
      }
      if length.value > limit {
        return Err(PayloadTooLarge);
      }
      var body := Take(length.value);
      if |body| != length.value {
        return Err(IncompleteBody);
      }
      assert body == old(rest)[..length.value] && rest == old(rest)[length.value..];
      return Ok(body);
    }

    method ReadHeaderSection(requestLineLength: nat, most: nat) returns (r: Result<Headers, ReadError>)
      modifies this
      ensures ReadsAs(r, rest, ReadHeaders(old(rest), requestLineLength, most))
    {
      var headers: Headers := [];
      hide ReadLine, IsBlankLine, SplitOnce, TrimCrlf, Trim;
      var used: nat := requestLineLength;
      ghost var spec := ReadHeaders(rest, requestLineLength, most);
      assert forall more: Headers :: [] + more == more;
      while true
        invariant spec == Prepend(headers, ReadHeaders(rest, used, most))
        decreases |rest|
      {
        var line := ReadLineLimited();
        if line.Err? {
          return Err(line.error);
        }
        used := used + |line.value|;
        if used > most {
          return Err(HeadersTooLarge);
        }
        if IsBlankLine(line.value) {
          assert headers + [] == headers;
          return Ok(headers);
        }
        var split := SplitOnce(TrimCrlf(line.value), ':');
        if split.None? {
          return Err(InvalidHeaderLine);
        }
        var header := (Trim(split.value.0), Trim(split.value.1));
        assert forall more: Headers :: headers + ([header] + more) == (headers + [header]) + more;
        headers := headers + [header];
      }
    }

    method ReadHttpRequest() returns (r: Result<IncomingRequest, ReadError>)
      modifies this
      ensures ReadsAs(r, rest, ReadRequest(old(rest)))
      ensures r == Err(IdleClosed) ==> rest == old(rest)
    {
      if rest == "" {
        return Err(IdleClosed);
      }
      var line := ReadLineLimited();
      if line.Err? {
        return Err(line.error);
      }
      var parts := SplitWhitespace(line.value);
      if |parts| != 3 || !StartsWith(parts[2], "HTTP/") {
        return Err(InvalidRequestLine);
      }
      var headers := ReadHeaderSection(|line.value|, MAX_HEADER_BYTES);
      if headers.Err? {
        return Err(headers.error);
      }
      var body := ReadRequestBodyWithLimit(headers.value, MAX_REQUEST_BODY_BYTES);
      if body.Err? {
        return Err(body.error);
      }
      return Ok(IncomingRequest(parts[0], parts[1], parts[2], headers.value, body.value));
    }
  }

  ghost function Prepend(front: Headers, r: Read<Headers>): Read<Headers> {
    match r
    case Got(more, rest) => Got(front + more, rest)
    case Failed(e) => Failed(e)
  }
}
