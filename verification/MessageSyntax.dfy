/**
 Messages as any client may spell them (RFC 9112): field lines with optional white
 space around their values, and chunked bodies with sizes in either case and with
 leading zeros, chunk extensions and trailer fields. Everything here is read back
 by this program's own readers.
 */
module MessageSyntax {
  import opened Text
  import opened HttpReader

  // ---- lines ------------------------------------------------------------

  predicate GoodLine(line: string) {
    Utf8Valid(line) && |line| <= 32_768
  }

  lemma LineIs(line: string, rest: string)
    requires '\n' !in line && GoodLine(line + "\n")
    ensures ReadLine(line + "\n" + rest) == Got(line + "\n", rest)
  {
    var input := line + "\n" + rest;
    FindIs(input, {'\n'}, |line|);
    assert input[..|line| + 1] == line + "\n";
    assert input[|line| + 1..] == rest;
  }

  lemma CrlfLineIs(text: string, rest: string)
    requires '\n' !in text && GoodLine(text + "\r\n")
    ensures ReadLine(text + "\r\n" + rest) == Got(text + "\r\n", rest)
  {
    hide ReadLine, GoodLine;
    var line := text + "\r";
    assert line + "\n" == text + "\r\n";
    LineIs(line, rest);
  }

  lemma BlankLineIs(tail: string)
    ensures ReadLine("\r\n" + tail) == Got("\r\n", tail) && IsBlankLine("\r\n")
  {
    AsciiIsUtf8("\r\n");
    assert "" + "\r\n" == "\r\n";
    CrlfLineIs("", tail);
  }

  lemma {:induction false} TrimEndKeeps(s: string)
    requires s != "" && SpaceAtStart(s) == 0
    ensures TrimEnd(s) != ""
    decreases |s|
  {
    var n := SpaceAtEnd(s);
    if n > 0 {
      assert n < |s|;
      assert SpaceAtStart(s[..|s| - n]) == 0;
      TrimEndKeeps(s[..|s| - n]);
    }
  }

  /** A line that starts with something visible does not end a section. */
  lemma VisibleIsNotBlank(text: string, more: string)
    requires text != "" && SpaceAtStart(text) == 0 && (more == "" || more[0] < '\U{80}')
    ensures !IsBlankLine(text + more)
  {
    SpaceAtStartExtend(text, more);
    TrimEndKeeps(text + more);
  }

  lemma TrimCrlfTail(s: string)
    requires s == "" || (s[|s| - 1] != '\r' && s[|s| - 1] != '\n')
    ensures TrimCrlf(s + "\r\n") == s
  {
    var t := s + "\r\n";
    var u := s + "\r";
    assert t[..|t| - 1] == u && t[|t| - 1] == '\n';
    assert u[..|u| - 1] == s && u[|u| - 1] == '\r';
    assert TrimCrlf(t) == TrimCrlf(u) == TrimCrlf(s);
  }

  lemma {:induction false} TrimCrlfKeeps(a: string, b: string)
    requires a != "" && a[|a| - 1] != '\r' && a[|a| - 1] != '\n'
    ensures a <= TrimCrlf(a + b)
    decreases |b|
  {
    if b == "" {
      assert a + b == a;
    } else {
      assert (a + b)[..|a + b| - 1] == a + b[..|b| - 1];
      TrimCrlfKeeps(a, b[..|b| - 1]);
    }
  }

  // ---- optional white space ---------------------------------------------

  predicate Blanks(s: string) {
    forall i :: 0 <= i < |s| ==> s[i] == ' ' || s[i] == '\t'
  }

  lemma {:induction false} TrimsBefore(before: string, text: string)
    requires Blanks(before)
    ensures TrimStart(before + text) == TrimStart(text)
    decreases |before|
  {
    if before == "" {
      assert before + text == text;
    } else {
      assert (before + text)[1..] == before[1..] + text;
      assert SpaceAtStart(before + text) == 1;
      TrimsBefore(before[1..], text);
    }
  }

  lemma {:induction false} TrimsAfter(text: string, after: string)
    requires Blanks(after)
    ensures TrimEnd(text + after) == TrimEnd(text)
    decreases |after|
  {
    if after == "" {
      assert text + after == text;
    } else {
      var front := after[..|after| - 1];
      assert (text + after)[..|text + after| - 1] == text + front;
      assert SpaceAtEnd(text + after) == 1;
      TrimsAfter(text, front);
    }
  }

  lemma {:induction false} BlanksTrimAway(s: string)
    requires Blanks(s)
    ensures Trim(s) == ""
  {
    assert s + "" == s;
    TrimsBefore(s, "");
  }

  lemma TrimsToValue(before: string, value: string, after: string)
    requires Blanks(before) && Blanks(after) && Trimmed(value)
    ensures Trim(before + value + after) == value
  {
    if value == "" {
      BlanksTrimAway(before + value + after);
    } else {
      assert before + value + after == before + (value + after);
      TrimsBefore(before, value + after);
      SpaceAtStartExtend(value, after);
      TrimsAfter(value, after);
      TrimmedIsTrim(value);
    }
  }

  // ---- field lines ------------------------------------------------------

  /** A header with the white space its sender put around the value. */
  datatype Field = Field(name: string, before: string, value: string, after: string)

  function FieldText(f: Field): string {
    f.name + ":" + f.before + f.value + f.after
  }

  function FieldLines(fields: seq<Field>): string {
    if fields == [] then "" else FieldText(fields[0]) + "\r\n" + FieldLines(fields[1..])
  }

  function HeadersOf(fields: seq<Field>): Headers {
    if fields == [] then [] else [(fields[0].name, fields[0].value)] + HeadersOf(fields[1..])
  }

  predicate GoodField(f: Field) {
    && f.name != "" && Trimmed(f.name) && ':' !in f.name && '\n' !in f.name
    && Trimmed(f.value) && '\n' !in f.value
    && Blanks(f.before) && Blanks(f.after)
    && GoodLine(FieldText(f) + "\r\n")
  }

  predicate GoodFields(fields: seq<Field>) {
    forall f :: f in fields ==> GoodField(f)
  }

  lemma FieldLineIs(f: Field, rest: string)
    requires GoodField(f)
    ensures ReadLine(FieldText(f) + "\r\n" + rest) == Got(FieldText(f) + "\r\n", rest)
    ensures !IsBlankLine(FieldText(f) + "\r\n")
  {
    hide ReadLine, GoodLine, IsBlankLine;
    CrlfLineIs(FieldText(f), rest);
    var more := ":" + f.before + f.value + f.after + "\r\n";
    assert FieldText(f) + "\r\n" == f.name + more;
    VisibleIsNotBlank(f.name, more);
  }

  lemma FieldLineSplits(f: Field)
    requires GoodField(f)
    ensures SplitOnce(TrimCrlf(FieldText(f) + "\r\n"), ':') == Some((f.name, f.before + f.value + f.after))
    ensures Trim(f.name) == f.name && Trim(f.before + f.value + f.after) == f.value
  {
    hide SplitOnce, TrimCrlf, Trim, GoodLine;
    FieldEndsInLine(f);
    TrimCrlfTail(FieldText(f));
    assert FieldText(f) == f.name + ":" + (f.before + f.value + f.after);
    SplitsAtColon(f.name, f.before + f.value + f.after);
    TrimmedIsTrim(f.name);
    TrimsToValue(f.before, f.value, f.after);
  }

  lemma FieldEndsInLine(f: Field)
    requires Trimmed(f.value) && Blanks(f.before) && Blanks(f.after)
    ensures var text := FieldText(f); text[|text| - 1] != '\r' && text[|text| - 1] != '\n'
  {
    var text := FieldText(f);
    if f.after != "" {
      assert text[|text| - 1] == f.after[|f.after| - 1];
    } else if f.value != "" {
      assert text[|text| - 1] == f.value[|f.value| - 1];
    } else if f.before != "" {
      assert text[|text| - 1] == f.before[|f.before| - 1];
    }
  }

  lemma SplitsAtColon(name: string, value: string)
    requires ':' !in name
    ensures SplitOnce(name + ":" + value, ':') == Some((name, value))
  {
    var text := name + ":" + value;
    FindIs(text, {':'}, |name|);
    assert text[..|name|] == name;
    assert text[|name| + 1..] == value;
  }

  lemma {:induction false} FieldsReadBack(fields: seq<Field>, used: nat, most: nat, tail: string)
    requires GoodFields(fields)
    requires used + |FieldLines(fields)| + 2 <= most
    ensures ReadHeaders(FieldLines(fields) + "\r\n" + tail, used, most) == Got(HeadersOf(fields), tail)
    decreases |fields|
  {
    hide ReadLine, IsBlankLine, SplitOnce, TrimCrlf, Trim, GoodField, FieldText;
    if fields == [] {
      assert FieldLines(fields) + "\r\n" + tail == "\r\n" + tail;
      BlankLineIs(tail);
    } else {
      var f, more := fields[0], fields[1..];
      var line, rest := FieldText(f) + "\r\n", FieldLines(more) + "\r\n" + tail;
      assert FieldLines(fields) + "\r\n" + tail == line + rest;
      FieldLineIs(f, rest);
      FieldLineSplits(f);
      FieldsReadBack(more, used + |line|, most, tail);
    }
  }

  /** Printable ASCII without a space or a colon. */
  predicate Printable(s: string) {
    s != "" && forall i :: 0 <= i < |s| ==> '!' <= s[i] <= '~' && s[i] != ':'
  }

  lemma PrintableFieldIsGood(name: string, value: string)
    requires Printable(name) && Printable(value) && |name| + |value| + 4 <= MAX_HEADER_LINE
    ensures GoodField(Field(name, " ", value, ""))
  {
    var line := name + ": " + value + "\r\n";
    assert line == FieldText(Field(name, " ", value, "")) + "\r\n";
    forall i | 0 <= i < |line| ensures line[i] < '\U{80}' {
      if i < |name| {
        assert line[i] == name[i];
      } else if |name| + 2 <= i < |name| + 2 + |value| {
        assert line[i] == value[i - |name| - 2];
      }
    }
    AsciiIsUtf8(line);
  }

  // ---- chunked bodies ---------------------------------------------------

  /** `digits` is the size as its sender writes it; `extension` is the rest of that line. */
  datatype Chunk = Chunk(digits: string, extension: string, data: string)

  datatype ChunkedText = ChunkedText(
    chunks: seq<Chunk>, lastDigits: string, lastExtension: string, trailers: seq<string>)

  /** Nothing, or a semicolon and anything, after optional white space. */
  predicate IsExtension(e: string) {
    e == "" || e[0] == ';' || ((e[0] == ' ' || e[0] == '\t') && IsExtension(e[1..]))
  }

  predicate GoodSize(digits: string, extension: string, size: nat) {
    && digits != "" && AllDigits(digits, 16) && NumberValue(digits, 16) == size
    && IsExtension(extension) && '\n' !in extension
    && GoodLine(digits + extension + "\r\n")
  }

  predicate GoodChunk(c: Chunk) {
    c.data != "" && GoodSize(c.digits, c.extension, |c.data|)
  }

  /** A trailer line begins with its field's name. */
  predicate GoodTrailer(t: string) {
    t != "" && SpaceAtStart(t) == 0 && '\n' !in t && GoodLine(t + "\r\n")
  }

  predicate GoodChunkedText(b: ChunkedText) {
    && (forall c :: c in b.chunks ==> GoodChunk(c))
    && GoodSize(b.lastDigits, b.lastExtension, 0)
    && (forall t :: t in b.trailers ==> GoodTrailer(t))
    && |TrailerLines(b.trailers)| + 2 <= 262_144
  }

  function ChunkText(c: Chunk): string {
    c.digits + c.extension + "\r\n" + c.data + "\r\n"
  }

  function ChunkTexts(chunks: seq<Chunk>): string {
    if chunks == [] then "" else ChunkText(chunks[0]) + ChunkTexts(chunks[1..])
  }

  function TrailerLines(trailers: seq<string>): string {
    if trailers == [] then "" else trailers[0] + "\r\n" + TrailerLines(trailers[1..])
  }

  function LastText(b: ChunkedText): string {
    b.lastDigits + b.lastExtension + "\r\n" + TrailerLines(b.trailers) + "\r\n"
  }

  function ChunkedBytes(b: ChunkedText): string {
    ChunkTexts(b.chunks) + LastText(b)
  }

  function Payload(chunks: seq<Chunk>): string {
    if chunks == [] then "" else chunks[0].data + Payload(chunks[1..])
  }

  function Padding(e: string): (n: nat)
    requires IsExtension(e)
    ensures n <= |e| && Blanks(e[..n]) && (n < |e| ==> e[n] == ';')
  {
    if e == "" || e[0] == ';' then 0 else 1 + Padding(e[1..])
  }

  lemma SizeLineIs(digits: string, extension: string, size: nat, rest: string)
    requires GoodSize(digits, extension, size) && size <= USIZE_MAX
    ensures var line := digits + extension + "\r\n";
            ReadLine(line + rest) == Got(line, rest) && ChunkSize(line) == Some(size)
  {
    hide ReadLine, TrimCrlf, Split, Trim, NumberValue, GoodLine;
    DigitsAreVisible(digits);
    CrlfLineIs(digits + extension, rest);
    SizeLinePart(digits, extension);
    TrimsToValue("", digits, extension[..Padding(extension)]);
    assert "" + digits + extension[..Padding(extension)] == digits + extension[..Padding(extension)];
  }

  lemma DigitsAreVisible(digits: string)
    requires digits != "" && AllDigits(digits, 16)
    ensures Trimmed(digits) && digits[0] != '+'
    ensures '\n' !in digits && ';' !in digits
    ensures digits[|digits| - 1] != '\r' && digits[|digits| - 1] != '\n'
  {
    assert IsDigit(digits[0], 16) && IsDigit(digits[|digits| - 1], 16);
    forall c | c in digits ensures c != '\n' && c != ';' {
      var i :| 0 <= i < |digits| && digits[i] == c;
      assert IsDigit(digits[i], 16);
    }
  }

  /** What comes before the first semicolon, once the line end is gone. */
  lemma SizeLinePart(digits: string, extension: string)
    requires digits != "" && ';' !in digits && digits[|digits| - 1] != '\r' && digits[|digits| - 1] != '\n'
    requires IsExtension(extension)
    ensures Split(TrimCrlf(digits + extension + "\r\n"), {';'})[0] == digits + extension[..Padding(extension)]
  {
    hide TrimCrlf;
    var n := Padding(extension);
    var text, line := digits + extension, digits + extension + "\r\n";
    if n == |extension| {
      assert extension[..n] == extension;
      TrimCrlfTail(text);
      FindIs(text, {';'}, |text|);
    } else {
      var front := digits + extension[..n] + ";";
      assert line == front + line[|front|..];
      TrimCrlfKeeps(front, line[|front|..]);
      FindIs(TrimCrlf(line), {';'}, |front| - 1);
      assert TrimCrlf(line)[..|front| - 1] == digits + extension[..n];
    }
  }

  lemma ChunkReadsBack(c: Chunk, more: string, limit: nat, body: string)
    requires GoodChunk(c) && |body| + |c.data| <= limit <= USIZE_MAX
    ensures ReadChunks(ChunkText(c) + more, limit, body) == ReadChunks(more, limit, body + c.data)
  {
    hide ReadLine, ChunkSize, GoodSize;
    var line, data := c.digits + c.extension + "\r\n", c.data + "\r\n" + more;
    SizeLineIs(c.digits, c.extension, |c.data|, data);
    assert ChunkText(c) + more == line + data;
    assert data[..|c.data|] == c.data;
    assert data[|c.data|..|c.data| + 2] == "\r\n";
    assert data[|c.data| + 2..] == more;
    assert ReadChunkData(data, |c.data|, limit, body) == Got(body + c.data, more);
  }

  /** A chunk that would exceed the limit is refused before any of it is read, however much of it
      has arrived. */
  lemma OversizeChunk(digits: string, extension: string, size: nat, rest: string, limit: nat, body: string)
    requires GoodSize(digits, extension, size) && size <= USIZE_MAX
    requires size > 0 && |body| <= limit < |body| + size
    ensures ReadChunks(digits + extension + "\r\n" + rest, limit, body) == Failed(PayloadTooLarge)
  {
    hide ReadLine, ChunkSize, GoodSize;
    SizeLineIs(digits, extension, size, rest);
  }

  lemma {:induction false} TrailersReadBack(trailers: seq<string>, used: nat, most: nat, tail: string)
    requires forall t :: t in trailers ==> GoodTrailer(t)
    requires used + |TrailerLines(trailers)| + 2 <= most
    ensures ReadTrailers(TrailerLines(trailers) + "\r\n" + tail, used, most) == Got((), tail)
    decreases |trailers|
  {
    hide ReadLine, IsBlankLine, GoodLine;
    if trailers == [] {
      assert TrailerLines(trailers) + "\r\n" + tail == "\r\n" + tail;
      BlankLineIs(tail);
    } else {
      var t, rest := trailers[0], TrailerLines(trailers[1..]) + "\r\n" + tail;
      assert t in trailers;
      assert TrailerLines(trailers) + "\r\n" + tail == t + "\r\n" + rest;
      CrlfLineIs(t, rest);
      VisibleIsNotBlank(t, "\r\n");
      TrailersReadBack(trailers[1..], used + |t + "\r\n"|, most, tail);
    }
  }

  lemma LastReadsBack(b: ChunkedText, tail: string, limit: nat, body: string)
    requires GoodChunkedText(b) && |body| <= limit
    ensures ReadChunks(LastText(b) + tail, limit, body) == Got(body, tail)
  {
    hide ReadLine, ChunkSize, GoodSize, ReadTrailers, TrailerLines;
    var line, rest := b.lastDigits + b.lastExtension + "\r\n", TrailerLines(b.trailers) + "\r\n" + tail;
    assert LastText(b) + tail == line + rest;
    SizeLineIs(b.lastDigits, b.lastExtension, 0, rest);
    TrailersReadBack(b.trailers, 0, MAX_HEADER_BYTES, tail);
  }

  /** However a chunked body is spelled, the parser gives back exactly its payload and leaves
      exactly the tail. */
  lemma {:induction false} ChunkedReadsBack(b: ChunkedText, tail: string, limit: nat, body: string)
    requires GoodChunkedText(b) && |body| + |Payload(b.chunks)| <= limit <= USIZE_MAX
    ensures ReadChunks(ChunkedBytes(b) + tail, limit, body) == Got(body + Payload(b.chunks), tail)
    decreases |b.chunks|
  {
    hide ReadChunks, ChunkText, LastText, GoodChunk, GoodSize, GoodTrailer;
    if b.chunks == [] {
      assert ChunkedBytes(b) + tail == LastText(b) + tail;
      assert body + Payload(b.chunks) == body;
      LastReadsBack(b, tail, limit, body);
    } else {
      var c, rest := b.chunks[0], b.(chunks := b.chunks[1..]);
      assert LastText(rest) == LastText(b) by { LastTextOnly(b, rest); }
      assert ChunkedBytes(b) + tail == ChunkText(c) + (ChunkedBytes(rest) + tail);
      assert body + Payload(b.chunks) == body + c.data + Payload(rest.chunks);
      ChunkReadsBack(c, ChunkedBytes(rest) + tail, limit, body);
      ChunkedReadsBack(rest, tail, limit, body + c.data);
    }
  }

  lemma LastTextOnly(b: ChunkedText, c: ChunkedText)
    requires b.lastDigits == c.lastDigits && b.lastExtension == c.lastExtension && b.trailers == c.trailers
    ensures LastText(b) == LastText(c)
  {
  }

  /** The encoding is longer than what it encodes. */
  lemma {:induction false} PayloadIsShorter(b: ChunkedText)
    ensures |Payload(b.chunks)| < |ChunkedBytes(b)|
    decreases |b.chunks|
  {
    if b.chunks != [] {
      PayloadIsShorter(b.(chunks := b.chunks[1..]));
    }
  }
}
