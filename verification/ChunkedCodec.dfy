/**
 The chunked transfer coding as this program prints it (RFC 9112 section 7.1),
 and how the program's own parser reads it back: whole, followed by anything,
 cut short, or with more input arriving later.
 */
module ChunkedCodec {
  import opened Text
  import opened HttpReader
  import opened MessageSyntax

  const LAST_CHUNK: string := "0\r\n\r\n"

  function SizeLine(n: nat): string {
    PrintNumber(n, 16) + "\r\n"
  }

  function EncodeChunk(chunk: string): string {
    SizeLine(|chunk|) + chunk + "\r\n"
  }

  /** The upstream chunks as printed so far: empty ones are skipped, because a
      zero size would end the body. */
  function EncodeChunks(chunks: seq<string>): string {
    if chunks == [] then ""
    else Printed(chunks[0]) + EncodeChunks(chunks[1..])
  }

  function Concat(chunks: seq<string>): string {
    if chunks == [] then "" else chunks[0] + Concat(chunks[1..])
  }

  function NonEmpty(chunks: seq<string>): nat {
    if chunks == [] then 0 else (if chunks[0] == "" then 0 else 1) + NonEmpty(chunks[1..])
  }

  function Printed(chunk: string): string {
    if chunk == "" then "" else EncodeChunk(chunk)
  }

  // ---- printed sizes ----------------------------------------------------

  lemma SixteenHexDigits(n: nat)
    requires n <= USIZE_MAX
    ensures |PrintNumber(n, 16)| <= 16
  {
    assert Power16(4) == 0x1_0000;
    assert Power16(8) == 0x1_0000_0000;
    assert Power16(12) == 0x1_0000_0000_0000;
    PrintedHexLength(n, 16, USIZE_MAX + 1);
  }

  /** A printed size is one of the spellings of that size. */
  lemma PrintedSizeIsGood(n: nat)
    requires n <= USIZE_MAX
    ensures GoodSize(PrintNumber(n, 16), "", n)
    ensures '\n' !in PrintNumber(n, 16) + "\r"
  {
    var hex := PrintNumber(n, 16);
    PrintedDigits(n, 16);
    PrintedValue(n, 16);
    SixteenHexDigits(n);
    DigitsAreALine(hex);
    assert hex + "" == hex;
    assert hex + "\r" + "\n" == hex + "\r\n";
  }

  lemma PrintedSizeIs(n: nat, rest: string)
    requires n <= USIZE_MAX
    ensures ReadLine(SizeLine(n) + rest) == Got(SizeLine(n), rest)
    ensures ChunkSize(SizeLine(n)) == Some(n)
  {
    hide GoodSize, ReadLine, ChunkSize;
    PrintedSizeIsGood(n);
    SizeLineIs(PrintNumber(n, 16), "", n, rest);
    assert PrintNumber(n, 16) + "" + "\r\n" == SizeLine(n);
  }

  lemma DigitsAreALine(s: string)
    requires AllDigits(s, 16)
    ensures '\n' !in s + "\r" && Utf8Valid(s + "\r" + "\n")
  {
    var line := s + "\r" + "\n";
    forall i | 0 <= i < |line| ensures line[i] < '\U{80}' {
    }
    AsciiIsUtf8(line);
  }

  // ---- reading back what was printed ------------------------------------

  function Spelled(chunk: string): Chunk {
    Chunk(PrintNumber(|chunk|, 16), "", chunk)
  }

  lemma LastChunkIs(tail: string, limit: nat, body: string)
    requires |body| <= limit
    ensures ReadChunks(LAST_CHUNK + tail, limit, body) == Got(body, tail)
  {
    hide ReadChunks, GoodSize;
    var last := ChunkedText([], PrintNumber(0, 16), "", []);
    assert PrintNumber(0, 16) == ['0'];
    assert LAST_CHUNK == LastText(last);
    PrintedSizeIsGood(0);
    LastReadsBack(last, tail, limit, body);
  }

  lemma ChunkIs(chunk: string, more: string, limit: nat, body: string)
    requires chunk != "" && |body| + |chunk| <= limit <= USIZE_MAX
    ensures ReadChunks(EncodeChunk(chunk) + more, limit, body) == ReadChunks(more, limit, body + chunk)
  {
    hide ReadChunks, GoodSize;
    PrintedSizeIsGood(|chunk|);
    assert EncodeChunk(chunk) == ChunkText(Spelled(chunk)) by {
      assert PrintNumber(|chunk|, 16) + "" == PrintNumber(|chunk|, 16);
    }
    ChunkReadsBack(Spelled(chunk), more, limit, body);
  }

  /** The parser gives back exactly the printed chunks and leaves exactly the tail. */
  lemma {:induction false} RoundTrip(chunks: seq<string>, tail: string, limit: nat, body: string)
    requires |body| + |Concat(chunks)| <= limit <= USIZE_MAX
    ensures ReadChunks(EncodeChunks(chunks) + LAST_CHUNK + tail, limit, body) == Got(body + Concat(chunks), tail)
    decreases |chunks|
  {
    hide ReadChunks, EncodeChunk;
    if chunks == [] {
      assert EncodeChunks(chunks) + LAST_CHUNK + tail == LAST_CHUNK + tail;
      LastChunkIs(tail, limit, body);
      assert body + Concat(chunks) == body;
    } else {
      var more := EncodeChunks(chunks[1..]) + LAST_CHUNK + tail;
      assert EncodeChunks(chunks) + LAST_CHUNK + tail == Printed(chunks[0]) + more;
      assert body + Concat(chunks) == body + chunks[0] + Concat(chunks[1..]);
      RoundTrip(chunks[1..], tail, limit, body + chunks[0]);
      if chunks[0] == "" {
        assert Printed(chunks[0]) + more == more && body + chunks[0] == body;
      } else {
        ChunkIs(chunks[0], more, limit, body);
      }
    }
  }

  // ---- a body cut short -------------------------------------------------

  /** Nothing follows a size line that the input ends inside. */
  lemma UnfinishedSizeLine(input: string, limit: nat, body: string)
    requires |body| <= limit && '\n' !in input
    ensures ReadChunks(input, limit, body).Failed?
  {
    FindIs(input, {'\n'}, |input|);
    assert input[|input|..] == "";
    NoTrailers();
  }

  lemma UnfinishedChunk(chunk: string, cut: nat, limit: nat, body: string)
    requires chunk != "" && |body| + |chunk| <= limit <= USIZE_MAX && cut < |EncodeChunk(chunk)|
    ensures ReadChunks(EncodeChunk(chunk)[..cut], limit, body).Failed?
  {
    hide ReadLine, ChunkSize;
    var whole, input := EncodeChunk(chunk), EncodeChunk(chunk)[..cut];
    var line := SizeLine(|chunk|);
    var hex := PrintNumber(|chunk|, 16);
    PrintedDigits(|chunk|, 16);
    DigitsAreALine(hex);
    if cut < |line| {
      assert input <= hex + "\r";
      UnfinishedSizeLine(input, limit, body);
    } else {
      var rest := input[|line|..];
      assert input == line + rest;
      PrintedSizeIs(|chunk|, rest);
      assert |rest| < |chunk| + 2;
    }
  }

  /** Every proper prefix of a printed body is rejected, except the one that only lacks
      the last line feed, which already decodes to the whole body. */
  lemma {:induction false} CutShort(chunks: seq<string>, cut: nat, limit: nat, body: string)
    requires |body| + |Concat(chunks)| <= limit <= USIZE_MAX
    requires cut < |EncodeChunks(chunks) + LAST_CHUNK|
    ensures var r := ReadChunks((EncodeChunks(chunks) + LAST_CHUNK)[..cut], limit, body);
            if cut + 1 == |EncodeChunks(chunks) + LAST_CHUNK| then r == Got(body + Concat(chunks), "") else r.Failed?
    decreases |chunks|
  {
    hide ReadChunks, EncodeChunk;
    var whole := EncodeChunks(chunks) + LAST_CHUNK;
    if chunks == [] {
      assert whole == LAST_CHUNK && body + Concat(chunks) == body;
      CutLastChunk(cut, limit, body);
    } else {
      var first, more := Printed(chunks[0]), EncodeChunks(chunks[1..]) + LAST_CHUNK;
      assert whole == first + more;
      assert body + Concat(chunks) == body + chunks[0] + Concat(chunks[1..]);
      if chunks[0] == "" {
        assert whole == more && body + chunks[0] == body;
        CutShort(chunks[1..], cut, limit, body);
      } else if cut < |first| {
        assert whole[..cut] == first[..cut];
        UnfinishedChunk(chunks[0], cut, limit, body);
      } else {
        assert whole[..cut] == first + more[..cut - |first|];
        ChunkIs(chunks[0], more[..cut - |first|], limit, body);
        CutShort(chunks[1..], cut - |first|, limit, body + chunks[0]);
      }
    }
  }

  lemma LoneCarriageReturn()
    ensures ReadTrailers("\r", 0, MAX_HEADER_BYTES) == Got((), "")
  {
    var rest := "\r";
    FindIs(rest, {'\n'}, 1);
    AsciiIsUtf8(rest);
    assert rest[..1] == rest && rest[1..] == "";
    assert ReadLine(rest) == Got(rest, "");
    assert SpaceAtStart(rest) == 1;
    assert TrimStart(rest) == TrimStart("") == "";
    assert Trim(rest) == "";
  }

  lemma CutLastChunk(cut: nat, limit: nat, body: string)
    requires |body| <= limit && cut < |LAST_CHUNK|
    ensures var r := ReadChunks(LAST_CHUNK[..cut], limit, body);
            if cut == 4 then r == Got(body, "") else r.Failed?
  {
    if cut < 3 {
      UnfinishedSizeLine(LAST_CHUNK[..cut], limit, body);
    } else {
      hide ReadTrailers, ReadLine, ChunkSize;
      var rest := if cut == 3 then "" else "\r";
      assert PrintNumber(0, 16) == ['0'];
      assert SizeLine(0) == "0\r\n";
      PrintedSizeIs(0, rest);
      assert LAST_CHUNK[..cut] == SizeLine(0) + rest;
      NoTrailers();
      LoneCarriageReturn();
    }
  }

  lemma NoTrailers()
    ensures ReadTrailers("", 0, MAX_HEADER_BYTES).Failed?
  {
    assert ReadLine("") == Failed(ConnectionClosed);
  }
}
