/**
 A chunked body on a connection that goes on: what the decoder answers when more
 bytes follow the ones it consumed.
 */
module ChunkedStream {
  import opened Text
  import opened HttpReader

  /** What was consumed, the input without `rest`, ends with a line feed. */
  predicate LineEnded(input: string, rest: string) {
    |rest| < |input| && input[|input| - |rest| - 1] == '\n'
  }

  predicate Leaves<T>(input: string, r: Read<T>) {
    r.Got? ==> |r.rest| < |input| && input[|input| - |r.rest|..] == r.rest
  }

  lemma {:induction false} TrailersLeaveSuffix(input: string, used: nat, most: nat)
    ensures Leaves(input, ReadTrailers(input, used, most))
    decreases |input|
  {
    hide IsBlankLine, ReadLine;
    match ReadLine(input)
    case Failed(_) =>
    case Got(line, rest) => TrailersLeaveSuffix(rest, used + |line|, most);
  }

  lemma {:induction false} ChunksLeaveSuffix(input: string, limit: nat, body: string)
    requires |body| <= limit
    ensures Leaves(input, ReadChunks(input, limit, body))
    decreases |input|
  {
    hide ChunkSize, ReadLine, ReadTrailers, ReadChunkData;
    match ReadLine(input)
    case Failed(_) =>
    case Got(line, rest) =>
      TrailersLeaveSuffix(rest, 0, MAX_HEADER_BYTES);
      match ChunkSize(line)
      case None =>
      case Some(size) =>
        ChunkDataLeaves(rest, size, limit, body);
        match ReadChunkData(rest, size, limit, body)
        case Failed(_) =>
        case Got(longer, tail) => ChunksLeaveSuffix(tail, limit, longer);
  }

  // ---- a line feed ended what was consumed: later input is left alone ----

  lemma LineExtends(input: string, more: string)
    requires ReadLine(input).Got? && LineEnded(input, ReadLine(input).rest)
    ensures ReadLine(input + more) == Got(ReadLine(input).value, ReadLine(input).rest + more)
  {
    var n := FirstLine(input);
    FindIs(input + more, {'\n'}, n - 1);
    assert (input + more)[..n] == input[..n];
    assert (input + more)[n..] == input[n..] + more;
  }

  lemma FirstLineEnded(input: string)
    requires ReadLine(input).Got? && ReadLine(input).rest != ""
    ensures LineEnded(input, ReadLine(input).rest)
  {
  }

  lemma {:induction false} TrailersExtend(input: string, used: nat, most: nat, more: string)
    requires ReadTrailers(input, used, most).Got? && LineEnded(input, ReadTrailers(input, used, most).rest)
    ensures ReadTrailers(input + more, used, most) == Got((), ReadTrailers(input, used, most).rest + more)
    decreases |input|
  {
    hide IsBlankLine, ReadLine, FirstLine;
    var r := ReadLine(input);
    if IsBlankLine(r.value) {
      LineExtends(input, more);
    } else {
      TrailersLeaveSuffix(r.rest, used + |r.value|, most);
      FirstLineEnded(input);
      LineExtends(input, more);
      TrailersExtend(r.rest, used + |r.value|, most, more);
    }
  }

  lemma ChunkDataExtends(input: string, size: nat, limit: nat, body: string, more: string)
    requires ReadChunkData(input, size, limit, body).Got?
    ensures ReadChunkData(input + more, size, limit, body)
         == Got(ReadChunkData(input, size, limit, body).value, ReadChunkData(input, size, limit, body).rest + more)
  {
    assert (input + more)[..size] == input[..size];
    assert (input + more)[size..size + 2] == input[size..size + 2];
    assert (input + more)[size + 2..] == input[size + 2..] + more;
  }

  lemma {:induction false} ChunksExtend(input: string, limit: nat, body: string, more: string)
    requires |body| <= limit
    requires ReadChunks(input, limit, body).Got? && LineEnded(input, ReadChunks(input, limit, body).rest)
    ensures ReadChunks(input + more, limit, body)
         == Got(ReadChunks(input, limit, body).value, ReadChunks(input, limit, body).rest + more)
    decreases |input|
  {
    hide ChunkSize, ReadLine, ReadTrailers, ReadChunkData, FirstLine;
    var line, rest := ReadLine(input).value, ReadLine(input).rest;
    var size := ChunkSize(line).value;
    if size == 0 {
      TrailersLeaveSuffix(rest, 0, MAX_HEADER_BYTES);
      FirstLineEnded(input);
      LineExtends(input, more);
      TrailersExtend(rest, 0, MAX_HEADER_BYTES, more);
    } else {
      var data := ReadChunkData(rest, size, limit, body);
      ChunkDataLeaves(rest, size, limit, body);
      ChunksLeaveSuffix(data.rest, limit, data.value);
      FirstLineEnded(input);
      LineExtends(input, more);
      ChunkDataExtends(rest, size, limit, body, more);
      ChunksExtend(data.rest, limit, data.value, more);
    }
  }

  lemma ChunkDataLeaves(input: string, size: nat, limit: nat, body: string)
    ensures Leaves(input, ReadChunkData(input, size, limit, body))
  {
  }

  // ---- no line feed: the next byte changes the last trailer line ---------

  lemma {:induction false} EndsInLetter(s: string)
    ensures var t := TrimStart(s + "x"); t != "" && t[|t| - 1] == 'x'
    decreases |s|
  {
    var t := s + "x";
    var n := SpaceAtStart(t);
    if n > 0 {
      assert n <= |s|;
      assert t[n..] == s[n..] + "x";
      EndsInLetter(s[n..]);
    }
  }

  lemma NotBlank(line: string)
    requires line != ""
    ensures !IsBlankLine(line + "x")
  {
    EndsInLetter(line);
    var t := TrimStart(line + "x");
    assert SpaceAtEnd(t) == 0;
  }

  /** The unterminated last line, with one more letter. */
  lemma LastLineChanges(input: string, used: nat, most: nat)
    requires ReadLine(input).Got? && ReadLine(input).rest == "" && input[|input| - 1] != '\n'
    ensures ReadTrailers(input + "x", used, most).Failed?
  {
    hide IsBlankLine;
    var longer := input + "x";
    assert Find(input, {'\n'}) == |input|;
    FindIs(longer, {'\n'}, |longer|);
    assert longer[..|longer|] == longer && longer[|longer|..] == "";
    NotBlank(input);
    NothingAfter(0, 0, "");
    assert ReadLine("").Failed?;
  }

  lemma {:induction false} TrailersChange(input: string, used: nat, most: nat)
    requires ReadTrailers(input, used, most).Got? && !LineEnded(input, ReadTrailers(input, used, most).rest)
    ensures ReadTrailers(input + "x", used, most).Failed?
    decreases |input|
  {
    hide IsBlankLine, ReadLine, FirstLine;
    var r := ReadLine(input);
    if r.rest == "" && input[|input| - 1] != '\n' {
      LastLineChanges(input, used, most);
    } else {
      TrailersLeaveSuffix(r.rest, used + |r.value|, most);
      if r.rest != "" {
        FirstLineEnded(input);
      }
      LineExtends(input, "x");
      TrailersChange(r.rest, used + |r.value|, most);
    }
  }

  lemma {:induction false} ChunksChange(input: string, limit: nat, body: string)
    requires |body| <= limit
    requires ReadChunks(input, limit, body).Got? && !LineEnded(input, ReadChunks(input, limit, body).rest)
    ensures ReadChunks(input + "x", limit, body).Failed?
    decreases |input|
  {
    hide ChunkSize, ReadLine, ReadTrailers, ReadChunkData, FirstLine;
    var line, rest := ReadLine(input).value, ReadLine(input).rest;
    var size := ChunkSize(line).value;
    if rest == "" {
      NothingAfter(size, limit, body);
      assert false;
    }
    FirstLineEnded(input);
    LineExtends(input, "x");
    if size == 0 {
      TrailersLeaveSuffix(rest, 0, MAX_HEADER_BYTES);
      TrailersChange(rest, 0, MAX_HEADER_BYTES);
    } else {
      var data := ReadChunkData(rest, size, limit, body);
      ChunkDataLeaves(rest, size, limit, body);
      ChunksLeaveSuffix(data.rest, limit, data.value);
      ChunkDataExtends(rest, size, limit, body, "x");
      ChunksChange(data.rest, limit, data.value);
    }
  }

  lemma NothingAfter(size: nat, limit: nat, body: string)
    ensures ReadTrailers("", 0, MAX_HEADER_BYTES).Failed?
    ensures size > 0 ==> ReadChunkData("", size, limit, body).Failed?
  {
    assert ReadLine("").Failed?;
  }

  /** A decoded body stays the same body, with every later byte left over, exactly when
      the consumed bytes end with a line feed. Anything the decoder leaves unread implies
      that; only a last trailer line cut off by the end of the input does not. */
  lemma SuccessDependsOnConsumedBytes(input: string, limit: nat)
    requires ReadChunks(input, limit, "").Got?
    ensures var r := ReadChunks(input, limit, "");
            (forall more :: ReadChunks(input + more, limit, "") == Got(r.value, r.rest + more))
            <==> LineEnded(input, r.rest)
    ensures ReadChunks(input, limit, "").rest != "" ==> LineEnded(input, ReadChunks(input, limit, "").rest)
  {
    hide ReadChunks;
    var r := ReadChunks(input, limit, "");
    if LineEnded(input, r.rest) {
      forall more ensures ReadChunks(input + more, limit, "") == Got(r.value, r.rest + more) {
        ChunksExtend(input, limit, "", more);
      }
    } else {
      ChunksChange(input, limit, "");
    }
    if r.rest != "" {
      UnreadMeansLineEnded(input, limit, "");
    }
  }

  /** Known before the call: an input that ends in a line feed decodes the same whatever follows. */
  lemma LineEndSuffices(input: string, limit: nat, more: string)
    requires input != "" && input[|input| - 1] == '\n'
    ensures var r := ReadChunks(input, limit, "");
            r.Got? ==> ReadChunks(input + more, limit, "") == Got(r.value, r.rest + more)
  {
    hide ReadChunks;
    if ReadChunks(input, limit, "").Got? {
      ChunksLeaveSuffix(input, limit, "");
      SuccessDependsOnConsumedBytes(input, limit);
    }
  }

  lemma {:induction false} TrailersUnread(input: string, used: nat, most: nat)
    requires ReadTrailers(input, used, most).Got? && ReadTrailers(input, used, most).rest != ""
    ensures LineEnded(input, ReadTrailers(input, used, most).rest)
    decreases |input|
  {
    hide IsBlankLine, ReadLine, FirstLine;
    var r := ReadLine(input);
    if IsBlankLine(r.value) {
      FirstLineEnded(input);
    } else {
      TrailersLeaveSuffix(r.rest, used + |r.value|, most);
      TrailersUnread(r.rest, used + |r.value|, most);
    }
  }

  lemma {:induction false} UnreadMeansLineEnded(input: string, limit: nat, body: string)
    requires |body| <= limit
    requires ReadChunks(input, limit, body).Got? && ReadChunks(input, limit, body).rest != ""
    ensures LineEnded(input, ReadChunks(input, limit, body).rest)
    decreases |input|
  {
    hide ChunkSize, ReadLine, ReadTrailers, ReadChunkData, FirstLine;
    var rest := ReadLine(input).rest;
    var size := ChunkSize(ReadLine(input).value).value;
    if size == 0 {
      TrailersLeaveSuffix(rest, 0, MAX_HEADER_BYTES);
      TrailersUnread(rest, 0, MAX_HEADER_BYTES);
    } else {
      var data := ReadChunkData(rest, size, limit, body);
      ChunkDataLeaves(rest, size, limit, body);
      ChunksLeaveSuffix(data.rest, limit, data.value);
      UnreadMeansLineEnded(data.rest, limit, data.value);
    }
  }
}
