/**
 Writing an upstream response to the client: the head, then the body re-encoded
 as chunks while it streams. The client may go away after any byte and the
 upstream stream may break after any chunk.
 */
module ResponseWriter {
  import opened Text
  import opened HttpReader
  import opened HeaderRules
  import opened ChunkedCodec

  /** `stream` lists the upstream body's chunks; `None` is a stream error. */
  datatype UpstreamResponse = UpstreamResponse(
    status: nat, reason: string, headers: Headers, stream: seq<Option<string>>)

  datatype Outcome = Outcome(status: nat, responseBytes: nat, chunks: nat)

  datatype WriteError = ClientGone | UpstreamBroken

  /** The client's end: `sent` is what it has received, `room` how many more bytes
      it takes and `flushes` how many more flushes succeed before it is gone. */
  class ClientSink {
    var sent: string
    var room: nat
    var flushes: nat

    constructor (room: nat, flushes: nat)
      ensures sent == "" && this.room == room && this.flushes == flushes
    {
      sent, this.room, this.flushes := "", room, flushes;
    }

    method WriteAll(bytes: string) returns (ok: bool)
      modifies this
      ensures ok == (|bytes| <= old(room))
      ensures sent == old(sent) + if ok then bytes else bytes[..old(room)]
      ensures room == if ok then old(room) - |bytes| else 0
      ensures flushes == old(flushes)
    {
      ok := |bytes| <= room;
      if ok {
        sent, room := sent + bytes, room - |bytes|;
      } else {
        sent, room := sent + bytes[..room], 0;
      }
    }

    method Flush() returns (ok: bool)
      modifies this
      ensures ok == (old(flushes) > 0)
      ensures flushes == (if ok then old(flushes) - 1 else 0) && sent == old(sent) && room == old(room)
    {
      ok := flushes > 0;
      if ok {
        flushes := flushes - 1;
      }
    }
  }

  predicate HasBody(status: nat) {
    status != 204 && status != 304 && status >= 200
  }

  function HeaderLine(name: string, value: string): string {
    name + ": " + value + "\r\n"
  }

  function HeaderLines(headers: Headers): string {
    if headers == [] then ""
    else (if ForwardsResponseHeader(headers[0].0) then HeaderLine(headers[0].0, headers[0].1) else "")
         + HeaderLines(headers[1..])
  }

  function StatusLine(response: UpstreamResponse): string {
    "HTTP/1.1 " + PrintNumber(response.status, 10) + " " + response.reason + "\r\n"
  }

  function ConnectionLine(closeAfter: bool): string {
    if closeAfter then "Connection: close\r\n" else "Connection: keep-alive\r\n"
  }

  function LengthLine(status: nat): string {
    if HasBody(status) then "Transfer-Encoding: chunked\r\n" else "Content-Length: 0\r\n"
  }

  function FramingLines(response: UpstreamResponse, closeAfter: bool): string {
    ConnectionLine(closeAfter) + LengthLine(response.status) + "\r\n"
  }

  function Head(response: UpstreamResponse, closeAfter: bool): string {
    StatusLine(response) + HeaderLines(response.headers) + FramingLines(response, closeAfter)
  }

  /** The chunks that arrive before the stream ends or breaks. */
  function Arriving(stream: seq<Option<string>>): seq<string> {
    if stream == [] || stream[0].None? then [] else [stream[0].value] + Arriving(stream[1..])
  }

  predicate Broken(stream: seq<Option<string>>) {
    None in stream
  }

  /** Everything a client that stays connected receives. */
  function Everything(response: UpstreamResponse, closeAfter: bool): string {
    Head(response, closeAfter)
    + if HasBody(response.status) then BodyText(response.stream) else ""
  }

  /** The sink took `text`, or as much of it as there was room for. */
  twostate predicate Offered(sink: ClientSink, text: string, ok: bool)
    reads sink
  {
    && ok == (|text| <= old(sink.room))
    && sink.sent == old(sink.sent) + (if ok then text else text[..old(sink.room)])
    && sink.room == (if ok then old(sink.room) - |text| else 0)
    && sink.flushes == old(sink.flushes)
  }

  /** Offering `text` after `written` is offering the two together. */
  lemma OfferedNext(before: string, room: nat, written: string, text: string)
    requires |written| <= room
    ensures before + written + (if |text| <= room - |written| then text else text[..room - |written|])
         == before + (if |written + text| <= room then written + text else (written + text)[..room])
  {
    if |text| > room - |written| {
      assert (written + text)[..room] == written + text[..room - |written|];
    }
  }

  method WriteHeaderLines(sink: ClientSink, headers: Headers) returns (ok: bool)
    modifies sink
    ensures Offered(sink, HeaderLines(headers), ok)
  {
    hide ForwardsResponseHeader, HeaderLine, HeaderLines;
    ghost var before, room := sink.sent, sink.room;
    ghost var whole := HeaderLines(headers);
    ok := true;
    var i := 0;
    ghost var written := "";
    assert headers[0..] == headers;
    while i < |headers|
      invariant i <= |headers| && ok
      invariant whole == written + HeaderLines(headers[i..])
      invariant sink.sent == before + written && |written| <= room
      invariant sink.room == room - |written| && sink.flushes == old(sink.flushes)
    {
      var (name, value) := headers[i];
      HeaderLinesStep(headers, i);
      if ForwardsResponseHeader(name) {
        ghost var line := HeaderLine(name, value);
        assert whole == written + line + HeaderLines(headers[i + 1..]);
        ok := WriteHeaderLine(sink, name, value);
        OfferedNext(before, room, written, line);
        if !ok {
          assert whole[..room] == (written + line)[..room];
          return;
        }
        written := written + line;
      }
      i := i + 1;
    }
    assert headers[i..] == [];
    NoHeaderLines();
  }

  lemma HeaderLinesStep(headers: Headers, i: nat)
    requires i < |headers|
    ensures HeaderLines(headers[i..])
         == (if ForwardsResponseHeader(headers[i].0) then HeaderLine(headers[i].0, headers[i].1) else "")
            + HeaderLines(headers[i + 1..])
  {
    hide ForwardsResponseHeader, HeaderLine;
    assert headers[i..][1..] == headers[i + 1..];
  }

  lemma NoHeaderLines()
    ensures HeaderLines([]) == ""
  {
  }

  /** Writes the next part of `whole`, of which the sink has taken `written` so far. */
  method WritePart(
    sink: ClientSink, text: string, ghost written: string, ghost whole: string, ghost before: string, ghost room: nat)
    returns (ok: bool)
    requires written + text <= whole && |written| <= room
    requires sink.sent == before + written && sink.room == room - |written|
    modifies sink
    ensures sink.flushes == old(sink.flushes)
    ensures ok ==> && |written + text| <= room && sink.sent == before + (written + text)
                   && sink.room == room - |written + text|
    ensures !ok ==> |whole| > room && sink.sent == before + whole[..room] && sink.room == 0
  {
    ok := sink.WriteAll(text);
    OfferedNext(before, room, written, text);
    if !ok {
      assert whole[..room] == (written + text)[..room];
    }
  }

  method WriteHeaderLine(sink: ClientSink, name: string, value: string) returns (ok: bool)
    modifies sink
    ensures Offered(sink, HeaderLine(name, value), ok)
  {
    ghost var before, room := sink.sent, sink.room;
    ghost var whole := HeaderLine(name, value);
    assert before + "" == before && "" + name == name;
    ok := WritePart(sink, name, "", whole, before, room);
    if !ok {
      return;
    }
    ok := WritePart(sink, ": ", name, whole, before, room);
    if !ok {
      return;
    }
    ok := WritePart(sink, value, name + ": ", whole, before, room);
    if !ok {
      return;
    }
    ok := WritePart(sink, "\r\n", name + ": " + value, whole, before, room);
  }

  method WriteFraming(sink: ClientSink, response: UpstreamResponse, closeAfter: bool) returns (ok: bool)
    modifies sink
    ensures Offered(sink, FramingLines(response, closeAfter), ok)
  {
    ghost var before, room := sink.sent, sink.room;
    ghost var whole := FramingLines(response, closeAfter);
    var connection := ConnectionLine(closeAfter);
    var length := LengthLine(response.status);
    hide ConnectionLine, LengthLine;
    assert before + "" == before && "" + connection == connection;
    ok := WritePart(sink, connection, "", whole, before, room);
    if !ok {
      return;
    }
    ok := WritePart(sink, length, connection, whole, before, room);
    if !ok {
      return;
    }
    ok := WritePart(sink, "\r\n", connection + length, whole, before, room);
  }

  method WriteHead(sink: ClientSink, response: UpstreamResponse, closeAfter: bool) returns (ok: bool)
    modifies sink
    ensures Offered(sink, Head(response, closeAfter), ok)
  {
    hide StatusLine, HeaderLines, FramingLines;
    ghost var before, room := sink.sent, sink.room;
    ghost var status, lines := StatusLine(response), HeaderLines(response.headers);
    ghost var framing := FramingLines(response, closeAfter);
    ok := sink.WriteAll(StatusLine(response));
    if !ok {
      assert (status + lines + framing)[..room] == status[..room];
      return;
    }
    ok := WriteHeaderLines(sink, response.headers);
    OfferedNext(before, room, status, lines);
    if !ok {
      assert (status + lines + framing)[..room] == (status + lines)[..room];
      return;
    }
    ok := WriteFraming(sink, response, closeAfter);
    OfferedNext(before, room, status + lines, framing);
  }

  method WriteChunk(sink: ClientSink, chunk: string) returns (ok: bool)
    modifies sink
    ensures Offered(sink, EncodeChunk(chunk), ok)
  {
    hide PrintNumber;
    ghost var before, room := sink.sent, sink.room;
    ghost var whole := EncodeChunk(chunk);
    var size := PrintNumber(|chunk|, 16) + "\r\n";
    assert before + "" == before && "" + size == size;
    ok := WritePart(sink, size, "", whole, before, room);
    if !ok {
      return;
    }
    ok := WritePart(sink, chunk, size, whole, before, room);
    if !ok {
      return;
    }
    ok := WritePart(sink, "\r\n", size + chunk, whole, before, room);
  }

  function BodyText(stream: seq<Option<string>>): string {
    EncodeChunks(Arriving(stream)) + if Broken(stream) then "" else LAST_CHUNK
  }

  /** Streams the body. The counters count what has been written in full. */
  method WriteBody(sink: ClientSink, status: nat, stream: seq<Option<string>>)
    returns (r: Result<Outcome, WriteError>)
    modifies sink
    ensures old(sink.sent) <= sink.sent <= old(sink.sent) + BodyText(stream)
    ensures r.Ok? <==> && !Broken(stream) && |BodyText(stream)| <= old(sink.room)
                       && NonEmpty(Arriving(stream)) <= old(sink.flushes)
    ensures r.Ok? ==> && sink.sent == old(sink.sent) + BodyText(stream)
                      && r.value == Outcome(status, |Concat(Arriving(stream))|, NonEmpty(Arriving(stream)))
                      && sink.flushes == old(sink.flushes) - r.value.chunks
    ensures r == Err(UpstreamBroken) ==> Broken(stream) && sink.sent == old(sink.sent) + BodyText(stream)
  {
    hide EncodeChunk, BodyText, Broken, Arriving, Concat, NonEmpty;
    ghost var before, room := sink.sent, sink.room;
    ghost var whole := BodyText(stream);
    ghost var written := "";
    var responseBytes, chunks := 0, 0;
    var i := 0;
    assert stream[0..] == stream;
    while i < |stream|
      invariant i <= |stream|
      invariant whole == written + BodyText(stream[i..])
      invariant Broken(stream) == Broken(stream[i..])
      invariant sink.sent == before + written && |written| <= room && sink.room == room - |written|
      invariant sink.flushes == old(sink.flushes) - chunks && chunks <= old(sink.flushes)
      invariant responseBytes >= 0 && |Concat(Arriving(stream))| == responseBytes + |Concat(Arriving(stream[i..]))|
      invariant chunks >= 0 && NonEmpty(Arriving(stream)) == chunks + NonEmpty(Arriving(stream[i..]))
    {
      ghost var rest := stream[i..];
      assert rest[1..] == stream[i + 1..];
      if stream[i].None? {
        StreamBreaks(rest);
        return Err(UpstreamBroken);
      }
      var chunk := stream[i].value;
      StreamStep(rest);
      i := i + 1;
      if chunk == "" {
        continue;
      }
      ghost var line := EncodeChunk(chunk);
      assert whole == written + line + BodyText(stream[i..]);
      var ok := WriteChunk(sink, chunk);
      OfferedNext(before, room, written, line);
      if !ok {
        CutIsPrefix(before, written + line, whole, room);
        return Err(ClientGone);
      }
      written := written + line;
      responseBytes := responseBytes + |chunk|;
      chunks := chunks + 1;
      ok := sink.Flush();
      if !ok {
        return Err(ClientGone);
      }
    }
    StreamEnds(stream[i..]);
    var ok := sink.WriteAll(LAST_CHUNK);
    OfferedNext(before, room, written, LAST_CHUNK);
    if !ok {
      CutIsPrefix(before, whole, whole, room);
      return Err(ClientGone);
    }
    return Ok(Outcome(status, responseBytes, chunks));
  }

  lemma AddBody(before: string, head: string, body: string, sent: string)
    requires before + head <= sent <= before + head + body
    ensures before <= sent <= before + (head + body)
    ensures before + head + body == before + (head + body)
  {
    assert before + head + body == before + (head + body);
  }

  lemma CutIsPrefix(before: string, written: string, whole: string, room: nat)
    requires written <= whole && room <= |written|
    ensures before <= before + written[..room] <= before + whole
  {
  }

  lemma StreamBreaks(stream: seq<Option<string>>)
    requires stream != [] && stream[0].None?
    ensures BodyText(stream) == "" && Broken(stream)
    ensures NonEmpty(Arriving(stream)) == 0 && Concat(Arriving(stream)) == ""
  {
  }

  lemma StreamEnds(stream: seq<Option<string>>)
    requires stream == []
    ensures BodyText(stream) == LAST_CHUNK && !Broken(stream)
    ensures NonEmpty(Arriving(stream)) == 0 && Concat(Arriving(stream)) == ""
  {
  }

  lemma StreamStep(stream: seq<Option<string>>)
    requires stream != [] && stream[0].Some?
    ensures BodyText(stream) == Printed(stream[0].value) + BodyText(stream[1..])
    ensures Broken(stream) == Broken(stream[1..])
    ensures Concat(Arriving(stream)) == stream[0].value + Concat(Arriving(stream[1..]))
    ensures NonEmpty(Arriving(stream))
         == (if stream[0].value == "" then 0 else 1) + NonEmpty(Arriving(stream[1..]))
  {
    hide EncodeChunk;
    assert stream == [stream[0]] + stream[1..];
    assert Arriving(stream)[1..] == Arriving(stream[1..]);
  }

  /** The whole response. Success means the client received all of it; any failure leaves
      it with a prefix, and a broken upstream never gets its body's end marker written. */
  method WriteUpstreamResponse(sink: ClientSink, response: UpstreamResponse, closeAfter: bool)
    returns (r: Result<Outcome, WriteError>)
    modifies sink
    ensures old(sink.sent) <= sink.sent <= old(sink.sent) + Everything(response, closeAfter)
    ensures r.Ok? <==>
      && (HasBody(response.status) ==> !Broken(response.stream))
      && |Everything(response, closeAfter)| <= old(sink.room)
      && (if HasBody(response.status) then NonEmpty(Arriving(response.stream)) else 0) < old(sink.flushes)
    ensures r.Ok? ==>
      && sink.sent == old(sink.sent) + Everything(response, closeAfter)
      && r.value == if HasBody(response.status)
                    then Outcome(response.status, |Concat(Arriving(response.stream))|,
                                 NonEmpty(Arriving(response.stream)))
                    else Outcome(response.status, 0, 0)
    ensures r == Err(UpstreamBroken) ==>
      && HasBody(response.status) && Broken(response.stream)
      && sink.sent == old(sink.sent) + Everything(response, closeAfter)
  {
    hide Head, HasBody, BodyText, Broken, Arriving, Concat, NonEmpty;
    ghost var before, room := sink.sent, sink.room;
    ghost var head := Head(response, closeAfter);
    var ok := WriteHead(sink, response, closeAfter);
    if !ok {
      CutIsPrefix(before, head, Everything(response, closeAfter), room);
      return Err(ClientGone);
    }
    ghost var everything := Everything(response, closeAfter);
    assert everything == head + if HasBody(response.status) then BodyText(response.stream) else "";
    hide Everything;
    r := Ok(Outcome(response.status, 0, 0));
    if HasBody(response.status) {
      r := WriteBody(sink, response.status, response.stream);
      AddBody(before, head, BodyText(response.stream), sink.sent);
      if r.Err? {
        return;
      }
    } else {
      assert head + "" == head;
    }
    ok := sink.Flush();
    if !ok {
      return Err(ClientGone);
    }
  }

  /** The chunk counter counts each chunk that is not empty once, wherever it stands. */
  lemma {:induction false} NonEmptyAppend(a: seq<string>, chunk: string, b: seq<string>)
    ensures NonEmpty(a + [chunk] + b) == NonEmpty(a + b) + if chunk == "" then 0 else 1
    decreases |a|
  {
    if a == [] {
      assert a + [chunk] + b == [chunk] + b && a + b == b && ([chunk] + b)[1..] == b;
    } else {
      assert (a + [chunk] + b)[1..] == a[1..] + [chunk] + b && (a + b)[1..] == a[1..] + b;
      NonEmptyAppend(a[1..], chunk, b);
    }
  }

  /** The client's view of the body it got, which may end anywhere. It decodes exactly when
      the upstream finished and at most the final line feed is missing, and then to the
      upstream's bytes; a broken or cut response never passes for a complete one. */
  lemma ClientDecodes(stream: seq<Option<string>>, cut: nat, limit: nat)
    requires |Concat(Arriving(stream))| <= limit <= USIZE_MAX && cut <= |BodyText(stream)|
    ensures var r := ReadChunks(BodyText(stream)[..cut], limit, "");
            && (r.Got? <==> !Broken(stream) && cut + 1 >= |BodyText(stream)|)
            && (r.Got? ==> r.value == Concat(Arriving(stream)))
  {
    hide ReadChunks, EncodeChunks, Concat, Arriving, Broken;
    var chunks := Arriving(stream);
    var whole := EncodeChunks(chunks) + LAST_CHUNK;
    assert "" + Concat(chunks) == Concat(chunks);
    if cut < |whole| {
      assert BodyText(stream)[..cut] == whole[..cut];
      CutShort(chunks, cut, limit, "");
    } else {
      assert BodyText(stream)[..cut] == whole + "";
      RoundTrip(chunks, "", limit, "");
    }
  }
}
