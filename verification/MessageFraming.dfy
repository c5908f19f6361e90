/**
 How long a request body is: what its sender means (section 6.3 of RFC 9112, over
 every field line) and what this program takes it for (the first field line of a
 name), and when the two agree.
 */
module MessageFraming {
  import opened Text
  import opened HttpReader
  import opened MessageSyntax
  import opened FieldLists

  datatype BodyLength = Chunked | Length(n: nat) | NoBody | Unclear

  predicate EndsInChunked(codings: seq<string>) {
    && codings != [] && codings[|codings| - 1] == "chunked"
    && forall i :: 0 <= i < |codings| - 1 ==> codings[i] != "chunked"
  }

  /** Decimal digits only. */
  predicate IsDecimal(value: string) {
    value != "" && AllDigits(value, 10)
  }

  predicate AllAre(lengths: seq<string>, n: nat) {
    forall v :: v in lengths ==> IsDecimal(v) && NumberValue(v, 10) == n
  }

  /** Chunked must be the last transfer coding and be there once; without transfer codings every
      length must be the same number. What is `Unclear` a sender must not send. */
  function SenderFraming(headers: Headers): BodyLength {
    var codings, lengths := FieldValues(headers, "transfer-encoding"), FieldValues(headers, "content-length");
    if codings != [] then if EndsInChunked(Combined(codings)) then Chunked else Unclear
    else if lengths == [] then NoBody
    else if !IsDecimal(lengths[0]) then Unclear
    else
      var n := NumberValue(lengths[0], 10);
      if AllAre(lengths, n) then Length(n) else Unclear
  }

  /** What the body reader does; `Unclear` is a refusal. */
  function ReaderFraming(headers: Headers): BodyLength {
    if HeaderContains(headers, "transfer-encoding", "chunked") then Chunked
    else
      match HeaderValue(headers, "content-length")
      case None => NoBody
      case Some(text) =>
        match ParseUnsigned(text, 10, USIZE_MAX)
        case None => Unclear
        case Some(n) => Length(n)
  }

  /** The body reader follows `ReaderFraming`. */
  lemma ReadBodyFollows(input: string, headers: Headers, limit: nat)
    ensures ReadBody(input, headers, limit)
         == match ReaderFraming(headers)
            case Chunked => ReadChunks(input, limit, "")
            case NoBody => Got("", input)
            case Unclear => Failed(InvalidContentLength)
            case Length(n) =>
              if n > limit then Failed(PayloadTooLarge)
              else if |input| < n then Failed(IncompleteBody)
              else Got(input[..n], input[n..])
  {
    hide ReadChunks, HeaderContains, HeaderValue, ParseUnsigned;
  }

  // ---- the reader's view, line by line ----------------------------------

  lemma Names()
    ensures Lower("transfer-encoding") == "transfer-encoding"
    ensures Lower("content-length") == "content-length"
    ensures Lower("Transfer-Encoding") == "transfer-encoding" && Lower("Content-Length") == "content-length"
    ensures Lower("chunked") == "chunked"
    ensures "transfer-encoding" != "content-length"
  {
    EncodingNames();
    LengthNames();
    assert |"transfer-encoding"| == 17 && |"content-length"| == 14;
  }

  lemma EncodingNames()
    ensures Lower("Transfer-Encoding") == "transfer-encoding" == Lower("transfer-encoding")
  {
    LowerTwice("Transfer-Encoding");
  }

  lemma LengthNames()
    ensures Lower("Content-Length") == "content-length" == Lower("content-length")
  {
    LowerTwice("Content-Length");
  }

  // ---- one line is enough -----------------------------------------------

  lemma ChunkedIsPrintable()
    ensures Printable("chunked")
  {
  }

  /** The usual single `Transfer-Encoding` line is read as it is meant. */
  lemma OneLineIsListed(codings: seq<string>)
    requires |codings| == 1 && EndsInChunked(Combined(codings))
    ensures FirstLists(codings, "chunked")
  {
    hide Lower, Trim, Split, Members;
    var members := Members(Split(codings[0], {','}));
    assert codings[1..] == [];
    assert Combined(codings) == members + Combined(codings[1..]);
    assert members + [] == members;
    ChunkedIsPrintable();
    MemberIsListed(Split(codings[0], {','}), "chunked");
  }

  // ---- when reader and sender agree -------------------------------------

  /** The reader refuses the request or takes its body for what the sender means. */
  predicate Agrees(headers: Headers) {
    ReaderFraming(headers).Unclear? || ReaderFraming(headers) == SenderFraming(headers)
  }

  /** Over every header list: with transfer codings, the first line must list chunked, and all
      lines together end in it, unless a bad length refuses the request; with lengths only, they
      must be one number, unless the first is refused. A plus sign, other members of later lines
      and repeated lengths are what the reader does not look at. */
  lemma AgreesIff(headers: Headers)
    ensures var codings, lengths := FieldValues(headers, "transfer-encoding"), FieldValues(headers, "content-length");
      Agrees(headers) <==>
      if FirstLists(codings, "chunked") then EndsInChunked(Combined(codings))
      else if lengths != [] && ParseUnsigned(lengths[0], 10, USIZE_MAX).None? then true
      else codings == [] && (lengths != [] ==> IsDecimal(lengths[0]) && AllAre(lengths, NumberValue(lengths[0], 10)))
  {
    hide Combined, EndsInChunked, HeaderContains, HeaderValue, Lower, FieldValues;
    Names();
    ReaderSeesFirstLine(headers, "transfer-encoding", "chunked");
    FirstValue(headers, "content-length");
    var lengths := FieldValues(headers, "content-length");
    if lengths != [] {
      DecimalParses(lengths[0]);
    }
  }

  lemma DecimalParses(text: string)
    ensures IsDecimal(text) && NumberValue(text, 10) <= USIZE_MAX ==>
      ParseUnsigned(text, 10, USIZE_MAX) == Some(NumberValue(text, 10))
    ensures IsDecimal(text) && NumberValue(text, 10) > USIZE_MAX ==> ParseUnsigned(text, 10, USIZE_MAX) == None
  {
    if IsDecimal(text) {
      assert IsDigit(text[0], 10);
    }
  }

  /** What the sender means is what the reader takes it for, unless chunked stands on a later
      line than the first or the length is too large to read. */
  lemma SenderIsFollowedIff(headers: Headers)
    requires !SenderFraming(headers).Unclear?
    requires SenderFraming(headers).Length? ==> SenderFraming(headers).n <= USIZE_MAX
    ensures var codings := FieldValues(headers, "transfer-encoding");
      ReaderFraming(headers) == SenderFraming(headers) <==> codings == [] || FirstLists(codings, "chunked")
  {
    hide Combined, EndsInChunked, HeaderContains, HeaderValue, Lower, FieldValues;
    Names();
    ReaderSeesFirstLine(headers, "transfer-encoding", "chunked");
    FirstValue(headers, "content-length");
    var lengths := FieldValues(headers, "content-length");
    if lengths != [] {
      DecimalParses(lengths[0]);
    }
  }

  // ---- requests that are taken for others -------------------------------

  /** Chunked on a second line: the whole body is left over, to be read as the next request. */
  lemma SplitCodings(first: string, input: string, limit: nat)
    requires first != "" && ',' !in first && Trimmed(first) && Lower(first) != "chunked"
    ensures var headers := [("Transfer-Encoding", first), ("Transfer-Encoding", "chunked")];
            SenderFraming(headers) == Chunked && ReadBody(input, headers, limit) == Got("", input)
  {
    hide Lower, Trim, Split, Members, Trimmed, ReadBody;
    var headers := [("Transfer-Encoding", first), ("Transfer-Encoding", "chunked")];
    Names();
    LowerChunkedIsTrimmed();
    OneMember(first);
    OneMember("chunked");
    TwoValues(headers, "transfer-encoding");
    OtherValues(headers, "content-length");
    assert Combined([first, "chunked"]) == [Lower(first)] + Combined(["chunked"]);
    assert Combined(["chunked"]) == [Lower("chunked")] + Combined([]);
    ReaderSeesFirstLine(headers, "transfer-encoding", "chunked");
    FirstValue(headers, "content-length");
    ReadBodyFollows(input, headers, limit);
  }

  lemma LowerChunkedIsTrimmed()
    ensures Trimmed("chunked") && "chunked" != "" && ',' !in "chunked"
  {
  }

  /** Two different lengths are not refused: the first one counts. */
  lemma DifferentLengths(a: string, b: string, input: string, limit: nat)
    requires IsDecimal(a) && IsDecimal(b) && NumberValue(a, 10) != NumberValue(b, 10)
    requires NumberValue(a, 10) <= limit <= USIZE_MAX && NumberValue(a, 10) <= |input|
    ensures var headers := [("Content-Length", a), ("Content-Length", b)];
            var n := NumberValue(a, 10);
            SenderFraming(headers) == Unclear && ReadBody(input, headers, limit) == Got(input[..n], input[n..])
  {
    hide Lower, ReadBody, IsDecimal, ParseUnsigned;
    var headers := [("Content-Length", a), ("Content-Length", b)];
    Names();
    TwoValues(headers, "content-length");
    OtherValues(headers, "transfer-encoding");
    assert b in FieldValues(headers, "content-length");
    ReaderSeesFirstLine(headers, "transfer-encoding", "chunked");
    FirstValue(headers, "content-length");
    DecimalParses(a);
    ReadBodyFollows(input, headers, limit);
  }
}
