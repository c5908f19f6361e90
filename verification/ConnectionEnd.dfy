/**
 When a request asks for the end of its connection: what its sender means by all its
 `Connection` lines, and what this program sees, which looks at the first one.
 */
module ConnectionEnd {
  import opened Text
  import opened HttpReader
  import opened MessageSyntax
  import opened FieldLists

  /** What the sender means: close is listed, or, in HTTP/1.0, keep-alive is not. */
  predicate AsksToEnd(version: string, lines: seq<string>) {
    "close" in Combined(lines) || (Lower(version) == "http/1.0" && "keep-alive" !in Combined(lines))
  }

  /** The same over the first line alone. */
  predicate FirstLineEnds(version: string, lines: seq<string>) {
    FirstLists(lines, "close") || (Lower(version) == "http/1.0" && !FirstLists(lines, "keep-alive"))
  }

  lemma EndNames()
    ensures Lower("connection") == "connection" && Lower("close") == "close" && Lower("keep-alive") == "keep-alive"
    ensures Lower("Connection") == "connection"
  {
    ConnectionName();
    KeepAliveName();
  }

  lemma ConnectionName()
    ensures Lower("Connection") == "connection" == Lower("connection")
  {
    LowerTwice("Connection");
  }

  lemma KeepAliveName()
    ensures Lower("close") == "close" && Lower("keep-alive") == "keep-alive"
  {
  }

  /** The connection loop ends a connection by the first `Connection` line. */
  lemma WantsCloseIff(r: IncomingRequest)
    ensures WantsClose(r) <==> FirstLineEnds(r.version, FieldValues(r.headers, "connection"))
  {
    hide Lower, HeaderContains, FirstLists;
    EndNames();
    ReaderSeesFirstLine(r.headers, "connection", "close");
    ReaderSeesFirstLine(r.headers, "connection", "keep-alive");
  }

  lemma FirstIsCombined(lines: seq<string>, token: string)
    requires lines != [] && PlainValue(lines[0]) && token != ""
    ensures FirstLists(lines, token) <==> token in Combined(lines[..1])
  {
    hide Lower, Trim, Split, Members;
    PartsArePlain(lines[0]);
    MembersAre(Split(lines[0], {','}), token);
    assert lines[..1][1..] == [];
    assert Combined(lines[..1]) == Members(Split(lines[0], {','})) + Combined(lines[..1][1..]);
  }

  lemma {:induction false} CombinedAppend(a: seq<string>, b: seq<string>)
    ensures Combined(a + b) == Combined(a) + Combined(b)
    decreases |a|
  {
    hide Members, Split;
    if a == [] {
      assert a + b == b;
    } else {
      assert (a + b)[1..] == a[1..] + b;
      CombinedAppend(a[1..], b);
    }
  }

  /** With several lines, what the sender means is followed exactly when close is on the first
      line, or the later ones do not matter: in HTTP/1.0 without keep-alive on the first line they
      list close or not keep-alive either, otherwise they do not list close. */
  lemma EndFollowedIff(version: string, lines: seq<string>)
    requires AllPlain(lines) && lines != []
    ensures var first, later := Combined(lines[..1]), Combined(lines[1..]);
      (FirstLineEnds(version, lines) <==> AsksToEnd(version, lines)) <==>
      || "close" in first
      || (if Lower(version) == "http/1.0" && "keep-alive" !in first
          then "close" in later || "keep-alive" !in later
          else "close" !in later)
  {
    hide Combined, FirstLists, Lower, PlainValue;
    assert lines[0] in lines && lines == lines[..1] + lines[1..];
    CombinedAppend(lines[..1], lines[1..]);
    NotEmpty();
    FirstIsCombined(lines, "close");
    FirstIsCombined(lines, "keep-alive");
  }

  lemma NotEmpty()
    ensures "close" != "" && "keep-alive" != ""
  {
  }

  /** With at most one `Connection` line it always is. */
  lemma OneLineIsFollowed(version: string, lines: seq<string>)
    requires AllPlain(lines) && |lines| <= 1
    ensures FirstLineEnds(version, lines) <==> AsksToEnd(version, lines)
  {
    hide FirstLists, Lower, PlainValue, Members, Split;
    if lines == [] {
      assert !FirstLists(lines, "close") && !FirstLists(lines, "keep-alive") by {
        NoLines();
      }
    } else {
      assert lines[1..] == [];
      EndFollowedIff(version, lines);
    }
  }

  lemma NoLines()
    ensures !FirstLists([], "close") && !FirstLists([], "keep-alive")
  {
  }

  /** A close on a second line is not seen. */
  lemma LateClose(r: IncomingRequest)
    requires Lower(r.version) != "http/1.0"
    requires r.headers == [("Connection", "keep-alive"), ("Connection", "close")]
    ensures AsksToEnd(r.version, FieldValues(r.headers, "connection")) && !WantsClose(r)
  {
    hide Lower, Trim, Split, Members, WantsClose, FirstLists;
    EndNames();
    TokensAreTrimmed();
    TwoValues(r.headers, "connection");
    OneMember("keep-alive");
    OneMember("close");
    var lines := ["keep-alive", "close"];
    assert Combined(lines) == ["keep-alive"] + Combined(["close"]) && Combined(["close"]) == ["close"] + Combined([]);
    WantsCloseIff(r);
    assert !FirstLists(lines, "close") by {
      KeepAliveIsNotClose(lines);
    }
  }

  lemma TokensAreTrimmed()
    ensures "close" != "" && ',' !in "close" && Trimmed("close")
    ensures "keep-alive" != "" && ',' !in "keep-alive" && Trimmed("keep-alive")
  {
  }

  lemma KeepAliveIsNotClose(lines: seq<string>)
    requires lines != [] && lines[0] == "keep-alive" && Split("keep-alive", {','}) == ["keep-alive"]
    requires Trim("keep-alive") == "keep-alive" && Lower("keep-alive") == "keep-alive"
    ensures !FirstLists(lines, "close")
  {
    hide Lower, Trim, Split;
    assert |"close"| == 5 && |"keep-alive"| == 10;
  }
}
