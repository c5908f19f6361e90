/**
 Header fields whose value is a list (section 5.6.1 of RFC 9110): what all lines of a
 name list together, and what this program sees, which looks at the first line only.
 */
module FieldLists {
  import opened Text
  import opened HttpReader
  import opened MessageSyntax

  /** The values of all field lines called `name`, a lower-case name, in order. */
  function FieldValues(headers: Headers, name: string): seq<string> {
    if headers == [] then []
    else (if Lower(headers[0].0) == name then [headers[0].1] else []) + FieldValues(headers[1..], name)
  }

  predicate IsBlank(c: char) {
    c == ' ' || c == '\t'
  }

  function SkipBlanks(s: string): string {
    if s != "" && IsBlank(s[0]) then SkipBlanks(s[1..]) else s
  }

  function DropBlanks(s: string): string {
    if s != "" && IsBlank(s[|s| - 1]) then DropBlanks(s[..|s| - 1]) else s
  }

  /** A list member without the optional white space around it. */
  function Member(part: string): string {
    DropBlanks(SkipBlanks(part))
  }

  /** Non-empty list members, in lower case. */
  function Members(parts: seq<string>): seq<string> {
    if parts == [] then []
    else (if Member(parts[0]) == "" then [] else [Lower(Member(parts[0]))]) + Members(parts[1..])
  }

  /** The list that several field lines make up together. */
  function Combined(values: seq<string>): seq<string> {
    if values == [] then [] else Members(Split(values[0], {','})) + Combined(values[1..])
  }

  // ---- the reader's view ------------------------------------------------

  /** The first line lists a token, wherever in the line. */
  predicate FirstLists(values: seq<string>, token: string) {
    values != [] && exists part :: part in Split(values[0], {','}) && Lower(Trim(part)) == token
  }

  lemma {:induction false} FirstValue(headers: Headers, name: string)
    requires Lower(name) == name
    ensures var values := FieldValues(headers, name);
            HeaderValue(headers, name) == if values == [] then None else Some(values[0])
    decreases |headers|
  {
    hide Lower;
    if headers != [] {
      FirstValue(headers[1..], name);
    }
  }

  lemma ReaderSeesFirstLine(headers: Headers, name: string, token: string)
    requires Lower(name) == name && Lower(token) == token
    ensures HeaderContains(headers, name, token) <==> FirstLists(FieldValues(headers, name), token)
  {
    hide Lower, Trim, Split, HeaderValue;
    FirstValue(headers, name);
  }

  // ---- members and parts ------------------------------------------------

  lemma {:induction false} SkipsBlanks(s: string)
    ensures exists before :: Blanks(before) && s == before + SkipBlanks(s)
    decreases |s|
  {
    if s != "" && IsBlank(s[0]) {
      SkipsBlanks(s[1..]);
      var before :| Blanks(before) && s[1..] == before + SkipBlanks(s[1..]);
      assert s == ([s[0]] + before) + SkipBlanks(s);
    } else {
      assert s == "" + SkipBlanks(s);
    }
  }

  lemma {:induction false} DropsBlanks(s: string)
    ensures exists after :: Blanks(after) && s == DropBlanks(s) + after
    decreases |s|
  {
    if s != "" && IsBlank(s[|s| - 1]) {
      var front := s[..|s| - 1];
      DropsBlanks(front);
      var after :| Blanks(after) && front == DropBlanks(front) + after;
      assert s == DropBlanks(s) + (after + [s[|s| - 1]]);
    } else {
      assert s == DropBlanks(s) + "";
    }
  }

  lemma MemberIsTrimmed(part: string)
    requires Trimmed(Member(part))
    ensures Trim(part) == Member(part)
  {
    hide SkipBlanks, DropBlanks, Trim, Trimmed;
    SkipsBlanks(part);
    DropsBlanks(SkipBlanks(part));
    var before :| Blanks(before) && part == before + SkipBlanks(part);
    var after :| Blanks(after) && SkipBlanks(part) == DropBlanks(SkipBlanks(part)) + after;
    assert part == before + Member(part) + after;
    TrimsToValue(before, Member(part), after);
  }

  lemma TokenIsTrimmed(s: string, token: string)
    requires Printable(token) && Lower(s) == token
    ensures Trimmed(s)
  {
    assert ToLower(s[0]) == token[0] && ToLower(s[|s| - 1]) == token[|token| - 1];
  }

  lemma {:induction false} MemberIsListed(parts: seq<string>, token: string)
    requires Printable(token) && token in Members(parts)
    ensures exists part :: part in parts && Lower(Trim(part)) == token
    decreases |parts|
  {
    hide Member, Lower, Trim, Printable;
    var first := Member(parts[0]);
    if first != "" && Lower(first) == token {
      TokenIsTrimmed(first, token);
      MemberIsTrimmed(parts[0]);
      assert parts[0] in parts;
    } else {
      MemberIsListed(parts[1..], token);
      var part :| part in parts[1..] && Lower(Trim(part)) == token;
      assert part in parts;
    }
  }

  /** White space in the value is blanks, and nothing in it is outside ASCII. */
  predicate PlainValue(value: string) {
    forall i :: 0 <= i < |value| ==> value[i] == '\t' || ' ' <= value[i] <= '~'
  }

  lemma {:induction false} SkippedIsPlain(s: string)
    requires PlainValue(s)
    ensures PlainValue(SkipBlanks(s)) && (SkipBlanks(s) != "" ==> !IsBlank(SkipBlanks(s)[0]))
    decreases |s|
  {
    if s != "" && IsBlank(s[0]) {
      SkippedIsPlain(s[1..]);
    }
  }

  lemma {:induction false} DroppedIsPlain(s: string)
    requires PlainValue(s)
    ensures var t := DropBlanks(s);
            PlainValue(t) && t <= s && (t != "" ==> !IsBlank(t[|t| - 1]))
    decreases |s|
  {
    if s != "" && IsBlank(s[|s| - 1]) {
      DroppedIsPlain(s[..|s| - 1]);
    }
  }

  lemma PlainMember(part: string)
    requires PlainValue(part)
    ensures Trim(part) == Member(part)
  {
    SkippedIsPlain(part);
    DroppedIsPlain(SkipBlanks(part));
    assert Trimmed(Member(part));
    hide Member, Trim, Trimmed;
    MemberIsTrimmed(part);
  }

  predicate AllPlain(values: seq<string>) {
    forall v :: v in values ==> PlainValue(v)
  }

  lemma {:induction false} MembersAre(parts: seq<string>, token: string)
    requires AllPlain(parts) && token != ""
    ensures token in Members(parts) <==> exists part :: part in parts && Lower(Trim(part)) == token
    decreases |parts|
  {
    hide Member, Lower, Trim, PlainValue;
    if parts != [] {
      PlainMember(parts[0]);
      assert forall part :: part in parts <==> part == parts[0] || part in parts[1..];
      MembersAre(parts[1..], token);
      assert |Lower(Trim(parts[0]))| == |Trim(parts[0])| by {
        LowerLength(Trim(parts[0]));
      }
    }
  }

  lemma LowerLength(s: string)
    ensures |Lower(s)| == |s|
  {
  }

  lemma PartsArePlain(value: string)
    requires PlainValue(value)
    ensures AllPlain(Split(value, {','}))
  {
    var parts := Split(value, {','});
    hide Split;
    forall part | part in parts ensures PlainValue(part) {
      var i :| 0 <= i < |parts| && parts[i] == part;
      PartsOf(value, ',', i);
      forall k | 0 <= k < |part| ensures part[k] == '\t' || ' ' <= part[k] <= '~' {
        assert part[k] in value;
      }
    }
  }

  predicate Lists(value: string, token: string) {
    exists part :: part in Split(value, {','}) && Lower(Trim(part)) == token
  }

  /** All lines together list what some line lists. */
  lemma {:induction false} CombinedIs(values: seq<string>, token: string)
    requires AllPlain(values) && token != ""
    ensures token in Combined(values) <==> exists v :: v in values && Lists(v, token)
    decreases |values|
  {
    hide Members, Lower, Trim, Split, PlainValue;
    if values != [] {
      PartsArePlain(values[0]);
      MembersAre(Split(values[0], {','}), token);
      assert token in Members(Split(values[0], {','})) <==> Lists(values[0], token);
      assert forall v :: v in values <==> v == values[0] || v in values[1..];
      CombinedIs(values[1..], token);
    }
  }

  lemma {:induction false} NoBlanksAtEnds(s: string)
    requires s != "" && !IsBlank(s[0]) && !IsBlank(s[|s| - 1])
    ensures Member(s) == s
  {
  }

  lemma OneMember(value: string)
    requires value != "" && ',' !in value && Trimmed(value)
    ensures Split(value, {','}) == [value] && Trim(value) == value
    ensures Members([value]) == [Lower(value)]
  {
    hide Lower;
    FindIs(value, {','}, |value|);
    TrimmedIsTrim(value);
    NoBlanksAtEnds(value);
  }

  lemma TwoValues(headers: Headers, name: string)
    requires |headers| == 2 && Lower(headers[0].0) == name && Lower(headers[1].0) == name
    ensures FieldValues(headers, name) == [headers[0].1, headers[1].1]
  {
    hide Lower;
    assert headers[1..] == [headers[1]] && headers[1..][1..] == [];
    assert FieldValues(headers[1..], name) == [headers[1].1] + FieldValues([], name);
  }

  lemma OtherValues(headers: Headers, name: string)
    requires |headers| == 2 && Lower(headers[0].0) != name && Lower(headers[1].0) != name
    ensures FieldValues(headers, name) == []
  {
    hide Lower;
    assert headers[1..] == [headers[1]] && headers[1..][1..] == [];
    assert FieldValues(headers[1..], name) == FieldValues([], name);
  }
}
