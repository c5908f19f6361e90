/**
 What `scutil --proxy` output says, stated line by line without the reader's state.
 */
module MacSettings {
  import opened Text
  import opened Policy

  // ---- single lines -----------------------------------------------------

  predicate IsPair(line: string) {
    SplitArrow(Trim(line)).Some?
  }

  function RawKey(line: string): string
    requires IsPair(line)
  {
    SplitArrow(Trim(line)).value.0
  }

  function Value(line: string): string
    requires IsPair(line)
  {
    Trim(SplitArrow(Trim(line)).value.1)
  }

  predicate Opens(line: string) {
    IsPair(line) && RawKey(line) == "ExceptionsList" && StartsWith(Value(line), "<array>")
  }

  predicate Closes(line: string) {
    Trim(line) == "}"
  }

  predicate ArrowAt(line: string, i: nat) {
    i + 3 <= |line| && line[i..i + 3] == " : "
  }

  predicate NoArrow(line: string, n: nat) {
    forall i :: 0 <= i < n ==> !ArrowAt(line, i)
  }

  /** A line splits at its first arrow, and one without an arrow does not split. */
  lemma {:induction false} SplitArrowIs(line: string)
    ensures var r := SplitArrow(line);
            if r.None? then NoArrow(line, |line|)
            else line == r.value.0 + " : " + r.value.1 && NoArrow(line, |r.value.0|)
    decreases |line|
  {
    var arrow := " : ";
    if ArrowAt(line, 0) {
      assert line == "" + arrow + line[3..];
    } else if line != "" {
      var rest := line[1..];
      SplitArrowIs(rest);
      assert line == [line[0]] + rest;
      forall i: nat ensures ArrowAt(rest, i) == ArrowAt(line, i + 1) {
        ArrowBehind(line, i);
      }
      forall i: nat | 0 < i && !ArrowAt(rest, i - 1) ensures !ArrowAt(line, i) {
      }
      if |line| >= 3 && SplitArrow(rest).Some? {
        var key, value := SplitArrow(rest).value.0, SplitArrow(rest).value.1;
        assert [line[0]] + (key + arrow + value) == ([line[0]] + key) + arrow + value;
      }
    }
  }

  lemma ArrowBehind(line: string, i: nat)
    requires line != ""
    ensures ArrowAt(line[1..], i) == ArrowAt(line, i + 1)
  {
    if i + 4 <= |line| {
      assert line[1..][i..i + 3] == line[i + 1..i + 4];
    }
  }

  // ---- the output as a whole --------------------------------------------

  /** Line `i` comes after a line that opens the exceptions, with no closing line between. */
  predicate InBlock(lines: seq<string>, i: nat)
    requires i <= |lines|
  {
    exists j :: 0 <= j < i && OpensUpTo(lines, j, i)
  }

  predicate OpensUpTo(lines: seq<string>, j: nat, i: nat)
    requires j < i <= |lines|
  {
    Opens(lines[j]) && forall k :: j < k < i ==> !Closes(lines[k])
  }

  /** Line `i` gives `key` a value. */
  predicate Sets(lines: seq<string>, i: nat, key: string)
    requires i < |lines|
  {
    && !InBlock(lines, i) && IsPair(lines[i])
    && RawKey(lines[i]) != "ExceptionsList" && Trim(RawKey(lines[i])) == key
  }

  /** Values of the lines inside blocks, in order. */
  function Listed(lines: seq<string>): seq<string> {
    if lines == [] then []
    else
      var n := |lines| - 1;
      Listed(lines[..n])
      + if InBlock(lines, n) && !Closes(lines[n]) && IsPair(lines[n]) then [Value(lines[n])] else []
  }

  ghost predicate Describes(s: Scutil, lines: seq<string>) {
    && s.inExceptions == InBlock(lines, |lines|)
    && s.exceptions == Listed(lines)
    && KeysAre(s.values, lines) && ValuesAre(s.values, lines)
  }

  ghost predicate KeysAre(values: map<string, string>, lines: seq<string>) {
    forall key :: key in values <==> exists i :: 0 <= i < |lines| && Sets(lines, i, key)
  }

  /** The last line that gives a key a value decides. */
  ghost predicate ValuesAre(values: map<string, string>, lines: seq<string>) {
    forall i, key :: 0 <= i < |lines| && Sets(lines, i, key) && LastSet(lines, i, key) ==>
      key in values && values[key] == Value(lines[i])
  }

  ghost predicate LastSet(lines: seq<string>, i: nat, key: string) {
    forall j :: i < j < |lines| ==> !Sets(lines, j, key)
  }

  // ---- line after line --------------------------------------------------

  lemma PrefixBlocks(lines: seq<string>, more: seq<string>, i: nat)
    requires i <= |lines|
    ensures InBlock(lines + more, i) == InBlock(lines, i)
  {
    hide Opens, Closes;
    var all := lines + more;
    forall j | 0 <= j < i ensures OpensUpTo(all, j, i) == OpensUpTo(lines, j, i) {
      forall k | j <= k < i ensures all[k] == lines[k] {
      }
    }
  }

  lemma BlockStep(lines: seq<string>, line: string)
    ensures InBlock(lines + [line], |lines| + 1)
       <==> if InBlock(lines, |lines|) then !Closes(line) else Opens(line)
  {
    var all, n := lines + [line], |lines|;
    OpeningDoesNotClose(line);
    hide Opens, Closes;
    PrefixBlocks(lines, [line], n);
    assert all[n] == line;
    if InBlock(all, n + 1) {
      var j :| 0 <= j < n + 1 && OpensUpTo(all, j, n + 1);
      assert j < n ==> OpensUpTo(all, j, n);
    }
    if InBlock(all, n) && !Closes(line) {
      var j :| 0 <= j < n && OpensUpTo(all, j, n);
      assert OpensUpTo(all, j, n + 1);
    }
    if Opens(line) {
      assert OpensUpTo(all, n, n + 1);
    }
  }

  lemma OpeningDoesNotClose(line: string)
    ensures Opens(line) ==> !Closes(line)
  {
    hide Trim;
    if Closes(line) {
      assert |Trim(line)| == 1;
    }
  }

  lemma SetsStep(lines: seq<string>, line: string)
    ensures forall i, key :: 0 <= i < |lines| ==> Sets(lines + [line], i, key) == Sets(lines, i, key)
    ensures forall key :: Sets(lines + [line], |lines|, key) <==>
      !InBlock(lines, |lines|) && IsPair(line) && RawKey(line) != "ExceptionsList" && Trim(RawKey(line)) == key
  {
    hide InBlock, IsPair;
    forall i | 0 <= i <= |lines| ensures InBlock(lines + [line], i) == InBlock(lines, i) {
      PrefixBlocks(lines, [line], i);
    }
  }

  lemma ListedStep(lines: seq<string>, line: string)
    ensures Listed(lines + [line]) == Listed(lines)
            + if InBlock(lines, |lines|) && !Closes(line) && IsPair(line) then [Value(line)] else []
  {
    hide InBlock, IsPair, Closes;
    PrefixBlocks(lines, [line], |lines|);
    assert (lines + [line])[..|lines|] == lines;
  }

  lemma KeysStep(values: map<string, string>, lines: seq<string>, line: string, next: map<string, string>)
    requires KeysAre(values, lines)
    requires forall key :: key in next <==> key in values || Sets(lines + [line], |lines|, key)
    ensures KeysAre(next, lines + [line])
  {
    var all, n := lines + [line], |lines|;
    SetsStep(lines, line);
    hide Sets;
    forall key ensures key in next <==> exists i :: 0 <= i < |all| && Sets(all, i, key) {
      if key in values {
        var i :| 0 <= i < n && Sets(lines, i, key);
        assert Sets(all, i, key);
      }
      if i :| 0 <= i < |all| && Sets(all, i, key) {
        assert i < n ==> Sets(lines, i, key);
      }
    }
  }

  lemma ValuesStep(values: map<string, string>, lines: seq<string>, line: string, next: map<string, string>)
    requires ValuesAre(values, lines)
    requires forall key :: Sets(lines + [line], |lines|, key) ==> key in next && next[key] == Value(line)
    requires forall key :: !Sets(lines + [line], |lines|, key) && key in values ==>
      key in next && next[key] == values[key]
    ensures ValuesAre(next, lines + [line])
  {
    var all, n := lines + [line], |lines|;
    SetsStep(lines, line);
    forall i, key | 0 <= i < |all| && Sets(all, i, key) && LastSet(all, i, key)
      ensures key in next && next[key] == Value(all[i])
    {
      hide InBlock, Trim, SplitArrow;
      if i < n {
        assert !Sets(all, n, key);
        LastSetBefore(lines, line, i, key);
        assert all[i] == lines[i];
      }
    }
  }

  lemma LastSetBefore(lines: seq<string>, line: string, i: nat, key: string)
    requires i < |lines| && LastSet(lines + [line], i, key)
    ensures LastSet(lines, i, key)
  {
    SetsStep(lines, line);
    hide Sets;
    forall j | i < j < |lines| ensures !Sets(lines, j, key) {
      assert !Sets(lines + [line], j, key);
    }
  }

  lemma LineIsDescribed(s: Scutil, lines: seq<string>, line: string)
    requires Describes(s, lines)
    ensures Describes(AddLine(s, line), lines + [line])
  {
    BlockStep(lines, line);
    ListedStep(lines, line);
    SetsStep(lines, line);
    hide InBlock, Trim, SplitArrow, Sets, Listed, KeysAre, ValuesAre;
    var next := AddLine(s, line);
    KeysStep(s.values, lines, line, next.values);
    ValuesStep(s.values, lines, line, next.values);
  }

  lemma {:induction false} LinesAreDescribed(s: Scutil, done: seq<string>, lines: seq<string>)
    requires Describes(s, done)
    ensures Describes(AddLines(s, lines), done + lines)
    decreases |lines|
  {
    hide Describes, AddLine;
    if lines == [] {
      assert done + lines == done;
    } else {
      assert done + lines == (done + [lines[0]]) + lines[1..];
      LineIsDescribed(s, done, lines[0]);
      LinesAreDescribed(AddLine(s, lines[0]), done + [lines[0]], lines[1..]);
    }
  }

  /** Each key has the value of the last line outside the blocks that gives it one, and the
      exceptions are the values of the lines inside, in order. */
  lemma ScutilMeaning(scutil: string)
    ensures Describes(ReadScutil(scutil), Split(scutil, {'\n'}))
  {
    hide AddLine, AddLines, Split;
    assert Describes(NO_SCUTIL, []);
    var lines := Split(scutil, {'\n'});
    assert [] + lines == lines;
    LinesAreDescribed(NO_SCUTIL, [], lines);
  }

  // ---- the proxy of a scheme --------------------------------------------

  /** The text a scheme's proxy is parsed from: its host, in brackets if it has a colon, and its
      port, 80 unless a port number is given. */
  function ProxyText(host: string, port: Option<string>): string {
    var number := if port.None? then None else ParseUnsigned(port.value, 10, 65535);
    (if ':' in host then "[" + host + "]" else host) + ":" + PrintNumber(if number.None? then 80 else number.value, 10)
  }

  function Setting(values: map<string, string>, key: string): Option<string> {
    if key in values then Some(values[key]) else None
  }

  lemma HostPortIs(host: string, port: nat)
    ensures HostPort(host, port) == (if ':' in host then "[" + host + "]" else host) + ":" + PrintNumber(port, 10)
  {
    hide PrintNumber;
    var number := PrintNumber(port, 10);
    assert "[" + host + "]:" + number == "[" + host + "]" + ":" + number;
  }

  /** A scheme has a proxy if its own settings enable one. One without a host or that does not parse
      is an error, and this program itself is no proxy. */
  lemma SchemeProxyIs(
    values: map<string, string>, https: bool, listen: Option<SocketAddr>, parsers: Parsers)
    ensures var enable := Setting(values, if https then "HTTPSEnable" else "HTTPEnable");
            var host := Setting(values, if https then "HTTPSProxy" else "HTTPProxy");
            var port := Setting(values, if https then "HTTPSPort" else "HTTPPort");
            var r := MacEndpoint(values, if https then "HTTPS" else "HTTP", listen, parsers);
            && (enable != Some("1") ==> r == Ok(None))
            && (enable == Some("1") && (host == None || host == Some("")) ==> r == Err(BadMacProxy))
            && (enable == Some("1") && host.Some? && host.value != "" ==>
                  var e := parsers.endpoint(ProxyText(host.value, port));
                  r == if e.None? then Err(BadMacProxy)
                       else if IsListener(e.value, listen, parsers) then Ok(None) else Ok(Some(e.value)))
  {
    hide IsListener, ParseUnsigned, PrintNumber;
    var hostKey, portKey := if https then "HTTPSProxy" else "HTTPProxy", if https then "HTTPSPort" else "HTTPPort";
    if hostKey in values {
      var host, port := values[hostKey], Setting(values, portKey);
      var number := if port.None? then None else ParseUnsigned(port.value, 10, 65535);
      HostPortIs(host, if number.None? then 80 else number.value);
    }
    hide HostPort;
    assert "HTTPS" + "Enable" == "HTTPSEnable" && "HTTP" + "Enable" == "HTTPEnable";
    assert "HTTPS" + "Proxy" == "HTTPSProxy" && "HTTP" + "Proxy" == "HTTPProxy";
    assert "HTTPS" + "Port" == "HTTPSPort" && "HTTP" + "Port" == "HTTPPort";
  }
}
