/**
 Bypass entries as they are written in `NO_PROXY`, `ProxyOverride` and the macOS
 exceptions, and what they come to cover.
 */
module BypassEntries {
  import opened Text
  import opened Network
  import opened Bypass
  import Glob

  // ---- host names -------------------------------------------------------

  predicate Only(s: string, c: char) {
    forall i :: 0 <= i < |s| ==> s[i] == c
  }

  lemma {:induction false} TrimsLeading(front: string, rest: string, c: char)
    requires Only(front, c) && (rest == "" || rest[0] != c)
    ensures TrimLeading(front + rest, c) == rest
    decreases |front|
  {
    if front == "" {
      assert front + rest == rest;
    } else {
      assert (front + rest)[1..] == front[1..] + rest;
      TrimsLeading(front[1..], rest, c);
    }
  }

  lemma {:induction false} TrimsTrailing(front: string, back: string, c: char)
    requires Only(back, c) && (front == "" || front[|front| - 1] != c)
    ensures TrimTrailing(front + back, c) == front
    decreases |back|
  {
    if back == "" {
      assert front + back == front;
    } else {
      assert (front + back)[..|front + back| - 1] == front + back[..|back| - 1];
      TrimsTrailing(front, back[..|back| - 1], c);
    }
  }

  predicate PlainHost(core: string) {
    core != "" && core[0] != '[' && core[|core| - 1] != ']' && core[|core| - 1] != '.'
  }

  /** A host's own name is what is left without white space, brackets around it and dots at its
      end, in lower case. */
  lemma NormalizeIs(host: string, opens: string, core: string, dots: string, closes: string)
    requires Trim(host) == opens + core + dots + closes
    requires Only(opens, '[') && Only(dots, '.') && Only(closes, ']') && PlainHost(core)
    ensures NormalizeHost(host) == Lower(core)
  {
    hide TrimLeading, TrimTrailing, Trim, Lower;
    var name := core + dots;
    assert opens + core + dots + closes == opens + (name + closes);
    TrimsLeading(opens, name + closes, '[');
    TrimsTrailing(name, closes, ']');
    TrimsTrailing(core, dots, '.');
  }

  // ---- entries ----------------------------------------------------------

  /** The text of an entry, with or without a scheme before what it names. */
  predicate Written(text: string, rest: string) {
    && rest != ""
    && (Trim(text) == "http://" + rest || Trim(text) == "https://" + rest
        || (Trim(text) == rest && !StartsWith(rest, "http://") && !StartsWith(rest, "https://")))
  }

  lemma StripsScheme(text: string, rest: string)
    requires Written(text, rest)
    ensures StripScheme(Trim(text)) == rest
  {
    var t := Trim(text);
    if t == "http://" + rest {
      assert t[..7] == "http://" && t[7..] == rest;
    } else if t == "https://" + rest {
      assert t[..8] == "https://" && t[8..] == rest && t[4] == 's';
      assert "http://"[4] == ':';
      assert t[..7] != "http://";
    }
  }

  /** A name without a port is an entry for every port. */
  lemma WrittenHost(text: string, host: string, parseIp: string -> Option<Ip>)
    requires Written(text, host) && ':' !in host && host[0] != '['
    ensures ParseEntry(text, parseIp) == Some(Entry(ParseRule(host, parseIp), None))
  {
    assert host != "";
    hide ParseRule, Trim, Written;
    StripsScheme(text, host);
    FindIs(host, {':'}, |host|);
    BracketStarts(host);
  }

  lemma BracketStarts(host: string)
    ensures StartsWith(host, "[") <==> host != "" && host[0] == '['
  {
    assert "[" == ['['];
    if host != "" {
      assert host[..1] == [host[0]];
    }
  }

  /** A name with a port is an entry for that port only; what is not a port number makes the whole
      entry void rather than an entry for every port. */
  lemma WrittenHostPort(text: string, host: string, port: string, parseIp: string -> Option<Ip>)
    requires Written(text, host + ":" + port) && ':' !in host && ':' !in port && (host == "" || host[0] != '[')
    ensures ParseEntry(text, parseIp)
         == match ParseUnsigned(port, 10, 65535)
            case None => None
            case Some(n) => Some(Entry(ParseRule(host, parseIp), Some(n)))
  {
    hide ParseRule, Trim, Written, ParseUnsigned;
    var rest := host + ":" + port;
    StripsScheme(text, rest);
    FindIs(rest, {':'}, |host|);
    assert rest[..|host|] == host && rest[|host| + 1..] == port;
    BracketStarts(rest);
    assert rest[0] == if host == "" then ':' else host[0];
  }

  /** An address in brackets, with a port or without. */
  lemma WrittenBrackets(text: string, host: string, port: Option<string>, parseIp: string -> Option<Ip>)
    requires Written(text, "[" + host + "]" + if port.Some? then ":" + port.value else "") && ']' !in host
    ensures ParseEntry(text, parseIp)
         == if port.None? then Some(Entry(ParseRule(host, parseIp), None))
            else match ParseUnsigned(port.value, 10, 65535)
                 case None => None
                 case Some(n) => Some(Entry(ParseRule(host, parseIp), Some(n)))
  {
    hide ParseRule, Trim, Written, ParseUnsigned;
    var tail := if port.Some? then ":" + port.value else "";
    var rest := "[" + host + "]" + tail;
    StripsScheme(text, rest);
    BracketStarts(rest);
    assert rest[1..] == host + "]" + tail;
    FindIs(rest[1..], {']'}, |host|);
    assert rest[1..][..|host|] == host && rest[1..][|host| + 1..] == tail;
    if port.Some? {
      assert tail[0] == ':' && tail[1..] == port.value;
    }
  }

  /** A bare IPv6 address or range keeps its colons. */
  lemma WrittenColons(text: string, a: string, b: string, parseIp: string -> Option<Ip>)
    requires Written(text, a + ":" + b) && ':' !in a && ':' in b && (a == "" || a[0] != '[')
    ensures ParseEntry(text, parseIp) == Some(Entry(ParseRule(a + ":" + b, parseIp), None))
  {
    hide ParseRule, Trim, Written;
    var rest := a + ":" + b;
    StripsScheme(text, rest);
    FindIs(rest, {':'}, |a|);
    assert rest[..|a|] == a && rest[|a| + 1..] == b;
    BracketStarts(rest);
    assert rest[0] == if a == "" then ':' else a[0];
  }

  /** A list has the entries of its texts, whatever their order, and no others. */
  lemma {:induction false} EntriesAre(texts: seq<string>, e: Entry, parseIp: string -> Option<Ip>)
    ensures e in ParseEntries(texts, parseIp) <==> exists text :: text in texts && ParseEntry(text, parseIp) == Some(e)
    decreases |texts|
  {
    hide ParseEntry;
    if texts != [] {
      EntriesAre(texts[1..], e, parseIp);
      assert texts == [texts[0]] + texts[1..];
    }
  }

  // ---- what an entry covers ---------------------------------------------

  /** A star covers every destination on the entry's ports. */
  lemma StarCovers(e: Entry, subdomains: bool, host: string, ip: Option<Ip>, port: nat, parseIp: string -> Option<Ip>)
    requires e.rule == ParseRule("*", parseIp)
    ensures Covers(e, subdomains, host, ip, port) <==> e.port == None || e.port == Some(port)
  {
  }

  /** `<local>`, in any case, covers names of a single label. */
  lemma LocalCovers(
    text: string, e: Entry, subdomains: bool, host: string, ip: Option<Ip>, port: nat, parseIp: string -> Option<Ip>)
    requires Lower(text) == "<local>" && e == Entry(ParseRule(text, parseIp), None)
    ensures Covers(e, subdomains, host, ip, port) <==> ip.None? && '.' !in host
  {
    assert |text| == 7;
    OneLabel(host);
  }

  /** Any other text with a star in it covers the hosts that match it as a pattern, in lower case. */
  lemma PatternCovers(
    text: string, e: Entry, subdomains: bool, host: string, ip: Option<Ip>, port: nat, parseIp: string -> Option<Ip>)
    requires text != "*" && '*' in text && ParseNetwork(text, parseIp).None?
    requires e == Entry(ParseRule(text, parseIp), None)
    ensures Covers(e, subdomains, host, ip, port) <==> Glob.Matches(Lower(text), host)
  {
    hide ParseNetwork;
    LocalHasNoStar(text);
  }

  lemma LocalHasNoStar(text: string)
    requires '*' in text
    ensures Lower(text) != "<local>"
  {
    var i :| 0 <= i < |text| && text[i] == '*';
    assert Lower(text)[i] == '*';
  }

  /** An address or a range covers the addresses in it. */
  lemma RangeCovers(
    text: string, range: Range, e: Entry, subdomains: bool, host: string, ip: Option<Ip>, port: nat,
    parseIp: string -> Option<Ip>)
    requires text != "*" && Lower(text) != "<local>"
    requires ParseNetwork(text, parseIp) == Some(range) && e == Entry(ParseRule(text, parseIp), None)
    ensures Covers(e, subdomains, host, ip, port) <==> ip.Some? && InNetwork(ip.value, range.network, range.prefix)
  {
    hide ParseNetwork;
    if ip.Some? {
      InNetworkMeaning(ip.value, range.network, range.prefix);
    }
  }

  /** A domain covers itself, and what is below it if it is written with a leading dot or the list
      covers subdomains. */
  lemma DomainCovers(
    dots: string, core: string, e: Entry, subdomains: bool, host: string, ip: Option<Ip>, port: nat,
    parseIp: string -> Option<Ip>)
    requires Only(dots, '.') && PlainHost(core) && core[0] != '.' && Trimmed(dots + core) && '*' !in core
    requires Lower(dots + core) != "<local>" && ParseNetwork(dots + core, parseIp).None?
    requires e == Entry(ParseRule(dots + core, parseIp), None)
    ensures Covers(e, subdomains, host, ip, port) <==>
      host == Lower(core) || ((subdomains || dots != "") && Within(host, Lower(core)))
  {
    hide ParseNetwork, Within, Trim, Trimmed;
    var text := dots + core;
    TrimmedIsTrim(text);
    assert "" + text + "" + "" == text;
    NormalizeIs(text, "", text, "", "");
    assert ParseRule(text, parseIp) == Domain(Lower(text));
    LowerDots(dots, core);
    TrimsLeading(dots, Lower(core), '.');
  }

  lemma LowerDots(dots: string, core: string)
    requires Only(dots, '.') && core != "" && core[0] != '.'
    ensures Lower(dots + core) == dots + Lower(core) && Lower(core)[0] != '.'
    ensures StartsWith(Lower(dots + core), ".") <==> dots != ""
  {
    var text := Lower(dots + core);
    assert text[0] == if dots == "" then ToLower(core[0]) else '.';
    assert text[..1] == [text[0]];
  }
}
