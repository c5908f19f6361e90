/**
 The text a client proof signs and the header that carries it. Digests and
 signatures are parameters: both reach these functions already encoded.
 */
module ProofText {
  import opened Text
  import opened HttpReader
  import opened DeviceRecords

  const DOMAIN: string := "saiai-client-proof-v1"

  type U64 = n: nat | n <= U64_MAX

  datatype Fields = Fields(httpMethod: string, target: string, ts: U64, nonce: string, keyDigest: string)

  function ProofMessage(f: Fields): string {
    DOMAIN + "\n" + Upper(f.httpMethod) + "\n" + f.target + "\n" + PrintNumber(f.ts, 10) + "\n"
    + f.nonce + "\n" + f.keyDigest
  }

  function ProofHeader(deviceId: string, ts: nat, nonce: string, signature: string): string {
    "v1." + deviceId + "." + PrintNumber(ts, 10) + "." + nonce + "." + signature
  }

  // ---- separators -------------------------------------------------------

  function MessageParts(f: Fields): seq<string> {
    [DOMAIN, Upper(f.httpMethod), f.target, PrintNumber(f.ts, 10), f.nonce, f.keyDigest]
  }

  function HeaderParts(deviceId: string, ts: nat, nonce: string, signature: string): seq<string> {
    ["v1", deviceId, PrintNumber(ts, 10), nonce, signature]
  }

  lemma MessageIsJoined(f: Fields)
    ensures ProofMessage(f) == Join(MessageParts(f), '\n')
  {
    hide PrintNumber, Upper;
    JoinSix(DOMAIN, Upper(f.httpMethod), f.target, PrintNumber(f.ts, 10), f.nonce, f.keyDigest, '\n');
  }

  lemma JoinFive(a: string, b: string, c: string, d: string, e: string, sep: char)
    ensures Join([a, b, c, d, e], sep) == a + [sep] + b + [sep] + c + [sep] + d + [sep] + e
  {
    assert [a, b, c, d, e] == [a] + ([b] + ([c] + ([d] + [e])));
    JoinMore(d, [e], sep);
    JoinMore(c, [d] + [e], sep);
    JoinMore(b, [c] + ([d] + [e]), sep);
    JoinMore(a, [b] + ([c] + ([d] + [e])), sep);
  }

  lemma JoinSix(a: string, b: string, c: string, d: string, e: string, f: string, sep: char)
    ensures Join([a, b, c, d, e, f], sep) == a + [sep] + b + [sep] + c + [sep] + d + [sep] + e + [sep] + f
  {
    assert [a, b, c, d, e, f] == [a] + [b, c, d, e, f];
    JoinMore(a, [b, c, d, e, f], sep);
    JoinFive(b, c, d, e, f, sep);
  }

  predicate OneLine(s: string) {
    '\n' !in s
  }

  predicate SingleLines(f: Fields) {
    OneLine(f.httpMethod) && OneLine(f.target) && OneLine(f.nonce) && OneLine(f.keyDigest)
  }

  lemma UpperOneLine(s: string)
    ensures OneLine(Upper(s)) <==> OneLine(s)
  {
    forall i | 0 <= i < |s| ensures Upper(s)[i] == '\n' <==> s[i] == '\n' {
    }
    if !OneLine(s) {
      var i :| 0 <= i < |s| && s[i] == '\n';
      assert Upper(s)[i] == '\n';
    }
  }

  lemma DigitsOnly(n: nat)
    ensures OneLine(PrintNumber(n, 10)) && '.' !in PrintNumber(n, 10)
    ensures ParseUnsigned(PrintNumber(n, 10), 10, n) == Some(n)
  {
    PrintedDigits(n, 10);
    ParsePrinted(n, 10, n);
  }

  lemma SamePrinted(a: nat, b: nat)
    requires PrintNumber(a, 10) == PrintNumber(b, 10)
    ensures a == b
  {
    PrintedValue(a, 10);
    PrintedValue(b, 10);
  }

  lemma MessageSplits(f: Fields)
    requires SingleLines(f)
    ensures Split(ProofMessage(f), {'\n'}) == MessageParts(f)
  {
    hide PrintNumber, Upper, ProofMessage;
    UpperOneLine(f.httpMethod);
    DigitsOnly(f.ts);
    assert OneLine(DOMAIN);
    MessageIsJoined(f);
    SplitJoin(MessageParts(f), '\n');
  }

  // ---- which messages stand for one request -----------------------------

  function Lines(s: string): (lines: seq<string>)
    ensures lines != []
  {
    Split(s, {'\n'})
  }

  /** What a signature is meant to cover. */
  predicate Same(f: Fields, g: Fields) {
    && Upper(f.httpMethod) == Upper(g.httpMethod) && f.target == g.target && f.ts == g.ts
    && f.nonce == g.nonce && f.keyDigest == g.keyDigest
  }

  predicate HasLower(s: string) {
    exists i :: 0 <= i < |s| && 'a' <= s[i] <= 'z'
  }

  /** A line that could be a time: a number as it is printed, within 64 bits. */
  predicate IsTime(line: string) {
    && line != "" && AllDigits(line, 10) && NumberValue(line, 10) <= U64_MAX
    && PrintNumber(NumberValue(line, 10), 10) == line
  }

  /** Method, nonce and digest are single lines, and so is the target; or its first line could
      not belong to an upper-cased method and none of its other lines could be a time. */
  predicate Clear(f: Fields) {
    && OneLine(f.httpMethod) && OneLine(f.nonce) && OneLine(f.keyDigest)
    && (OneLine(f.target)
        || (HasLower(Lines(f.target)[0]) && forall k :: 1 <= k < |Lines(f.target)| ==> !IsTime(Lines(f.target)[k])))
  }

  lemma MessageLines(f: Fields)
    ensures Lines(ProofMessage(f))
         == [DOMAIN] + Lines(Upper(f.httpMethod)) + Lines(f.target) + [PrintNumber(f.ts, 10)]
            + Lines(f.nonce) + Lines(f.keyDigest)
  {
    var m, t := Upper(f.httpMethod), PrintNumber(f.ts, 10);
    assert "\n" == ['\n'];
    assert OneLine(DOMAIN);
    DigitsOnly(f.ts);
    hide PrintNumber, Upper, Split;
    NothingToSplit(DOMAIN, '\n');
    NothingToSplit(t, '\n');
    var c := '\n';
    var text1 := DOMAIN + [c] + m;
    var text2 := text1 + [c] + f.target;
    var text3 := text2 + [c] + t;
    var text4 := text3 + [c] + f.nonce;
    assert ProofMessage(f) == text4 + [c] + f.keyDigest;
    SplitAppend(DOMAIN, m, c);
    SplitAppend(text1, f.target, c);
    SplitAppend(text2, t, c);
    SplitAppend(text3, f.nonce, c);
    SplitAppend(text4, f.keyDigest, c);
  }

  /** Where the other way to cut a list of lines finds its time and its method's second line. */
  lemma OtherCut(
    m: string, target: seq<string>, t: string, n: string, d: string,
    ms: seq<string>, ts: seq<string>, u: string, ns: seq<string>, ds: seq<string>)
    requires target != [] && ms != [] && ts != [] && ns != [] && ds != []
    requires [m] + target + [t] + [n] + [d] == ms + ts + [u] + ns + ds
    ensures |ms| + |ts| == |target| + 1 || (|ms| + |ts| <= |target| && u == target[|ms| + |ts| - 1])
    ensures |ms| > 1 ==> ms[1] == target[0]
  {
    var cut := [m] + target + [t] + [n] + [d];
    var other := ms + ts + [u] + ns + ds;
    var at := |ms| + |ts|;
    assert other[at] == u;
    assert cut[at] == if at <= |target| then target[at - 1] else t;
    assert cut[1] == target[0];
    assert |ms| > 1 ==> other[1] == ms[1];
  }

  /** Two ways to cut one list of lines are the same way, if no line of the target can end the
      method and none can be the other's time. */
  lemma SameCut(
    m: string, target: seq<string>, t: string, n: string, d: string,
    ms: seq<string>, ts: seq<string>, u: string, ns: seq<string>, ds: seq<string>)
    requires target != [] && ms != [] && ts != [] && ns != [] && ds != []
    requires [m] + target + [t] + [n] + [d] == ms + ts + [u] + ns + ds
    requires forall k :: 1 <= k < |target| ==> target[k] != u
    requires |target| > 1 && |ms| > 1 ==> ms[1] != target[0]
    ensures ms == [m] && ts == target && u == t && ns == [n] && ds == [d]
  {
    OtherCut(m, target, t, n, d, ms, ts, u, ns, ds);
    var cut := [m] + target + [t] + [n] + [d];
    var other := ms + ts + [u] + ns + ds;
    var at := |target| + 1;
    assert |ms| == 1 && |ts| == |target|;
    assert other[0] == ms[0] && cut[0] == m;
    assert ts == other[1..at] == cut[1..at] == target;
    assert cut[at] == t && cut[at + 1] == n && cut[at + 2] == d;
    assert other[at] == u && other[at + 1] == ns[0] && other[at + 2] == ds[0];
  }

  lemma UpperHasNoLower(s: string, i: nat)
    requires i < |Lines(Upper(s))|
    ensures !HasLower(Lines(Upper(s))[i])
  {
    PartsOf(Upper(s), '\n', i);
    hide Split;
    var line := Lines(Upper(s))[i];
    forall k | 0 <= k < |line| ensures !('a' <= line[k] <= 'z') {
      assert line[k] in Upper(s);
    }
  }

  lemma PrintedIsTime(n: U64)
    ensures IsTime(PrintNumber(n, 10))
  {
    PrintedValue(n, 10);
  }

  function Cut(m: seq<string>, target: seq<string>, t: string, n: seq<string>, d: seq<string>): seq<string> {
    m + target + [t] + n + d
  }

  lemma MessageCut(f: Fields)
    ensures Lines(ProofMessage(f))
         == [DOMAIN] + Cut(Lines(Upper(f.httpMethod)), Lines(f.target), PrintNumber(f.ts, 10),
                           Lines(f.nonce), Lines(f.keyDigest))
  {
    hide PrintNumber, Upper, Lines, ProofMessage;
    MessageLines(f);
  }

  lemma SameLines(a: string, b: string)
    requires Lines(a) == Lines(b)
    ensures a == b
  {
    JoinSplit(a, '\n');
    JoinSplit(b, '\n');
  }

  /** Whatever the other request is, even one with line feeds in its fields. */
  lemma ClearMeansSame(f: Fields, g: Fields)
    requires Clear(f) && ProofMessage(f) == ProofMessage(g)
    ensures Same(f, g)
  {
    var m, t, u := Upper(f.httpMethod), PrintNumber(f.ts, 10), PrintNumber(g.ts, 10);
    var ms, ts, ns, ds := Lines(Upper(g.httpMethod)), Lines(g.target), Lines(g.nonce), Lines(g.keyDigest);
    UpperOneLine(f.httpMethod);
    ClearLines(f);
    PrintedIsTime(g.ts);
    if |ms| > 1 {
      UpperHasNoLower(g.httpMethod, 1);
    }
    MessageCut(f);
    MessageCut(g);
    hide PrintNumber, Upper, Lines, IsTime, HasLower, ProofMessage;
    var left := Cut([m], Lines(f.target), t, [f.nonce], [f.keyDigest]);
    var right := Cut(ms, ts, u, ns, ds);
    assert left == ([DOMAIN] + left)[1..] && right == ([DOMAIN] + right)[1..];
    SameCut(m, Lines(f.target), t, f.nonce, f.keyDigest, ms, ts, u, ns, ds);
    SamePrinted(f.ts, g.ts);
    SameLines(Upper(g.httpMethod), m);
    SameLines(g.target, f.target);
    SameLines(g.nonce, f.nonce);
    SameLines(g.keyDigest, f.keyDigest);
  }

  lemma ClearLines(f: Fields)
    requires Clear(f) && OneLine(Upper(f.httpMethod))
    ensures Lines(Upper(f.httpMethod)) == [Upper(f.httpMethod)]
    ensures Lines(f.nonce) == [f.nonce] && Lines(f.keyDigest) == [f.keyDigest]
    ensures |Lines(f.target)| > 1 ==> HasLower(Lines(f.target)[0])
    ensures forall k :: 1 <= k < |Lines(f.target)| ==> !IsTime(Lines(f.target)[k])
  {
    hide Upper, Split, IsTime, HasLower;
    NothingToSplit(Upper(f.httpMethod), '\n');
    NothingToSplit(f.nonce, '\n');
    NothingToSplit(f.keyDigest, '\n');
    if OneLine(f.target) {
      NothingToSplit(f.target, '\n');
    }
  }

  // ---- and which do not -------------------------------------------------

  lemma TwoLines(s: string) returns (a: string, b: string)
    requires !OneLine(s)
    ensures s == a + "\n" + b && OneLine(a)
  {
    var i := Find(s, {'\n'});
    a, b := s[..i], s[i + 1..];
  }

  function Middle(m: string, target: string, t: string, nonce: string): string {
    m + "\n" + target + "\n" + t + "\n" + nonce
  }

  lemma MessageIs(f: Fields)
    ensures ProofMessage(f)
         == DOMAIN + "\n" + Middle(Upper(f.httpMethod), f.target, PrintNumber(f.ts, 10), f.nonce) + "\n" + f.keyDigest
  {
    hide PrintNumber, Upper;
  }

  lemma SameMiddle(f: Fields, g: Fields)
    requires f.keyDigest == g.keyDigest
    requires Middle(Upper(f.httpMethod), f.target, PrintNumber(f.ts, 10), f.nonce)
          == Middle(Upper(g.httpMethod), g.target, PrintNumber(g.ts, 10), g.nonce)
    ensures ProofMessage(f) == ProofMessage(g)
  {
    hide PrintNumber, Upper, ProofMessage, Middle;
    MessageIs(f);
    MessageIs(g);
  }

  /** A line feed in the method moves its later lines into the target. */
  lemma MethodMoves(f: Fields) returns (g: Fields)
    requires !OneLine(f.httpMethod)
    ensures ProofMessage(f) == ProofMessage(g) && !Same(f, g)
  {
    var a, b := TwoLines(f.httpMethod);
    g := f.(httpMethod := a, target := Upper(b) + "\n" + f.target);
    UpperAppend(a, b);
    assert |Upper(g.httpMethod)| < |Upper(f.httpMethod)|;
    hide Upper, PrintNumber, ProofMessage;
    assert Upper(a) + "\n" + Upper(b) + "\n" + f.target == Upper(a) + "\n" + (Upper(b) + "\n" + f.target);
    SameMiddle(f, g);
  }

  lemma SameEnd(f: Fields, g: Fields)
    requires f.httpMethod == g.httpMethod && f.target == g.target && f.ts == g.ts
    requires f.nonce + "\n" + f.keyDigest == g.nonce + "\n" + g.keyDigest
    ensures ProofMessage(f) == ProofMessage(g)
  {
    hide PrintNumber, Upper;
    var front := DOMAIN + "\n" + Upper(f.httpMethod) + "\n" + f.target + "\n" + PrintNumber(f.ts, 10) + "\n";
    assert ProofMessage(f) == front + (f.nonce + "\n" + f.keyDigest);
    assert ProofMessage(g) == front + (g.nonce + "\n" + g.keyDigest);
  }

  /** A line feed in the nonce or the digest moves the border between them. */
  lemma NonceMoves(f: Fields) returns (g: Fields)
    requires !OneLine(f.nonce) || !OneLine(f.keyDigest)
    ensures ProofMessage(f) == ProofMessage(g) && !Same(f, g)
  {
    hide ProofMessage;
    if !OneLine(f.nonce) {
      var a, b := TwoLines(f.nonce);
      g := f.(nonce := a, keyDigest := b + "\n" + f.keyDigest);
      assert |a| < |f.nonce|;
      assert a + "\n" + b + "\n" + f.keyDigest == a + "\n" + (b + "\n" + f.keyDigest);
    } else {
      var a, b := TwoLines(f.keyDigest);
      g := f.(nonce := f.nonce + "\n" + a, keyDigest := b);
      assert |b| < |f.keyDigest|;
      assert f.nonce + "\n" + (a + "\n" + b) == f.nonce + "\n" + a + "\n" + b;
    }
    SameEnd(f, g);
  }

  lemma NoLowerIsUpper(s: string)
    requires !HasLower(s)
    ensures Upper(s) == s
  {
    forall i | 0 <= i < |s| ensures ToUpper(s[i]) == s[i] {
      assert !('a' <= s[i] <= 'z');
    }
  }

  lemma UpperTwice(s: string)
    ensures Upper(Upper(s)) == Upper(s)
  {
  }

  lemma UpperAppend(a: string, b: string)
    ensures Upper(a + "\n" + b) == Upper(a) + "\n" + Upper(b)
  {
  }

  /** A first line of the target without lower-case letters moves into the method. */
  lemma TargetMovesUp(f: Fields) returns (g: Fields)
    requires !OneLine(f.target) && !HasLower(Lines(f.target)[0])
    ensures ProofMessage(f) == ProofMessage(g) && !Same(f, g)
  {
    hide PrintNumber, Upper, ProofMessage, HasLower, Lines;
    var m := Upper(f.httpMethod);
    var a, b := TwoLines(f.target);
    FirstLineIs(a, b);
    NoLowerIsUpper(a);
    UpperTwice(f.httpMethod);
    UpperAppend(m, a);
    g := f.(httpMethod := m + "\n" + a, target := b);
    assert |g.target| < |f.target|;
    assert m + "\n" + (a + "\n" + b) == m + "\n" + a + "\n" + b;
    SameMiddle(f, g);
  }

  lemma FirstLineIs(a: string, b: string)
    requires OneLine(a)
    ensures Lines(a + "\n" + b)[0] == a
  {
    hide Split;
    assert "\n" == ['\n'];
    SplitAppend(a, b, '\n');
    NothingToSplit(a, '\n');
  }

  /** A later line of the target that could be a time takes the place of the time. */
  lemma TimeMoves(f: Fields, k: nat) returns (g: Fields)
    requires 1 <= k < |Lines(f.target)| && IsTime(Lines(f.target)[k])
    ensures ProofMessage(f) == ProofMessage(g) && !Same(f, g)
  {
    var line := Lines(f.target)[k];
    var n: U64 := NumberValue(line, 10);
    hide PrintNumber, NumberValue, Upper, Split, Join, ProofMessage, IsTime;
    var a, t := Join(Lines(f.target)[..k], '\n'), PrintNumber(f.ts, 10);
    var c := TargetAt(f.target, k);
    g := f.(target := a, ts := n, nonce := c + t + "\n" + f.nonce);
    assert |g.target| < |f.target|;
    MovesTime(Upper(f.httpMethod), f.target, t, f.nonce, a, line, c);
    SameMiddle(f, g);
  }

  lemma MovesTime(m: string, target: string, t: string, nonce: string, a: string, line: string, c: string)
    requires target + "\n" == a + "\n" + line + "\n" + c
    ensures Middle(m, target, t, nonce) == Middle(m, a, line, c + t + "\n" + nonce)
  {
    assert Middle(m, target, t, nonce) == m + "\n" + (target + "\n") + t + "\n" + nonce;
    assert m + "\n" + (a + "\n" + line + "\n" + c) + t + "\n" + nonce
        == m + "\n" + a + "\n" + line + "\n" + (c + t + "\n" + nonce);
  }

  /** What follows line `k` of a text with a line feed after it. */
  lemma TargetAt(s: string, k: nat) returns (c: string)
    requires 1 <= k < |Lines(s)|
    ensures s + "\n" == Join(Lines(s)[..k], '\n') + "\n" + Lines(s)[k] + "\n" + c
  {
    hide Split;
    var lines := Lines(s);
    assert lines == lines[..k] + lines[k..] && lines[k..] == [lines[k]] + lines[k + 1..];
    assert "\n" == ['\n'];
    JoinSplit(s, '\n');
    JoinAppend(lines[..k], lines[k..], '\n');
    if k + 1 < |lines| {
      JoinAppend([lines[k]], lines[k + 1..], '\n');
      c := Join(lines[k + 1..], '\n') + "\n";
    } else {
      c := "";
    }
  }

  /** A message stands for one request, among all there are, exactly when its fields are clear. */
  lemma UnambiguousIff(f: Fields)
    ensures (forall g :: ProofMessage(f) == ProofMessage(g) ==> Same(f, g)) <==> Clear(f)
  {
    hide ProofMessage, Same, IsTime, HasLower, Split;
    if Clear(f) {
      forall g | ProofMessage(f) == ProofMessage(g) ensures Same(f, g) {
        ClearMeansSame(f, g);
      }
    } else {
      var g: Fields;
      if !OneLine(f.httpMethod) {
        g := MethodMoves(f);
      } else if !OneLine(f.nonce) || !OneLine(f.keyDigest) {
        g := NonceMoves(f);
      } else if !HasLower(Lines(f.target)[0]) {
        g := TargetMovesUp(f);
      } else {
        var k :| 1 <= k < |Lines(f.target)| && IsTime(Lines(f.target)[k]);
        g := TimeMoves(f, k);
      }
      assert ProofMessage(f) == ProofMessage(g) && !Same(f, g);
    }
  }

  /** A signature over single-line fields covers one request only, among all there are: equal
      messages mean the same upper-cased method, target, time, nonce and key, even if the other
      request has line feeds in its fields. */
  lemma MessageIsUnambiguous(f: Fields, g: Fields)
    requires SingleLines(f)
    ensures ProofMessage(f) == ProofMessage(g) <==> Same(f, g)
  {
    hide PrintNumber, Upper, Lines;
    if ProofMessage(f) == ProofMessage(g) {
      ClearMeansSame(f, g);
    }
  }

  /** A request read off a connection has no line feed in its method and target, so with an
      encoded nonce and a hexadecimal digest its message stands for it alone. */
  lemma ReadRequestIsClear(input: string, ts: U64, nonce: string, keyDigest: string)
    requires ReadRequest(input).Got? && IsBase64Url(nonce) && AllDigits(keyDigest, 16)
    ensures var r := ReadRequest(input).value;
            SingleLines(Fields(r.httpMethod, r.target, ts, nonce, keyDigest))
  {
    hide ReadHeaders, ReadBody, SplitWhitespace;
    SplitWhitespaceOneLine(ReadLine(input).value, "");
    forall c | c in keyDigest ensures c != '\n' {
      var i :| 0 <= i < |keyDigest| && keyDigest[i] == c;
      assert IsDigit(keyDigest[i], 16);
    }
  }

  predicate IsBase64Url(s: string) {
    forall i :: 0 <= i < |s| ==> IsIdChar(s[i])
  }

  /** The header's dots separate exactly five parts, which give back what it was built from. */
  lemma HeaderSplits(deviceId: string, ts: nat, nonce: string, signature: string)
    requires ValidDeviceId(deviceId) && IsBase64Url(nonce) && IsBase64Url(signature)
    ensures Split(ProofHeader(deviceId, ts, nonce, signature), {'.'})
         == ["v1", deviceId, PrintNumber(ts, 10), nonce, signature]
    ensures ParseUnsigned(PrintNumber(ts, 10), 10, ts) == Some(ts)
  {
    var parts := HeaderParts(deviceId, ts, nonce, signature);
    DigitsOnly(ts);
    NoDots(deviceId, nonce, signature);
    hide PrintNumber, ParseUnsigned, ValidDeviceId, IsBase64Url;
    assert "v1." == "v1" + ['.'] && "." == ['.'] && '.' !in "v1";
    JoinFive("v1", deviceId, PrintNumber(ts, 10), nonce, signature, '.');
    SplitJoin(parts, '.');
  }

  lemma NoDots(deviceId: string, nonce: string, signature: string)
    requires ValidDeviceId(deviceId) && IsBase64Url(nonce) && IsBase64Url(signature)
    ensures '.' !in deviceId && '.' !in nonce && '.' !in signature
  {
  }
}
