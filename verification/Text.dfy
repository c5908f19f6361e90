/**
 Byte strings. A value of type `string` stands for the UTF-8 bytes the program
 works on, one character for each byte, so lengths are byte lengths. The Rust
 text operations the modelled code calls are defined here on bytes.
 */
module Text {

  datatype Option<+T> = None | Some(value: T)

  datatype Result<+T, +E> = Ok(value: T) | Err(error: E)

  // ---- ASCII case -------------------------------------------------------

  function ToLower(c: char): char {
    if 'A' <= c <= 'Z' then (c as int + 32) as char else c
  }

  /** `str::to_ascii_lowercase` */
  function Lower(s: string): string {
    seq(|s|, i requires 0 <= i < |s| => ToLower(s[i]))
  }

  function ToUpper(c: char): char {
    if 'a' <= c <= 'z' then (c as int - 32) as char else c
  }

  /** `str::to_ascii_uppercase` */
  function Upper(s: string): string {
    seq(|s|, i requires 0 <= i < |s| => ToUpper(s[i]))
  }

  lemma LowerTwice(s: string)
    ensures Lower(Lower(s)) == Lower(s)
  {
  }

  // ---- prefixes and suffixes --------------------------------------------

  predicate StartsWith(s: string, prefix: string) {
    prefix <= s
  }

  predicate EndsWith(s: string, suffix: string) {
    |suffix| <= |s| && s[|s| - |suffix|..] == suffix
  }

  // ---- searching and splitting ------------------------------------------

  /** Position of the first character of `s` in `seps`, or `|s|`. */
  function Find(s: string, seps: set<char>): (i: nat)
    ensures i <= |s|
    ensures i < |s| ==> s[i] in seps
    ensures forall j :: 0 <= j < i ==> s[j] !in seps
  {
    if s == "" || s[0] in seps then 0 else 1 + Find(s[1..], seps)
  }

  lemma FindIs(s: string, seps: set<char>, i: nat)
    requires i <= |s|
    requires i < |s| ==> s[i] in seps
    requires forall j :: 0 <= j < i ==> s[j] !in seps
    ensures Find(s, seps) == i
  {
  }

  /** `str::split_once` on one character. */
  function SplitOnce(s: string, c: char): Option<(string, string)> {
    var i := Find(s, {c});
    if i == |s| then None else Some((s[..i], s[i + 1..]))
  }

  /** `str::split` on any of the characters in `seps`. */
  function Split(s: string, seps: set<char>): (parts: seq<string>)
    ensures parts != []
  {
    var i := Find(s, seps);
    if i == |s| then [s] else [s[..i]] + Split(s[i + 1..], seps)
  }

  function Join(parts: seq<string>, c: char): string
    requires parts != []
  {
    if |parts| == 1 then parts[0] else parts[0] + [c] + Join(parts[1..], c)
  }

  lemma {:induction false} SplitJoin(parts: seq<string>, c: char)
    requires parts != [] && forall p :: p in parts ==> c !in p
    ensures Split(Join(parts, c), {c}) == parts
  {
    hide Split;
    assert c !in parts[0];
    NothingToSplit(parts[0], c);
    if |parts| > 1 {
      SplitAppend(parts[0], Join(parts[1..], c), c);
      SplitJoin(parts[1..], c);
      assert parts == [parts[0]] + parts[1..];
    } else {
      assert parts == [parts[0]];
    }
  }

  lemma SplitStep(s: string, c: char, i: nat)
    requires i < |s| && s[i] == c && forall k :: 0 <= k < i ==> s[k] != c
    ensures Split(s, {c}) == [s[..i]] + Split(s[i + 1..], {c})
  {
    FindIs(s, {c}, i);
  }

  lemma {:induction false} SplitAppend(a: string, b: string, c: char)
    ensures Split(a + [c] + b, {c}) == Split(a, {c}) + Split(b, {c})
    decreases |a|
  {
    var s := a + [c] + b;
    var i := Find(a, {c});
    hide Split, Find;
    SplitStep(s, c, i);
    if i == |a| {
      NothingToSplit(a, c);
      assert s[..i] == a && s[i + 1..] == b;
    } else {
      SplitStep(a, c, i);
      assert s[..i] == a[..i] && s[i + 1..] == a[i + 1..] + [c] + b;
      SplitAppend(a[i + 1..], b, c);
    }
  }

  lemma {:induction false} JoinSplit(s: string, c: char)
    ensures Join(Split(s, {c}), c) == s
    decreases |s|
  {
    var i := Find(s, {c});
    hide Split, Find;
    if i < |s| {
      SplitStep(s, c, i);
      JoinSplit(s[i + 1..], c);
      JoinMore(s[..i], Split(s[i + 1..], {c}), c);
      assert s == s[..i] + [c] + s[i + 1..];
    } else {
      NothingToSplit(s, c);
    }
  }

  lemma JoinMore(first: string, rest: seq<string>, c: char)
    requires rest != []
    ensures Join([first] + rest, c) == first + [c] + Join(rest, c)
  {
    assert ([first] + rest)[1..] == rest;
  }

  lemma {:induction false} JoinAppend(a: seq<string>, b: seq<string>, c: char)
    requires a != [] && b != []
    ensures Join(a + b, c) == Join(a, c) + [c] + Join(b, c)
  {
    if |a| == 1 {
      assert (a + b)[1..] == b && (a + b)[0] == a[0];
    } else {
      assert (a + b)[1..] == a[1..] + b && (a + b)[0] == a[0];
      JoinAppend(a[1..], b, c);
    }
  }

  lemma NothingToSplit(s: string, c: char)
    requires c !in s
    ensures Split(s, {c}) == [s]
  {
    FindIs(s, {c}, |s|);
  }

  /** A part has only characters of the whole, and the separator is none of them. */
  lemma {:induction false} PartsOf(s: string, c: char, i: nat)
    requires i < |Split(s, {c})|
    ensures forall x :: x in Split(s, {c})[i] ==> x in s && x != c
    decreases |s|
  {
    var n := Find(s, {c});
    if n < |s| && i > 0 {
      PartsOf(s[n + 1..], c, i - 1);
    }
  }

  /** `str::trim_start_matches` on one character. */
  function TrimLeading(s: string, c: char): string {
    if s != "" && s[0] == c then TrimLeading(s[1..], c) else s
  }

  /** `str::trim_end_matches` on one character. */
  function TrimTrailing(s: string, c: char): string {
    if s != "" && s[|s| - 1] == c then TrimTrailing(s[..|s| - 1], c) else s
  }

  // ---- white space ------------------------------------------------------

  predicate Space3(a: char, b: char, c: char) {
    || (a == '\U{E1}' && b == '\U{9A}' && c == '\U{80}')
    || (a == '\U{E2}' && b == '\U{80}'
        && ('\U{80}' <= c <= '\U{8A}' || c == '\U{A8}' || c == '\U{A9}' || c == '\U{AF}'))
    || (a == '\U{E2}' && b == '\U{81}' && c == '\U{9F}')
    || (a == '\U{E3}' && b == '\U{80}' && c == '\U{80}')
  }

  predicate Space1(a: char) {
    a == ' ' || '\t' <= a <= '\r'
  }

  predicate Space2(a: char, b: char) {
    a == '\U{C2}' && (b == '\U{85}' || b == '\U{A0}')
  }

  /** Byte length of the Unicode white space character `s` starts with, or 0. */
  function SpaceAtStart(s: string): (n: nat)
    ensures n <= |s|
  {
    if |s| >= 1 && Space1(s[0]) then 1
    else if |s| >= 2 && Space2(s[0], s[1]) then 2
    else if |s| >= 3 && Space3(s[0], s[1], s[2]) then 3
    else 0
  }

  /** Byte length of the Unicode white space character `s` ends with, or 0. */
  function SpaceAtEnd(s: string): (n: nat)
    ensures n <= |s|
  {
    var k := |s|;
    if k >= 1 && Space1(s[k - 1]) then 1
    else if k >= 2 && Space2(s[k - 2], s[k - 1]) then 2
    else if k >= 3 && Space3(s[k - 3], s[k - 2], s[k - 1]) then 3
    else 0
  }

  function TrimStart(s: string): string {
    var n := SpaceAtStart(s);
    if n == 0 then s else TrimStart(s[n..])
  }

  function TrimEnd(s: string): string {
    var n := SpaceAtEnd(s);
    if n == 0 then s else TrimEnd(s[..|s| - n])
  }

  /** `str::trim` */
  function Trim(s: string): string {
    TrimEnd(TrimStart(s))
  }

  /** No white space at either end, so that trimming leaves the text alone. */
  predicate Trimmed(s: string) {
    SpaceAtStart(s) == 0 && SpaceAtEnd(s) == 0
  }

  lemma TrimmedIsTrim(s: string)
    requires Trimmed(s)
    ensures Trim(s) == s
  {
  }

  /** `str::split_whitespace`; `token` holds the bytes of the open token. */
  function SplitWhitespace(s: string, token: string := ""): seq<string>
    decreases |s|
  {
    if s == "" then if token == "" then [] else [token]
    else
      var n := SpaceAtStart(s);
      if n == 0 then SplitWhitespace(s[1..], token + [s[0]])
      else (if token == "" then [] else [token]) + SplitWhitespace(s[n..], "")
  }

  predicate IsAscii(s: string) {
    forall i :: 0 <= i < |s| ==> s[i] < '\U{80}'
  }

  /** No white space character anywhere. */
  predicate Solid(s: string) {
    forall i {:trigger s[i..]} :: 0 <= i < |s| ==> SpaceAtStart(s[i..]) == 0
  }

  lemma SpaceAtStartExtend(a: string, b: string)
    requires a != "" && SpaceAtStart(a) == 0
    requires b == "" || b[0] < '\U{80}'
    ensures SpaceAtStart(a + b) == 0
  {
  }

  lemma {:induction false} SplitWhitespaceToken(tok: string, rest: string, acc: string)
    requires Solid(tok)
    requires rest == "" || rest[0] < '\U{80}'
    ensures SplitWhitespace(tok + rest, acc) == SplitWhitespace(rest, acc + tok)
    decreases |tok|
  {
    if tok == "" {
      assert tok + rest == rest && acc + tok == acc;
    } else {
      assert tok[0..] == tok;
      SpaceAtStartExtend(tok, rest);
      assert (tok + rest)[1..] == tok[1..] + rest;
      forall i | 0 <= i < |tok[1..]| ensures SpaceAtStart(tok[1..][i..]) == 0 {
        assert tok[1..][i..] == tok[i + 1..];
      }
      SplitWhitespaceToken(tok[1..], rest, acc + [tok[0]]);
      assert acc + tok == acc + [tok[0]] + tok[1..];
    }
  }

  /** No part has a line feed in it. */
  lemma {:induction false} SplitWhitespaceOneLine(s: string, token: string)
    requires '\n' !in token
    ensures forall part :: part in SplitWhitespace(s, token) ==> '\n' !in part
    decreases |s|
  {
    if s != "" {
      var n := SpaceAtStart(s);
      if n == 0 {
        SplitWhitespaceOneLine(s[1..], token + [s[0]]);
      } else {
        SplitWhitespaceOneLine(s[n..], "");
      }
    }
  }

  // ---- UTF-8 ------------------------------------------------------------

  predicate Continuation(c: char) {
    '\U{80}' <= c <= '\U{BF}'
  }

  /** Byte length of the well-formed UTF-8 sequence `s` starts with, or 0. */
  function Utf8Length(s: string): (n: nat)
    ensures n <= |s|
  {
    if |s| >= 1 && s[0] < '\U{80}' then 1
    else if |s| >= 2 && '\U{C2}' <= s[0] <= '\U{DF}' && Continuation(s[1]) then 2
    else if |s| >= 3 && '\U{E0}' <= s[0] <= '\U{EF}' && Continuation(s[1]) && Continuation(s[2])
            && (s[0] == '\U{E0}' ==> '\U{A0}' <= s[1]) && (s[0] == '\U{ED}' ==> s[1] <= '\U{9F}') then 3
    else if |s| >= 4 && '\U{F0}' <= s[0] <= '\U{F4}'
            && Continuation(s[1]) && Continuation(s[2]) && Continuation(s[3])
            && (s[0] == '\U{F0}' ==> '\U{90}' <= s[1]) && (s[0] == '\U{F4}' ==> s[1] <= '\U{8F}') then 4
    else 0
  }

  predicate Utf8Valid(s: string) {
    s == "" || (var n := Utf8Length(s); n > 0 && Utf8Valid(s[n..]))
  }

  lemma {:induction false} AsciiIsUtf8(s: string)
    requires IsAscii(s)
    ensures Utf8Valid(s)
  {
    if s != "" {
      AsciiIsUtf8(s[1..]);
    }
  }

  // ---- unsigned numbers -------------------------------------------------

  const U64_MAX: nat := 0xFFFF_FFFF_FFFF_FFFF

  const USIZE_MAX: nat := 0xFFFF_FFFF_FFFF_FFFF

  function Digit(c: char): Option<nat> {
    if '0' <= c <= '9' then Some(c as int - '0' as int)
    else if 'a' <= c <= 'z' then Some(c as int - 'a' as int + 10)
    else if 'A' <= c <= 'Z' then Some(c as int - 'A' as int + 10)
    else None
  }

  predicate IsDigit(c: char, radix: nat) {
    Digit(c).Some? && Digit(c).value < radix
  }

  predicate AllDigits(s: string, radix: nat) {
    forall i :: 0 <= i < |s| ==> IsDigit(s[i], radix)
  }

  function NumberValue(s: string, radix: nat): nat
    requires AllDigits(s, radix)
  {
    if s == "" then 0 else NumberValue(s[..|s| - 1], radix) * radix + Digit(s[|s| - 1]).value
  }

  /** `from_str_radix` of an unsigned type with largest value `max`: an optional plus sign,
      at least one digit, no overflow. */
  function ParseUnsigned(s: string, radix: nat, max: nat): Option<nat> {
    var digits := if s != "" && s[0] == '+' then s[1..] else s;
    if digits == "" || !AllDigits(digits, radix) || NumberValue(digits, radix) > max then None
    else Some(NumberValue(digits, radix))
  }

  function DigitChar(d: nat): (c: char)
    requires d < 16
    ensures IsDigit(c, d + 1) && Digit(c) == Some(d) && c != '+' && '0' <= c <= 'F'
  {
    if d < 10 then (d + '0' as int) as char else (d - 10 + 'A' as int) as char
  }

  /** Digits of `n`, upper case (`{}` for radix 10, `{:X}` for radix 16). */
  function PrintNumber(n: nat, radix: nat): (s: string)
    requires 2 <= radix <= 16
    ensures s != ""
    decreases n
  {
    if n < radix then [DigitChar(n)] else PrintNumber(n / radix, radix) + [DigitChar(n % radix)]
  }

  lemma {:induction false} PrintedDigits(n: nat, radix: nat)
    requires 2 <= radix <= 16
    ensures AllDigits(PrintNumber(n, radix), radix)
    ensures forall i :: 0 <= i < |PrintNumber(n, radix)| ==> '0' <= PrintNumber(n, radix)[i] <= 'F'
    decreases n
  {
    if n >= radix {
      PrintedDigits(n / radix, radix);
    }
  }

  lemma AppendDigit(front: string, d: nat, radix: nat)
    requires 2 <= radix <= 16 && d < radix && AllDigits(front, radix)
    ensures AllDigits(front + [DigitChar(d)], radix)
    ensures NumberValue(front + [DigitChar(d)], radix) == NumberValue(front, radix) * radix + d
  {
    assert (front + [DigitChar(d)])[..|front|] == front;
  }

  lemma EmptyNumber(radix: nat)
    ensures AllDigits("", radix) && NumberValue("", radix) == 0
  {
  }

  lemma {:induction false} PrintedValue(n: nat, radix: nat)
    requires 2 <= radix <= 16
    ensures AllDigits(PrintNumber(n, radix), radix) && NumberValue(PrintNumber(n, radix), radix) == n
    decreases n
  {
    hide NumberValue, AllDigits, DigitChar;
    if n < radix {
      EmptyNumber(radix);
      AppendDigit("", n, radix);
      assert [DigitChar(n)] == "" + [DigitChar(n)];
    } else {
      PrintedValue(n / radix, radix);
      AppendDigit(PrintNumber(n / radix, radix), n % radix, radix);
      DivideAgain(n, radix);
    }
  }

  lemma DivideAgain(n: nat, radix: nat)
    requires radix > 0
    ensures n / radix * radix + n % radix == n
  {
  }

  lemma ParsePrinted(n: nat, radix: nat, max: nat)
    requires 2 <= radix <= 16 && n <= max
    ensures ParseUnsigned(PrintNumber(n, radix), radix, max) == Some(n)
  {
    PrintedValue(n, radix);
    PrintedDigits(n, radix);
  }

  lemma {:induction false} PrintedHexLength(n: nat, digits: nat, bound: nat)
    requires digits > 0 && n < bound && bound == Power16(digits)
    ensures |PrintNumber(n, 16)| <= digits
    decreases digits
  {
    if n >= 16 {
      PrintedHexLength(n / 16, digits - 1, Power16(digits - 1));
    }
  }

  function Power16(k: nat): nat {
    if k == 0 then 1 else 16 * Power16(k - 1)
  }
}
