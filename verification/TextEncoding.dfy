/**
 The byte-level text functions against Unicode itself: characters are code points, and
 a string is their UTF-8 encoding (RFC 3629).
 */
module TextEncoding {
  import opened Text

  /** Unicode scalar values: code points without the surrogates. */
  predicate IsScalar(c: nat) {
    c < 0xd800 || 0xe000 <= c < 0x11_0000
  }

  function Byte(n: nat): char
    requires n < 256
  {
    n as char
  }

  /** The trailing byte for the six bits of `c` that `d` leaves. */
  function Tail(c: nat, d: nat): char
    requires d > 0
  {
    Byte(0x80 + c / d % 64)
  }

  function Encode(c: nat): string
    requires IsScalar(c)
  {
    if c < 0x80 then [Byte(c)]
    else if c < 0x800 then [Byte(0xc0 + c / 64), Tail(c, 1)]
    else if c < 0x1_0000 then [Byte(0xe0 + c / 4096), Tail(c, 64), Tail(c, 1)]
    else [Byte(0xf0 + c / 262144), Tail(c, 4096), Tail(c, 64), Tail(c, 1)]
  }

  /** Code points with the White_Space property. */
  predicate IsWhiteSpace(c: nat) {
    || 9 <= c <= 13 || c == 0x20 || c == 0x85 || c == 0xa0 || c == 0x1680 || 0x2000 <= c <= 0x200a
    || c == 0x2028 || c == 0x2029 || c == 0x202f || c == 0x205f || c == 0x3000
  }

  /** Text that starts with an encoded character starts with white space exactly if it is one. */
  lemma StartsWithSpace(c: nat, rest: string)
    requires IsScalar(c)
    ensures SpaceAtStart(Encode(c) + rest) == if IsWhiteSpace(c) then |Encode(c)| else 0
  {
  }

  /** Text that ends with an encoded character, after whole characters, ends with white space
      exactly if it is one. */
  lemma EndsWithSpace(front: string, c: nat)
    requires IsScalar(c)
    ensures SpaceAtEnd(front + Encode(c)) == if IsWhiteSpace(c) then |Encode(c)| else 0
  {
  }

  // ---- well-formed text -------------------------------------------------

  lemma EncodedIsWellFormed(c: nat, rest: string)
    requires IsScalar(c)
    ensures Utf8Length(Encode(c) + rest) == |Encode(c)|
  {
    if c < 0x80 {
    } else if c < 0x800 {
      TwoAreWellFormed(c, Encode(c) + rest);
    } else if c < 0x1_0000 {
      ThreeAreWellFormed(c, Encode(c) + rest);
    } else {
      FourAreWellFormed(c, Encode(c) + rest);
    }
  }

  lemma TwoAreWellFormed(c: nat, text: string)
    requires 0x80 <= c < 0x800 && |text| >= 2
    requires text[0] == Byte(0xc0 + c / 64) && text[1] == Tail(c, 1)
    ensures Utf8Length(text) == 2
  {
    TailIs(c, 1);
    hide Tail;
  }

  lemma ThreeAreWellFormed(c: nat, text: string)
    requires IsScalar(c) && 0x800 <= c < 0x1_0000 && |text| >= 3
    requires text[0] == Byte(0xe0 + c / 4096) && text[1] == Tail(c, 64) && text[2] == Tail(c, 1)
    ensures Utf8Length(text) == 3
  {
    TailIs(c, 1);
    TailIs(c, 64);
    hide Tail;
  }

  lemma FourAreWellFormed(c: nat, text: string)
    requires 0x1_0000 <= c < 0x11_0000 && |text| >= 4
    requires text[0] == Byte(0xf0 + c / 262144) && text[1] == Tail(c, 4096)
    requires text[2] == Tail(c, 64) && text[3] == Tail(c, 1)
    ensures Utf8Length(text) == 4
  {
    TailIs(c, 1);
    TailIs(c, 64);
    TailIs(c, 4096);
    hide Tail;
  }

  lemma TailIs(c: nat, d: nat)
    requires d > 0
    ensures Continuation(Tail(c, d)) && Tail(c, d) as int == 0x80 + c / d % 64
  {
  }

  /** The code point of the well-formed sequence a text starts with. */
  function Decode(s: string): (c: nat)
    requires Utf8Length(s) > 0
  {
    var n := Utf8Length(s);
    if n == 1 then s[0] as int
    else if n == 2 then (s[0] as int - 0xc0) * 64 + (s[1] as int - 0x80)
    else if n == 3 then (s[0] as int - 0xe0) * 4096 + (s[1] as int - 0x80) * 64 + (s[2] as int - 0x80)
    else (s[0] as int - 0xf0) * 262144 + (s[1] as int - 0x80) * 4096 + (s[2] as int - 0x80) * 64 + (s[3] as int - 0x80)
  }

  lemma Sixes(a: nat, b: nat)
    requires b < 64
    ensures (a * 64 + b) / 64 == a && (a * 64 + b) % 64 == b
  {
  }

  lemma Six2(c: nat)
    ensures c / 64 / 64 == c / 4096 && c / 64 / 64 / 64 == c / 262144
  {
  }

  lemma WellFormedIsEncoded(s: string)
    requires Utf8Length(s) > 0
    ensures IsScalar(Decode(s)) && s[..Utf8Length(s)] == Encode(Decode(s))
  {
    var n := Utf8Length(s);
    if n == 1 {
      assert s[..1] == [s[0]];
    } else if n == 2 {
      TwoIsEncoded(s);
    } else if n == 3 {
      ThreeIsEncoded(s);
    } else {
      FourIsEncoded(s);
    }
  }

  lemma TwoIsEncoded(s: string)
    requires Utf8Length(s) == 2
    ensures IsScalar(Decode(s)) && s[..2] == Encode(Decode(s))
  {
    var c := Decode(s);
    Sixes(s[0] as int - 0xc0, s[1] as int - 0x80);
    TailIs(c, 1);
    hide Tail, Byte;
    assert Byte(0xc0 + c / 64) == s[0] by {
      ByteIs(s[0]);
    }
    assert s[..2] == [s[0], s[1]];
  }

  lemma ByteIs(b: char)
    requires b as int < 256
    ensures Byte(b as int) == b
  {
  }

  lemma ThreeIsEncoded(s: string)
    requires Utf8Length(s) == 3
    ensures IsScalar(Decode(s)) && s[..3] == Encode(Decode(s))
  {
    var c := Decode(s);
    var a, b, d := s[0] as int - 0xe0, s[1] as int - 0x80, s[2] as int - 0x80;
    assert c == (a * 64 + b) * 64 + d;
    Sixes(a * 64 + b, d);
    Sixes(a, b);
    Six2(c);
    TailIs(c, 1);
    TailIs(c, 64);
    ByteIs(s[0]);
    hide Tail, Byte;
    assert s[..3] == [s[0], s[1], s[2]];
  }

  lemma FourIsEncoded(s: string)
    requires Utf8Length(s) == 4
    ensures IsScalar(Decode(s)) && s[..4] == Encode(Decode(s))
  {
    var c := Decode(s);
    var a, b, d, e := s[0] as int - 0xf0, s[1] as int - 0x80, s[2] as int - 0x80, s[3] as int - 0x80;
    assert c == ((a * 64 + b) * 64 + d) * 64 + e;
    Sixes((a * 64 + b) * 64 + d, e);
    Sixes(a * 64 + b, d);
    Sixes(a, b);
    Six2(c);
    TailIs(c, 1);
    TailIs(c, 64);
    TailIs(c, 4096);
    ByteIs(s[0]);
    hide Tail, Byte;
    assert s[..4] == [s[0], s[1], s[2], s[3]];
  }

  function EncodeAll(cs: seq<nat>): string
    requires forall c :: c in cs ==> IsScalar(c)
  {
    if cs == [] then "" else assert cs[0] in cs; Encode(cs[0]) + EncodeAll(cs[1..])
  }

  predicate Scalars(cs: seq<nat>) {
    forall c :: c in cs ==> IsScalar(c)
  }

  /** Text is valid exactly when it is the encoding of some code points. */
  lemma {:induction false} EncodedIsValid(cs: seq<nat>)
    requires Scalars(cs)
    ensures Utf8Valid(EncodeAll(cs))
    decreases |cs|
  {
    hide Encode, Utf8Length, IsScalar;
    if cs != [] {
      assert cs[0] in cs && forall c :: c in cs[1..] ==> c in cs;
      var rest := EncodeAll(cs[1..]);
      EncodedIsWellFormed(cs[0], rest);
      EncodedIsValid(cs[1..]);
      NotEmpty(cs[0]);
      assert EncodeAll(cs)[|Encode(cs[0])|..] == rest;
    }
  }

  lemma NotEmpty(c: nat)
    requires IsScalar(c)
    ensures Encode(c) != ""
  {
  }

  lemma {:induction false} ValidIsEncoded(s: string) returns (cs: seq<nat>)
    requires Utf8Valid(s)
    ensures Scalars(cs) && EncodeAll(cs) == s
    decreases |s|
  {
    hide Encode, Utf8Length, IsScalar, Decode;
    if s == "" {
      cs := [];
    } else {
      var n := Utf8Length(s);
      WellFormedIsEncoded(s);
      var more := ValidIsEncoded(s[n..]);
      cs := [Decode(s)] + more;
      assert cs[1..] == more && s == s[..n] + s[n..];
    }
  }

  // ---- ASCII case -------------------------------------------------------

  const CAPITALS: string := "ABCDEFGHIJKLMNOPQRSTUVWXYZ"
  const SMALLS: string := "abcdefghijklmnopqrstuvwxyz"

  /** A capital goes to the small letter of the same place and back; anything else stays. */
  lemma CaseIs(c: char)
    ensures forall i :: 0 <= i < 26 && c == CAPITALS[i] ==> ToLower(c) == SMALLS[i]
    ensures forall i :: 0 <= i < 26 && c == SMALLS[i] ==> ToUpper(c) == CAPITALS[i]
    ensures c !in CAPITALS ==> ToLower(c) == c
    ensures c !in SMALLS ==> ToUpper(c) == c
  {
    LettersAre();
    hide CAPITALS, SMALLS;
    if 'A' <= c <= 'Z' {
      assert CAPITALS[c as int - 'A' as int] == c;
    }
    if 'a' <= c <= 'z' {
      assert SMALLS[c as int - 'a' as int] == c;
    }
  }

  lemma LettersAre()
    ensures |CAPITALS| == 26 && |SMALLS| == 26
    ensures forall i :: 0 <= i < 26 ==> CAPITALS[i] as int == 65 + i && SMALLS[i] as int == 97 + i
  {
  }

  // ---- digits -----------------------------------------------------------

  const HEX_SMALL: string := "0123456789abcdef"
  const HEX_CAPITAL: string := "0123456789ABCDEF"

  /** A digit stands for its place among the sixteen, in either case; decimal digits are the first
      ten of them, and nothing else is a digit. */
  lemma DigitIs(c: char)
    ensures forall i :: 0 <= i < 16 && (c == HEX_SMALL[i] || c == HEX_CAPITAL[i]) ==> Digit(c) == Some(i)
    ensures IsDigit(c, 16) <==> c in HEX_SMALL || c in HEX_CAPITAL
    ensures IsDigit(c, 10) <==> c in HEX_SMALL[..10]
  {
    HexAre();
    hide HEX_SMALL, HEX_CAPITAL;
    if '0' <= c <= '9' {
      assert HEX_SMALL[..10][c as int - '0' as int] == c;
    } else if 'a' <= c <= 'f' {
      assert HEX_SMALL[c as int - 'a' as int + 10] == c;
    } else if 'A' <= c <= 'F' {
      assert HEX_CAPITAL[c as int - 'A' as int + 10] == c;
    }
  }

  lemma HexAre()
    ensures |HEX_SMALL| == 16 && |HEX_CAPITAL| == 16
    ensures forall i :: 0 <= i < 10 ==> HEX_SMALL[i] as int == 48 + i && HEX_CAPITAL[i] as int == 48 + i
    ensures forall i :: 10 <= i < 16 ==> HEX_SMALL[i] as int == 87 + i && HEX_CAPITAL[i] as int == 55 + i
  {
  }
}
