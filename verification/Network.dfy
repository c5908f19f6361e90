/**
 IP addresses and network ranges (RFC 4632 section 3.1, RFC 4291 section 2.3).
 */
module Network {
  import opened Text

  function Pow2(n: nat): (r: nat)
    ensures r > 0
  {
    if n == 0 then 1 else 2 * Pow2(n - 1)
  }

  datatype Address = V4(bits: nat) | V6(bits: nat) {
    function Width(): nat {
      if V4? then 32 else 128
    }
  }

  type Ip = ip: Address | ip.bits < Pow2(ip.Width()) witness V4(0)

  // ---- classes of addresses ---------------------------------------------

  /** `to_canonical`: an IPv4 address mapped into IPv6 stands for the IPv4 address. */
  function Canonical(ip: Address): Address {
    if ip.V6? && ip.bits / 0x1_0000_0000 == 0xffff then V4(ip.bits % 0x1_0000_0000) else ip
  }

  predicate IsLoopback(ip: Address) {
    if ip.V4? then ip.bits / 0x100_0000 == 127 else ip.bits == 1
  }

  predicate IsUnspecified(ip: Address) {
    ip.bits == 0
  }

  // ---- masks ------------------------------------------------------------

  function BitAnd(x: nat, y: nat): nat
    decreases x
  {
    if x == 0 || y == 0 then 0 else (x % 2) * (y % 2) + 2 * BitAnd(x / 2, y / 2)
  }

  /** `MAX.checked_shl(shift).unwrap_or(0)` for an unsigned type `width` bits wide: the
      shift drops the bits that leave on the left, and is refused at the full width. */
  function Mask(width: nat, shift: nat): nat {
    if shift >= width then 0 else (Pow2(width) - 1) * Pow2(shift) % Pow2(width)
  }

  predicate InNetwork(ip: Address, network: Address, prefix: nat)
    requires prefix <= network.Width()
  {
    && ip.V4? == network.V4?
    && BitAnd(ip.bits, Mask(network.Width(), network.Width() - prefix))
       == BitAnd(network.bits, Mask(network.Width(), network.Width() - prefix))
  }

  lemma {:induction false} Pow2Grows(a: nat, b: nat)
    requires a <= b
    ensures Pow2(a) <= Pow2(b)
    ensures a < b ==> Pow2(a) < Pow2(b)
  {
    if a < b {
      Pow2Grows(a, b - 1);
    }
  }

  lemma MaskIs(width: nat, shift: nat)
    requires shift <= width
    ensures Mask(width, shift) == Pow2(width) - Pow2(shift)
  {
    Pow2Grows(shift, width);
    if shift < width {
      ShiftedOnes(Pow2(width), Pow2(shift));
    }
  }

  lemma ShiftedOnes(w: nat, s: nat)
    requires 0 < s < w
    ensures (w - 1) * s % w == w - s
  {
    assert (w - 1) * s == w * (s - 1) + (w - s);
    DivisionIs((w - 1) * s, w, s - 1, w - s);
  }

  lemma DivisionIs(n: nat, d: nat, q: nat, r: nat)
    requires d > 0 && r < d && n == d * q + r
    ensures n / d == q && n % d == r
  {
    var p, m := n / d, n % d;
    assert d * (p - q) == r - m;
    if p != q {
      MultipleIsFar(d, p - q);
    }
  }

  lemma MultipleIsFar(d: nat, k: int)
    requires k != 0
    ensures d * k >= d || d * k + d <= 0
  {
  }

  lemma {:induction false} AndOnes(x: nat, width: nat)
    requires x < Pow2(width)
    ensures BitAnd(x, Pow2(width) - 1) == x
    decreases width
  {
    if x > 0 {
      var ones := Pow2(width) - 1;
      assert ones % 2 == 1 && ones / 2 == Pow2(width - 1) - 1;
      AndOnes(x / 2, width - 1);
    }
  }

  lemma DivideTwice(x: nat, d: nat)
    requires d > 0
    ensures Quotient(x / 2, d) == Quotient(x, 2 * d)
  {
    var q := x / 2 / d;
    var r := x / 2 % d;
    assert x / 2 == d * q + r;
    assert x == 2 * (x / 2) + x % 2;
    assert x == 2 * (d * q + r) + x % 2 == (2 * d) * q + (2 * r + x % 2) by { assert 2 * (d * q) == (2 * d) * q; }
    DivisionIs(x, 2 * d, q, 2 * r + x % 2);
  }

  function Quotient(x: nat, d: nat): nat
    requires d > 0
  {
    x / d
  }

  /** Masking clears exactly the low `shift` bits. */
  lemma {:induction false} AndMask(x: nat, width: nat, shift: nat)
    requires x < Pow2(width) && shift <= width
    ensures Pow2(shift) <= Pow2(width)
    ensures BitAnd(x, Pow2(width) - Pow2(shift)) == Quotient(x, Pow2(shift)) * Pow2(shift)
    decreases width
  {
    Pow2Grows(shift, width);
    if shift == 0 {
      AndOnes(x, width);
    } else {
      hide BitAnd, Pow2, Quotient;
      Halves(width);
      Halves(shift);
      var half := Pow2(shift - 1);
      AndMask(x / 2, width - 1, shift - 1);
      AndEven(x, Pow2(width - 1) - half);
      DivideTwice(x, half);
      Reassociate(Quotient(x / 2, half), half);
    }
  }

  lemma Halves(n: nat)
    requires n > 0
    ensures Pow2(n) == 2 * Pow2(n - 1)
  {
  }

  lemma AndEven(x: nat, m: nat)
    ensures BitAnd(x, 2 * m) == 2 * BitAnd(x / 2, m)
  {
    assert 2 * m / 2 == m && 2 * m % 2 == 0;
  }

  lemma Reassociate(q: nat, half: nat)
    ensures 2 * (q * half) == q * (2 * half)
  {
  }

  /** The masked comparison holds exactly when the top `prefix` bits agree. */
  lemma InNetworkMeaning(ip: Ip, network: Ip, prefix: nat)
    requires prefix <= network.Width()
    ensures InNetwork(ip, network, prefix) <==>
      ip.V4? == network.V4?
      && ip.bits / Pow2(network.Width() - prefix) == network.bits / Pow2(network.Width() - prefix)
  {
    hide Pow2, BitAnd, Mask;
    if ip.V4? == network.V4? {
      var width := network.Width();
      var shift := width - prefix;
      MaskIs(width, shift);
      AndMask(ip.bits, width, shift);
      AndMask(network.bits, width, shift);
      SameMultiple(Quotient(ip.bits, Pow2(shift)), Quotient(network.bits, Pow2(shift)), Pow2(shift));
    }
  }

  lemma SameMultiple(a: nat, b: nat, d: nat)
    requires d > 0
    ensures a * d == b * d <==> a == b
  {
    if a < b {
      assert a * d <= (b - 1) * d < b * d;
    } else if b < a {
      assert b * d <= (a - 1) * d < a * d;
    }
  }

  /** A longer prefix only shrinks the range. */
  lemma {:induction false} LongerPrefixShrinks(ip: Ip, network: Ip, shorter: nat, longer: nat)
    requires shorter <= longer <= network.Width()
    requires InNetwork(ip, network, longer)
    ensures InNetwork(ip, network, shorter)
    decreases longer - shorter
  {
    InNetworkMeaning(ip, network, longer);
    InNetworkMeaning(ip, network, shorter);
    if shorter < longer {
      InNetworkMeaning(ip, network, longer - 1);
      var shift := network.Width() - longer;
      DivideOnce(ip.bits, Pow2(shift));
      DivideOnce(network.bits, Pow2(shift));
      LongerPrefixShrinks(ip, network, shorter, longer - 1);
    }
  }

  lemma DivideOnce(x: nat, d: nat)
    requires d > 0
    ensures x / (2 * d) == x / d / 2
  {
    HalfQuotient(x, d, x / d, x % d);
  }

  lemma HalfQuotient(x: nat, d: nat, y: nat, m: nat)
    requires d > 0 && m < d && x == d * y + m
    ensures x / (2 * d) == y / 2
  {
    var q, r := y / 2, y % 2;
    Distribute(d, q, r);
    DivisionIs(x, 2 * d, q, (if r == 0 then 0 else d) + m);
  }

  lemma Distribute(d: nat, q: nat, r: nat)
    requires r < 2
    ensures d * (2 * q + r) == 2 * d * q + if r == 0 then 0 else d
  {
  }

  // ---- written ranges ---------------------------------------------------

  datatype Range = Range(network: Ip, prefix: nat)

  predicate GoodRange(range: Range) {
    range.prefix <= range.network.Width()
  }

  function OctetAt(octets: seq<nat>, i: nat): (o: nat)
    requires forall o :: o in octets ==> o < 256
    ensures o < 256
  {
    if i < |octets| then assert octets[i] in octets; octets[i] else 0
  }

  /** Up to four octets, missing ones zero. */
  function OctetBits(octets: seq<nat>): (bits: nat)
    requires |octets| <= 4 && forall o :: o in octets ==> o < 256
    ensures bits < 0x1_0000_0000
  {
    OctetAt(octets, 0) * 0x100_0000 + OctetAt(octets, 1) * 0x1_0000 + OctetAt(octets, 2) * 0x100 + OctetAt(octets, 3)
  }

  function OctetAddress(octets: seq<nat>): Ip
    requires |octets| <= 4 && forall o :: o in octets ==> o < 256
  {
    Pow32();
    V4(OctetBits(octets))
  }

  function ParseOctets(parts: seq<string>): (r: Option<seq<nat>>)
    ensures r.Some? ==> |r.value| == |parts| && forall o :: o in r.value ==> o < 256
  {
    if parts == [] then Some([])
    else
      match ParseUnsigned(parts[0], 10, 255)
      case None => None
      case Some(octet) =>
        match ParseOctets(parts[1..])
        case None => None
        case Some(more) => Some([octet] + more)
  }

  /** An address, `address/prefix`, or an abbreviated IPv4 range such as `169.254/16`. */
  function ParseNetwork(entry: string, parseIp: string -> Option<Ip>): (r: Option<Range>)
    ensures r.Some? ==> GoodRange(r.value)
  {
    var split := SplitOnce(entry, '/');
    var address := if split.Some? then split.value.0 else entry;
    var prefix := if split.Some? then ParseUnsigned(split.value.1, 10, 255) else None;
    if split.Some? && prefix.None? then None
    else
      match ParseRangeAddress(address, split.Some?, parseIp)
      case None => None
      case Some(ip) =>
        var bits := if prefix.Some? then prefix.value else ip.Width();
        if bits <= ip.Width() then Some(Range(ip, bits)) else None
  }

  function ParseRangeAddress(address: string, hasPrefix: bool, parseIp: string -> Option<Ip>): Option<Ip> {
    if parseIp(address).Some? then parseIp(address)
    else if !hasPrefix then None
    else
      match ParseOctets(Split(address, {'.'}))
      case None => None
      case Some(octets) => if |octets| > 4 then None else Some(OctetAddress(octets))
  }

  lemma Pow32()
    ensures Pow2(32) == 0x1_0000_0000
  {
    assert Pow2(8) == 0x100;
    assert Pow2(16) == 0x1_0000;
    assert Pow2(24) == 0x100_0000;
  }

  lemma Pow2Bytes()
    ensures Pow2(0) == 1 && Pow2(8) == 0x100 && Pow2(16) == 0x1_0000 && Pow2(24) == 0x100_0000
  {
    assert Pow2(4) == 0x10;
    assert Pow2(12) == 0x1000;
    assert Pow2(20) == 0x10_0000;
  }

  lemma TwoBytes(q: nat, high: nat, low: nat)
    requires low < 0x100
    ensures q == high * 0x100 + low <==> q / 0x100 == high && q % 0x100 == low
  {
  }

  lemma LeadingBytes(ip: nat, a: nat, b: nat, c: nat, d: nat)
    requires a < 0x100 && b < 0x100 && c < 0x100 && d < 0x100
    ensures var bits := a * 0x100_0000 + b * 0x1_0000 + c * 0x100 + d;
            && (ip / 0x100_0000 == bits / 0x100_0000 <==> ip / 0x100_0000 == a)
            && (ip / 0x1_0000 == bits / 0x1_0000 <==> ip / 0x100_0000 == a && ip / 0x1_0000 % 0x100 == b)
            && (ip / 0x100 == bits / 0x100 <==>
                  ip / 0x100_0000 == a && ip / 0x1_0000 % 0x100 == b && ip / 0x100 % 0x100 == c)
            && (ip == bits <==>
                  ip / 0x100_0000 == a && ip / 0x1_0000 % 0x100 == b && ip / 0x100 % 0x100 == c && ip % 0x100 == d)
  {
    var bits := a * 0x100_0000 + b * 0x1_0000 + c * 0x100 + d;
    assert bits / 0x100 == a * 0x1_0000 + b * 0x100 + c;
    assert bits / 0x1_0000 == a * 0x100 + b && bits / 0x100_0000 == a;
    TwoBytes(ip / 0x1_0000, a, b);
    TwoBytes(ip / 0x100, a * 0x100 + b, c);
    TwoBytes(ip, a * 0x1_0000 + b * 0x100 + c, d);
  }

  /** A prefix of whole octets holds exactly the addresses that begin with them. */
  lemma LeadingOctets(octets: seq<nat>, ip: nat)
    requires Octets(octets) && ip < 0x1_0000_0000
    ensures Pow2(32) == 0x1_0000_0000
    ensures InNetwork(V4(ip), V4(OctetBits(octets)), 8 * |octets|) <==>
      && ip / 0x100_0000 == octets[0]
      && (|octets| > 1 ==> ip / 0x1_0000 % 0x100 == octets[1])
      && (|octets| > 2 ==> ip / 0x100 % 0x100 == octets[2])
      && (|octets| > 3 ==> ip % 0x100 == octets[3])
  {
    Pow32();
    Pow2Bytes();
    InNetworkMeaning(V4(ip), V4(OctetBits(octets)), 8 * |octets|);
    hide InNetwork, Pow2;
    var a, b, c, d := OctetAt(octets, 0), OctetAt(octets, 1), OctetAt(octets, 2), OctetAt(octets, 3);
    LeadingBytes(ip, a, b, c, d);
    match |octets| {
      case 1 => assert Pow2(32 - 8 * |octets|) == 0x100_0000;
      case 2 => assert Pow2(32 - 8 * |octets|) == 0x1_0000;
      case 3 => assert Pow2(32 - 8 * |octets|) == 0x100;
      case _ => assert Pow2(32 - 8 * |octets|) == 1;
    }
  }

  // ---- abbreviated ranges as they are written ---------------------------

  predicate Octets(octets: seq<nat>) {
    1 <= |octets| <= 4 && forall o :: o in octets ==> o < 256
  }

  function OctetTexts(octets: seq<nat>): (texts: seq<string>)
    ensures |texts| == |octets|
  {
    if octets == [] then [] else [PrintNumber(octets[0], 10)] + OctetTexts(octets[1..])
  }

  /** Octets in decimal with dots between them. */
  function Dotted(octets: seq<nat>): string
    requires octets != []
  {
    Join(OctetTexts(octets), '.')
  }

  lemma {:induction false} OctetTextsParse(octets: seq<nat>)
    requires forall o :: o in octets ==> o < 256
    ensures ParseOctets(OctetTexts(octets)) == Some(octets)
    decreases |octets|
  {
    hide PrintNumber, ParseUnsigned;
    if octets != [] {
      assert octets[0] in octets && forall o :: o in octets[1..] ==> o in octets;
      ParsePrinted(octets[0], 10, 255);
      OctetTextsParse(octets[1..]);
      assert octets == [octets[0]] + octets[1..];
    }
  }

  lemma {:induction false} OctetTextsAreDigits(octets: seq<nat>)
    ensures forall text :: text in OctetTexts(octets) ==> '.' !in text && '/' !in text
    decreases |octets|
  {
    hide PrintNumber;
    if octets != [] {
      PrintedDigits(octets[0], 10);
      OctetTextsAreDigits(octets[1..]);
    }
  }

  lemma {:induction false} JoinWithout(parts: seq<string>, sep: char, c: char)
    requires parts != [] && c != sep && forall part :: part in parts ==> c !in part
    ensures c !in Join(parts, sep)
    decreases |parts|
  {
    if |parts| > 1 {
      JoinWithout(parts[1..], sep, c);
    }
    assert parts[0] in parts;
  }

  lemma SplitsAtSlash(address: string, prefix: string)
    requires '/' !in address
    ensures SplitOnce(address + "/" + prefix, '/') == Some((address, prefix))
  {
    var text := address + "/" + prefix;
    FindIs(text, {'/'}, |address|);
    assert text[..|address|] == address && text[|address| + 1..] == prefix;
  }

  /** Octets and a prefix, written out, are read as the range they stand for, when the address
      parser takes the octets for no address, or for their own. */
  lemma WrittenRangeParses(octets: seq<nat>, prefix: nat, parseIp: string -> Option<Ip>)
    requires Octets(octets) && prefix <= 32
    requires parseIp(Dotted(octets)) in {None, Some(OctetAddress(octets))}
    ensures ParseNetwork(Dotted(octets) + "/" + PrintNumber(prefix, 10), parseIp)
         == Some(Range(OctetAddress(octets), prefix))
  {
    hide PrintNumber, ParseUnsigned, Pow2, Split, Join, OctetAddress;
    var texts := OctetTexts(octets);
    OctetTextsAreDigits(octets);
    JoinWithout(texts, '.', '/');
    SplitsAtSlash(Dotted(octets), PrintNumber(prefix, 10));
    ParsePrinted(prefix, 10, 255);
    SplitJoin(texts, '.');
    OctetTextsParse(octets);
  }

  /** A range written as octets and their number of bits, such as `169.254/16`, holds exactly the
      addresses that begin with those octets. */
  lemma AbbreviatedRange(octets: seq<nat>, ip: Ip, parseIp: string -> Option<Ip>)
    requires Octets(octets)
    requires parseIp(Dotted(octets)) in {None, Some(OctetAddress(octets))}
    ensures var range := ParseNetwork(Dotted(octets) + "/" + PrintNumber(8 * |octets|, 10), parseIp);
      range.Some? && (InNetwork(ip, range.value.network, range.value.prefix) <==>
        && ip.V4?
        && ip.bits / 0x100_0000 == octets[0]
        && (|octets| > 1 ==> ip.bits / 0x1_0000 % 0x100 == octets[1])
        && (|octets| > 2 ==> ip.bits / 0x100 % 0x100 == octets[2])
        && (|octets| > 3 ==> ip.bits % 0x100 == octets[3]))
  {
    hide ParseNetwork, PrintNumber, Dotted;
    WrittenRangeParses(octets, 8 * |octets|, parseIp);
    Pow32();
    hide Pow2, OctetBits, Mask, BitAnd;
    if ip.V4? {
      LeadingOctets(octets, ip.bits);
    }
  }

  /** A full address, or an address of either family with a prefix, is read as its own range; a
      prefix beyond the width is refused, and a host name is no range. */
  lemma WrittenAddressParses(address: string, prefix: nat, parseIp: string -> Option<Ip>)
    requires '/' !in address && prefix <= 255
    ensures ParseNetwork(address, parseIp)
         == match parseIp(address) case None => None case Some(ip) => Some(Range(ip, if ip.V4? then 32 else 128))
    ensures parseIp(address).Some? ==>
      var ip := parseIp(address).value;
      ParseNetwork(address + "/" + PrintNumber(prefix, 10), parseIp)
      == if prefix <= (if ip.V4? then 32 else 128) then Some(Range(ip, prefix)) else None
  {
    hide PrintNumber, ParseUnsigned, Pow2, ParseOctets;
    FindIs(address, {'/'}, |address|);
    SplitsAtSlash(address, PrintNumber(prefix, 10));
    ParsePrinted(prefix, 10, 255);
  }

  /** The octets of an address from the highest on; missing ones are zero. */
  lemma OctetsAre(octets: seq<nat>)
    requires |octets| <= 4 && forall o :: o in octets ==> o < 256
    ensures OctetBits([]) == 0
    ensures |octets| < 4 ==> OctetBits(octets + [0]) == OctetBits(octets)
    ensures |octets| == 4 ==>
      OctetBits(octets) == ((octets[0] * 0x100 + octets[1]) * 0x100 + octets[2]) * 0x100 + octets[3]
  {
    if |octets| < 4 {
      forall i: nat ensures OctetAt(octets + [0], i) == OctetAt(octets, i) {
      }
    }
  }

  // ---- loopback and unspecified addresses -------------------------------

  /** 127.0.0.0 */
  function Loopback4(): Ip {
    Pow32();
    V4(0x7f00_0000)
  }

  /** ::ffff:127.0.0.0 */
  function LoopbackMapped(): Ip {
    MappedFits();
    V6(0xffff_7f00_0000)
  }

  /** ::1 */
  function Loopback6(): Ip {
    MappedFits();
    V6(1)
  }

  lemma MappedFits()
    ensures 0xffff_7f00_0000 < Pow2(128)
  {
    Pow32();
    assert Pow2(36) == 0x10_0000_0000;
    assert Pow2(40) == 0x100_0000_0000;
    assert Pow2(44) == 0x1000_0000_0000;
    assert Pow2(48) == 0x1_0000_0000_0000;
    Pow2Grows(48, 128);
  }

  /** Loopback is 127.0.0.0/8, ::1, and 127.0.0.0/8 mapped into IPv6. */
  lemma LoopbackIs(ip: Ip)
    ensures IsLoopback(Canonical(ip)) <==>
      InNetwork(ip, Loopback4(), 8) || ip == Loopback6() || InNetwork(ip, LoopbackMapped(), 104)
  {
    LoopbackRanges(ip);
    hide InNetwork, Loopback4, LoopbackMapped;
    if ip.V6? {
      MappedPrefix(ip.bits);
    }
  }

  lemma LoopbackRanges(ip: Ip)
    ensures InNetwork(ip, Loopback4(), 8) <==> ip.V4? && ip.bits / 0x100_0000 == 127
    ensures InNetwork(ip, LoopbackMapped(), 104) <==>
      ip.V6? && ip.bits / 0x100_0000 == 0xffff_7f00_0000 / 0x100_0000
  {
    InNetworkMeaning(ip, Loopback4(), 8);
    InNetworkMeaning(ip, LoopbackMapped(), 104);
    Pow2Bytes();
    hide InNetwork, Pow2;
  }

  lemma MappedPrefix(bits: nat)
    ensures bits / 0x100_0000 == 0xffff_7f00_0000 / 0x100_0000
       <==> bits / 0x1_0000_0000 == 0xffff && bits % 0x1_0000_0000 / 0x100_0000 == 127
  {
  }

  /** 0.0.0.0, ::, and 0.0.0.0 mapped into IPv6. */
  lemma UnspecifiedIs(ip: Ip)
    ensures IsUnspecified(Canonical(ip)) <==> ip.bits == 0 || (ip.V6? && ip.bits == 0xffff_0000_0000)
  {
  }
}
