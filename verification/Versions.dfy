/**
 Version numbers: dotted decimal components, missing ones counting as zero.
 */
module Versions {
  import opened Text

  datatype Ordering = Less | Equal | Greater

  function ParseComponents(parts: seq<string>): Option<seq<nat>> {
    if parts == [] then Some([])
    else if parts[0] == "" || !AllDigits(parts[0], 10) || NumberValue(parts[0], 10) > U64_MAX then None
    else
      match ParseComponents(parts[1..])
      case None => None
      case Some(more) => Some([NumberValue(parts[0], 10)] + more)
  }

  const PRODUCT_PREFIX: string := "saiai "

  function ParseVersion(raw: string): Option<seq<nat>> {
    var text := Trim(raw);
    var bare := if StartsWith(text, PRODUCT_PREFIX) then text[|PRODUCT_PREFIX|..] else text;
    ParseComponents(Split(TrimLeading(Trim(bare), 'v'), {'.'}))
  }

  function Component(v: seq<nat>, i: nat): nat {
    if i < |v| then v[i] else 0
  }

  function CompareFrom(a: seq<nat>, b: seq<nat>, i: nat): Ordering
    decreases |a| + |b| - i
  {
    if i >= |a| && i >= |b| then Equal
    else if Component(a, i) < Component(b, i) then Less
    else if Component(a, i) > Component(b, i) then Greater
    else CompareFrom(a, b, i + 1)
  }

  /** `None` when either is missing or not purely numeric. */
  function Order(left: Option<string>, right: Option<string>): Option<Ordering> {
    if left.None? || right.None? || ParseVersion(left.value).None? || ParseVersion(right.value).None? then None
    else Some(CompareFrom(ParseVersion(left.value).value, ParseVersion(right.value).value, 0))
  }

  // ---- a total preorder -------------------------------------------------

  predicate SameBefore(a: seq<nat>, b: seq<nat>, n: nat) {
    forall j: nat :: j < n ==> Component(a, j) == Component(b, j)
  }

  /** The first component that differs decides. */
  lemma {:induction false} CompareMeaning(a: seq<nat>, b: seq<nat>, i: nat)
    requires SameBefore(a, b, i)
    ensures CompareFrom(a, b, i).Less? <==> exists k: nat :: SameBefore(a, b, k) && Component(a, k) < Component(b, k)
    ensures CompareFrom(a, b, i).Greater? <==> exists k: nat :: SameBefore(a, b, k) && Component(a, k) > Component(b, k)
    ensures CompareFrom(a, b, i).Equal? <==> forall k: nat :: Component(a, k) == Component(b, k)
    decreases |a| + |b| - i
  {
    if i >= |a| && i >= |b| {
      forall k: nat ensures Component(a, k) == Component(b, k) {
      }
    } else if Component(a, i) == Component(b, i) {
      CompareMeaning(a, b, i + 1);
    } else {
      forall k: nat | SameBefore(a, b, k) && Component(a, k) != Component(b, k) ensures k == i {
      }
    }
  }

  lemma OrderReflexive(v: Option<string>)
    ensures Order(v, v).None? || Order(v, v) == Some(Equal)
    ensures Order(v, v).None? <==> v.None? || ParseVersion(v.value).None?
  {
    hide ParseVersion;
    if v.Some? && ParseVersion(v.value).Some? {
      var p := ParseVersion(v.value).value;
      CompareMeaning(p, p, 0);
    }
  }

  lemma OrderFlips(a: Option<string>, b: Option<string>)
    ensures Order(a, b) == Some(Less) <==> Order(b, a) == Some(Greater)
    ensures Order(a, b) == Some(Equal) <==> Order(b, a) == Some(Equal)
  {
    hide ParseVersion;
    if Order(a, b).Some? {
      var p, q := ParseVersion(a.value).value, ParseVersion(b.value).value;
      CompareMeaning(p, q, 0);
      CompareMeaning(q, p, 0);
      forall k: nat ensures SameBefore(p, q, k) == SameBefore(q, p, k) {
      }
      hide CompareFrom;
    }
  }

  predicate AtLeast(a: Option<string>, b: Option<string>) {
    Order(a, b).Some? && !Order(a, b).value.Less?
  }

  lemma AtLeastTransitive(a: Option<string>, b: Option<string>, c: Option<string>)
    requires AtLeast(a, b) && AtLeast(b, c)
    ensures AtLeast(a, c)
  {
    hide ParseVersion;
    var p, q, r := ParseVersion(a.value).value, ParseVersion(b.value).value, ParseVersion(c.value).value;
    CompareMeaning(p, q, 0);
    CompareMeaning(q, r, 0);
    CompareMeaning(p, r, 0);
    hide CompareFrom, Order;
    if exists k: nat :: SameBefore(p, r, k) && Component(p, k) < Component(r, k) {
      var k: nat :| SameBefore(p, r, k) && Component(p, k) < Component(r, k);
      FirstDifference(p, q, r, k);
    }
  }

  /** If `p` falls below `r` then it falls below `q` or `q` below `r`. */
  lemma FirstDifference(p: seq<nat>, q: seq<nat>, r: seq<nat>, k: nat)
    requires SameBefore(p, r, k) && Component(p, k) < Component(r, k)
    ensures (exists i: nat :: SameBefore(p, q, i) && Component(p, i) < Component(q, i))
         || (exists i: nat :: SameBefore(q, r, i) && Component(q, i) < Component(r, i))
  {
    if SameBefore(p, q, k) {
      assert SameBefore(q, r, k);
    } else {
      var i := FirstDiffering(p, q, k);
      assert Component(p, i) == Component(r, i);
      assert SameBefore(q, r, i);
    }
  }

  lemma {:induction false} FirstDiffering(p: seq<nat>, q: seq<nat>, n: nat) returns (i: nat)
    requires !SameBefore(p, q, n)
    ensures i < n && SameBefore(p, q, i) && Component(p, i) != Component(q, i)
  {
    if SameBefore(p, q, n - 1) {
      i := n - 1;
    } else {
      i := FirstDiffering(p, q, n - 1);
    }
  }

  /** Missing components count as zero: one more zero changes nothing, one more anything else is
      newer. */
  lemma MissingIsZero(v: seq<nat>, n: nat)
    ensures CompareFrom(v, v + [n], 0) == if n == 0 then Equal else Less
    ensures CompareFrom(v + [n], v, 0) == if n == 0 then Equal else Greater
  {
    var longer := v + [n];
    assert SameBefore(v, longer, |v|) && Component(v, |v|) == 0 && Component(longer, |v|) == n;
    forall k: nat | n == 0 ensures Component(v, k) == Component(longer, k) {
    }
    CompareMeaning(v, longer, 0);
    CompareMeaning(longer, v, 0);
    hide CompareFrom;
    if n != 0 {
      assert SameBefore(longer, v, |v|) && Component(longer, |v|) > Component(v, |v|);
    }
  }

  // ---- versions as they are written -------------------------------------

  function Texts(components: seq<nat>): (texts: seq<string>)
    ensures |texts| == |components|
  {
    if components == [] then [] else [PrintNumber(components[0], 10)] + Texts(components[1..])
  }

  lemma {:induction false} TextsParse(components: seq<nat>)
    requires forall n :: n in components ==> n <= U64_MAX
    ensures ParseComponents(Texts(components)) == Some(components)
    ensures forall text :: text in Texts(components) ==> '.' !in text
    decreases |components|
  {
    hide PrintNumber, NumberValue, AllDigits;
    if components != [] {
      assert components[0] in components && forall n :: n in components[1..] ==> n in components;
      TextsParse(components[1..]);
      PrintedValue(components[0], 10);
      NoDotInNumber(components[0]);
      assert components == [components[0]] + components[1..];
    }
  }

  lemma NoDotInNumber(n: nat)
    ensures '.' !in PrintNumber(n, 10)
  {
    PrintedDigits(n, 10);
  }

  /** Components in decimal with dots between them, after any number of `v` and the product's
      name, are read as those components. */
  lemma WrittenVersion(raw: string, bare: string, vs: string, components: seq<nat>)
    requires components != [] && forall n :: n in components ==> n <= U64_MAX
    requires Trim(raw) == bare || Trim(raw) == "saiai " + bare
    requires Trim(raw) == bare ==> !StartsWith(bare, "saiai ")
    requires (forall i :: 0 <= i < |vs| ==> vs[i] == 'v') && Trim(bare) == vs + Join(Texts(components), '.')
    ensures ParseVersion(raw) == Some(components)
  {
    hide Trim, Split, Join, ParseComponents;
    TextsParse(components);
    SplitJoin(Texts(components), '.');
    JoinedDigit(components);
    LeadingVs(vs, Join(Texts(components), '.'));
    if Trim(raw) == "saiai " + bare {
      assert Trim(raw)[..6] == "saiai " && Trim(raw)[6..] == bare;
    }
  }

  lemma JoinedDigit(components: seq<nat>)
    requires components != []
    ensures var text := Join(Texts(components), '.'); text != "" && text[0] != 'v'
  {
    var first := PrintNumber(components[0], 10);
    PrintedDigits(components[0], 10);
    hide PrintNumber;
    var text := Join(Texts(components), '.');
    assert text[0] == first[0];
  }

  lemma {:induction false} LeadingVs(vs: string, rest: string)
    requires (forall i :: 0 <= i < |vs| ==> vs[i] == 'v') && (rest == "" || rest[0] != 'v')
    ensures TrimLeading(vs + rest, 'v') == rest
    decreases |vs|
  {
    if vs == "" {
      assert vs + rest == rest;
    } else {
      assert (vs + rest)[1..] == vs[1..] + rest;
      LeadingVs(vs[1..], rest);
    }
  }

  /** A decimal number of 64 bits. */
  predicate IsComponent(part: string) {
    part != "" && AllDigits(part, 10) && NumberValue(part, 10) <= U64_MAX
  }

  /** Components parse exactly when each one is one. */
  lemma {:induction false} ComponentsParseIff(parts: seq<string>)
    ensures ParseComponents(parts).Some? <==> forall part :: part in parts ==> IsComponent(part)
    decreases |parts|
  {
    if parts != [] {
      var more := parts[1..];
      ComponentsParseIff(more);
      hide NumberValue, AllDigits;
      assert ParseComponents(parts).Some? <==> IsComponent(parts[0]) && ParseComponents(more).Some?;
      assert forall part :: part in parts <==> part == parts[0] || part in more;
    }
  }
}
