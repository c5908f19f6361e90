/**
 Bypass lists: which destinations skip the user's proxy.
 */
module Bypass {
  import opened Text
  import opened Network
  import Glob

  datatype Rule =
    | All
    | SimpleHostnames
    | Wildcard(pattern: string)
    | Domain(name: string)
    | InRange(range: Range)

  /** `port`: an entry written `host:port` covers that port only. */
  datatype Entry = Entry(rule: Rule, port: Option<nat>)

  /** `subdomains`: `example.com` also covers what is below it. */
  datatype BypassList = BypassList(rules: seq<Entry>, subdomains: bool)

  const EMPTY: BypassList := BypassList([], false)

  function NormalizeHost(host: string): string {
    Lower(TrimTrailing(TrimTrailing(TrimLeading(Trim(host), '['), ']'), '.'))
  }

  // ---- reading a list ---------------------------------------------------

  function StripScheme(entry: string): string {
    if StartsWith(entry, "http://") then entry[7..]
    else if StartsWith(entry, "https://") then entry[8..]
    else entry
  }

  /** `host:port`, `[v6]:port`, `[v6]`; bare IPv6 literals and ranges keep their colons.
      `None` for a malformed port. */
  function SplitEntryPort(entry: string): Option<(string, Option<nat>)> {
    if StartsWith(entry, "[") then
      match SplitOnce(entry[1..], ']')
      case None => None
      case Some((host, tail)) =>
        if tail == "" then Some((host, None))
        else if tail[0] != ':' then None
        else WithPort(host, tail[1..])
    else
      match SplitOnce(entry, ':')
      case Some((host, port)) => if ':' in port then Some((entry, None)) else WithPort(host, port)
      case None => Some((entry, None))
  }

  function WithPort(host: string, text: string): Option<(string, Option<nat>)> {
    match ParseUnsigned(text, 10, 65535)
    case None => None
    case Some(port) => Some((host, Some(port)))
  }

  function ParseRule(entry: string, parseIp: string -> Option<Ip>): Rule {
    if entry == "*" then All
    else if Lower(entry) == "<local>" then SimpleHostnames
    else if ParseNetwork(entry, parseIp).Some? then InRange(ParseNetwork(entry, parseIp).value)
    else if '*' in entry then Wildcard(Lower(entry))
    else Domain(NormalizeHost(entry))
  }

  function ParseEntry(text: string, parseIp: string -> Option<Ip>): Option<Entry> {
    var entry := StripScheme(Trim(text));
    if entry == "" then None
    else
      match SplitEntryPort(entry)
      case None => None
      case Some((host, port)) => Some(Entry(ParseRule(host, parseIp), port))
  }

  function ParseEntries(texts: seq<string>, parseIp: string -> Option<Ip>): (rules: seq<Entry>)
    ensures forall e :: e in rules && e.rule.InRange? ==> GoodRange(e.rule.range)
  {
    if texts == [] then []
    else (match ParseEntry(texts[0], parseIp) case None => [] case Some(e) => [e]) + ParseEntries(texts[1..], parseIp)
  }

  // ---- matching ---------------------------------------------------------

  predicate EntryMatches(e: Entry, subdomains: bool, host: string, ip: Option<Ip>, port: nat) {
    && (e.port.None? || e.port.value == port)
    && match e.rule
       case All => true
       case SimpleHostnames => ip.None? && '.' !in host
       case Wildcard(pattern) => Glob.GlobMatches(pattern, host)
       case Domain(name) =>
         var bare := TrimLeading(name, '.');
         host == bare || ((subdomains || StartsWith(name, ".")) && EndsWith(host, "." + bare))
       case InRange(range) => ip.Some? && GoodRange(range) && InNetwork(ip.value, range.network, range.prefix)
  }

  predicate BypassMatches(list: BypassList, host: string, port: nat, parseIp: string -> Option<Ip>) {
    var name := NormalizeHost(host);
    exists e :: e in list.rules && EntryMatches(e, list.subdomains, name, parseIp(name), port)
  }

  // ---- what a list covers -----------------------------------------------

  function Labels(host: string): seq<string> {
    Split(host, {'.'})
  }

  /** `host` is `zone` itself or has labels of its own in front of the zone's. */
  predicate Within(host: string, zone: string) {
    var h, z := Labels(host), Labels(zone);
    |h| > |z| && h[|h| - |z|..] == z
  }

  /** Ending with `"." + zone` is having the zone's labels last and more in front: a name
      that merely ends with the same letters is not covered. */
  lemma SuffixIsWithin(host: string, zone: string)
    ensures EndsWith(host, "." + zone) <==> Within(host, zone)
  {
    hide Split, Join, Find;
    if EndsWith(host, "." + zone) {
      var front := host[..|host| - |zone| - 1];
      assert host == front + "." + zone;
      SplitAppend(front, zone, '.');
    }
    if Within(host, zone) {
      var h, z := Labels(host), Labels(zone);
      var front := h[..|h| - |z|];
      assert h == front + z;
      JoinSplit(host, '.');
      JoinSplit(zone, '.');
      JoinAppend(front, z, '.');
      assert host == Join(front, '.') + ("." + zone);
    }
  }

  /** An entry's meaning, stated without the matcher, the mask and the suffix test. */
  ghost predicate Covers(e: Entry, subdomains: bool, host: string, ip: Option<Ip>, port: nat) {
    && (e.port.None? || e.port.value == port)
    && match e.rule
       case All => true
       case SimpleHostnames => ip.None? && |Labels(host)| == 1
       case Wildcard(pattern) => Glob.Matches(pattern, host)
       case Domain(name) =>
         var bare := TrimLeading(name, '.');
         host == bare || ((subdomains || StartsWith(name, ".")) && Within(host, bare))
       case InRange(range) =>
         && ip.Some? && GoodRange(range) && ip.value.V4? == range.network.V4?
         && ip.value.bits / Pow2(range.network.Width() - range.prefix)
            == range.network.bits / Pow2(range.network.Width() - range.prefix)
  }

  lemma OneLabel(host: string)
    ensures |Labels(host)| == 1 <==> '.' !in host
  {
    var i := Find(host, {'.'});
    if i < |host| {
      assert host[i] in host;
    }
  }

  lemma EntryMeaning(e: Entry, subdomains: bool, host: string, ip: Option<Ip>, port: nat)
    requires '*' !in host
    ensures EntryMatches(e, subdomains, host, ip, port) <==> Covers(e, subdomains, host, ip, port)
  {
    match e.rule
    case All =>
    case SimpleHostnames => OneLabel(host);
    case Wildcard(pattern) => Glob.GlobIsCorrect(pattern, host);
    case Domain(name) => SuffixIsWithin(host, TrimLeading(name, '.'));
    case InRange(range) =>
      if ip.Some? && GoodRange(range) {
        InNetworkMeaning(ip.value, range.network, range.prefix);
      }
  }

  /** A list matches exactly the destinations one of its entries covers. */
  lemma BypassMeaning(list: BypassList, host: string, port: nat, parseIp: string -> Option<Ip>)
    requires '*' !in NormalizeHost(host)
    ensures var name := NormalizeHost(host);
            BypassMatches(list, host, port, parseIp)
            <==> exists e :: e in list.rules && Covers(e, list.subdomains, name, parseIp(name), port)
  {
    hide EntryMatches, Covers, NormalizeHost;
    var name := NormalizeHost(host);
    forall e | e in list.rules
      ensures EntryMatches(e, list.subdomains, name, parseIp(name), port)
         <==> Covers(e, list.subdomains, name, parseIp(name), port)
    {
      EntryMeaning(e, list.subdomains, name, parseIp(name), port);
    }
  }
}
