/**
 The egress policy: from the configured mode, the environment and the operating
 system's settings to a route for each destination.
 */
module Policy {
  import opened Text
  import opened Network
  import opened Bypass

  datatype Endpoint = Endpoint(host: string, port: nat, username: string, password: Option<string>)

  /** Parsing that belongs to libraries: `Endpoint::parse` and `str::parse::<IpAddr>`. */
  datatype Parsers = Parsers(endpoint: string -> Option<Endpoint>, ip: string -> Option<Ip>)

  datatype SocketAddr = SocketAddr(ip: Ip, port: nat)

  datatype Route = Direct | Proxy(endpoint: Endpoint)

  datatype Fault =
    | InvalidMode
    | OwnListener
    | BadEnvironmentProxy
    | UnreadableSettings
    | BadWindowsProxy
    | SocksOnly
    | BadMacProxy
    | PacOwnListener
    | PacNoProxy
    | PacFailed(code: nat)
    | NotResolved

  predicate IsListener(e: Endpoint, listen: Option<SocketAddr>, parsers: Parsers) {
    && listen.Some?
    && e.port == listen.value.port
    && var host := NormalizeHost(e.host);
       || host == "localhost"
       || EndsWith(host, ".localhost")
       || (parsers.ip(host).Some? &&
           var ip := Canonical(parsers.ip(host).value);
           IsLoopback(ip) || IsUnspecified(ip) || ip == listen.value.ip)
  }

  predicate IsLoopbackTarget(host: string, parsers: Parsers) {
    var name := NormalizeHost(host);
    || name == "localhost"
    || EndsWith(name, ".localhost")
    || (parsers.ip(name).Some? && IsLoopback(Canonical(parsers.ip(name).value)))
  }

  // ---- fixed tables -----------------------------------------------------

  datatype StaticProxies = StaticProxies(
    http: Option<Endpoint>, https: Option<Endpoint>,
    httpError: Option<Fault>, httpsError: Option<Fault>, bypass: BypassList)

  datatype Target = Target(https: bool, host: string, port: nat)

  function Chosen(proxies: StaticProxies, https: bool): Option<Endpoint> {
    if https then proxies.https else proxies.http
  }

  function ChosenError(proxies: StaticProxies, https: bool): Option<Fault> {
    if https then proxies.httpsError else proxies.httpError
  }

  function StaticRoute(proxies: StaticProxies, t: Target, parsers: Parsers): Result<Route, Fault> {
    if BypassMatches(proxies.bypass, t.host, t.port, parsers.ip) then Ok(Direct)
    else if Chosen(proxies, t.https).Some? then Ok(Proxy(Chosen(proxies, t.https).value))
    else if ChosenError(proxies, t.https).Some? then Err(ChosenError(proxies, t.https).value)
    else Ok(Direct)
  }

  datatype EgressPolicy =
    | AlwaysDirect
    | Static(proxies: StaticProxies)
    | WindowsAuto(autoDetect: bool, configUrl: Option<string>, fallback: StaticProxies)
    | Unavailable(fault: Fault)

  // ---- inputs -----------------------------------------------------------

  datatype Mode = System | DirectMode | Fixed(endpoint: Endpoint)

  /** Values of the proxy variables that are set and not blank. */
  datatype EnvProxies = EnvProxies(
    https: Option<string>, http: Option<string>, all: Option<string>, noProxy: Option<string>)

  datatype OsProxy =
    | NoOsProxy
    | Windows(autoDetect: bool, configUrl: Option<string>, proxy: Option<string>, bypass: Option<string>)
    | MacOs(scutil: string)
    | Unreadable

  datatype Inputs = Inputs(mode: Result<Mode, Fault>, env: EnvProxies, os: OsProxy)

  // ---- environment ------------------------------------------------------

  /** One variable: unset and pointing at this listener both count as absent. */
  function ParseEnv(entry: Option<string>, listen: Option<SocketAddr>, parsers: Parsers)
    : Result<Option<Endpoint>, Fault>
  {
    match entry
    case None => Ok(None)
    case Some(text) =>
      match parsers.endpoint(text)
      case None => Err(BadEnvironmentProxy)
      case Some(e) => Ok(if IsListener(e, listen, parsers) then None else Some(e))
  }

  /** A scheme's own variable, else `ALL_PROXY`. */
  function SchemeEnv(own: Option<string>, all: Option<string>, listen: Option<SocketAddr>, parsers: Parsers)
    : Result<Option<Endpoint>, Fault>
  {
    match ParseEnv(own, listen, parsers)
    case Err(f) => Err(f)
    case Ok(Some(e)) => Ok(Some(e))
    case Ok(None) => ParseEnv(all, listen, parsers)
  }

  function ErrorOf<T>(r: Result<T, Fault>): Option<Fault> {
    if r.Err? then Some(r.error) else None
  }

  function Flatten(r: Result<Option<Endpoint>, Fault>): Option<Endpoint> {
    if r.Ok? then r.value else None
  }

  function SystemPolicy(env: EnvProxies, os: OsProxy, listen: Option<SocketAddr>, parsers: Parsers): EgressPolicy {
    var https := SchemeEnv(env.https, env.all, listen, parsers);
    var http := SchemeEnv(env.http, env.all, listen, parsers);
    if https.Err? && http.Err? then Unavailable(https.error)
    else if https == Ok(None) && http == Ok(None) then OsPolicy(os, listen, parsers)
    else
      var noProxy := if env.noProxy.Some? then env.noProxy.value else "";
      Static(StaticProxies(Flatten(http), Flatten(https), ErrorOf(http), ErrorOf(https),
                           BypassList(ParseEntries(Split(noProxy, {','}), parsers.ip), true)))
  }

  function OsPolicy(os: OsProxy, listen: Option<SocketAddr>, parsers: Parsers): EgressPolicy {
    match os
    case NoOsProxy => AlwaysDirect
    case Unreadable => Unavailable(UnreadableSettings)
    case Windows(autoDetect, configUrl, proxy, bypass) =>
      (match WindowsProxies(proxy, bypass, listen, parsers)
       case Err(f) => Unavailable(f)
       case Ok(fallback) =>
         if autoDetect || configUrl.Some? then WindowsAuto(autoDetect, configUrl, fallback) else Static(fallback))
    case MacOs(scutil) => MacPolicy(scutil, listen, parsers)
  }

  function PolicyFromInputs(inputs: Inputs, listen: Option<SocketAddr>, parsers: Parsers): EgressPolicy {
    match inputs.mode
    case Err(f) => Unavailable(f)
    case Ok(DirectMode) => AlwaysDirect
    case Ok(Fixed(e)) =>
      if IsListener(e, listen, parsers) then Unavailable(OwnListener)
      else Static(StaticProxies(Some(e), Some(e), None, None, EMPTY))
    case Ok(System) => SystemPolicy(inputs.env, inputs.os, listen, parsers)
  }

  // ---- Windows ----------------------------------------------------------

  datatype Slots = Slots(all: Option<Endpoint>, http: Option<Endpoint>, https: Option<Endpoint>, socks: bool)

  const NO_SLOTS: Slots := Slots(None, None, None, false)

  const PROXY_SEPARATORS: set<char> := {';', ' ', '\t', '\r', '\n'}

  /** Keeps the first usable endpoint of a slot. */
  function Keep(slot: Option<Endpoint>, e: Endpoint, listen: Option<SocketAddr>, parsers: Parsers): Option<Endpoint> {
    if !IsListener(e, listen, parsers) && slot.None? then Some(e) else slot
  }

  function AddEntry(s: Slots, entry: string, listen: Option<SocketAddr>, parsers: Parsers): Result<Slots, Fault> {
    var split := SplitOnce(entry, '=');
    var scheme := if split.Some? then Some(Lower(Trim(split.value.0))) else None;
    var value := if split.Some? then split.value.1 else entry;
    if Trim(entry) == "" then Ok(s)
    else if scheme == Some("socks") then Ok(s.(socks := true))
    else if scheme.Some? && scheme.value != "http" && scheme.value != "https" then Ok(s)
    else
      match parsers.endpoint(value)
      case None => Err(BadWindowsProxy)
      case Some(e) =>
        if scheme.None? then Ok(s.(all := Keep(s.all, e, listen, parsers)))
        else if scheme.value == "http" then Ok(s.(http := Keep(s.http, e, listen, parsers)))
        else Ok(s.(https := Keep(s.https, e, listen, parsers)))
  }

  function AddEntries(s: Slots, entries: seq<string>, listen: Option<SocketAddr>, parsers: Parsers)
    : Result<Slots, Fault>
    decreases |entries|
  {
    if entries == [] then Ok(s)
    else
      match AddEntry(s, entries[0], listen, parsers)
      case Err(f) => Err(f)
      case Ok(next) => AddEntries(next, entries[1..], listen, parsers)
  }

  function Or(a: Option<Endpoint>, b: Option<Endpoint>): Option<Endpoint> {
    if a.Some? then a else b
  }

  function SocksError(socks: bool, endpoint: Option<Endpoint>): Option<Fault> {
    if socks && endpoint.None? then Some(SocksOnly) else None
  }

  function FromSlots(s: Slots, bypass: Option<string>, parsers: Parsers): Result<StaticProxies, Fault> {
    var https, http := Or(s.https, s.all), Or(s.http, s.all);
    if s.socks && https.None? && http.None? then Err(SocksOnly)
    else
      var text := if bypass.Some? then bypass.value else "";
      Ok(StaticProxies(http, https, SocksError(s.socks, http), SocksError(s.socks, https),
                       BypassList(ParseEntries(Split(text, {';', ' '}), parsers.ip), false)))
  }

  function WindowsSlots(proxy: Option<string>, listen: Option<SocketAddr>, parsers: Parsers): Result<Slots, Fault> {
    AddEntries(NO_SLOTS, Split(if proxy.Some? then proxy.value else "", PROXY_SEPARATORS), listen, parsers)
  }

  function WindowsProxies(proxy: Option<string>, bypass: Option<string>, listen: Option<SocketAddr>, parsers: Parsers)
    : Result<StaticProxies, Fault>
  {
    match WindowsSlots(proxy, listen, parsers)
    case Err(f) => Err(f)
    case Ok(s) => FromSlots(s, bypass, parsers)
  }

  /** The loop over `ProxyServer` entries, filling the slots as it goes. */
  method ReadWindowsProxies(proxy: Option<string>, bypass: Option<string>, listen: Option<SocketAddr>, parsers: Parsers)
    returns (r: Result<StaticProxies, Fault>)
    ensures r == WindowsProxies(proxy, bypass, listen, parsers)
  {
    hide FromSlots, IsListener, Split, SplitOnce, Lower, Trim;
    var entries := Split(if proxy.Some? then proxy.value else "", PROXY_SEPARATORS);
    var all: Option<Endpoint>, http: Option<Endpoint>, https: Option<Endpoint>, socks := None, None, None, false;
    var i := 0;
    assert entries[0..] == entries;
    while i < |entries|
      invariant i <= |entries|
      invariant AddEntries(NO_SLOTS, entries, listen, parsers)
             == AddEntries(Slots(all, http, https, socks), entries[i..], listen, parsers)
    {
      var entry := entries[i];
      assert entries[i..][1..] == entries[i + 1..];
      i := i + 1;
      if Trim(entry) == "" {
        continue;
      }
      var split := SplitOnce(entry, '=');
      var value := entry;
      if split.Some? {
        value := split.value.1;
        var scheme := Lower(Trim(split.value.0));
        if scheme == "socks" {
          socks := true;
          continue;
        }
        if scheme != "http" && scheme != "https" {
          continue;
        }
      }
      var endpoint := parsers.endpoint(value);
      if endpoint.None? {
        return Err(BadWindowsProxy);
      }
      if split.None? {
        all := Keep(all, endpoint.value, listen, parsers);
      } else if Lower(Trim(split.value.0)) == "http" {
        http := Keep(http, endpoint.value, listen, parsers);
      } else {
        https := Keep(https, endpoint.value, listen, parsers);
      }
    }
    r := FromSlots(Slots(all, http, https, socks), bypass, parsers);
  }

  // ---- macOS ------------------------------------------------------------

  const ARROW: string := " : "

  /** `split_once(" : ")` */
  function SplitArrow(line: string): Option<(string, string)> {
    if |line| < 3 then None
    else if line[..3] == ARROW then Some(("", line[3..]))
    else
      match SplitArrow(line[1..])
      case None => None
      case Some((key, value)) => Some(([line[0]] + key, value))
  }

  datatype Scutil = Scutil(values: map<string, string>, exceptions: seq<string>, inExceptions: bool)

  const NO_SCUTIL: Scutil := Scutil(map[], [], false)

  function AddLine(s: Scutil, rawLine: string): Scutil {
    var line := Trim(rawLine);
    var split := SplitArrow(line);
    if s.inExceptions then
      if line == "}" then s.(inExceptions := false)
      else if split.Some? then s.(exceptions := s.exceptions + [Trim(split.value.1)])
      else s
    else if split.None? then s
    else if split.value.0 == "ExceptionsList" then s.(inExceptions := StartsWith(Trim(split.value.1), "<array>"))
    else s.(values := s.values[Trim(split.value.0) := Trim(split.value.1)])
  }

  function AddLines(s: Scutil, lines: seq<string>): Scutil
    decreases |lines|
  {
    if lines == [] then s else AddLines(AddLine(s, lines[0]), lines[1..])
  }

  /** Lines are trimmed, so splitting at line feeds alone loses nothing. */
  function ReadScutil(scutil: string): Scutil {
    AddLines(NO_SCUTIL, Split(scutil, {'\n'}))
  }

  method ParseScutil(scutil: string) returns (r: Scutil)
    ensures r == ReadScutil(scutil)
  {
    hide Trim, SplitArrow, Split;
    var lines := Split(scutil, {'\n'});
    var values: map<string, string>, exceptions: seq<string>, inExceptions := map[], [], false;
    var i := 0;
    assert lines[0..] == lines;
    while i < |lines|
      invariant i <= |lines|
      invariant ReadScutil(scutil) == AddLines(Scutil(values, exceptions, inExceptions), lines[i..])
    {
      assert lines[i..][1..] == lines[i + 1..];
      var line := Trim(lines[i]);
      var split := SplitArrow(line);
      i := i + 1;
      if inExceptions {
        if line == "}" {
          inExceptions := false;
        } else if split.Some? {
          exceptions := exceptions + [Trim(split.value.1)];
        }
        continue;
      }
      if split.Some? {
        if split.value.0 == "ExceptionsList" {
          inExceptions := StartsWith(Trim(split.value.1), "<array>");
        } else {
          values := values[Trim(split.value.0) := Trim(split.value.1)];
        }
      }
    }
    return Scutil(values, exceptions, inExceptions);
  }

  predicate Enabled(values: map<string, string>, key: string) {
    key in values && values[key] == "1"
  }

  function HostPort(host: string, port: nat): string {
    if ':' in host then "[" + host + "]:" + PrintNumber(port, 10) else host + ":" + PrintNumber(port, 10)
  }

  function MacEndpoint(values: map<string, string>, prefix: string, listen: Option<SocketAddr>, parsers: Parsers)
    : Result<Option<Endpoint>, Fault>
  {
    var hostKey, portKey := prefix + "Proxy", prefix + "Port";
    if !Enabled(values, prefix + "Enable") then Ok(None)
    else if hostKey !in values || values[hostKey] == "" then Err(BadMacProxy)
    else
      var parsed := if portKey in values then ParseUnsigned(values[portKey], 10, 65535) else Some(80);
      match parsers.endpoint(HostPort(values[hostKey], if parsed.Some? then parsed.value else 80))
      case None => Err(BadMacProxy)
      case Some(e) => Ok(if IsListener(e, listen, parsers) then None else Some(e))
  }

  function MacPolicy(scutil: string, listen: Option<SocketAddr>, parsers: Parsers): EgressPolicy {
    var s := ReadScutil(scutil);
    if Enabled(s.values, "ProxyAutoConfigEnable") || Enabled(s.values, "ProxyAutoDiscoveryEnable") then AlwaysDirect
    else
      var https := MacEndpoint(s.values, "HTTPS", listen, parsers);
      var http := MacEndpoint(s.values, "HTTP", listen, parsers);
      if https.Err? then Unavailable(https.error)
      else if http.Err? then Unavailable(http.error)
      else if https.value.None? && http.value.None? then
        if Enabled(s.values, "SOCKSEnable") then Unavailable(SocksOnly) else AlwaysDirect
      else
        var simple := if Enabled(s.values, "ExcludeSimpleHostnames") then [Entry(SimpleHostnames, None)] else [];
        Static(StaticProxies(http.value, https.value, None, None,
                             BypassList(ParseEntries(s.exceptions, parsers.ip) + simple, true)))
  }

  // ---- Windows automatic configuration ----------------------------------

  const AUTODETECTION_FAILED: nat := 12180

  /** What WinHTTP answers: a proxy list, no proxy, or an error code. */
  type PacOutcome = Result<Option<string>, nat>

  function EntryProxy(rawEntry: string, parsers: Parsers): Option<Endpoint> {
    var entry := Trim(rawEntry);
    var split := SplitOnce(entry, '=');
    if entry == "" then None
    else if split.None? then parsers.endpoint(entry)
    else if Lower(split.value.0) == "socks" then None
    else parsers.endpoint(split.value.1)
  }

  /** First usable `host:port` of a proxy list. */
  function FirstProxy(entries: seq<string>, parsers: Parsers): Option<Endpoint> {
    if entries == [] then None
    else
      var found := EntryProxy(entries[0], parsers);
      if found.Some? then found else FirstProxy(entries[1..], parsers)
  }

  /** The route, and whether discovery found no configuration at all. */
  function PacDecision(
    outcome: PacOutcome, hasScript: bool, fallback: StaticProxies, listen: Option<SocketAddr>, t: Target,
    parsers: Parsers): (Result<Route, Fault>, bool)
  {
    match outcome
    case Ok(None) => (Ok(Direct), false)
    case Ok(Some(list)) =>
      (match FirstProxy(Split(list, {';', ' '}), parsers)
       case None => (Err(PacNoProxy), false)
       case Some(e) => (if IsListener(e, listen, parsers) then Err(PacOwnListener) else Ok(Proxy(e)), false))
    case Err(code) =>
      if code == AUTODETECTION_FAILED && !hasScript then (StaticRoute(fallback, t, parsers), true)
      else (Err(PacFailed(code)), false)
  }

  /** Evaluation of automatic configuration, once the cache has no answer. `detect` tells
      whether discovery is still worth trying. */
  function Evaluate(
    p: EgressPolicy, detect: bool, outcome: PacOutcome, listen: Option<SocketAddr>, t: Target, parsers: Parsers)
    : (Result<Route, Fault>, bool)
    requires p.WindowsAuto?
  {
    if BypassMatches(p.fallback.bypass, t.host, t.port, parsers.ip) then (Ok(Direct), false)
    else if !(p.autoDetect && detect) && p.configUrl.None? then (StaticRoute(p.fallback, t, parsers), false)
    else PacDecision(outcome, p.configUrl.Some?, p.fallback, listen, t, parsers)
  }

  // ---- routes -----------------------------------------------------------

  /** Everything a policy can answer for a target: what automatic configuration says, and
      whether discovery is tried, are up to the environment. */
  ghost predicate CanRoute(
    p: EgressPolicy, t: Target, r: Result<Route, Fault>, listen: Option<SocketAddr>, parsers: Parsers)
  {
    if IsLoopbackTarget(t.host, parsers) then r == Ok(Direct)
    else match p
         case AlwaysDirect => r == Ok(Direct)
         case Static(proxies) => r == StaticRoute(proxies, t, parsers)
         case Unavailable(f) => r == Err(f)
         case WindowsAuto(_, _, _) =>
           exists detect, outcome :: r == Evaluate(p, detect, outcome, listen, t, parsers).0
  }
}
