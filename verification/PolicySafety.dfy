/**
 Safety of the compiled policy: it never routes to this listener, and a proxy that
 is configured but unusable fails instead of going direct.
 */
module PolicySafety {
  import opened Text
  import opened Network
  import opened Bypass
  import opened Policy

  // ---- no route back to the listener ------------------------------------

  predicate Avoids(e: Option<Endpoint>, listen: Option<SocketAddr>, parsers: Parsers) {
    e.Some? ==> !IsListener(e.value, listen, parsers)
  }

  predicate TableAvoids(p: StaticProxies, listen: Option<SocketAddr>, parsers: Parsers) {
    Avoids(p.http, listen, parsers) && Avoids(p.https, listen, parsers)
  }

  predicate SlotsAvoid(s: Slots, listen: Option<SocketAddr>, parsers: Parsers) {
    Avoids(s.all, listen, parsers) && Avoids(s.http, listen, parsers) && Avoids(s.https, listen, parsers)
  }

  predicate PolicyAvoids(p: EgressPolicy, listen: Option<SocketAddr>, parsers: Parsers) {
    && (p.Static? ==> TableAvoids(p.proxies, listen, parsers))
    && (p.WindowsAuto? ==> TableAvoids(p.fallback, listen, parsers))
  }

  predicate RouteAvoids(r: Result<Route, Fault>, listen: Option<SocketAddr>, parsers: Parsers) {
    r.Ok? && r.value.Proxy? ==> !IsListener(r.value.endpoint, listen, parsers)
  }

  lemma EntryAvoids(s: Slots, entry: string, listen: Option<SocketAddr>, parsers: Parsers)
    requires SlotsAvoid(s, listen, parsers)
    ensures var r := AddEntry(s, entry, listen, parsers); r.Ok? ==> SlotsAvoid(r.value, listen, parsers)
  {
    hide IsListener, Trim, SplitOnce, Lower;
  }

  lemma {:induction false} WindowsAvoids(s: Slots, entries: seq<string>, listen: Option<SocketAddr>, parsers: Parsers)
    requires SlotsAvoid(s, listen, parsers)
    ensures var r := AddEntries(s, entries, listen, parsers); r.Ok? ==> SlotsAvoid(r.value, listen, parsers)
    decreases |entries|
  {
    hide SlotsAvoid, AddEntry;
    if entries != [] {
      EntryAvoids(s, entries[0], listen, parsers);
      var next := AddEntry(s, entries[0], listen, parsers);
      if next.Ok? {
        WindowsAvoids(next.value, entries[1..], listen, parsers);
      }
    }
  }

  lemma WindowsPolicyAvoids(os: OsProxy, listen: Option<SocketAddr>, parsers: Parsers)
    requires os.Windows?
    ensures PolicyAvoids(OsPolicy(os, listen, parsers), listen, parsers)
  {
    hide IsListener, AddEntries, ParseEntries, Split;
    WindowsAvoids(NO_SLOTS, Split(if os.proxy.Some? then os.proxy.value else "", PROXY_SEPARATORS), listen, parsers);
  }

  lemma MacEndpointAvoids(values: map<string, string>, prefix: string, listen: Option<SocketAddr>, parsers: Parsers)
    ensures var r := MacEndpoint(values, prefix, listen, parsers); r.Ok? ==> Avoids(r.value, listen, parsers)
  {
    hide IsListener, Enabled;
  }

  lemma MacPolicyAvoids(scutil: string, listen: Option<SocketAddr>, parsers: Parsers)
    ensures PolicyAvoids(MacPolicy(scutil, listen, parsers), listen, parsers)
  {
    hide IsListener, ReadScutil, MacEndpoint, ParseEntries, Enabled, Avoids;
    MacEndpointAvoids(ReadScutil(scutil).values, "HTTPS", listen, parsers);
    MacEndpointAvoids(ReadScutil(scutil).values, "HTTP", listen, parsers);
  }

  lemma SchemeAvoids(own: Option<string>, all: Option<string>, listen: Option<SocketAddr>, parsers: Parsers)
    ensures var r := SchemeEnv(own, all, listen, parsers); r.Ok? ==> Avoids(r.value, listen, parsers)
  {
    hide IsListener;
  }

  lemma SystemPolicyAvoids(env: EnvProxies, os: OsProxy, listen: Option<SocketAddr>, parsers: Parsers)
    ensures PolicyAvoids(SystemPolicy(env, os, listen, parsers), listen, parsers)
  {
    SchemeAvoids(env.https, env.all, listen, parsers);
    SchemeAvoids(env.http, env.all, listen, parsers);
    if os.Windows? {
      WindowsPolicyAvoids(os, listen, parsers);
    }
    if os.MacOs? {
      MacPolicyAvoids(os.scutil, listen, parsers);
    }
    hide IsListener, SchemeEnv, MacPolicy, WindowsProxies, ParseEntries, Split;
  }

  lemma CompiledPolicyAvoids(inputs: Inputs, listen: Option<SocketAddr>, parsers: Parsers)
    ensures PolicyAvoids(PolicyFromInputs(inputs, listen, parsers), listen, parsers)
  {
    SystemPolicyAvoids(inputs.env, inputs.os, listen, parsers);
    hide IsListener, SystemPolicy;
  }

  lemma RoutesAvoid(p: EgressPolicy, t: Target, r: Result<Route, Fault>, listen: Option<SocketAddr>, parsers: Parsers)
    requires PolicyAvoids(p, listen, parsers) && CanRoute(p, t, r, listen, parsers)
    ensures RouteAvoids(r, listen, parsers)
  {
    hide IsListener, BypassMatches, IsLoopbackTarget, FirstProxy;
    if p.WindowsAuto? && !IsLoopbackTarget(t.host, parsers) {
      var detect, outcome :| r == Evaluate(p, detect, outcome, listen, t, parsers).0;
    }
  }

  /** Whatever the mode, the environment, the system's settings and automatic configuration
      say, no route leads to a proxy recognised as this listener. */
  lemma NoRouteToListener(
    inputs: Inputs, t: Target, r: Result<Route, Fault>, listen: Option<SocketAddr>, parsers: Parsers)
    requires CanRoute(PolicyFromInputs(inputs, listen, parsers), t, r, listen, parsers)
    ensures RouteAvoids(r, listen, parsers)
  {
    hide PolicyFromInputs, CanRoute, PolicyAvoids, RouteAvoids;
    CompiledPolicyAvoids(inputs, listen, parsers);
    RoutesAvoid(PolicyFromInputs(inputs, listen, parsers), t, r, listen, parsers);
  }

  /** This program listens on loopback addresses only. Then a proxy at its port is recognised
      exactly when its host is one that requests are never proxied for, or is unspecified. */
  lemma LoopbackListenerIsRecognised(e: Endpoint, listen: SocketAddr, parsers: Parsers)
    requires IsLoopback(listen.ip)
    ensures var host := NormalizeHost(e.host);
            IsListener(e, Some(listen), parsers) <==>
              && e.port == listen.port
              && (IsLoopbackTarget(e.host, parsers)
                  || (parsers.ip(host).Some? && IsUnspecified(Canonical(parsers.ip(host).value))))
    ensures e.port == listen.port && parsers.ip(NormalizeHost(e.host)) == Some(listen.ip) ==>
      IsListener(e, Some(listen), parsers)
  {
    hide NormalizeHost;
  }

  // ---- environment proxies ----------------------------------------------

  predicate PointsHere(text: string, listen: Option<SocketAddr>, parsers: Parsers) {
    parsers.endpoint(text).Some? && IsListener(parsers.endpoint(text).value, listen, parsers)
  }

  /** The variable that decides a scheme: its own unless unset or pointing at this listener. */
  function Effective(own: Option<string>, all: Option<string>, listen: Option<SocketAddr>, parsers: Parsers)
    : Option<string>
  {
    if own.Some? && !PointsHere(own.value, listen, parsers) then own else all
  }

  function EffectiveFor(env: EnvProxies, https: bool, listen: Option<SocketAddr>, parsers: Parsers): Option<string> {
    Effective(if https then env.https else env.http, env.all, listen, parsers)
  }

  predicate Unsupported(env: EnvProxies, https: bool, listen: Option<SocketAddr>, parsers: Parsers) {
    var text := EffectiveFor(env, https, listen, parsers);
    text.Some? && parsers.endpoint(text.value).None?
  }

  function Usable(env: EnvProxies, https: bool, listen: Option<SocketAddr>, parsers: Parsers): Option<Endpoint> {
    var text := EffectiveFor(env, https, listen, parsers);
    if text.None? || PointsHere(text.value, listen, parsers) then None else parsers.endpoint(text.value)
  }

  /** The environment decides: some scheme has a proxy, usable or not. */
  predicate EnvironmentDecides(env: EnvProxies, listen: Option<SocketAddr>, parsers: Parsers) {
    exists https :: Unsupported(env, https, listen, parsers) || Usable(env, https, listen, parsers).Some?
  }

  function NoProxyList(env: EnvProxies, parsers: Parsers): BypassList {
    BypassList(ParseEntries(Split(if env.noProxy.Some? then env.noProxy.value else "", {','}), parsers.ip), true)
  }

  lemma SchemeEnvIs(env: EnvProxies, https: bool, listen: Option<SocketAddr>, parsers: Parsers)
    ensures SchemeEnv(if https then env.https else env.http, env.all, listen, parsers)
         == if Unsupported(env, https, listen, parsers) then Err(BadEnvironmentProxy)
            else Ok(Usable(env, https, listen, parsers))
  {
    hide IsListener;
  }

  /** With an environment proxy in play, every route is settled by the destination's own scheme:
      an unsupported proxy is an error and never direct, a usable one is used, and the other
      scheme's fate matters only when both are unsupported. */
  lemma EnvironmentRoute(
    env: EnvProxies, os: OsProxy, t: Target, r: Result<Route, Fault>, listen: Option<SocketAddr>, parsers: Parsers)
    requires EnvironmentDecides(env, listen, parsers)
    requires !IsLoopbackTarget(t.host, parsers)
    ensures CanRoute(PolicyFromInputs(Inputs(Ok(System), env, os), listen, parsers), t, r, listen, parsers) <==> (r ==
      var bypassed := BypassMatches(NoProxyList(env, parsers), t.host, t.port, parsers.ip);
      if Unsupported(env, t.https, listen, parsers) && (Unsupported(env, !t.https, listen, parsers) || !bypassed)
      then Err(BadEnvironmentProxy)
      else if bypassed || Usable(env, t.https, listen, parsers).None? then Ok(Direct)
      else Ok(Proxy(Usable(env, t.https, listen, parsers).value)))
  {
    hide IsListener, IsLoopbackTarget, BypassMatches, ParseEntries, OsPolicy, SchemeEnv;
    SchemeEnvIs(env, true, listen, parsers);
    SchemeEnvIs(env, false, listen, parsers);
    var decided :| Unsupported(env, decided, listen, parsers) || Usable(env, decided, listen, parsers).Some?;
    hide Unsupported, Usable;
  }

  // ---- Windows proxies --------------------------------------------------

  /** What a `ProxyServer` entry is for: a scheme, or every scheme. */
  function Tag(entry: string): Option<string> {
    var split := SplitOnce(entry, '=');
    if split.Some? then Some(Lower(Trim(split.value.0))) else None
  }

  function ValueOf(entry: string): string {
    var split := SplitOnce(entry, '=');
    if split.Some? then split.value.1 else entry
  }

  predicate Relevant(entry: string) {
    Trim(entry) != "" && (Tag(entry) == None || Tag(entry) == Some("http") || Tag(entry) == Some("https"))
  }

  predicate AllParse(entries: seq<string>, parsers: Parsers) {
    forall entry :: entry in entries && Relevant(entry) ==> parsers.endpoint(ValueOf(entry)).Some?
  }

  /** The first entry with this tag whose proxy is not this listener. */
  function FirstUsable(entries: seq<string>, tag: Option<string>, listen: Option<SocketAddr>, parsers: Parsers)
    : Option<Endpoint>
  {
    if entries == [] then None
    else
      var e := parsers.endpoint(ValueOf(entries[0]));
      if Relevant(entries[0]) && Tag(entries[0]) == tag && e.Some? && !IsListener(e.value, listen, parsers) then e
      else FirstUsable(entries[1..], tag, listen, parsers)
  }

  predicate NamesSocks(entries: seq<string>) {
    exists entry :: entry in entries && Trim(entry) != "" && Tag(entry) == Some("socks")
  }

  lemma AddEntryIs(s: Slots, entry: string, listen: Option<SocketAddr>, parsers: Parsers)
    ensures var e := parsers.endpoint(ValueOf(entry));
            AddEntry(s, entry, listen, parsers)
            == if !Relevant(entry) then
                 Ok(s.(socks := s.socks || (Trim(entry) != "" && Tag(entry) == Some("socks"))))
               else if e.None? then Err(BadWindowsProxy)
               else if Tag(entry).None? then Ok(s.(all := Keep(s.all, e.value, listen, parsers)))
               else if Tag(entry) == Some("http") then Ok(s.(http := Keep(s.http, e.value, listen, parsers)))
               else Ok(s.(https := Keep(s.https, e.value, listen, parsers)))
  {
    hide Trim, SplitOnce, Lower, Keep;
    assert "socks" != "http" && "socks" != "https";
  }

  lemma {:induction false} SlotsAre(s: Slots, entries: seq<string>, listen: Option<SocketAddr>, parsers: Parsers)
    ensures AddEntries(s, entries, listen, parsers)
         == if !AllParse(entries, parsers) then Err(BadWindowsProxy)
            else Ok(Slots(Or(s.all, FirstUsable(entries, None, listen, parsers)),
                          Or(s.http, FirstUsable(entries, Some("http"), listen, parsers)),
                          Or(s.https, FirstUsable(entries, Some("https"), listen, parsers)),
                          s.socks || NamesSocks(entries)))
    decreases |entries|
  {
    hide IsListener, Trim, Tag, ValueOf, AddEntry, Relevant;
    if entries != [] {
      var entry, rest := entries[0], entries[1..];
      AddEntryIs(s, entry, listen, parsers);
      RelevantTag(entry);
      assert AllParse(entries, parsers) <==>
        (Relevant(entry) ==> parsers.endpoint(ValueOf(entry)).Some?) && AllParse(rest, parsers) by {
        assert entries == [entry] + rest;
      }
      assert NamesSocks(entries) <==> (Trim(entry) != "" && Tag(entry) == Some("socks")) || NamesSocks(rest) by {
        assert entries == [entry] + rest;
      }
      var next := AddEntry(s, entry, listen, parsers);
      if next.Ok? {
        SlotsAre(next.value, rest, listen, parsers);
      }
    }
  }

  lemma RelevantTag(entry: string)
    ensures Relevant(entry) ==> Tag(entry) == None || Tag(entry) == Some("http") || Tag(entry) == Some("https")
    ensures Relevant(entry) ==> Tag(entry) != Some("socks") && Trim(entry) != ""
    ensures "http" != "https"
  {
    assert "socks" != "http" && "socks" != "https";
  }

  function WindowsEntries(proxy: Option<string>): seq<string> {
    Split(if proxy.Some? then proxy.value else "", PROXY_SEPARATORS)
  }

  function OverrideList(bypass: Option<string>, parsers: Parsers): BypassList {
    BypassList(ParseEntries(Split(if bypass.Some? then bypass.value else "", {';', ' '}), parsers.ip), false)
  }

  function WindowsUsable(entries: seq<string>, https: bool, listen: Option<SocketAddr>, parsers: Parsers)
    : Option<Endpoint>
  {
    Or(FirstUsable(entries, Some(if https then "https" else "http"), listen, parsers),
       FirstUsable(entries, None, listen, parsers))
  }

  /** Windows settings without automatic configuration. `socks=` serves every scheme without an
      entry of its own, and is an error there: never direct unless the target is bypassed, and
      not even then when no scheme has a usable proxy. */
  lemma WindowsRoute(
    env: EnvProxies, proxy: Option<string>, bypass: Option<string>, t: Target, r: Result<Route, Fault>,
    listen: Option<SocketAddr>, parsers: Parsers)
    requires !EnvironmentDecides(env, listen, parsers)
    requires !IsLoopbackTarget(t.host, parsers)
    ensures var inputs := Inputs(Ok(System), env, Windows(false, None, proxy, bypass));
      var compiled := PolicyFromInputs(inputs, listen, parsers);
      CanRoute(compiled, t, r, listen, parsers) <==> (r ==
      var entries := WindowsEntries(proxy);
      var own := WindowsUsable(entries, t.https, listen, parsers);
      var other := WindowsUsable(entries, !t.https, listen, parsers);
      if !AllParse(entries, parsers) then Err(BadWindowsProxy)
      else if NamesSocks(entries) && own.None? && other.None? then Err(SocksOnly)
      else if BypassMatches(OverrideList(bypass, parsers), t.host, t.port, parsers.ip) then Ok(Direct)
      else if own.Some? then Ok(Proxy(own.value))
      else if NamesSocks(entries) then Err(SocksOnly)
      else Ok(Direct))
  {
    hide IsListener, IsLoopbackTarget, BypassMatches, ParseEntries, SchemeEnv, AddEntries, AllParse, NamesSocks;
    SchemeEnvIs(env, true, listen, parsers);
    SchemeEnvIs(env, false, listen, parsers);
    assert !Unsupported(env, true, listen, parsers) && Usable(env, true, listen, parsers).None?;
    assert !Unsupported(env, false, listen, parsers) && Usable(env, false, listen, parsers).None?;
    SlotsAre(NO_SLOTS, WindowsEntries(proxy), listen, parsers);
    hide Unsupported, Usable, FirstUsable;
  }

  // ---- automatic configuration ------------------------------------------

  /** Going direct under automatic configuration takes the bypass list, a script that says so,
      or discovery without a script having nothing to offer and static settings that say so. */
  lemma PacDirect(
    p: EgressPolicy, t: Target, detect: bool, outcome: PacOutcome, listen: Option<SocketAddr>, parsers: Parsers)
    requires p.WindowsAuto?
    ensures Evaluate(p, detect, outcome, listen, t, parsers).0 == Ok(Direct) <==>
      || BypassMatches(p.fallback.bypass, t.host, t.port, parsers.ip)
      || ((p.configUrl.Some? || (p.autoDetect && detect)) && outcome == Ok(None))
      || (&& p.configUrl.None?
          && (p.autoDetect && detect ==> outcome == Err(AUTODETECTION_FAILED))
          && Chosen(p.fallback, t.https).None? && ChosenError(p.fallback, t.https).None?)
  {
    hide IsListener, BypassMatches, FirstProxy;
  }

  // ---- macOS ------------------------------------------------------------

  predicate MacAutomatic(values: map<string, string>) {
    Enabled(values, "ProxyAutoConfigEnable") || Enabled(values, "ProxyAutoDiscoveryEnable")
  }

  function MacOwn(values: map<string, string>, https: bool, listen: Option<SocketAddr>, parsers: Parsers)
    : Result<Option<Endpoint>, Fault>
  {
    MacEndpoint(values, if https then "HTTPS" else "HTTP", listen, parsers)
  }

  function MacBypass(s: Scutil, parsers: Parsers): BypassList {
    var simple := if Enabled(s.values, "ExcludeSimpleHostnames") then [Entry(SimpleHostnames, None)] else [];
    BypassList(ParseEntries(s.exceptions, parsers.ip) + simple, true)
  }

  /** The one answer each destination can get from macOS settings, whatever they are. */
  lemma MacRoute(
    env: EnvProxies, scutil: string, t: Target, r: Result<Route, Fault>, listen: Option<SocketAddr>, parsers: Parsers)
    requires !EnvironmentDecides(env, listen, parsers)
    requires !IsLoopbackTarget(t.host, parsers)
    ensures var compiled := PolicyFromInputs(Inputs(Ok(System), env, MacOs(scutil)), listen, parsers);
      CanRoute(compiled, t, r, listen, parsers) <==> (r ==
      var s := ReadScutil(scutil);
      var own, other := MacOwn(s.values, t.https, listen, parsers), MacOwn(s.values, !t.https, listen, parsers);
      if MacAutomatic(s.values) then Ok(Direct)
      else if own.Err? || other.Err? then Err(BadMacProxy)
      else if own.value.None? && other.value.None? && Enabled(s.values, "SOCKSEnable") then Err(SocksOnly)
      else if own.value.None? || BypassMatches(MacBypass(s, parsers), t.host, t.port, parsers.ip) then Ok(Direct)
      else Ok(Proxy(own.value.value)))
  {
    MacFault(ReadScutil(scutil).values, "HTTPS", listen, parsers);
    MacFault(ReadScutil(scutil).values, "HTTP", listen, parsers);
    hide IsListener, IsLoopbackTarget, BypassMatches, ParseEntries, SchemeEnv, ReadScutil, MacEndpoint, Enabled;
    SchemeEnvIs(env, true, listen, parsers);
    SchemeEnvIs(env, false, listen, parsers);
    assert !Unsupported(env, true, listen, parsers) && Usable(env, true, listen, parsers).None?;
    assert !Unsupported(env, false, listen, parsers) && Usable(env, false, listen, parsers).None?;
    hide Unsupported, Usable;
  }

  lemma MacFault(values: map<string, string>, prefix: string, listen: Option<SocketAddr>, parsers: Parsers)
    ensures MacEndpoint(values, prefix, listen, parsers).Err? ==>
      MacEndpoint(values, prefix, listen, parsers) == Err(BadMacProxy)
  {
    hide IsListener, Enabled, HostPort, ParseUnsigned;
  }

  /** macOS settings with a SOCKS proxy are not always fail-closed: a scheme without a usable HTTP
      proxy of its own gets an error exactly when automatic configuration is off and its own
      proxy is malformed or the other scheme's is missing or malformed. Otherwise it goes direct. */
  lemma MacSocksRoute(
    env: EnvProxies, scutil: string, t: Target, r: Result<Route, Fault>, listen: Option<SocketAddr>, parsers: Parsers)
    requires !EnvironmentDecides(env, listen, parsers)
    requires !IsLoopbackTarget(t.host, parsers)
    requires Enabled(ReadScutil(scutil).values, "SOCKSEnable")
    requires CanRoute(PolicyFromInputs(Inputs(Ok(System), env, MacOs(scutil)), listen, parsers), t, r, listen, parsers)
    ensures var values := ReadScutil(scutil).values;
            var own, other := MacOwn(values, t.https, listen, parsers), MacOwn(values, !t.https, listen, parsers);
            (own.Err? || own.value.None?) ==>
              && (r.Err? <==> !MacAutomatic(values) && (own.Err? || other.Err? || other.value.None?))
              && (r.Ok? ==> r.value == Direct)
  {
    hide PolicyFromInputs, CanRoute, IsLoopbackTarget, BypassMatches, MacOwn, MacAutomatic, EnvironmentDecides;
    MacRoute(env, scutil, t, r, listen, parsers);
  }
}
