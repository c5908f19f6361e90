/**
 What the compiled policy answers in the modes that no environment variable or
 static setting decides: a configured proxy, a configured direct connection, a
 configuration that cannot be used, no settings at all, and automatic
 configuration.
 */
module PolicyModes {
  import opened Text
  import opened Network
  import opened Bypass
  import opened Policy
  import opened PolicySafety

  // ---- configured modes -------------------------------------------------

  /** This machine is `localhost`, any name below it, and the loopback addresses. */
  lemma LoopbackTargetIs(host: string, parsers: Parsers)
    ensures var name := NormalizeHost(host);
            IsLoopbackTarget(host, parsers) <==>
              || name == "localhost" || Within(name, "localhost")
              || (parsers.ip(name).Some? &&
                  var ip := parsers.ip(name).value;
                  InNetwork(ip, Loopback4(), 8) || ip == Loopback6() || InNetwork(ip, LoopbackMapped(), 104))
  {
    var name := NormalizeHost(host);
    SuffixIsWithin(name, "localhost");
    hide NormalizeHost, Within, InNetwork, IsLoopback, Canonical, Loopback4, Loopback6, LoopbackMapped;
    assert "." + "localhost" == ".localhost";
    if parsers.ip(name).Some? {
      LoopbackIs(parsers.ip(name).value);
    }
  }

  /** Requests to this machine are never proxied, in any mode. */
  lemma LoopbackRoute(inputs: Inputs, t: Target, r: Result<Route, Fault>, listen: Option<SocketAddr>, parsers: Parsers)
    requires IsLoopbackTarget(t.host, parsers)
    ensures CanRoute(PolicyFromInputs(inputs, listen, parsers), t, r, listen, parsers) <==> r == Ok(Direct)
  {
    hide PolicyFromInputs, IsLoopbackTarget;
  }

  lemma NothingBypassed(host: string, port: nat, parsers: Parsers)
    ensures !BypassMatches(EMPTY, host, port, parsers.ip)
  {
    hide EntryMatches, NormalizeHost;
  }

  /** A configured proxy is used for every target, whatever the environment and the system say,
      unless it is this program itself; nothing is bypassed. */
  lemma ConfiguredRoute(
    e: Endpoint, env: EnvProxies, os: OsProxy, t: Target, r: Result<Route, Fault>, listen: Option<SocketAddr>,
    parsers: Parsers)
    requires !IsLoopbackTarget(t.host, parsers)
    ensures CanRoute(PolicyFromInputs(Inputs(Ok(Fixed(e)), env, os), listen, parsers), t, r, listen, parsers)
       <==> r == if IsListener(e, listen, parsers) then Err(OwnListener) else Ok(Proxy(e))
  {
    hide IsListener, IsLoopbackTarget, BypassMatches;
    NothingBypassed(t.host, t.port, parsers);
  }

  /** A configured direct connection is direct, and a configuration that cannot be used is an
      error, for every target and whatever else is set. */
  lemma OtherModesRoute(
    mode: Result<Mode, Fault>, env: EnvProxies, os: OsProxy, t: Target, r: Result<Route, Fault>,
    listen: Option<SocketAddr>, parsers: Parsers)
    requires mode.Err? || mode.value.DirectMode?
    requires !IsLoopbackTarget(t.host, parsers)
    ensures CanRoute(PolicyFromInputs(Inputs(mode, env, os), listen, parsers), t, r, listen, parsers)
       <==> r == if mode.Err? then Err(mode.error) else Ok(Direct)
  {
    hide IsLoopbackTarget;
  }

  lemma NoEnvironment(env: EnvProxies, os: OsProxy, listen: Option<SocketAddr>, parsers: Parsers)
    requires !EnvironmentDecides(env, listen, parsers)
    ensures PolicyFromInputs(Inputs(Ok(System), env, os), listen, parsers) == OsPolicy(os, listen, parsers)
  {
    hide IsListener, ParseEntries, OsPolicy, SchemeEnv;
    SchemeEnvIs(env, true, listen, parsers);
    SchemeEnvIs(env, false, listen, parsers);
    assert !Unsupported(env, true, listen, parsers) && Usable(env, true, listen, parsers).None?;
    assert !Unsupported(env, false, listen, parsers) && Usable(env, false, listen, parsers).None?;
    hide Unsupported, Usable;
  }

  /** Without an environment proxy, a system that has no proxy settings is direct, and one whose
      settings cannot be read is an error, never direct. */
  lemma NoSettingsRoute(
    env: EnvProxies, os: OsProxy, t: Target, r: Result<Route, Fault>, listen: Option<SocketAddr>, parsers: Parsers)
    requires os.NoOsProxy? || os.Unreadable?
    requires !EnvironmentDecides(env, listen, parsers) && !IsLoopbackTarget(t.host, parsers)
    ensures CanRoute(PolicyFromInputs(Inputs(Ok(System), env, os), listen, parsers), t, r, listen, parsers)
       <==> r == if os.NoOsProxy? then Ok(Direct) else Err(UnreadableSettings)
  {
    hide IsLoopbackTarget, PolicyFromInputs, EnvironmentDecides;
    NoEnvironment(env, os, listen, parsers);
  }

  // ---- automatic configuration ------------------------------------------

  /** What one entry of a proxy list offers: the proxy it names, with or without a scheme before
      an equals sign, but not a SOCKS proxy. */
  ghost predicate Offers(entry: string, e: Endpoint, parsers: Parsers) {
    var text := Trim(entry);
    && text != ""
    && (('=' !in text && parsers.endpoint(text) == Some(e))
        || exists k :: 0 <= k < |text| && text[k] == '=' && '=' !in text[..k]
                       && Lower(text[..k]) != "socks" && parsers.endpoint(text[k + 1..]) == Some(e))
  }

  lemma EntryOffers(entry: string, e: Endpoint, parsers: Parsers)
    ensures EntryProxy(entry, parsers) == Some(e) <==> Offers(entry, e, parsers)
  {
    hide Trim, Lower;
    var text := Trim(entry);
    var k := Find(text, {'='});
    if k < |text| {
      assert text[k] == '=' && '=' !in text[..k];
    } else {
      assert '=' !in text;
    }
    forall j | 0 <= j < |text| && text[j] == '=' && '=' !in text[..j] ensures j == k {
      FindIs(text, {'='}, j);
    }
  }

  ghost predicate FirstOffer(entries: seq<string>, i: nat, e: Endpoint, parsers: Parsers) {
    i < |entries| && Offers(entries[i], e, parsers) && forall j, x :: 0 <= j < i ==> !Offers(entries[j], x, parsers)
  }

  /** The proxy taken from a list is the one of the first entry that offers any. */
  lemma {:induction false} FirstProxyIs(entries: seq<string>, e: Endpoint, parsers: Parsers)
    ensures FirstProxy(entries, parsers) == Some(e) <==> exists i: nat :: FirstOffer(entries, i, e, parsers)
    decreases |entries|
  {
    hide EntryProxy, Offers;
    if entries != [] {
      forall x ensures EntryProxy(entries[0], parsers) == Some(x) <==> Offers(entries[0], x, parsers) {
        EntryOffers(entries[0], x, parsers);
      }
      var more := entries[1..];
      FirstProxyIs(more, e, parsers);
      if EntryProxy(entries[0], parsers).Some? {
        var head, x := entries[0], EntryProxy(entries[0], parsers).value;
        assert Offers(head, x, parsers);
        assert FirstOffer(entries, 0, x, parsers);
        forall i: nat | FirstOffer(entries, i, e, parsers) ensures e == x {
          assert i > 0 ==> !Offers(head, x, parsers);
        }
      } else {
        forall i: nat ensures FirstOffer(more, i, e, parsers) <==> FirstOffer(entries, i + 1, e, parsers) {
          ShiftOffer(entries, i, e, parsers);
        }
        if i: nat :| FirstOffer(entries, i, e, parsers) {
          var k: nat := i - 1;
          assert FirstOffer(more, k, e, parsers);
        }
      }
    }
  }

  lemma ShiftOffer(entries: seq<string>, i: nat, e: Endpoint, parsers: Parsers)
    requires entries != [] && forall x :: !Offers(entries[0], x, parsers)
    ensures FirstOffer(entries[1..], i, e, parsers) <==> FirstOffer(entries, i + 1, e, parsers)
  {
    hide Offers;
    var more := entries[1..];
    if FirstOffer(more, i, e, parsers) {
      forall j, x | 0 <= j < i + 1 ensures !Offers(entries[j], x, parsers) {
        assert j > 0 ==> entries[j] == more[j - 1];
      }
    }
    if FirstOffer(entries, i + 1, e, parsers) {
      forall j, x | 0 <= j < i ensures !Offers(more[j], x, parsers) {
        assert more[j] == entries[j + 1];
      }
    }
  }

  function ScriptSays(outcome: PacOutcome, listen: Option<SocketAddr>, parsers: Parsers): Result<Route, Fault> {
    if outcome.Err? then Err(PacFailed(outcome.error))
    else if outcome.value.None? then Ok(Direct)
    else
      var first := FirstProxy(Split(outcome.value.value, {';', ' '}), parsers);
      if first.None? then Err(PacNoProxy)
      else if IsListener(first.value, listen, parsers) then Err(PacOwnListener)
      else Ok(Proxy(first.value))
  }

  lemma EvaluateIs(
    p: EgressPolicy, detect: bool, outcome: PacOutcome, t: Target, listen: Option<SocketAddr>, parsers: Parsers)
    requires p.WindowsAuto?
    ensures Evaluate(p, detect, outcome, listen, t, parsers).0
         == if BypassMatches(p.fallback.bypass, t.host, t.port, parsers.ip) then Ok(Direct)
            else if p.configUrl.None? && (!(p.autoDetect && detect) || outcome == Err(12180)) then
              if Chosen(p.fallback, t.https).Some? then Ok(Proxy(Chosen(p.fallback, t.https).value))
              else if ChosenError(p.fallback, t.https).Some? then Err(ChosenError(p.fallback, t.https).value)
              else Ok(Direct)
            else ScriptSays(outcome, listen, parsers)
  {
    hide IsListener, BypassMatches, FirstProxy;
  }

  /** Automatic configuration in full. Malformed or SOCKS-only static settings make it an error;
      otherwise the bypass list comes first, then, without a script, the static settings if
      discovery is not tried or finds nothing (error 12180), and in every other case what the
      script says: direct, the first proxy of its list, or an error. */
  lemma WindowsAutoRoute(
    env: EnvProxies, auto: bool, url: Option<string>, proxy: Option<string>, bypass: Option<string>,
    t: Target, detect: bool, outcome: PacOutcome, listen: Option<SocketAddr>, parsers: Parsers)
    requires auto || url.Some?
    requires !EnvironmentDecides(env, listen, parsers)
    ensures var inputs := Inputs(Ok(System), env, Windows(auto, url, proxy, bypass));
      var compiled := PolicyFromInputs(inputs, listen, parsers);
      var entries := WindowsEntries(proxy);
      var own := WindowsUsable(entries, t.https, listen, parsers);
      var other := WindowsUsable(entries, !t.https, listen, parsers);
      var socksOnly := NamesSocks(entries) && own.None? && other.None?;
      && (!AllParse(entries, parsers) ==> compiled == Unavailable(BadWindowsProxy))
      && (AllParse(entries, parsers) && socksOnly ==> compiled == Unavailable(SocksOnly))
      && (AllParse(entries, parsers) && !socksOnly ==>
            compiled.WindowsAuto? && (Evaluate(compiled, detect, outcome, listen, t, parsers).0 ==
              if BypassMatches(OverrideList(bypass, parsers), t.host, t.port, parsers.ip) then Ok(Direct)
              else if url.None? && (!(auto && detect) || outcome == Err(12180)) then
                if own.Some? then Ok(Proxy(own.value)) else if NamesSocks(entries) then Err(SocksOnly) else Ok(Direct)
              else ScriptSays(outcome, listen, parsers)))
  {
    NoEnvironment(env, Windows(auto, url, proxy, bypass), listen, parsers);
    hide IsListener, BypassMatches, ParseEntries, AddEntries, AllParse, NamesSocks, FirstProxy, PolicyFromInputs,
         EnvironmentDecides, Evaluate, ScriptSays;
    var compiled := PolicyFromInputs(Inputs(Ok(System), env, Windows(auto, url, proxy, bypass)), listen, parsers);
    if compiled.WindowsAuto? {
      EvaluateIs(compiled, detect, outcome, t, listen, parsers);
    }
    SlotsAre(NO_SLOTS, WindowsEntries(proxy), listen, parsers);
    hide FirstUsable;
  }
}
