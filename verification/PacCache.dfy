/**
 The cache in front of Windows automatic configuration. Answers are kept for a
 while, errors for a shorter while, and discovery that found nothing is not
 repeated at once.
 */
module PacCache {
  import opened Text
  import opened Bypass
  import opened Policy

  const ROUTE_TTL_MS: nat := 300_000
  const ERROR_TTL_MS: nat := 30_000
  const DETECT_RETRY_MS: nat := 300_000
  const CACHE_LIMIT: nat := 1024

  datatype Key = Key(https: bool, host: string, port: nat)

  function KeyOf(t: Target): Key {
    Key(t.https, NormalizeHost(t.host), t.port)
  }

  datatype Stored = Stored(at: nat, route: Result<Route, Fault>)

  datatype Pac = Pac(entries: map<Key, Stored>, failedAt: Option<nat>)

  const NO_PAC: Pac := Pac(map[], None)

  /** `Instant::elapsed` */
  function Elapsed(at: nat, now: nat): nat {
    if now < at then 0 else now - at
  }

  function Ttl(r: Result<Route, Fault>): nat {
    if r.Ok? then ROUTE_TTL_MS else ERROR_TTL_MS
  }

  function Cached(c: Pac, key: Key, now: nat): Option<Result<Route, Fault>> {
    if key in c.entries && Elapsed(c.entries[key].at, now) < Ttl(c.entries[key].route)
    then Some(c.entries[key].route) else None
  }

  /** One question at time `now`; `outcome` is what WinHTTP answers if it is asked, by `done`. */
  datatype Query = Query(target: Target, now: nat, done: nat, outcome: PacOutcome)

  predicate Detects(c: Pac, now: nat) {
    c.failedAt.None? || Elapsed(c.failedAt.value, now) >= DETECT_RETRY_MS
  }

  function Remember(c: Pac, key: Key, at: nat, route: Result<Route, Fault>, discoveryFailed: bool): Pac {
    var kept := if |c.entries| >= CACHE_LIMIT then map[] else c.entries;
    Pac(kept[key := Stored(at, route)], if discoveryFailed then Some(at) else c.failedAt)
  }

  /** The snapshot's answer: the cache first, loopback targets direct, else an evaluation. */
  function Answer(c: Pac, p: EgressPolicy, q: Query, listen: Option<SocketAddr>, parsers: Parsers)
    : (Pac, Result<Route, Fault>)
    requires p.WindowsAuto?
  {
    var key := KeyOf(q.target);
    var cached := Cached(c, key, q.now);
    if cached.Some? then (c, cached.value)
    else if IsLoopbackTarget(q.target.host, parsers) then (c, Ok(Direct))
    else
      var (route, failed) := Evaluate(p, Detects(c, q.now), q.outcome, listen, q.target, parsers);
      (Remember(c, key, q.done, route, failed), route)
  }

  class PacState {
    var entries: map<Key, Stored>
    var failedAt: Option<nat>

    function State(): Pac
      reads this
    {
      Pac(entries, failedAt)
    }

    constructor ()
      ensures State() == NO_PAC
    {
      entries, failedAt := map[], None;
    }

    method Route(p: EgressPolicy, q: Query, listen: Option<SocketAddr>, parsers: Parsers)
      returns (r: Result<Route, Fault>)
      requires p.WindowsAuto?
      modifies this
      ensures (State(), r) == Answer(old(State()), p, q, listen, parsers)
    {
      var key := KeyOf(q.target);
      var cached := Cached(State(), key, q.now);
      if cached.Some? {
        return cached.value;
      }
      if IsLoopbackTarget(q.target.host, parsers) {
        return Ok(Direct);
      }
      var bypassed := BypassMatches(p.fallback.bypass, q.target.host, q.target.port, parsers.ip);
      if bypassed {
        r := Ok(Direct);
      } else if !(p.autoDetect && Detects(State(), q.now)) && p.configUrl.None? {
        r := StaticRoute(p.fallback, q.target, parsers);
      } else {
        var decision := PacDecision(q.outcome, p.configUrl.Some?, p.fallback, listen, q.target, parsers);
        r := decision.0;
        if decision.1 {
          failedAt := Some(q.done);
        }
      }
      if |entries| >= CACHE_LIMIT {
        entries := map[];
      }
      entries := entries[key := Stored(q.done, r)];
    }
  }

  // ---- runs -------------------------------------------------------------

  /** Answers to a list of queries, in order. */
  function Answers(c: Pac, p: EgressPolicy, queries: seq<Query>, listen: Option<SocketAddr>, parsers: Parsers)
    : (rs: seq<Result<Route, Fault>>)
    requires p.WindowsAuto?
    ensures |rs| == |queries|
    decreases |queries|
  {
    if queries == [] then []
    else
      var (next, r) := Answer(c, p, queries[0], listen, parsers);
      [r] + Answers(next, p, queries[1..], listen, parsers)
  }

  /** `r` is what evaluating query `q` gives, at a time when discovery was or was not tried. */
  ghost predicate Decided(
    p: EgressPolicy, q: Query, r: Result<Route, Fault>, listen: Option<SocketAddr>, parsers: Parsers)
    requires p.WindowsAuto?
  {
    exists detect: bool :: r == Evaluate(p, detect, q.outcome, listen, q.target, parsers).0
  }

  /** Every cached entry was decided by an earlier query for the same key. */
  ghost predicate Justified(
    c: Pac, p: EgressPolicy, past: seq<Query>, listen: Option<SocketAddr>, parsers: Parsers)
    requires p.WindowsAuto?
  {
    && |c.entries| <= 1024
    && forall key :: key in c.entries ==>
         exists i :: 0 <= i < |past| && KeyOf(past[i].target) == key && past[i].done == c.entries[key].at
                     && !IsLoopbackTarget(past[i].target.host, parsers)
                     && Decided(p, past[i], c.entries[key].route, listen, parsers)
  }

  /** An answer is direct for a loopback target, or was decided for the same key, by this
      query or by an earlier one whose answer has not outlived its time. */
  ghost predicate Sound(
    p: EgressPolicy, past: seq<Query>, q: Query, r: Result<Route, Fault>, listen: Option<SocketAddr>, parsers: Parsers)
    requires p.WindowsAuto?
  {
    || (IsLoopbackTarget(q.target.host, parsers) && r == Ok(Direct))
    || (!IsLoopbackTarget(q.target.host, parsers) && Decided(p, q, r, listen, parsers))
    || (&& !IsLoopbackTarget(q.target.host, parsers)
        && exists i :: 0 <= i < |past| && KeyOf(past[i].target) == KeyOf(q.target)
                       && Elapsed(past[i].done, q.now) < (if r.Ok? then 300_000 else 30_000)
                       && Decided(p, past[i], r, listen, parsers))
  }

  /** Targets of one scheme and port share a key exactly if their hosts have the same name. */
  lemma SameKeyIff(a: Target, b: Target)
    ensures KeyOf(a) == KeyOf(b) <==>
      a.https == b.https && a.port == b.port && NormalizeHost(a.host) == NormalizeHost(b.host)
  {
    hide NormalizeHost;
  }

  /** What is decided for a target depends on its key only. */
  lemma DecisionByKey(
    p: EgressPolicy, detect: bool, outcome: PacOutcome, a: Target, b: Target, listen: Option<SocketAddr>,
    parsers: Parsers)
    requires p.WindowsAuto? && KeyOf(a) == KeyOf(b)
    ensures Evaluate(p, detect, outcome, listen, a, parsers) == Evaluate(p, detect, outcome, listen, b, parsers)
    ensures IsLoopbackTarget(a.host, parsers) == IsLoopbackTarget(b.host, parsers)
  {
    hide EntryMatches, NormalizeHost, FirstProxy, IsListener;
  }

  lemma AnswerIsSound(
    c: Pac, p: EgressPolicy, past: seq<Query>, q: Query, listen: Option<SocketAddr>, parsers: Parsers)
    requires p.WindowsAuto? && Justified(c, p, past, listen, parsers)
    ensures var (next, r) := Answer(c, p, q, listen, parsers);
            Sound(p, past, q, r, listen, parsers) && Justified(next, p, past + [q], listen, parsers)
  {
    hide Evaluate, IsLoopbackTarget, NormalizeHost;
    var key := KeyOf(q.target);
    var (next, r) := Answer(c, p, q, listen, parsers);
    var longer := past + [q];
    forall k | k in c.entries
      ensures exists i :: 0 <= i < |longer| && KeyOf(longer[i].target) == k && longer[i].done == c.entries[k].at
                          && !IsLoopbackTarget(longer[i].target.host, parsers)
                          && Decided(p, longer[i], c.entries[k].route, listen, parsers)
    {
      var i :| 0 <= i < |past| && KeyOf(past[i].target) == k && past[i].done == c.entries[k].at
               && !IsLoopbackTarget(past[i].target.host, parsers)
               && Decided(p, past[i], c.entries[k].route, listen, parsers);
      assert longer[i] == past[i];
    }
    if Cached(c, key, q.now).Some? {
      var i :| 0 <= i < |past| && KeyOf(past[i].target) == key && past[i].done == c.entries[key].at
               && !IsLoopbackTarget(past[i].target.host, parsers)
               && Decided(p, past[i], c.entries[key].route, listen, parsers);
      DecisionByKey(p, true, q.outcome, past[i].target, q.target, listen, parsers);
    } else if !IsLoopbackTarget(q.target.host, parsers) {
      assert Decided(p, q, r, listen, parsers);
      assert longer[|past|] == q;
      RememberSize(c.entries, key, Stored(q.done, r));
    }
  }

  lemma RememberSize(entries: map<Key, Stored>, key: Key, s: Stored)
    requires |entries| <= CACHE_LIMIT
    ensures |(if |entries| >= CACHE_LIMIT then map[] else entries)[key := s]| <= CACHE_LIMIT
  {
    var kept: map<Key, Stored> := if |entries| >= CACHE_LIMIT then map[] else entries;
    assert kept[key := s].Keys == kept.Keys + {key};
  }

  /** An answer is kept: a later question for the same key gets it again, without an evaluation,
      for five minutes, or half a minute if it was an error. */
  lemma AnswerIsKept(c: Pac, p: EgressPolicy, first: Query, later: Query, listen: Option<SocketAddr>, parsers: Parsers)
    requires p.WindowsAuto? && KeyOf(first.target) == KeyOf(later.target)
    requires !IsLoopbackTarget(first.target.host, parsers) && Cached(c, KeyOf(first.target), first.now).None?
    ensures var (next, r) := Answer(c, p, first, listen, parsers);
            later.now < first.done + (if r.Ok? then 300_000 else 30_000) ==>
              Answer(next, p, later, listen, parsers) == (next, r)
  {
    hide Evaluate, IsLoopbackTarget, NormalizeHost;
  }

  /** Discovery that found nothing is remembered, and for five minutes, without a script, questions
      are answered from the static settings, whatever an evaluation would say. */
  lemma DiscoveryWaits(c: Pac, p: EgressPolicy, q: Query, listen: Option<SocketAddr>, parsers: Parsers)
    requires p.WindowsAuto? && p.autoDetect && p.configUrl.None?
    requires !IsLoopbackTarget(q.target.host, parsers) && Cached(c, KeyOf(q.target), q.now).None?
    requires !BypassMatches(p.fallback.bypass, q.target.host, q.target.port, parsers.ip)
    ensures var (next, r) := Answer(c, p, q, listen, parsers);
            var waits := c.failedAt.Some? && q.now < c.failedAt.value + 300_000;
            && (waits ==> r == StaticRoute(p.fallback, q.target, parsers) && next.failedAt == c.failedAt)
            && (!waits && q.outcome == Err(12180) ==>
                  r == StaticRoute(p.fallback, q.target, parsers) && next.failedAt == Some(q.done))
            && (!waits && q.outcome != Err(12180) ==>
                  r == PacDecision(q.outcome, false, p.fallback, listen, q.target, parsers).0
                  && next.failedAt == c.failedAt)
  {
    hide IsLoopbackTarget, NormalizeHost, BypassMatches, StaticRoute, FirstProxy;
  }

  /** In every run, every answer is one the policy can give for its target, and an answer taken
      from the cache was decided for the same key less than its time to live ago. */
  lemma {:induction false} RunIsSound(
    c: Pac, p: EgressPolicy, past: seq<Query>, queries: seq<Query>, listen: Option<SocketAddr>, parsers: Parsers)
    requires p.WindowsAuto? && Justified(c, p, past, listen, parsers)
    ensures var rs := Answers(c, p, queries, listen, parsers);
            forall i :: 0 <= i < |queries| ==>
              && Sound(p, past + queries[..i], queries[i], rs[i], listen, parsers)
              && CanRoute(p, queries[i].target, rs[i], listen, parsers)
    decreases |queries|
  {
    hide Answer, Justified, Sound, CanRoute;
    if queries != [] {
      var q := queries[0];
      var (next, r) := Answer(c, p, q, listen, parsers);
      var rs := Answers(c, p, queries, listen, parsers);
      AnswerIsSound(c, p, past, q, listen, parsers);
      SoundCanRoute(p, past, q, r, listen, parsers);
      RunIsSound(next, p, past + [q], queries[1..], listen, parsers);
      forall i | 0 <= i < |queries|
        ensures Sound(p, past + queries[..i], queries[i], rs[i], listen, parsers)
             && CanRoute(p, queries[i].target, rs[i], listen, parsers)
      {
        if i == 0 {
          assert past + queries[..0] == past;
        } else {
          assert past + [q] + queries[1..][..i - 1] == past + queries[..i];
        }
      }
    }
  }

  lemma SoundCanRoute(
    p: EgressPolicy, past: seq<Query>, q: Query, r: Result<Route, Fault>, listen: Option<SocketAddr>, parsers: Parsers)
    requires p.WindowsAuto? && Sound(p, past, q, r, listen, parsers)
    ensures CanRoute(p, q.target, r, listen, parsers)
  {
    hide Evaluate, IsLoopbackTarget, NormalizeHost;
    if !IsLoopbackTarget(q.target.host, parsers) && !Decided(p, q, r, listen, parsers) {
      var i :| 0 <= i < |past| && KeyOf(past[i].target) == KeyOf(q.target)
               && Elapsed(past[i].done, q.now) < (if r.Ok? then 300_000 else 30_000)
               && Decided(p, past[i], r, listen, parsers);
      var detect: bool :| r == Evaluate(p, detect, past[i].outcome, listen, past[i].target, parsers).0;
      DecisionByKey(p, detect, past[i].outcome, past[i].target, q.target, listen, parsers);
    }
  }
}
