/**
 Enrolling the device: who may try, how a response is understood, and the retry
 loop.
 */
module Enrollment {
  import opened Text
  import opened DeviceRecords

  const MAX_ON_DEMAND: nat := 16

  // ---- claims -----------------------------------------------------------

  /** `revoked`: the process knows this credential as revoked when it asks. */
  datatype Request = Request(gateway: string, credential: string, onDemand: bool, revoked: bool)

  datatype Claims = Claims(claimed: set<(string, string)>, onDemand: nat)

  const NO_CLAIMS: Claims := Claims({}, 0)

  function PairOf(r: Request): (string, string) {
    (r.gateway, r.credential)
  }

  function Claim(c: Claims, r: Request): (Claims, bool) {
    if (r.onDemand && r.revoked) || PairOf(r) in c.claimed || (r.onDemand && c.onDemand >= MAX_ON_DEMAND)
    then (c, false)
    else (Claims(c.claimed + {PairOf(r)}, c.onDemand + if r.onDemand then 1 else 0), true)
  }

  class EnrollmentClaims {
    var claimed: set<(string, string)>
    var onDemand: nat

    constructor ()
      ensures claimed == {} && onDemand == 0
    {
      claimed, onDemand := {}, 0;
    }

    method ClaimEnrollment(r: Request) returns (granted: bool)
      modifies this
      ensures (Claims(claimed, onDemand), granted) == Claim(old(Claims(claimed, onDemand)), r)
    {
      if r.onDemand && r.revoked {
        return false;
      }
      if PairOf(r) in claimed || (r.onDemand && onDemand >= MAX_ON_DEMAND) {
        return false;
      }
      claimed := claimed + {PairOf(r)};
      if r.onDemand {
        onDemand := onDemand + 1;
      }
      return true;
    }
  }

  /** Which of a process's requests, in order, are granted. */
  function Grants(c: Claims, requests: seq<Request>): (granted: seq<bool>)
    ensures |granted| == |requests|
    decreases |requests|
  {
    if requests == [] then []
    else var (next, ok) := Claim(c, requests[0]); [ok] + Grants(next, requests[1..])
  }

  /** Requests granted on demand. */
  function OnDemandGrants(requests: seq<Request>, granted: seq<bool>): nat
    requires |requests| == |granted|
  {
    if requests == [] then 0
    else
      var n := |requests| - 1;
      OnDemandGrants(requests[..n], granted[..n]) + if granted[n] && requests[n].onDemand then 1 else 0
  }

  predicate GrantedBefore(requests: seq<Request>, granted: seq<bool>, pair: (string, string))
    requires |requests| == |granted|
  {
    exists i :: 0 <= i < |requests| && granted[i] && PairOf(requests[i]) == pair
  }

  /** Claims after some requests are what was granted so far. */
  ghost predicate Reflects(c: Claims, requests: seq<Request>, granted: seq<bool>)
    requires |requests| == |granted|
  {
    && c.onDemand == OnDemandGrants(requests, granted) <= 16
    && forall pair :: pair in c.claimed <==> GrantedBefore(requests, granted, pair)
  }

  lemma ClaimReflects(c: Claims, requests: seq<Request>, granted: seq<bool>, r: Request)
    requires |requests| == |granted| && Reflects(c, requests, granted)
    ensures Reflects(Claim(c, r).0, requests + [r], granted + [Claim(c, r).1])
  {
    var ok := Claim(c, r).1;
    var now, grantedNow := requests + [r], granted + [ok];
    assert now[..|requests|] == requests && grantedNow[..|granted|] == granted;
    forall pair ensures GrantedBefore(now, grantedNow, pair) <==>
                        GrantedBefore(requests, granted, pair) || (ok && PairOf(r) == pair)
    {
      if GrantedBefore(requests, granted, pair) {
        var i :| 0 <= i < |requests| && granted[i] && PairOf(requests[i]) == pair;
        assert grantedNow[i] && PairOf(now[i]) == pair;
      }
      if ok && PairOf(r) == pair {
        assert grantedNow[|requests|] && PairOf(now[|requests|]) == pair;
      }
    }
  }

  /** A request is granted exactly when its pair was not granted before and, on demand, it is
      not known revoked and fewer than sixteen on-demand requests were. */
  ghost predicate FairGrant(requests: seq<Request>, granted: seq<bool>, i: nat)
    requires |requests| == |granted| && i < |requests|
  {
    granted[i] <==>
      && !GrantedBefore(requests[..i], granted[..i], PairOf(requests[i]))
      && (requests[i].onDemand ==>
            !requests[i].revoked && OnDemandGrants(requests[..i], granted[..i]) < 16)
  }

  lemma ClaimIsFair(
    c: Claims, past: seq<Request>, pastGranted: seq<bool>, r: Request, all: seq<Request>, granted: seq<bool>)
    requires |past| == |pastGranted| && Reflects(c, past, pastGranted)
    requires |all| == |granted| > |past| && all[..|past|] == past && all[|past|] == r
    requires granted[..|past|] == pastGranted && granted[|past|] == Claim(c, r).1
    ensures FairGrant(all, granted, |past|)
  {
    hide GrantedBefore, OnDemandGrants;
  }

  lemma {:induction false} GrantsAreFair(c: Claims, past: seq<Request>, pastGranted: seq<bool>, requests: seq<Request>)
    requires |past| == |pastGranted| && Reflects(c, past, pastGranted)
    ensures var all, granted := past + requests, pastGranted + Grants(c, requests);
            && (forall i :: |past| <= i < |all| ==> FairGrant(all, granted, i))
            && OnDemandGrants(all, granted) <= 16
    decreases |requests|
  {
    var all, granted := past + requests, pastGranted + Grants(c, requests);
    if requests == [] {
      assert all == past && granted == pastGranted;
    } else {
      var r, ok := requests[0], Claim(c, requests[0]).1;
      assert all == past + [r] + requests[1..];
      assert granted == pastGranted + [ok] + Grants(Claim(c, r).0, requests[1..]);
      ClaimReflects(c, past, pastGranted, r);
      ClaimIsFair(c, past, pastGranted, r, all, granted);
      hide Claim, Reflects, FairGrant, OnDemandGrants;
      GrantsAreFair(Claim(c, r).0, past + [r], pastGranted + [ok], requests[1..]);
    }
  }

  /** In every sequence of requests of one process: each pair is granted at most once, at most
      sixteen grants are on demand, and nothing else is ever denied. */
  lemma ClaimsAreFair(requests: seq<Request>)
    ensures var granted := Grants(NO_CLAIMS, requests);
            && (forall i :: 0 <= i < |requests| ==> FairGrant(requests, granted, i))
            && (forall i, j :: 0 <= i < j < |requests| && granted[i] && granted[j] ==>
                  PairOf(requests[i]) != PairOf(requests[j]))
            && OnDemandGrants(requests, granted) <= 16
  {
    var granted := Grants(NO_CLAIMS, requests);
    NothingClaimed();
    hide OnDemandGrants, Reflects, Grants, FairGrant;
    GrantsAreFair(NO_CLAIMS, [], [], requests);
    assert [] + requests == requests && [] + granted == granted;
    forall i, j | 0 <= i < j < |requests| && granted[i] && granted[j]
      ensures PairOf(requests[i]) != PairOf(requests[j])
    {
      assert FairGrant(requests, granted, j);
      GrantedOnce(requests, granted, i, j);
    }
  }

  lemma NothingClaimed()
    ensures Reflects(NO_CLAIMS, [], [])
  {
  }

  lemma GrantedOnce(requests: seq<Request>, granted: seq<bool>, i: nat, j: nat)
    requires |requests| == |granted| && i < j < |requests| && granted[i] && granted[j]
    requires FairGrant(requests, granted, j)
    ensures PairOf(requests[i]) != PairOf(requests[j])
  {
    hide OnDemandGrants;
    assert granted[..j][i] && requests[..j][i] == requests[i];
  }

  // ---- responses --------------------------------------------------------

  datatype Outcome = Enrolled(id: string) | DeviceRevoked | Stop | Retry

  /** `code` and `deviceId` are the response body's string fields, if it has them. */
  function Classify(status: nat, code: Option<string>, deviceId: Option<string>): (r: Outcome)
    ensures r.Enrolled? <==> 200 <= status < 300 && deviceId.Some? && ValidDeviceId(deviceId.value)
    ensures r.Enrolled? ==> deviceId == Some(r.id)
    ensures r.DeviceRevoked? <==> status == 403 && code == Some("client_device_revoked")
    ensures r.Retry? <==> status in {404, 408} || status / 100 == 5
  {
    if 200 <= status <= 299 then
      if deviceId.Some? && ValidDeviceId(deviceId.value) then Enrolled(deviceId.value) else Stop
    else if status == 403 && code == Some("client_device_revoked") then DeviceRevoked
    else if status == 429 then Stop
    else if status == 404 || status == 408 || 500 <= status <= 599 then Retry
    else Stop
  }

  // ---- the retry loop ---------------------------------------------------

  /** `writes` logs the records written; `finished` is false when the outcomes run out while the
      loop is still retrying. */
  datatype Report = Report(attempts: nat, waits: seq<nat>, writes: seq<Change>, finished: bool)

  function LeadingRetries(outcomes: seq<Outcome>): (n: nat)
    ensures n <= |outcomes|
    ensures forall i :: 0 <= i < n ==> outcomes[i].Retry?
    ensures n < |outcomes| ==> !outcomes[n].Retry?
  {
    if outcomes == [] || !outcomes[0].Retry? then 0 else 1 + LeadingRetries(outcomes[1..])
  }

  lemma LeadingRetriesIs(outcomes: seq<Outcome>, n: nat)
    requires n <= |outcomes| && forall i :: 0 <= i < n ==> outcomes[i].Retry?
    requires n == |outcomes| || !outcomes[n].Retry?
    ensures LeadingRetries(outcomes) == n
  {
  }

  /** The wait after retry `i` is the schedule's, the last delay repeating. */
  predicate WaitsAre(waits: seq<nat>, backoff: seq<nat>)
    requires backoff != [] || waits == []
  {
    forall i :: 0 <= i < |waits| ==> waits[i] == if i < |backoff| then backoff[i] else backoff[|backoff| - 1]
  }

  /** A credential already known as revoked is not tried. Otherwise every leading retry is
      followed by its wait and one more attempt, the first other outcome ends the loop with at
      most one record written, and without any delay there is a single attempt. */
  method Enroll(knownRevoked: bool, outcomes: seq<Outcome>, backoff: seq<nat>) returns (r: Report)
    ensures knownRevoked ==> r == Report(0, [], [], true)
    ensures !knownRevoked && backoff == [] && outcomes != [] ==> r.attempts == 1 && r.waits == [] && r.finished
    ensures !knownRevoked && backoff != [] ==>
      var n := LeadingRetries(outcomes);
      && |r.waits| == n && WaitsAre(r.waits, backoff)
      && r.finished == (n < |outcomes|) && r.attempts == if r.finished then n + 1 else n
    ensures !knownRevoked && r.finished && outcomes != [] ==>
      && r.attempts > 0 && r.attempts <= |outcomes|
      && var last := outcomes[r.attempts - 1];
         && (last.Enrolled? ==> r.writes == [Record(last.id)])
         && (last.DeviceRevoked? ==> r.writes == [Revoke])
         && (last.Stop? || last.Retry? ==> r.writes == [])
    ensures !r.finished ==> r.writes == []
    ensures |r.writes| <= 1
  {
    if knownRevoked {
      return Report(0, [], [], true);
    }
    var attempt: nat := 0;
    var waits: seq<nat> := [];
    var writes: seq<Change> := [];
    while attempt < |outcomes|
      invariant attempt <= |outcomes| && |waits| == attempt
      invariant attempt > 0 ==> backoff != []
      invariant (forall i :: 0 <= i < attempt ==> outcomes[i].Retry?) && WaitsAre(waits, backoff)
      invariant writes == []
    {
      match outcomes[attempt] {
        case Enrolled(id) =>
          writes := writes + [Record(id)];
          LeadingRetriesIs(outcomes, attempt);
          return Report(attempt + 1, waits, writes, true);
        case DeviceRevoked =>
          writes := writes + [Revoke];
          LeadingRetriesIs(outcomes, attempt);
          return Report(attempt + 1, waits, writes, true);
        case Stop =>
          LeadingRetriesIs(outcomes, attempt);
          return Report(attempt + 1, waits, writes, true);
        case Retry =>
          if attempt < |backoff| {
            waits := waits + [backoff[attempt]];
          } else if backoff != [] {
            waits := waits + [backoff[|backoff| - 1]];
          } else {
            return Report(attempt + 1, waits, writes, true);
          }
      }
      attempt := attempt + 1;
    }
    LeadingRetriesIs(outcomes, attempt);
    return Report(attempt, waits, writes, false);
  }
}
