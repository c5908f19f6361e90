/**
 Refreshing the shared daemon after initialization: when it may be replaced, with
 which command, and what a success says about the daemon left running.
 */
module DaemonRefresh {
  import opened Text
  import opened Versions

  /** Versions the daemon reports; older releases omit some. `managed` is the package a plain
      restart would launch. */
  datatype Reported = Reported(cli: Option<string>, appServer: Option<string>, managed: Option<string>)

  datatype Running = Running(managed: bool, versions: Reported, loadedThreads: nat, signedIn: bool)

  /** An inspection fails, finds no daemon, or describes one. */
  datatype Inspection = InspectionFailed | NoDaemon | Found(daemon: Running)

  datatype Phase = DuringRestart | UpdateUnconfirmed | UpdateApplied

  datatype Outcome =
    | Absent
    | Deferred(stale: bool)
    | NewerRunning(version: string)
    | Restarted
    | Updated(from: Option<string>, to: string)
    | Failed(phase: Phase)

  datatype Call = Inspect | Restart | UpdateFromCli

  // ---- version decisions ------------------------------------------------

  function Launched(v: Reported, update: bool): Option<string> {
    if update then v.cli else if v.managed.Some? then v.managed else v.appServer
  }

  predicate RestartLaunchesOlderThanCli(v: Reported) {
    Order(Launched(v, false), v.cli) == Some(Less)
  }

  predicate WouldDowngrade(v: Reported) {
    v.appServer.Some? && Order(Launched(v, RestartLaunchesOlderThanCli(v)), v.appServer) == Some(Less)
  }

  function Present(v: Option<string>): seq<string> {
    if v.Some? then [v.value] else []
  }

  function Floors(v: Reported): seq<string> {
    Parseable(Present(v.cli) + Present(v.appServer))
  }

  function Parseable(vs: seq<string>): seq<string> {
    if vs == [] then []
    else (if Order(Some(vs[0]), Some(vs[0])).Some? then [vs[0]] else []) + Parseable(vs[1..])
  }

  predicate RunsAtLeast(v: Reported, floor: string) {
    var o := Order(v.appServer, Some(floor));
    o.Some? && o.value != Less
  }

  // ---- the control ------------------------------------------------------

  /** A daemon control that answers as it likes and logs what it is asked to do. */
  class DaemonControl {
    const first: Inspection
    const second: Inspection
    const confirms: bool
    var log: seq<Call>

    constructor (first: Inspection, second: Inspection, confirms: bool)
      ensures this.first == first && this.second == second && this.confirms == confirms && log == []
    {
      this.first, this.second, this.confirms, log := first, second, confirms, [];
    }

    method InspectDaemon() returns (r: Inspection)
      modifies this
      ensures r == (if Inspect in old(log) then second else first) && log == old(log) + [Inspect]
    {
      r := if Inspect in log then second else first;
      log := log + [Inspect];
    }

    method Command(call: Call) returns (ok: bool)
      modifies this
      ensures ok == confirms && log == old(log) + [call]
    {
      ok := confirms;
      log := log + [call];
    }
  }

  /** Versions, threads and management all allow replacing this daemon. */
  predicate Replaceable(i: Inspection) {
    i.Found? && !WouldDowngrade(i.daemon.versions) && i.daemon.loadedThreads == 0 && i.daemon.managed
  }

  /** The daemon found afterwards answers for a success. */
  predicate Verified(before: Reported, after: Inspection) {
    && after.Found? && after.daemon.signedIn
    && (forall v :: v in {before.cli, before.appServer} && Order(v, v).Some? ==>
          AtLeast(after.daemon.versions.appServer, v))
  }

  function Replacement(v: Reported): Call {
    if RestartLaunchesOlderThanCli(v) then UpdateFromCli else Restart
  }

  predicate Succeeded(o: Outcome) {
    o.Restarted? || o.Updated?
  }

  // ---- the decision, over what is reported -------------------------------

  predicate Older(a: Option<string>, b: Option<string>) {
    Order(a, b) == Some(Less)
  }

  /** What a plain restart would launch, the managed package or the running version if none is
      reported, is known to be older than `than`. */
  predicate RestartIsOlder(v: Reported, than: Option<string>) {
    || (v.managed.Some? && Older(v.managed, than))
    || (v.managed.None? && Older(v.appServer, than))
  }

  /** The daemon found is managed, has no loaded threads, and neither a plain restart would fall
      behind the CLI nor behind what runs. */
  predicate RestartsPlainly(i: Inspection) {
    && i.Found? && i.daemon.managed && i.daemon.loadedThreads == 0
    && !RestartIsOlder(i.daemon.versions, i.daemon.versions.cli)
    && !RestartIsOlder(i.daemon.versions, i.daemon.versions.appServer)
  }

  /** The same, but a plain restart would fall behind the CLI, and the CLI's package would not
      fall behind what runs. */
  predicate UpdatesFromCli(i: Inspection) {
    && i.Found? && i.daemon.managed && i.daemon.loadedThreads == 0
    && RestartIsOlder(i.daemon.versions, i.daemon.versions.cli)
    && !Older(i.daemon.versions.cli, i.daemon.versions.appServer)
  }

  /** Whatever would be launched is known to be older than what runs. */
  predicate RunsNewer(i: Inspection) {
    && i.Found?
    && if RestartIsOlder(i.daemon.versions, i.daemon.versions.cli)
       then Older(i.daemon.versions.cli, i.daemon.versions.appServer)
       else RestartIsOlder(i.daemon.versions, i.daemon.versions.appServer)
  }

  lemma DecisionIs(i: Inspection)
    requires i.Found?
    ensures Replaceable(i) && Replacement(i.daemon.versions).Restart? <==> RestartsPlainly(i)
    ensures Replaceable(i) && Replacement(i.daemon.versions).UpdateFromCli? <==> UpdatesFromCli(i)
    ensures WouldDowngrade(i.daemon.versions) <==> RunsNewer(i)
    ensures Replacement(i.daemon.versions) in {Restart, UpdateFromCli}
  {
    hide ParseVersion, CompareFrom;
  }

  /** At most one replacing command runs, and which one is fixed by what the first inspection
      reports. A confirmed command is followed by one more inspection, and success means that the
      daemon left running is signed in and not older than the CLI or than the daemon before, as
      far as those can be compared. */
  method Refresh(control: DaemonControl) returns (outcome: Outcome)
    requires control.log == []
    modifies control
    ensures !RestartsPlainly(control.first) && !UpdatesFromCli(control.first) ==> control.log == [Inspect]
    ensures RestartsPlainly(control.first) ==>
      control.log == [Inspect, Restart] + if control.confirms then [Inspect] else []
    ensures UpdatesFromCli(control.first) ==>
      control.log == [Inspect, UpdateFromCli] + if control.confirms then [Inspect] else []
    ensures Succeeded(outcome) <==>
      && (RestartsPlainly(control.first) || UpdatesFromCli(control.first)) && control.confirms
      && control.second.Found? && control.second.daemon.signedIn
      && var before, after := control.first.daemon.versions, control.second.daemon.versions;
         && (Order(before.cli, before.cli).Some? ==> AtLeast(after.appServer, before.cli))
         && (Order(before.appServer, before.appServer).Some? ==> AtLeast(after.appServer, before.appServer))
    ensures Succeeded(outcome) ==> (outcome.Updated? <==> UpdatesFromCli(control.first))
    ensures outcome.Updated? ==> && outcome.from == control.first.daemon.versions.appServer
                                 && Some(outcome.to) == control.second.daemon.versions.appServer
    ensures outcome.Absent? <==> control.first.NoDaemon?
    ensures outcome.NewerRunning? <==> RunsNewer(control.first)
    ensures outcome.NewerRunning? ==> Some(outcome.version) == control.first.daemon.versions.appServer
    ensures outcome.Deferred? <==>
      control.first.Found? && !RunsNewer(control.first) && control.first.daemon.loadedThreads > 0
    ensures outcome.Deferred? ==>
      var v := control.first.daemon.versions;
      outcome.stale <==> RestartIsOlder(v, v.cli) || Older(v.appServer, v.cli)
    ensures outcome.Failed? && RestartsPlainly(control.first) ==> outcome.phase == DuringRestart
    ensures outcome.Failed? && UpdatesFromCli(control.first) ==>
      outcome.phase == if control.confirms then UpdateApplied else UpdateUnconfirmed
  {
    hide Order;
    var inspection := control.InspectDaemon();
    if inspection.InspectionFailed? {
      return Failed(DuringRestart);
    }
    if inspection.NoDaemon? {
      return Absent;
    }
    DecisionIs(inspection);
    var running := inspection.daemon;
    var versions := running.versions;
    var update := RestartLaunchesOlderThanCli(versions);
    if versions.appServer.Some? && Order(Launched(versions, update), versions.appServer) == Some(Less) {
      return NewerRunning(versions.appServer.value);
    }
    if running.loadedThreads != 0 {
      return Deferred(update || Order(versions.appServer, versions.cli) == Some(Less));
    }
    if !running.managed {
      return Failed(DuringRestart);
    }
    var confirmed := control.Command(if update then UpdateFromCli else Restart);
    if !confirmed {
      return Failed(if update then UpdateUnconfirmed else DuringRestart);
    }
    var failure := Failed(if update then UpdateApplied else DuringRestart);
    var after := control.InspectDaemon();
    if !after.Found? || !after.daemon.signedIn {
      return failure;
    }
    var floors := Floors(versions);
    FloorsAre(versions, after.daemon.versions);
    if exists floor :: floor in floors && !RunsAtLeast(after.daemon.versions, floor) {
      return failure;
    }
    if !update {
      return Restarted;
    }
    UpdateIsVerified(versions, after.daemon.versions);
    var to := after.daemon.versions.appServer;
    return Updated(versions.appServer, if to.Some? then to.value else "");
  }

  lemma FloorsAre(before: Reported, after: Reported)
    ensures (forall floor :: floor in Floors(before) ==> RunsAtLeast(after, floor)) <==>
      forall v :: v in {before.cli, before.appServer} && Order(v, v).Some? ==> AtLeast(after.appServer, v)
  {
    hide ParseVersion;
    forall floor ensures floor in Floors(before) <==>
      Order(Some(floor), Some(floor)).Some? && Some(floor) in {before.cli, before.appServer}
    {
      ParseableIs(Present(before.cli) + Present(before.appServer), floor);
    }
    hide Order;
    if forall floor :: floor in Floors(before) ==> RunsAtLeast(after, floor) {
      forall v | v in {before.cli, before.appServer} && Order(v, v).Some? ensures AtLeast(after.appServer, v) {
        OrderReflexive(v);
        assert v == Some(v.value) && v.value in Floors(before);
      }
    }
  }

  lemma {:induction false} ParseableIs(vs: seq<string>, v: string)
    ensures v in Parseable(vs) <==> v in vs && Order(Some(v), Some(v)).Some?
  {
    hide Order;
    if vs != [] {
      ParseableIs(vs[1..], v);
      assert vs == [vs[0]] + vs[1..];
    }
  }

  /** An update is only chosen when the CLI's version parses, so it is a floor and the daemon
      afterwards reports a version. */
  lemma UpdateIsVerified(before: Reported, after: Reported)
    requires RestartLaunchesOlderThanCli(before)
    requires forall floor :: floor in Floors(before) ==> RunsAtLeast(after, floor)
    ensures after.appServer.Some?
  {
    FloorsAre(before, after);
    OrderReflexive(before.cli);
    hide ParseVersion;
  }

  // ---- over several refreshes -------------------------------------------

  /** A successful refresh: what was running before and what is running after. */
  datatype Replaced = Replaced(before: Reported, after: Inspection)

  /** Each refresh starts from the daemon the one before left running. */
  predicate Chain(rs: seq<Replaced>) {
    && (forall i :: 0 <= i < |rs| ==> Verified(rs[i].before, rs[i].after))
    && (forall i :: 0 < i < |rs| ==> rs[i].before.appServer == rs[i - 1].after.daemon.versions.appServer)
  }

  /** However many refreshes succeed one after another, the daemon never ends up on an older
      version than it started with, if the first version could be compared at all. */
  lemma {:induction false} NeverDowngrades(rs: seq<Replaced>)
    requires rs != [] && Chain(rs)
    requires Order(rs[0].before.appServer, rs[0].before.appServer).Some?
    ensures AtLeast(rs[|rs| - 1].after.daemon.versions.appServer, rs[0].before.appServer)
  {
    hide Order, AtLeast;
    var n := |rs| - 1;
    if n > 0 {
      NeverDowngrades(rs[..n]);
      var middle := rs[n].before.appServer;
      assert rs[..n][n - 1] == rs[n - 1];
      ComparedIsParseable(middle, rs[0].before.appServer);
      AtLeastTransitive(rs[n].after.daemon.versions.appServer, middle, rs[0].before.appServer);
    }
  }

  lemma ComparedIsParseable(a: Option<string>, b: Option<string>)
    requires AtLeast(a, b)
    ensures Order(a, a).Some?
  {
    OrderReflexive(a);
    hide ParseVersion;
  }
}
