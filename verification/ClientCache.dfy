/**
 Published policies and the HTTP clients built for them. Requests take a
 snapshot, resolve a route on it, possibly much later, and then ask for a client,
 while policies keep being published.
 */
module ClientCache {
  import opened Text
  import opened Policy
  import PolicySafety

  datatype Snapshot = Snapshot(generation: nat, policy: EgressPolicy)

  const UNRESOLVED: Snapshot := Snapshot(0, Unavailable(NotResolved))

  /** A client: which one it is, the route it was configured for and the generation of the
      snapshot it was built on behalf of. */
  datatype Client = Client(serial: nat, route: Route, generation: nat)

  /** `built` counts the clients built so far. */
  datatype Cache = Cache(generation: nat, clients: map<Route, Client>, built: nat)

  // ---- publishing -------------------------------------------------------

  function Published(
    current: Snapshot, last: Option<Inputs>, inputs: Inputs, listen: Option<SocketAddr>, parsers: Parsers): Snapshot
  {
    if last == Some(inputs) then current
    else Snapshot(current.generation + 1, PolicyFromInputs(inputs, listen, parsers))
  }

  class UpstreamProxy {
    const listen: Option<SocketAddr>
    var current: Snapshot
    var lastInputs: Option<Inputs>

    constructor (listen: Option<SocketAddr>)
      ensures this.listen == listen && current == UNRESOLVED && lastInputs == None
    {
      this.listen := listen;
      current, lastInputs := UNRESOLVED, None;
    }

    method Publish(inputs: Inputs, parsers: Parsers) returns (changed: bool)
      modifies this
      ensures changed == (old(lastInputs) != Some(inputs))
      ensures current == Published(old(current), old(lastInputs), inputs, listen, parsers)
      ensures lastInputs == Some(inputs)
    {
      hide PolicyFromInputs;
      if lastInputs == Some(inputs) {
        return false;
      }
      var policy := PolicyFromInputs(inputs, listen, parsers);
      var snapshot := Snapshot(current.generation + 1, policy);
      lastInputs := Some(inputs);
      current := snapshot;
      return true;
    }
  }

  // ---- clients ----------------------------------------------------------

  /** The client for a route, `None` when building one fails, and the cache afterwards. */
  function ClientFor(cache: Cache, generation: nat, route: Route, builds: bool): (Cache, Option<Client>) {
    var c := Advance(cache, generation);
    if generation == c.generation && route in c.clients then (c, Some(c.clients[route]))
    else if !builds then (c, None)
    else (Build(c, route, generation), Some(Client(c.built, route, generation)))
  }

  /** A newer snapshot's first client empties the cache. */
  function Advance(cache: Cache, generation: nat): (c: Cache)
    ensures c.generation == if generation > cache.generation then generation else cache.generation
  {
    if generation > cache.generation then Cache(generation, map[], cache.built) else cache
  }

  /** A client for the cache's own generation is kept, one for an older snapshot is not. */
  function Build(c: Cache, route: Route, generation: nat): Cache {
    var client := Client(c.built, route, generation);
    Cache(c.generation, if generation == c.generation then c.clients[route := client] else c.clients, c.built + 1)
  }

  class HttpClients {
    var generation: nat
    var clients: map<Route, Client>
    var built: nat

    constructor ()
      ensures State() == Cache(0, map[], 0)
    {
      generation, clients, built := 0, map[], 0;
    }

    function State(): Cache
      reads this
    {
      Cache(generation, clients, built)
    }

    method ClientForRoute(snapshotGeneration: nat, route: Route, builds: bool) returns (r: Option<Client>)
      modifies this
      ensures (State(), r) == ClientFor(old(State()), snapshotGeneration, route, builds)
    {
      if snapshotGeneration > generation {
        generation, clients := snapshotGeneration, map[];
      }
      if snapshotGeneration == generation && route in clients {
        return Some(clients[route]);
      }
      if !builds {
        return None;
      }
      var client := Client(built, route, snapshotGeneration);
      built := built + 1;
      if snapshotGeneration == generation {
        clients := clients[route := client];
      }
      return Some(client);
    }
  }

  // ---- interleavings ----------------------------------------------------

  /** A request in flight: the snapshot it took and, once resolved, its route. */
  datatype Task = Task(snapshot: Snapshot, target: Target, route: Option<Route>)

  datatype Handed = Handed(task: Task, client: Client)

  /** `published` and `snapshots` record the past: the inputs of every publication and the
      snapshots that have been current, by generation. */
  datatype State = State(
    last: Option<Inputs>, cache: Cache, tasks: map<nat, Task>, handed: seq<Handed>,
    published: seq<Inputs>, snapshots: seq<Snapshot>)

  const START: State := State(None, Cache(0, map[], 0), map[], [], [], [UNRESOLVED])

  datatype Event =
    | Publish(inputs: Inputs)
    | Begin(id: nat, target: Target)
    | Resolve(id: nat, route: Route)
    | Finish(id: nat, builds: bool)

  function Last(snapshots: seq<Snapshot>): Snapshot
    requires snapshots != []
  {
    snapshots[|snapshots| - 1]
  }

  /** One atomic step of the process. A resolution is whatever the task's own snapshot can
      answer; an event that does not apply changes nothing. */
  ghost function Step(s: State, e: Event, listen: Option<SocketAddr>, parsers: Parsers): (after: State)
    requires s.snapshots != []
    ensures after.snapshots != []
  {
    match e
    case Publish(inputs) =>
      var next := Published(Last(s.snapshots), s.last, inputs, listen, parsers);
      s.(last := Some(inputs), published := s.published + [inputs],
         snapshots := if s.last == Some(inputs) then s.snapshots else s.snapshots + [next])
    case Begin(id, target) =>
      if id in s.tasks then s else s.(tasks := s.tasks[id := Task(Last(s.snapshots), target, None)])
    case Resolve(id, route) =>
      if id in s.tasks && CanRoute(s.tasks[id].snapshot.policy, s.tasks[id].target, Ok(route), listen, parsers)
      then s.(tasks := s.tasks[id := s.tasks[id].(route := Some(route))]) else s
    case Finish(id, builds) =>
      if id !in s.tasks || s.tasks[id].route.None? then s
      else
        var task := s.tasks[id];
        var (cache, client) := ClientFor(s.cache, task.snapshot.generation, task.route.value, builds);
        s.(cache := cache, tasks := s.tasks - {id},
           handed := s.handed + if client.Some? then [Handed(task, client.value)] else [])
  }

  ghost function Run(s: State, events: seq<Event>, listen: Option<SocketAddr>, parsers: Parsers): State
    requires s.snapshots != []
    decreases |events|
  {
    if events == [] then s else Run(Step(s, events[0], listen, parsers), events[1..], listen, parsers)
  }

  /** How many publications brought inputs that differ from the ones before. */
  function Changes(published: seq<Inputs>): nat {
    if published == [] then 0
    else
      var n := |published| - 1;
      Changes(published[..n]) + if n > 0 && published[n - 1] == published[n] then 0 else 1
  }

  ghost predicate TaskGood(snapshots: seq<Snapshot>, task: Task, listen: Option<SocketAddr>, parsers: Parsers) {
    && task.snapshot in snapshots
    && (task.route.Some? ==> CanRoute(task.snapshot.policy, task.target, Ok(task.route.value), listen, parsers))
  }

  /** Generations number the changes of input, and the current policy is the one the last
      inputs compile to. */
  ghost predicate SnapshotsGood(
    snapshots: seq<Snapshot>, published: seq<Inputs>, last: Option<Inputs>, listen: Option<SocketAddr>,
    parsers: Parsers)
  {
    && snapshots != [] && snapshots[0] == UNRESOLVED
    && (forall g :: 0 <= g < |snapshots| ==> snapshots[g].generation == g)
    && Last(snapshots).generation == Changes(published)
    && (if published == [] then last == None
        else && last == Some(published[|published| - 1])
             && Last(snapshots).policy == PolicyFromInputs(last.value, listen, parsers))
    && (forall g :: 0 < g < |snapshots| ==> Compiled(snapshots[g], published, listen, parsers))
  }

  ghost predicate Compiled(x: Snapshot, published: seq<Inputs>, listen: Option<SocketAddr>, parsers: Parsers) {
    exists i :: i in published && x.policy == PolicyFromInputs(i, listen, parsers)
  }

  /** Cached clients are for their own route and the cache's own generation, each one once. */
  ghost predicate CacheGood(c: Cache) {
    && (forall r :: r in c.clients ==>
          && c.clients[r].route == r && c.clients[r].generation == c.generation
          && c.clients[r].serial < c.built)
    && (forall q, r :: q in c.clients && r in c.clients && c.clients[q].serial == c.clients[r].serial ==> q == r)
  }

  /** A client handed out is known by its serial number. */
  ghost predicate ClientKnown(c: Cache, handed: seq<Handed>, client: Client) {
    && client.serial < c.built
    && (forall r :: r in c.clients && c.clients[r].serial == client.serial ==> c.clients[r] == client)
    && (forall h :: h in handed && h.client.serial == client.serial ==> h.client == client)
  }

  /** It was built for the route its request resolved, for that snapshot's generation. */
  ghost predicate HandedGood(snapshots: seq<Snapshot>, h: Handed, listen: Option<SocketAddr>, parsers: Parsers) {
    && TaskGood(snapshots, h.task, listen, parsers)
    && h.task.route == Some(h.client.route)
    && h.client.generation == h.task.snapshot.generation
  }

  ghost predicate Good(s: State, listen: Option<SocketAddr>, parsers: Parsers) {
    && SnapshotsGood(s.snapshots, s.published, s.last, listen, parsers)
    && CacheGood(s.cache)
    && s.cache.generation <= Last(s.snapshots).generation
    && (forall id :: id in s.tasks ==> TaskGood(s.snapshots, s.tasks[id], listen, parsers))
    && (forall h :: h in s.handed ==> HandedGood(s.snapshots, h, listen, parsers))
    && AllKnown(s.cache, s.handed)
  }

  lemma CompiledLater(x: Snapshot, published: seq<Inputs>, inputs: Inputs, listen: Option<SocketAddr>, parsers: Parsers)
    requires Compiled(x, published, listen, parsers)
    ensures Compiled(x, published + [inputs], listen, parsers)
  {
    hide PolicyFromInputs;
    var i :| i in published && x.policy == PolicyFromInputs(i, listen, parsers);
    assert i in published + [inputs];
  }

  lemma CompiledNow(x: Snapshot, published: seq<Inputs>, inputs: Inputs, listen: Option<SocketAddr>, parsers: Parsers)
    requires x.policy == PolicyFromInputs(inputs, listen, parsers)
    ensures Compiled(x, published + [inputs], listen, parsers)
  {
    hide PolicyFromInputs;
    assert inputs in published + [inputs];
  }

  lemma OneMoreChange(published: seq<Inputs>, inputs: Inputs)
    ensures Changes(published + [inputs])
         == Changes(published) + if published != [] && published[|published| - 1] == inputs then 0 else 1
  {
    assert (published + [inputs])[..|published|] == published;
  }

  lemma PublishSnapshots(s: State, inputs: Inputs, listen: Option<SocketAddr>, parsers: Parsers)
    requires SnapshotsGood(s.snapshots, s.published, s.last, listen, parsers)
    ensures var after := Step(s, Publish(inputs), listen, parsers);
            SnapshotsGood(after.snapshots, after.published, after.last, listen, parsers)
  {
    hide PolicyFromInputs, CanRoute, Compiled, Changes;
    var after := Step(s, Publish(inputs), listen, parsers);
    OneMoreChange(s.published, inputs);
    forall g | 0 < g < |after.snapshots| ensures Compiled(after.snapshots[g], after.published, listen, parsers) {
      if g < |s.snapshots| {
        CompiledLater(s.snapshots[g], s.published, inputs, listen, parsers);
      } else {
        CompiledNow(after.snapshots[g], s.published, inputs, listen, parsers);
      }
    }
  }

  lemma PublishIsGood(s: State, inputs: Inputs, listen: Option<SocketAddr>, parsers: Parsers)
    requires Good(s, listen, parsers)
    ensures Good(Step(s, Publish(inputs), listen, parsers), listen, parsers)
  {
    hide PolicyFromInputs, CanRoute, Changes, Compiled, AllKnown;
    var after := Step(s, Publish(inputs), listen, parsers);
    PublishSnapshots(s, inputs, listen, parsers);
    assert forall x :: x in s.snapshots ==> x in after.snapshots;
  }

  ghost predicate AllKnown(c: Cache, handed: seq<Handed>) {
    forall h :: h in handed ==> ClientKnown(c, handed, h.client)
  }

  lemma AdvanceIsGood(cache: Cache, handed: seq<Handed>, generation: nat)
    requires CacheGood(cache) && AllKnown(cache, handed)
    ensures var c := Advance(cache, generation); CacheGood(c) && AllKnown(c, handed)
  {
    var c := Advance(cache, generation);
    forall h | h in handed ensures ClientKnown(c, handed, h.client) {
      assert ClientKnown(cache, handed, h.client);
    }
  }

  lemma BuildIsGood(c: Cache, handed: seq<Handed>, route: Route, generation: nat)
    requires CacheGood(c) && AllKnown(c, handed)
    ensures var after := Build(c, route, generation);
            && CacheGood(after) && AllKnown(after, handed) && after.generation == c.generation
            && ClientKnown(after, handed, Client(c.built, route, generation))
  {
    var client := Client(c.built, route, generation);
    var after := Build(c, route, generation);
    forall h | h in handed ensures ClientKnown(after, handed, h.client) {
      assert ClientKnown(c, handed, h.client);
    }
    forall h | h in handed ensures h.client.serial != client.serial {
      assert ClientKnown(c, handed, h.client);
    }
  }

  lemma CachedIsKnown(c: Cache, handed: seq<Handed>, route: Route)
    requires CacheGood(c) && AllKnown(c, handed) && route in c.clients
    ensures ClientKnown(c, handed, c.clients[route])
    ensures c.clients[route].route == route && c.clients[route].generation == c.generation
  {
    forall h | h in handed && h.client.serial == c.clients[route].serial ensures h.client == c.clients[route] {
      assert ClientKnown(c, handed, h.client);
    }
  }

  lemma ClientForIsGood(cache: Cache, handed: seq<Handed>, generation: nat, route: Route, builds: bool)
    requires CacheGood(cache) && AllKnown(cache, handed)
    ensures var (c, client) := ClientFor(cache, generation, route, builds);
            && CacheGood(c) && AllKnown(c, handed)
            && c.generation == (if generation > cache.generation then generation else cache.generation)
            && (client.Some? ==> client.value.route == route && client.value.generation == generation
                                 && ClientKnown(c, handed, client.value))
  {
    hide AllKnown, ClientKnown, CacheGood, Advance, Build;
    AdvanceIsGood(cache, handed, generation);
    var c := Advance(cache, generation);
    BuildIsGood(c, handed, route, generation);
    if route in c.clients {
      CachedIsKnown(c, handed, route);
    }
  }

  lemma HandOut(c: Cache, handed: seq<Handed>, h: Handed)
    requires AllKnown(c, handed) && ClientKnown(c, handed, h.client)
    ensures AllKnown(c, handed + [h])
  {
    forall x | x in handed + [h] ensures ClientKnown(c, handed + [h], x.client) {
      assert ClientKnown(c, handed, x.client);
    }
  }

  lemma SnapshotIsOld(s: State, task: Task, listen: Option<SocketAddr>, parsers: Parsers)
    requires Good(s, listen, parsers) && TaskGood(s.snapshots, task, listen, parsers)
    ensures task.snapshot.generation <= Last(s.snapshots).generation
  {
    hide CanRoute, Compiled, CacheGood, AllKnown, HandedGood, Changes;
  }

  lemma FinishIsGood(s: State, id: nat, builds: bool, listen: Option<SocketAddr>, parsers: Parsers)
    requires Good(s, listen, parsers)
    ensures Good(Step(s, Finish(id, builds), listen, parsers), listen, parsers)
  {
    hide SnapshotsGood, CanRoute, ClientFor, CacheGood, ClientKnown, AllKnown, TaskGood, PolicyFromInputs, Published;
    if id in s.tasks && s.tasks[id].route.Some? {
      var task := s.tasks[id];
      assert TaskGood(s.snapshots, task, listen, parsers);
      SnapshotIsOld(s, task, listen, parsers);
      ClientForIsGood(s.cache, s.handed, task.snapshot.generation, task.route.value, builds);
      var (cache, client) := ClientFor(s.cache, task.snapshot.generation, task.route.value, builds);
      if client.Some? {
        HandOut(cache, s.handed, Handed(task, client.value));
      }
      assert s.handed + [] == s.handed;
    }
  }

  lemma StepIsGood(s: State, e: Event, listen: Option<SocketAddr>, parsers: Parsers)
    requires Good(s, listen, parsers)
    ensures Good(Step(s, e, listen, parsers), listen, parsers)
  {
    match e
    case Publish(inputs) => PublishIsGood(s, inputs, listen, parsers);
    case Finish(id, builds) => FinishIsGood(s, id, builds, listen, parsers);
    case Begin(_, _) => TaskStepIsGood(s, e, listen, parsers);
    case Resolve(_, _) => TaskStepIsGood(s, e, listen, parsers);
  }

  lemma TaskStepIsGood(s: State, e: Event, listen: Option<SocketAddr>, parsers: Parsers)
    requires Good(s, listen, parsers) && (e.Begin? || e.Resolve?)
    ensures Good(Step(s, e, listen, parsers), listen, parsers)
  {
    hide PolicyFromInputs, CanRoute, Changes, Compiled, CacheGood, AllKnown;
  }

  /** What one step does to the generations: the policy's rises by one exactly when the inputs
      change, the cache's never falls. */
  lemma GenerationsRise(s: State, e: Event, listen: Option<SocketAddr>, parsers: Parsers)
    requires Good(s, listen, parsers)
    ensures var after := Step(s, e, listen, parsers);
            && Last(after.snapshots).generation
               == Last(s.snapshots).generation + (if e.Publish? && s.last != Some(e.inputs) then 1 else 0)
            && after.cache.generation >= s.cache.generation
  {
    hide PolicyFromInputs, CanRoute, Changes;
  }

  lemma {:induction false} RunIsGood(s: State, events: seq<Event>, listen: Option<SocketAddr>, parsers: Parsers)
    requires Good(s, listen, parsers)
    ensures Good(Run(s, events, listen, parsers), listen, parsers)
    decreases |events|
  {
    hide Good, Step;
    if events != [] {
      StepIsGood(s, events[0], listen, parsers);
      GoodHasSnapshots(s, events[0], listen, parsers);
      RunIsGood(Step(s, events[0], listen, parsers), events[1..], listen, parsers);
    }
  }

  lemma GoodHasSnapshots(s: State, e: Event, listen: Option<SocketAddr>, parsers: Parsers)
    requires Good(s, listen, parsers)
    ensures s.snapshots != []
  {
  }

  /** Every interleaving of publications and requests keeps `Good`. */
  lemma EveryRunIsGood(events: seq<Event>, listen: Option<SocketAddr>, parsers: Parsers)
    ensures Good(Run(START, events, listen, parsers), listen, parsers)
  {
    hide Run, PolicyFromInputs, CanRoute;
    RunIsGood(START, events, listen, parsers);
  }

  /** A request that begins, resolves to a route its snapshot can answer and finishes with a client
      that can be built is handed one, for the policy that was current when it began. */
  lemma RequestIsServed(s: State, id: nat, target: Target, route: Route, listen: Option<SocketAddr>, parsers: Parsers)
    requires s.snapshots != [] && id !in s.tasks
    requires CanRoute(Last(s.snapshots).policy, target, Ok(route), listen, parsers)
    ensures var begun := Step(s, Begin(id, target), listen, parsers);
            var resolved := Step(begun, Resolve(id, route), listen, parsers);
            var finished := Step(resolved, Finish(id, true), listen, parsers);
            && id in begun.tasks && |finished.handed| == |s.handed| + 1 && id !in finished.tasks
            && finished.handed[|s.handed|].task == Task(Last(s.snapshots), target, Some(route))
            && finished.handed[..|s.handed|] == s.handed
  {
    hide CanRoute, PolicyFromInputs;
  }

  /** A route keeps its client: until a newer snapshot comes along, the next request for it, on the
      same snapshot, gets the very same client without building one. */
  lemma ClientIsKept(cache: Cache, generation: nat, route: Route, builds: bool)
    requires generation >= cache.generation
    ensures var (after, client) := ClientFor(cache, generation, route, true);
            client.Some? && ClientFor(after, generation, route, builds) == (after, client)
  {
  }

  /** A request on an older snapshot gets a client of its own and leaves the cache's clients alone. */
  lemma OldSnapshotIsApart(cache: Cache, generation: nat, route: Route, builds: bool)
    requires generation < cache.generation
    ensures var (after, client) := ClientFor(cache, generation, route, builds);
            && after.clients == cache.clients && after.generation == cache.generation
            && client == if builds then Some(Client(cache.built, route, generation)) else None
  {
  }

  /** No client handed out in any run proxies back to this listener. */
  lemma NoClientForListener(events: seq<Event>, h: Handed, listen: Option<SocketAddr>, parsers: Parsers)
    requires h in Run(START, events, listen, parsers).handed
    ensures h.client.route.Proxy? ==> !IsListener(h.client.route.endpoint, listen, parsers)
  {
    var s := Run(START, events, listen, parsers);
    EveryRunIsGood(events, listen, parsers);
    hide Run, PolicyFromInputs, CanRoute, IsListener, Changes, CacheGood, AllKnown;
    assert HandedGood(s.snapshots, h, listen, parsers);
    var g :| 0 <= g < |s.snapshots| && s.snapshots[g] == h.task.snapshot;
    if g > 0 {
      assert Compiled(s.snapshots[g], s.published, listen, parsers);
      var inputs :| inputs in s.published && s.snapshots[g].policy == PolicyFromInputs(inputs, listen, parsers);
      PolicySafety.NoRouteToListener(inputs, h.task.target, Ok(h.client.route), listen, parsers);
    } else {
      UnresolvedRoutes(h.task.target, h.client.route, listen, parsers);
    }
  }

  lemma UnresolvedRoutes(t: Target, route: Route, listen: Option<SocketAddr>, parsers: Parsers)
    requires CanRoute(UNRESOLVED.policy, t, Ok(route), listen, parsers)
    ensures route == Direct
  {
  }

  /** A client shared by two requests was built for the route both resolved, on one and the
      same snapshot: connections never carry over from another generation or route. */
  lemma SharedClient(events: seq<Event>, a: Handed, b: Handed, listen: Option<SocketAddr>, parsers: Parsers)
    requires a in Run(START, events, listen, parsers).handed && b in Run(START, events, listen, parsers).handed
    requires a.client.serial == b.client.serial
    ensures a.task.route == b.task.route && a.task.snapshot == b.task.snapshot
  {
    EveryRunIsGood(events, listen, parsers);
    hide Run, PolicyFromInputs, CanRoute, Changes, Compiled, CacheGood;
    var s := Run(START, events, listen, parsers);
    assert HandedGood(s.snapshots, a, listen, parsers) && HandedGood(s.snapshots, b, listen, parsers);
    assert ClientKnown(s.cache, s.handed, b.client);
  }
}
