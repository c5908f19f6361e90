/**
 Relaying WebSocket frames both ways. Which side is served next and which sends
 fail is decided by a schedule, so a statement about every schedule is a statement
 about every interleaving.
 */
module WebSocketRelay {

  datatype Message = Data(payload: string) | Close(code: nat, reason: string)

  /** What reading one side yields; running out of these is the end of its stream. */
  datatype Event = Arrived(message: Message) | TooBig | Broke

  datatype Side = Client | Upstream

  /** A failed send may still have reached the other side. */
  datatype Send = Delivered | Failed(reached: bool)

  /** Serve `from` next. `send` is the fate of the frame relayed; `noticed` tells which
      sides an oversized-message notice reaches, should there be one. */
  datatype Turn = Turn(from: Side, send: Send, noticed: set<Side>)

  datatype Status =
    | Running
    | ClosedBy(side: Side)
    | EndedBy(side: Side)
    | SendFailed(side: Side, reached: bool)
    | ReadFailed(side: Side, noticed: set<Side>)

  const TOO_BIG_CLOSE: Message := Close(1009, "message too big")

  /** Frames read from each side, frames each side received, and the trace. */
  datatype Relay = Relay(
    clientRead: nat, upstreamRead: nat,
    toUpstream: seq<Message>, toClient: seq<Message>,
    traced: seq<(Side, Message)>, status: Status)

  const START: Relay := Relay(0, 0, [], [], [], Running)

  predicate Succeeded(status: Status) {
    status.ClosedBy? || status.EndedBy?
  }

  function FromClient(s: Relay, turn: Turn, client: seq<Event>): Relay {
    if s.clientRead >= |client| then s.(status := EndedBy(Client))
    else
      match client[s.clientRead]
      case Arrived(m) =>
        var reached := turn.send.Delivered? || turn.send.reached;
        s.(clientRead := s.clientRead + 1,
           traced := s.traced + [(Client, m)],
           toUpstream := s.toUpstream + if reached then [m] else [],
           status := if turn.send.Failed? then SendFailed(Client, reached)
                     else if m.Close? then ClosedBy(Client) else Running)
      case TooBig =>
        s.(toUpstream := s.toUpstream + if Upstream in turn.noticed then [TOO_BIG_CLOSE] else [],
           toClient := s.toClient + if Client in turn.noticed then [TOO_BIG_CLOSE] else [],
           status := ReadFailed(Client, turn.noticed))
      case Broke => s.(status := ReadFailed(Client, {}))
  }

  function FromUpstream(s: Relay, turn: Turn, upstream: seq<Event>): Relay {
    if s.upstreamRead >= |upstream| then s.(status := EndedBy(Upstream))
    else
      match upstream[s.upstreamRead]
      case Arrived(m) =>
        var reached := turn.send.Delivered? || turn.send.reached;
        s.(upstreamRead := s.upstreamRead + 1,
           traced := s.traced + [(Upstream, m)],
           toClient := s.toClient + if reached then [m] else [],
           status := if turn.send.Failed? then SendFailed(Upstream, reached)
                     else if m.Close? then ClosedBy(Upstream) else Running)
      case TooBig => s.(status := ReadFailed(Upstream, {}))
      case Broke => s.(status := ReadFailed(Upstream, {}))
  }

  function Step(s: Relay, turn: Turn, client: seq<Event>, upstream: seq<Event>): Relay {
    if !s.status.Running? then s
    else if turn.from.Client? then FromClient(s, turn, client)
    else FromUpstream(s, turn, upstream)
  }

  function Run(s: Relay, schedule: seq<Turn>, client: seq<Event>, upstream: seq<Event>): Relay
    decreases |schedule|
  {
    if schedule == [] then s else Run(Step(s, schedule[0], client, upstream), schedule[1..], client, upstream)
  }

  /** The relay loop itself, returning as soon as a close frame, an end or an error is met. */
  method RelayFrames(client: seq<Event>, upstream: seq<Event>, schedule: seq<Turn>) returns (s: Relay)
    ensures s == Run(START, schedule, client, upstream)
  {
    s := START;
    var i := 0;
    assert schedule[0..] == schedule;
    while i < |schedule|
      invariant i <= |schedule| && s.status.Running?
      invariant Run(START, schedule, client, upstream) == Run(s, schedule[i..], client, upstream)
    {
      assert schedule[i..][1..] == schedule[i + 1..];
      var turn := schedule[i];
      ghost var before := s;
      i := i + 1;
      if turn.from.Client? {
        if s.clientRead >= |client| {
          s := s.(status := EndedBy(Client));
        } else {
          var event := client[s.clientRead];
          if event.Arrived? {
            s := s.(clientRead := s.clientRead + 1, traced := s.traced + [(Client, event.message)]);
            if turn.send.Delivered? || turn.send.reached {
              s := s.(toUpstream := s.toUpstream + [event.message]);
            }
            if turn.send.Failed? {
              s := s.(status := SendFailed(Client, turn.send.reached));
            } else if event.message.Close? {
              s := s.(status := ClosedBy(Client));
            }
          } else {
            if event.TooBig? && Upstream in turn.noticed {
              s := s.(toUpstream := s.toUpstream + [TOO_BIG_CLOSE]);
            }
            if event.TooBig? && Client in turn.noticed {
              s := s.(toClient := s.toClient + [TOO_BIG_CLOSE]);
            }
            s := s.(status := ReadFailed(Client, if event.TooBig? then turn.noticed else {}));
          }
        }
      } else {
        if s.upstreamRead >= |upstream| {
          s := s.(status := EndedBy(Upstream));
        } else {
          var event := upstream[s.upstreamRead];
          if event.Arrived? {
            s := s.(upstreamRead := s.upstreamRead + 1, traced := s.traced + [(Upstream, event.message)]);
            if turn.send.Delivered? || turn.send.reached {
              s := s.(toClient := s.toClient + [event.message]);
            }
            if turn.send.Failed? {
              s := s.(status := SendFailed(Upstream, turn.send.reached));
            } else if event.message.Close? {
              s := s.(status := ClosedBy(Upstream));
            }
          } else {
            s := s.(status := ReadFailed(Upstream, {}));
          }
        }
      }
      assert s == Step(before, turn, client, upstream);
      if !s.status.Running? {
        Stopped(s, schedule[i..], client, upstream);
        return;
      }
    }
  }

  // ---- what a side's stream amounts to ----------------------------------

  /** The frames of one side that are to be relayed: up to and including the first
      close frame, and none from the first read error on. */
  function Relayable(events: seq<Event>): seq<Message> {
    if events == [] || !events[0].Arrived? then []
    else if events[0].message.Close? then [events[0].message]
    else [events[0].message] + Relayable(events[1..])
  }

  lemma {:induction false} RelayableAt(events: seq<Event>, n: nat)
    requires n <= |events|
    requires forall i :: 0 <= i < n ==> events[i].Arrived? && !events[i].message.Close?
    ensures n <= |Relayable(events)|
    ensures n == |events| || !events[n].Arrived? ==> |Relayable(events)| == n
    ensures n < |events| && events[n].Arrived? ==> |Relayable(events)| > n && Relayable(events)[n] == events[n].message
    ensures n < |events| && events[n].Arrived? && events[n].message.Close? ==> |Relayable(events)| == n + 1
  {
    if n > 0 {
      RelayableAt(events[1..], n - 1);
    }
  }

  // ---- every run --------------------------------------------------------

  function Notice(status: Status, side: Side): seq<Message> {
    if status.ReadFailed? && side in status.noticed then [TOO_BIG_CLOSE] else []
  }

  function Lost(status: Status, side: Side): nat {
    if status == SendFailed(side, false) then 1 else 0
  }

  /** `from` is the side read, `received` what the other side got of it. */
  ghost predicate Faithful(
    events: seq<Event>, read: nat, received: seq<Message>, notice: seq<Message>, from: Side, status: Status)
  {
    && read <= |events|
    && read <= |Relayable(events)|
    && Lost(status, from) <= read
    && received == Relayable(events)[..read - Lost(status, from)] + notice
    && (status.Running? ==> forall i :: 0 <= i < read ==> events[i].Arrived? && !events[i].message.Close?)
    && (status == ClosedBy(from) ==> read == |Relayable(events)| > 0 && Relayable(events)[read - 1].Close?)
    && (status == EndedBy(from) ==> read == |Relayable(events)| == |events|)
    && (status.ReadFailed? && status.side == from ==> read == |Relayable(events)| < |events| && !events[read].Arrived?)
  }

  function TracedFrom(traced: seq<(Side, Message)>, side: Side): seq<Message> {
    if traced == [] then []
    else
      var last := traced[|traced| - 1];
      TracedFrom(traced[..|traced| - 1], side) + if last.0 == side then [last.1] else []
  }

  /** Each side receives exactly the other side's relayable frames, in order and as far as
      they were read, minus at most one last frame whose send failed, plus the notice closing
      the connection after an oversized client message. Everything read was traced. */
  ghost predicate Good(s: Relay, client: seq<Event>, upstream: seq<Event>) {
    && Faithful(client, s.clientRead, s.toUpstream, Notice(s.status, Upstream), Client, s.status)
    && Faithful(upstream, s.upstreamRead, s.toClient, Notice(s.status, Client), Upstream, s.status)
    && TracedFrom(s.traced, Client) == Relayable(client)[..s.clientRead]
    && TracedFrom(s.traced, Upstream) == Relayable(upstream)[..s.upstreamRead]
    && (s.status.ReadFailed? && s.status.noticed != {} ==>
          s.clientRead < |client| && client[s.clientRead].TooBig?)
  }

  lemma OneFrameMore(events: seq<Event>, read: nat)
    requires read < |events| && events[read].Arrived?
    requires forall i :: 0 <= i < read ==> events[i].Arrived? && !events[i].message.Close?
    ensures read < |Relayable(events)|
    ensures Relayable(events)[..read + 1] == Relayable(events)[..read] + [events[read].message]
    ensures events[read].message.Close? ==> read + 1 == |Relayable(events)|
  {
    hide Relayable;
    RelayableAt(events, read);
  }

  lemma TracedOneMore(traced: seq<(Side, Message)>, from: Side, m: Message, side: Side)
    ensures TracedFrom(traced + [(from, m)], side) == TracedFrom(traced, side) + if from == side then [m] else []
  {
    assert (traced + [(from, m)])[..|traced|] == traced;
  }

  lemma ClientTurnIsGood(s: Relay, turn: Turn, client: seq<Event>, upstream: seq<Event>)
    requires Good(s, client, upstream) && s.status.Running?
    ensures Good(FromClient(s, turn, client), client, upstream)
  {
    hide Relayable, TracedFrom;
    RelayableAt(client, s.clientRead);
    if s.clientRead < |client| && client[s.clientRead].Arrived? {
      var m := client[s.clientRead].message;
      OneFrameMore(client, s.clientRead);
      TracedOneMore(s.traced, Client, m, Client);
      TracedOneMore(s.traced, Client, m, Upstream);
    }
  }

  lemma UpstreamTurnIsGood(s: Relay, turn: Turn, client: seq<Event>, upstream: seq<Event>)
    requires Good(s, client, upstream) && s.status.Running?
    ensures Good(FromUpstream(s, turn, upstream), client, upstream)
  {
    hide Relayable, TracedFrom;
    RelayableAt(upstream, s.upstreamRead);
    if s.upstreamRead < |upstream| && upstream[s.upstreamRead].Arrived? {
      var m := upstream[s.upstreamRead].message;
      OneFrameMore(upstream, s.upstreamRead);
      TracedOneMore(s.traced, Upstream, m, Client);
      TracedOneMore(s.traced, Upstream, m, Upstream);
    }
  }

  lemma StepIsGood(s: Relay, turn: Turn, client: seq<Event>, upstream: seq<Event>)
    requires Good(s, client, upstream)
    ensures Good(Step(s, turn, client, upstream), client, upstream)
  {
    hide Good, FromClient, FromUpstream;
    if s.status.Running? {
      ClientTurnIsGood(s, turn, client, upstream);
      UpstreamTurnIsGood(s, turn, client, upstream);
    }
  }

  lemma {:induction false} EveryRunIsGood(schedule: seq<Turn>, client: seq<Event>, upstream: seq<Event>)
    ensures Good(Run(START, schedule, client, upstream), client, upstream)
  {
    RunIsGood(START, schedule, client, upstream);
  }

  lemma {:induction false} RunIsGood(s: Relay, schedule: seq<Turn>, client: seq<Event>, upstream: seq<Event>)
    requires Good(s, client, upstream)
    ensures Good(Run(s, schedule, client, upstream), client, upstream)
    decreases |schedule|
  {
    if schedule != [] {
      StepIsGood(s, schedule[0], client, upstream);
      RunIsGood(Step(s, schedule[0], client, upstream), schedule[1..], client, upstream);
    }
  }

  /** In every run, what was traced of a side is what was read of it, each frame once and in order. */
  lemma TraceIsComplete(schedule: seq<Turn>, client: seq<Event>, upstream: seq<Event>)
    ensures var s := Run(START, schedule, client, upstream);
            && s.clientRead <= |Relayable(client)| && s.upstreamRead <= |Relayable(upstream)|
            && TracedFrom(s.traced, Client) == Relayable(client)[..s.clientRead]
            && TracedFrom(s.traced, Upstream) == Relayable(upstream)[..s.upstreamRead]
  {
    EveryRunIsGood(schedule, client, upstream);
  }

  /** A turn ends the relay well exactly if the side it serves has nothing more to read, or its next
      frame is a close and is sent without failing. */
  lemma SucceedsIff(s: Relay, turn: Turn, client: seq<Event>, upstream: seq<Event>)
    requires s.status.Running?
    ensures var events := if turn.from.Client? then client else upstream;
            var read := if turn.from.Client? then s.clientRead else s.upstreamRead;
            Succeeded(Step(s, turn, client, upstream).status) <==>
              || read >= |events|
              || (events[read].Arrived? && events[read].message.Close? && turn.send.Delivered?)
  {
  }

  /** An oversized client message is neither read nor relayed. It ends the relay with an error,
      and each side the notice reaches receives exactly one closing 1009 frame. */
  lemma OversizedIsNoticed(s: Relay, turn: Turn, client: seq<Event>, upstream: seq<Event>)
    requires s.status.Running? && turn.from.Client? && s.clientRead < |client| && client[s.clientRead].TooBig?
    ensures var after, notice := Step(s, turn, client, upstream), Close(1009, "message too big");
            && after.toUpstream == s.toUpstream + (if Upstream in turn.noticed then [notice] else [])
            && after.toClient == s.toClient + (if Client in turn.noticed then [notice] else [])
            && after.clientRead == s.clientRead && after.upstreamRead == s.upstreamRead && after.traced == s.traced
            && !after.status.Running? && !Succeeded(after.status)
  {
  }

  /** Any other failure to read, an oversized message from upstream included, is noticed by nobody. */
  lemma OtherFailuresAreSilent(s: Relay, turn: Turn, client: seq<Event>, upstream: seq<Event>)
    requires s.status.Running?
    requires if turn.from.Client? then s.clientRead < |client| && client[s.clientRead].Broke?
             else s.upstreamRead < |upstream| && !upstream[s.upstreamRead].Arrived?
    ensures Step(s, turn, client, upstream) == s.(status := ReadFailed(turn.from, {}))
  {
  }

  /** After a close frame, an end or an error, nothing more is read, relayed or traced. */
  lemma {:induction false} Stopped(s: Relay, schedule: seq<Turn>, client: seq<Event>, upstream: seq<Event>)
    requires !s.status.Running?
    ensures Run(s, schedule, client, upstream) == s
    decreases |schedule|
  {
    if schedule != [] {
      Stopped(s, schedule[1..], client, upstream);
    }
  }

  /** A relay that succeeds has relayed everything there was on the side that finished it. */
  lemma SuccessIsComplete(schedule: seq<Turn>, client: seq<Event>, upstream: seq<Event>)
    ensures var s := Run(START, schedule, client, upstream);
            Succeeded(s.status) ==>
              if s.status.side.Client? then s.toUpstream == Relayable(client) && s.toClient <= Relayable(upstream)
              else s.toClient == Relayable(upstream) && s.toUpstream <= Relayable(client)
  {
    EveryRunIsGood(schedule, client, upstream);
    var s := Run(START, schedule, client, upstream);
    hide Run, Relayable;
    assert Relayable(client)[..|Relayable(client)|] == Relayable(client);
    assert Relayable(upstream)[..|Relayable(upstream)|] == Relayable(upstream);
  }
}
