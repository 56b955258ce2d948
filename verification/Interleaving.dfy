/** Two runs that fit together, each receiving nothing but what the other sends, are the two
    sides of one execution. */
module Interleaving {
  import ByteStrings
  import Primitives
  import opened Protocol
  import EndpointRuns
  import opened Session
  import opened Liveness

  // ---- The states along a run -------------------------------------------------------------

  lemma StepGrows(s: Setup, role: Role, e: Endpoint, ev: Event)
    requires Enabled(s, e, ev)
    ensures e.sent + (if ev.Emit? then ev.data else []) <= Apply(s, role, e, ev).sent
    ensures e.rcvd + (if ev.Absorb? then ev.data else []) <= Apply(s, role, e, ev).rcvd
  {
    hide Prepare, WireOf, AfterSend, AfterReceive, FrameAt, Acceptable;
  }

  lemma {:induction false} RunPrefix(s: Setup, role: Role, events: seq<Event>, a: nat)
    requires a <= |events| && Run(s, role, events).Some?
    ensures Run(s, role, events[..a]).Some?
    ensures Run(s, role, events[..a]).value.sent <= Run(s, role, events).value.sent
    ensures Run(s, role, events[..a]).value.rcvd <= Run(s, role, events).value.rcvd
    decreases |events|
  {
    hide Enabled, Apply, Start;
    if a < |events| {
      var front := events[..|events| - 1];
      assert front[..a] == events[..a];
      RunPrefix(s, role, front, a);
      StepGrows(s, role, Run(s, role, front).value, events[|events| - 1]);
    } else {
      assert events[..a] == events;
    }
  }

  /** The event after the first `a` is possible, and the octets it moves are octets of the
      whole run. */
  lemma RunNext(s: Setup, role: Role, events: seq<Event>, a: nat)
    requires a < |events| && Run(s, role, events).Some?
    ensures Run(s, role, events[..a]).Some?
    ensures var e, end := Run(s, role, events[..a]).value, Run(s, role, events).value;
            && Enabled(s, e, events[a])
            && Run(s, role, events[..a + 1]) == Primitives.Some(Apply(s, role, e, events[a]))
            && e.sent + (if events[a].Emit? then events[a].data else []) <= end.sent
            && e.rcvd + (if events[a].Absorb? then events[a].data else []) <= end.rcvd
  {
    hide Enabled, Apply, Start;
    RunPrefix(s, role, events, a + 1);
    assert events[..a + 1][..a] == events[..a];
    assert events[..a + 1][a] == events[a];
    StepGrows(s, role, Run(s, role, events[..a]).value, events[a]);
  }

  // ---- Two runs ---------------------------------------------------------------------------

  /** The events of the client's run and of the server's. */
  datatype Scripts = Scripts(client: seq<Event>, server: seq<Event>)
  {
    function Of(role: Role): seq<Event> {
      if role.Client? then client else server
    }
  }

  /** How far an execution has gone in each of two runs. */
  datatype Place = Place(client: nat, server: nat)
  {
    function Of(role: Role): nat {
      if role.Client? then client else server
    }

    function Advance(role: Role): Place {
      if role.Client? then Place(client + 1, server) else Place(client, server + 1)
    }
  }

  predicate RunsOf(s: Setup, x: Scripts, role: Role) {
    Run(s, role, x.Of(role)).Some?
  }

  function End(s: Setup, x: Scripts, role: Role): Endpoint
    requires RunsOf(s, x, role)
  {
    Run(s, role, x.Of(role)).value
  }

  /** Each receives nothing but what the other sends, in order. */
  predicate Mutual(s: Setup, x: Scripts) {
    && RunsOf(s, x, Client) && RunsOf(s, x, Server)
    && End(s, x, Client).rcvd <= End(s, x, Server).sent
    && End(s, x, Server).rcvd <= End(s, x, Client).sent
  }

  predicate AlongOne(s: Setup, x: Scripts, place: Place, sys: System, role: Role) {
    && place.Of(role) <= |x.Of(role)|
    && Run(s, role, x.Of(role)[..place.Of(role)]) == Primitives.Some(sys.Of(role))
  }

  predicate Along(s: Setup, x: Scripts, place: Place, sys: System) {
    AlongOne(s, x, place, sys, Client) && AlongOne(s, x, place, sys, Server)
  }

  predicate Roomy(s: Setup, x: Scripts, capacity: nat)
    requires RunsOf(s, x, Client) && RunsOf(s, x, Server)
  {
    |End(s, x, Client).sent| <= capacity && |End(s, x, Server).sent| <= capacity
  }

  /** The peer is past the message that `role` wants more of, so what `role` wants is on the
      channel. */
  lemma Served(s: Setup, sys: System, role: Role)
    requires Consistent(s, sys)
    requires var e := sys.Of(role);
             e.stage < MESSAGES && e.io.Receiving? && FrameAt(s.suite, e.stage, e.io.got).Need?
    requires sys.Of(role).stage < sys.Of(Peer(role)).stage
    ensures FrameAt(s.suite, sys.Of(role).stage, sys.Of(role).io.got).more <= |sys.From(Peer(role))|
  {
    hide Honest, Joined, Volume, FrameAt, WireAt, LocalAt;
    var e, peer := sys.Of(role), sys.Of(Peer(role));
    ReceiverIs(s, role, e);
    WantsNoMore(s, role, e);
    Volumes(s, role, e);
    Volumes(s, Peer(role), peer);
    OctetsUnderWay(sys, Peer(role));
    VolumeNext(s, Peer(role), e.stage);
    VolumeMonotone(s, Peer(role), e.stage + 1, peer.stage);
  }

  lemma WantsNoMore(s: Setup, role: Role, e: Endpoint)
    requires Honest(s, role, e) && e.stage < MESSAGES && e.io.Receiving?
    requires FrameAt(s.suite, e.stage, e.io.got).Need?
    ensures FrameAt(s.suite, e.stage, e.io.got).more <= |WireAt(s, e.stage)| - Done(e.io)
  {
    hide EndpointRuns.Sane, LocalAt, WireAt, FrameAt;
    FrameOfWire(s, e.stage, |e.io.got|);
    assert e.io.got == WireAt(s, e.stage)[..|e.io.got|];
  }

  /** `role` is to receive octets that are not there yet. */
  predicate Waits(s: Setup, sys: System, role: Role, ev: Event) {
    Enabled(s, sys.Of(role), ev) && ev.Absorb? && |ev.data| > |sys.From(Peer(role))|
  }

  /** The two programs never wait for each other. */
  lemma NotBothWait(s: Setup, sys: System, ev: Event, ev': Event)
    requires Consistent(s, sys)
    ensures !(Waits(s, sys, Client, ev) && Waits(s, sys, Server, ev'))
  {
    hide Honest, Joined, FrameAt;
    if Waits(s, sys, Client, ev) && Waits(s, sys, Server, ev') {
      ReceiverIs(s, Client, sys.client);
      ReceiverIs(s, Server, sys.server);
      if sys.client.stage < sys.server.stage {
        Served(s, sys, Client);
      } else {
        Served(s, sys, Server);
      }
    }
  }

  /** Octets that come next in the whole stream and are there come next on the channel. */
  lemma NextOnChannel(moved: ByteStrings.Bytes, channel: ByteStrings.Bytes, data: ByteStrings.Bytes, stream: ByteStrings.Bytes)
    requires moved + data <= stream && moved + channel <= stream && |data| <= |channel|
    ensures data <= channel
  {
    assert data == stream[|moved|..|moved| + |data|];
    assert channel == stream[|moved|..|moved| + |channel|];
  }

  /** A program either can take the next step of its run or waits for octets that its peer has
      still to send. */
  lemma StepOrWait(s: Setup, x: Scripts, capacity: nat, place: Place, sys: System, role: Role)
    requires Mutual(s, x) && Roomy(s, x, capacity) && Along(s, x, place, sys) && Joined(sys)
    requires place.Of(role) < |x.Of(role)|
    ensures var ev := x.Of(role)[place.Of(role)];
            || CanStep(s, capacity, sys, Step(role, ev))
            || (Waits(s, sys, role, ev) && place.Of(Peer(role)) < |x.Of(Peer(role))|)
  {
    hide Run, Enabled, Apply;
    var peer := Peer(role);
    RunNext(s, role, x.Of(role), place.Of(role));
    RunPrefix(s, peer, x.Of(peer), place.Of(peer));
    JoinedFrom(sys, role);
    JoinedFrom(sys, peer);
    var ev := x.Of(role)[place.Of(role)];
    if ev.Absorb? {
      if place.Of(peer) == |x.Of(peer)| {
        assert x.Of(peer)[..place.Of(peer)] == x.Of(peer);
      }
      if |ev.data| <= |sys.From(peer)| {
        NextOnChannel(sys.Of(role).rcvd, sys.From(peer), ev.data, End(s, x, peer).sent);
      }
    }
  }

  lemma JoinedFrom(sys: System, role: Role)
    requires Joined(sys)
    ensures sys.Of(role).sent == sys.Of(Peer(role)).rcvd + sys.From(role)
  {
  }

  /** One of the two can take the next step of its run. */
  lemma SomeStep(s: Setup, x: Scripts, capacity: nat, place: Place, sys: System) returns (role: Role)
    requires Mutual(s, x) && Roomy(s, x, capacity) && Along(s, x, place, sys) && Consistent(s, sys)
    requires place.client < |x.client| || place.server < |x.server|
    ensures place.Of(role) < |x.Of(role)|
    ensures CanStep(s, capacity, sys, Step(role, x.Of(role)[place.Of(role)]))
  {
    hide Mutual, Roomy, Along, Honest, Joined, CanStep, Waits;
    if place.client < |x.client| {
      StepOrWait(s, x, capacity, place, sys, Client);
    }
    if place.server < |x.server| {
      StepOrWait(s, x, capacity, place, sys, Server);
    }
    if place.client < |x.client| && CanStep(s, capacity, sys, Step(Client, x.client[place.client])) {
      role := Client;
    } else {
      role := Server;
      if place.client < |x.client| && Waits(s, sys, Server, x.server[place.server]) {
        NotBothWait(s, sys, x.client[place.client], x.server[place.server]);
      }
    }
  }

  lemma StepAlong(s: Setup, x: Scripts, capacity: nat, place: Place, sys: System, role: Role)
    requires Mutual(s, x) && Along(s, x, place, sys) && place.Of(role) < |x.Of(role)|
    requires CanStep(s, capacity, sys, Step(role, x.Of(role)[place.Of(role)]))
    ensures Along(s, x, place.Advance(role), After(s, capacity, sys, Step(role, x.Of(role)[place.Of(role)])))
  {
    hide Run, Enabled, Apply;
    RunNext(s, role, x.Of(role), place.Of(role));
  }

  lemma ExecutionSnoc(s: Setup, capacity: nat, steps: seq<Step>, step: Step)
    requires Execution(s, capacity, steps).Some? && CanStep(s, capacity, Execution(s, capacity, steps).value, step)
    ensures Execution(s, capacity, steps + [step]) == Primitives.Some(After(s, capacity, Execution(s, capacity, steps).value, step))
  {
    hide CanStep, After;
    assert (steps + [step])[..|steps|] == steps;
  }

  lemma {:induction false} Continue(s: Setup, x: Scripts, capacity: nat, place: Place, steps: seq<Step>) returns (all: seq<Step>)
    requires Mutual(s, x) && Roomy(s, x, capacity)
    requires Execution(s, capacity, steps).Some? && Along(s, x, place, Execution(s, capacity, steps).value)
    ensures Execution(s, capacity, all).Some?
    ensures Along(s, x, Place(|x.client|, |x.server|), Execution(s, capacity, all).value)
    decreases |x.client| + |x.server| - place.client - place.server
  {
    hide Mutual, Roomy, CanStep, After, Consistent, Execution, Run;
    var sys := Execution(s, capacity, steps).value;
    if place.client < |x.client| || place.server < |x.server| {
      ExecutionConsistent(s, capacity, steps);
      var role := SomeStep(s, x, capacity, place, sys);
      var step := Step(role, x.Of(role)[place.Of(role)]);
      StepAlong(s, x, capacity, place, sys, role);
      ExecutionSnoc(s, capacity, steps, step);
      all := Continue(s, x, capacity, place.Advance(role), steps + [step]);
    } else {
      all := steps;
    }
  }

  /** Whenever each of two runs receives nothing but what the other sends, there is one
      execution whose two sides end as the two runs do. */
  lemma Interleave(s: Setup, x: Scripts) returns (capacity: nat, steps: seq<Step>)
    requires Mutual(s, x)
    ensures Execution(s, capacity, steps).Some?
    ensures Execution(s, capacity, steps).value.client == End(s, x, Client)
    ensures Execution(s, capacity, steps).value.server == End(s, x, Server)
  {
    capacity := |End(s, x, Client).sent| + |End(s, x, Server).sent|;
    StartAlong(s, x, capacity);
    steps := Continue(s, x, capacity, Place(0, 0), []);
    assert x.client[..|x.client|] == x.client && x.server[..|x.server|] == x.server;
  }

  lemma StartAlong(s: Setup, x: Scripts, capacity: nat)
    ensures Execution(s, capacity, []).Some?
    ensures Along(s, x, Place(0, 0), Execution(s, capacity, []).value)
  {
    hide Start;
    assert x.client[..0] == [] && x.server[..0] == [];
  }
}
