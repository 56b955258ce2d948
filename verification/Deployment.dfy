/** The client program and the server program, each at its end, on a network that delivers to
    each what the other sends. */
module Deployment {
  import opened ByteStrings
  import opened Handshake
  import opened Protocol
  import opened EndpointRuns
  import opened Session
  import opened Agreement
  import opened Liveness
  import Interleaving
  import opened Programs

  ghost predicate Ended(p: Program)
    reads p, p.socket, p.library, p.transcript, p.transcript.ctx
  {
    p.Completed() || p.Failed()
  }

  /** What each was sent by the time it closed is what the other sent. */
  ghost predicate Connected(c: Program, v: Program)
    reads c, c.socket, c.library, c.transcript, c.transcript.ctx
    reads v, v.socket, v.library, v.transcript, v.transcript.ctx
  {
    && c.role.Client? && v.role.Server? && c.setup == v.setup
    && Ended(c) && Ended(v)
    && c.first == v.socket.outbound && v.first == c.socket.outbound
  }

  ghost predicate SystemOf(c: Program, v: Program, sys: System)
    reads c`events, v`events
  {
    c.Wired() && v.Wired() && c.State() == sys.client && v.State() == sys.server
  }

  /** Two programs that have ended are at the end of an execution. */
  lemma EndOfExecution(c: Program, v: Program) returns (capacity: nat, steps: seq<Step>)
    requires Connected(c, v)
    ensures Execution(c.setup, capacity, steps).Some?
    ensures SystemOf(c, v, Execution(c.setup, capacity, steps).value)
  {
    hide Run, FrameAt, Acceptable, Hashing, Execution;
    var x := Interleaving.Scripts(c.events, v.events);
    assert c.State().rcvd <= v.State().sent && v.State().rcvd <= c.State().sent;
    capacity, steps := Interleaving.Interleave(c.setup, x);
  }

  /** A message that is to be accepted is not refused. */
  lemma NotRefused(s: Setup, role: Role, e: Endpoint)
    requires Works(s) && Honest(s, role, e) && e.io.Receiving?
    requires !FrameAt(s.suite, e.stage, e.io.got).Need?
    ensures FrameAt(s.suite, e.stage, e.io.got).Whole? && Acceptable(s, e.stage, e.l, e.io.got)
  {
    hide LocalAt, WireAt, FrameAt, Acceptable, Works, Sane;
    ReceiverIs(s, role, e);
    NeverBad(s, e.stage, e.io.got);
    WholeIsPlanned(s, e.stage, e.io.got);
    PlannedAccepted(s, e.stage);
  }

  // ---- How programs end -------------------------------------------------------------------

  datatype Outcome = Success | Stopped(why: Reason)

  /** The program stopped because of a failing call of the kernel or of a library. */
  predicate Disturbed(o: Outcome) {
    o.Stopped? && (o.why.KernelError? || o.why.LibraryError?)
  }

  ghost function OutcomeOf(p: Program): Outcome
    reads p, p.socket, p.library, p.transcript, p.transcript.ctx
  {
    if p.Completed() then Success else Stopped(p.reason)
  }

  /** What an outcome says of the state it was reached in. */
  predicate Reported(s: Setup, sys: System, role: Role, o: Outcome) {
    var e := sys.Of(role);
    match o
    case Success => e.alive && e.stage == MESSAGES
    case Stopped(StreamEnded) =>
      e.io.Receiving? && FrameAt(s.suite, e.stage, e.io.got).Need? && sys.From(Peer(role)) == []
    case Stopped(MessageRefused) =>
      e.io.Receiving? && !FrameAt(s.suite, e.stage, e.io.got).Need?
      && !(FrameAt(s.suite, e.stage, e.io.got).Whole? && Acceptable(s, e.stage, e.l, e.io.got))
    case _ => true
  }

  /** A program finds the stream ended only when its peer was disturbed. */
  lemma StreamEndsOnlyEarly(s: Setup, sys: System, role: Role, o: Outcome)
    requires Works(s) && Consistent(s, sys)
    requires Reported(s, sys, role, Stopped(StreamEnded)) && Reported(s, sys, Peer(role), o)
    ensures Disturbed(o)
  {
    hide Works, Honest, Joined, FrameAt, Acceptable, WireAt, LocalAt;
    var e, peer := sys.Of(role), sys.Of(Peer(role));
    ReceiverIs(s, role, e);
    PeerStillSending(s, sys, role);
    if o == Stopped(StreamEnded) {
      PeerStillSending(s, sys, Peer(role));
    } else if o == Stopped(MessageRefused) {
      NotRefused(s, Peer(role), peer);
    }
  }

  lemma SuccessOrDisturbance(s: Setup, sys: System, c: Outcome, v: Outcome)
    requires Works(s) && Consistent(s, sys)
    requires Reported(s, sys, Client, c) && Reported(s, sys, Server, v)
    ensures Disturbed(c) || Disturbed(v) || (c.Success? && v.Success?)
  {
    hide Works, Honest, Joined, FrameAt, Acceptable;
    if c == Stopped(MessageRefused) {
      NotRefused(s, Client, sys.client);
    } else if v == Stopped(MessageRefused) {
      NotRefused(s, Server, sys.server);
    } else if c == Stopped(StreamEnded) {
      StreamEndsOnlyEarly(s, sys, Client, v);
    } else if v == Stopped(StreamEnded) {
      StreamEndsOnlyEarly(s, sys, Server, c);
    }
  }

  lemma OutcomesReported(c: Program, v: Program, sys: System)
    requires Connected(c, v) && SystemOf(c, v, sys) && Joined(sys)
    ensures Reported(c.setup, sys, Client, OutcomeOf(c)) && Reported(c.setup, sys, Server, OutcomeOf(v))
  {
    hide Run, FrameAt, Acceptable, Hashing;
    EndOfStream(sys.client.rcvd, c.socket.inbound, sys.toClient, sys.server.sent);
    EndOfStream(sys.server.rcvd, v.socket.inbound, sys.toServer, sys.client.sent);
  }

  lemma EndOfStream(rcvd: Bytes, left: Bytes, channel: Bytes, sent: Bytes)
    requires sent == rcvd + left && sent == rcvd + channel
    ensures left == channel
  {
    CancelHead(rcvd, left, channel);
  }

  lemma DisturbedIsNotHealthy(p: Program)
    requires Ended(p) && Disturbed(OutcomeOf(p))
    ensures !p.Healthy()
  {
    hide Run, FrameAt, Acceptable, Hashing;
  }

  /** With algorithms that work and texts that fit, two programs with no failing call of the
      kernel or of a library between them refuse no message, never find the stream ended, and
      both succeed with the text of the other. */
  lemma UndisturbedSucceed(c: Program, v: Program)
    requires Connected(c, v) && Works(c.setup) && c.Healthy() && v.Healthy()
    ensures c.Completed() && c.inbox == c.setup.serverText
    ensures v.Completed() && v.inbox == c.setup.clientText
  {
    hide Run, Works, FrameAt, Acceptable, Hashing, LocalAt, WireAt, Execution, Sane, Held, Plan, Reported, Disturbed;
    var s := c.setup;
    var capacity, steps := EndOfExecution(c, v);
    var sys := Execution(s, capacity, steps).value;
    ExecutionConsistent(s, capacity, steps);
    OutcomesReported(c, v, sys);
    SuccessOrDisturbance(s, sys, OutcomeOf(c), OutcomeOf(v));
    if Disturbed(OutcomeOf(c)) {
      DisturbedIsNotHealthy(c);
    }
    if Disturbed(OutcomeOf(v)) {
      DisturbedIsNotHealthy(v);
    }
    ClientInbox(s);
    ServerInbox(s);
  }

  lemma CompletedFit(c: Program, v: Program)
    requires Connected(c, v) && c.Completed() && v.Completed()
    ensures TextsFit(c.setup)
  {
    hide Run, FrameAt, Acceptable, Hashing, Execution;
    var capacity, steps := EndOfExecution(c, v);
    NeedsRoom(c.setup, capacity, steps);
  }

  /** The two programs, run to their ends on a network that delivers what it is given, with
      algorithms that work, both succeed exactly if the texts fit and no call of the kernel or of
      a library has failed on either side. */
  lemma BothSucceed(c: Program, v: Program)
    requires Connected(c, v) && AlgorithmsWork(c.setup)
    ensures c.Completed() && v.Completed() <==>
            |c.setup.clientText| <= 1023 && |c.setup.serverText| <= 1023 && c.Healthy() && v.Healthy()
    ensures c.Completed() && v.Completed() ==> c.inbox == c.setup.serverText && v.inbox == c.setup.clientText
  {
    hide Run, AlgorithmsWork, FrameAt, Acceptable, Hashing;
    if c.Completed() && v.Completed() {
      CompletedFit(c, v);
      c.CompletedIsWell();
      v.CompletedIsWell();
    }
    if TextsFit(c.setup) && c.Healthy() && v.Healthy() {
      UndisturbedSucceed(c, v);
    }
  }

  ghost function Absorbed(p: Program): Bytes
    reads p.transcript, p.transcript.ctx
  {
    p.transcript.Absorbed()
  }

  /** However the two programs ended on such a network, at whatever point of whatever stage, what
      one has hashed is a prefix of what the other has. */
  lemma TranscriptsNested(c: Program, v: Program)
    requires Connected(c, v)
    ensures Absorbed(c) <= Absorbed(v) || Absorbed(v) <= Absorbed(c)
  {
    hide Run, FrameAt, Acceptable, Hashing, Execution;
    var capacity, steps := EndOfExecution(c, v);
    var sys := Execution(c.setup, capacity, steps).value;
    var log, log' := LogOf(c), LogOf(v);
    TranscriptPrefixBetween(c.setup, capacity, steps, log, log');
  }

  /** The messages hashed by a program that has ended. */
  ghost function LogOf(p: Program): (log: seq<Message>)
    requires Ended(p)
    reads p, p.socket, p.library, p.transcript, p.transcript.ctx
    ensures Absorbed(p) == EncodeAll(log) && Hashing(p.setup, p.State(), log)
  {
    if p.Completed() then p.State().l.log else p.hashed
  }

  /** Whatever the peer sent, the transcript of a program that has completed is what was on its
      wire: for a client the ClientHello it sent, what it received of the handshake, and the
      Finished it sent; for a server the same with sending and receiving exchanged. */
  lemma TranscriptIsWire(p: Program)
    requires p.Completed()
    ensures var outer, inner := if p.role.Client? then p.socket.outbound else p.first,
                                if p.role.Client? then p.first else p.socket.outbound;
            Framed(Absorbed(p), outer, inner, HEADER_LEN + p.setup.suite.kemPublicLen, FINISHED_LEN)
  {
    hide Run, EncodeAll, Framed;
    TranscriptKept(p.setup, p.role, p.events);
    var e := p.State();
    if p.role.Client? {
      FramedLonger(Absorbed(p), e.sent, p.socket.outbound, e.rcvd, p.first, HEADER_LEN + p.setup.suite.kemPublicLen, FINISHED_LEN);
    } else {
      FramedLonger(Absorbed(p), e.rcvd, p.first, e.sent, p.socket.outbound, HEADER_LEN + p.setup.suite.kemPublicLen, FINISHED_LEN);
    }
  }

  lemma FramedLonger(t: Bytes, outer: Bytes, outer': Bytes, inner: Bytes, inner': Bytes, hello: nat, finished: nat)
    requires Framed(t, outer, inner, hello, finished) && outer <= outer' && inner <= inner'
    ensures Framed(t, outer', inner', hello, finished)
  {
    assert outer'[..hello] == outer[..hello];
    assert outer'[hello..hello + finished] == outer[hello..hello + finished];
    assert inner'[..|t| - hello - finished] == inner[..|t| - hello - finished];
  }

  /** Two programs that have completed on such a network have sent and received under the same
      keys and IVs, crossed over, and are at the same numbers. */
  lemma KeysCross(c: Program, v: Program)
    requires Connected(c, v) && KemWorks(c.setup) && c.Completed() && v.Completed()
    ensures c.State().l.snd == v.State().l.rcv && v.State().l.snd == c.State().l.rcv
    ensures c.State().l.secret == v.State().l.secret
  {
    hide Run, FrameAt, Acceptable, Hashing, Execution, KemWorks;
    var capacity, steps := EndOfExecution(c, v);
    StatesCross(c.setup, capacity, steps);
    SecretsShared(c.setup, capacity, steps);
  }
}
