/** Executions in which nothing fails come to an end, and to the right one. */
module Liveness {
  import opened ByteStrings
  import opened Primitives
  import Handshake
  import opened Record
  import opened Protocol
  import opened EndpointRuns
  import opened Session
  import opened Agreement

  /** The algorithms undo each other on the keys of `s`. */
  ghost predicate AlgorithmsWork(s: Setup) {
    && KemWorks(s)
    && Opens(s.suite)
    && (forall data :: s.suite.verify(s.sigPublic, data, Sign(s.suite, s.sigSecret, data, s.signCoins)))
  }

  /** Each text fits the buffer of its receiver. */
  predicate TextsFit(s: Setup) {
    |s.clientText| <= RECORD_CAPACITY && |s.serverText| <= RECORD_CAPACITY
  }

  ghost predicate Works(s: Setup) {
    AlgorithmsWork(s) && TextsFit(s)
  }

  // ---- Every planned message is accepted --------------------------------------------------

  lemma ReceiverHash(s: Setup, i: nat)
    ensures TranscriptHash(s, LocalAt(s, Client, i)) == TranscriptHash(s, LocalAt(s, Server, i))
  {
    hide LocalAt, LogAt;
    LogsPlanned(s, Client, i);
    LogsPlanned(s, Server, i);
  }

  lemma CertifiedKey(s: Setup)
    ensures LocalAt(s, Client, 3).peerKey == s.sigPublic
  {
    NextLocal(s, Client, 2);
    PayloadOfEncoding(MessageAt(s, 2));
  }

  lemma PayloadAt(s: Setup, i: nat)
    requires i < HANDSHAKE_MESSAGES
    ensures Handshake.Payload(WireAt(s, i)) == BodyOf(s, i, LocalAt(s, SenderOf(i), i))
  {
    hide LocalAt, BodyOf;
    PayloadOfEncoding(MessageAt(s, i));
  }

  lemma BodyAccepted(s: Setup, i: nat)
    requires Works(s) && i < HANDSHAKE_MESSAGES
    ensures BodyAcceptable(s, i, LocalAt(s, Peer(SenderOf(i)), i), BodyOf(s, i, LocalAt(s, SenderOf(i), i)))
  {
    hide LocalAt;
    ReceiverHash(s, i);
    if i == 3 {
      CertifiedKey(s);
    } else if i >= 4 {
      SecretsAgree(s, i);
    }
  }

  lemma TextOpened(s: Setup, i: nat)
    requires Works(s) && HANDSHAKE_MESSAGES <= i < MESSAGES
    ensures Opened(s.suite, LocalAt(s, Peer(SenderOf(i)), i).rcv, WireAt(s, i)) == Some(TextOf(s, i))
  {
    hide LocalAt, Opened, Sealed;
    DirectionsCross(s, i);
    OpenedSealed(s.suite, LocalAt(s, SenderOf(i), i).snd, TextOf(s, i));
  }

  lemma PlannedAccepted(s: Setup, i: nat)
    requires Works(s) && i < MESSAGES
    ensures Acceptable(s, i, LocalAt(s, Peer(SenderOf(i)), i), WireAt(s, i))
  {
    hide LocalAt, BodyOf, BodyAcceptable, Opened;
    if i < HANDSHAKE_MESSAGES {
      PayloadAt(s, i);
      BodyAccepted(s, i);
    } else {
      TextOpened(s, i);
    }
  }

  lemma NeverBad(s: Setup, i: nat, got: Bytes)
    requires Works(s) && i < MESSAGES && got <= WireAt(s, i)
    ensures !FrameAt(s.suite, i, got).Bad?
  {
    hide LocalAt, BodyOf, Sealed, RecordFrameOf;
    assert got == WireAt(s, i)[..|got|];
    if i < HANDSHAKE_MESSAGES {
      FrameOfWire(s, i, |got|);
    } else {
      FrameOfRecord(s.suite, LocalAt(s, SenderOf(i), i).snd, TextOf(s, i), |got|);
    }
  }

  /** Without a failure of the kernel or a library, a program does not fail. */
  lemma StaysAlive(s: Setup, role: Role, e: Endpoint, ev: Event)
    requires Works(s) && Honest(s, role, e) && Enabled(s, e, ev) && !ev.Abort?
    ensures Apply(s, role, e, ev).alive
  {
    hide LocalAt, WireAt, FrameAt, Acceptable, Works, Sane;
    if ev.Turn? && e.io.Receiving? {
      NeverBad(s, e.stage, e.io.got);
      WholeIsPlanned(s, e.stage, e.io.got);
      ReceiverIs(s, role, e);
      PlannedAccepted(s, e.stage);
    }
  }

  lemma ReceiverIs(s: Setup, role: Role, e: Endpoint)
    requires Honest(s, role, e) && e.io.Receiving?
    ensures e.stage < MESSAGES && role == Peer(SenderOf(e.stage))
  {
    hide LocalAt, WireAt;
  }

  predicate FaultFree(steps: seq<Step>) {
    forall k | 0 <= k < |steps| :: !steps[k].ev.Abort?
  }

  predicate BothAlive(sys: System) {
    sys.client.alive && sys.server.alive
  }

  lemma StepAlive(s: Setup, capacity: nat, sys: System, step: Step)
    requires Works(s) && Consistent(s, sys) && BothAlive(sys)
    requires CanStep(s, capacity, sys, step) && !step.ev.Abort?
    ensures BothAlive(After(s, capacity, sys, step))
  {
    hide Honest, Joined, Works, Apply, Enabled;
    StaysAlive(s, step.role, sys.Of(step.role), step.ev);
  }

  lemma {:induction false} AllAlive(s: Setup, capacity: nat, steps: seq<Step>)
    requires Works(s) && Execution(s, capacity, steps).Some? && FaultFree(steps)
    ensures BothAlive(Execution(s, capacity, steps).value)
  {
    hide Consistent, Works, CanStep, After, Start;
    if |steps| > 0 {
      var front, step := steps[..|steps| - 1], steps[|steps| - 1];
      AllAlive(s, capacity, front);
      ExecutionConsistent(s, capacity, front);
      StepAlive(s, capacity, Execution(s, capacity, front).value, step);
    } else {
      StartAlive(s);
    }
  }

  lemma StartAlive(s: Setup)
    ensures Start(s, Client).alive && Start(s, Server).alive
  {
  }

  // ---- The work left always shrinks -------------------------------------------------------

  /** The octets of the messages from `i` on and one for the end of each. */
  function Rest(s: Setup, i: nat): nat
    decreases MESSAGES - i
  {
    if i >= MESSAGES then 0 else |WireAt(s, i)| + 1 + Rest(s, i + 1)
  }

  function Done(io: Io): nat {
    match io
    case Sending(_, k) => k
    case Receiving(got) => |got|
    case Closed => 0
  }

  function Work(s: Setup, e: Endpoint): int {
    Rest(s, e.stage) - Done(e.io)
  }

  lemma DoneBound(s: Setup, role: Role, e: Endpoint)
    requires Honest(s, role, e)
    ensures Done(e.io) <= (if e.stage < MESSAGES then |WireAt(s, e.stage)| else 0)
    ensures Work(s, e) >= 0
  {
    hide LocalAt, WireAt;
    if e.io.Sending? {
      SentPlanned(s, role, e);
    }
  }

  lemma TurnShrinks(s: Setup, role: Role, e: Endpoint)
    requires Honest(s, role, e) && Enabled(s, e, Turn) && Apply(s, role, e, Turn).alive
    ensures Work(s, Apply(s, role, e, Turn)) < Work(s, e)
  {
    hide LocalAt, WireAt, FrameAt, AfterSend, AfterReceive, Prepare, WireOf, Acceptable, Sane;
    if e.io.Sending? {
      SentPlanned(s, role, e);
    } else {
      WholeIsPlanned(s, e.stage, e.io.got);
    }
  }

  lemma StepShrinks(s: Setup, role: Role, e: Endpoint, ev: Event)
    requires Honest(s, role, e) && Enabled(s, e, ev) && !ev.Abort? && Apply(s, role, e, ev).alive
    ensures Work(s, Apply(s, role, e, ev)) < Work(s, e)
  {
    hide Honest, WireAt, FrameAt;
    if ev.Turn? {
      TurnShrinks(s, role, e);
    }
  }

  /** The most steps a program can still make, the one in which it fails included. */
  function StepsLeft(s: Setup, e: Endpoint): int {
    if e.alive then Work(s, e) + 1 else 0
  }

  lemma StepTakesOne(s: Setup, role: Role, e: Endpoint, ev: Event)
    requires Honest(s, role, e) && Enabled(s, e, ev)
    ensures StepsLeft(s, Apply(s, role, e, ev)) < StepsLeft(s, e)
  {
    hide Honest, Work, FrameAt, Enter, Acceptable;
    DoneBound(s, role, e);
    if Apply(s, role, e, ev).alive {
      StepShrinks(s, role, e, ev);
    }
  }

  lemma StepsLeftBound(s: Setup, role: Role, e: Endpoint)
    requires Honest(s, role, e)
    ensures StepsLeft(s, e) >= 0
  {
    hide Honest, Work;
    DoneBound(s, role, e);
  }

  lemma SystemStep(s: Setup, capacity: nat, sys: System, step: Step)
    requires Consistent(s, sys) && CanStep(s, capacity, sys, step)
    ensures var sys' := After(s, capacity, sys, step);
            StepsLeft(s, sys'.client) + StepsLeft(s, sys'.server) < StepsLeft(s, sys.client) + StepsLeft(s, sys.server)
  {
    hide Honest, Joined, Apply, Enabled, StepsLeft;
    StepTakesOne(s, step.role, sys.Of(step.role), step.ev);
  }

  /** No execution, with failures or without, whatever the algorithms and the texts, has more
      steps than there are octets and messages to send and to receive, and two in which the
      programs may fail. */
  lemma {:induction false} Terminates(s: Setup, capacity: nat, steps: seq<Step>)
    requires Execution(s, capacity, steps).Some?
    ensures var sys := Execution(s, capacity, steps).value;
            && |steps| + StepsLeft(s, sys.client) + StepsLeft(s, sys.server) <= 2 * Rest(s, 0) + 2
            && |steps| <= 2 * Rest(s, 0) + 2
  {
    hide Honest, Joined, CanStep, After, StepsLeft, Rest, Start;
    ExecutionConsistent(s, capacity, steps);
    StepsLeftBound(s, Client, Execution(s, capacity, steps).value.client);
    StepsLeftBound(s, Server, Execution(s, capacity, steps).value.server);
    if |steps| > 0 {
      var front, step := steps[..|steps| - 1], steps[|steps| - 1];
      Terminates(s, capacity, front);
      ExecutionConsistent(s, capacity, front);
      SystemStep(s, capacity, Execution(s, capacity, front).value, step);
    } else {
      StartStepsLeft(s, Client);
      StartStepsLeft(s, Server);
    }
  }

  lemma StartStepsLeft(s: Setup, role: Role)
    ensures StepsLeft(s, Start(s, role)) == Rest(s, 0) + 1
  {
    hide WireAt, Rest, WireOf;
  }

  // ---- There is always something to do ----------------------------------------------------

  /** The octets of the first `i` messages that `role` sends. */
  function Volume(s: Setup, role: Role, i: nat): nat {
    |Stream(Plan(s, i), role)|
  }

  lemma VolumeNext(s: Setup, role: Role, i: nat)
    ensures Volume(s, role, i + 1) == Volume(s, role, i) + if SenderOf(i) == role then |WireAt(s, i)| else 0
  {
    hide WireAt;
    NextPlan(s, i);
    StreamSnoc(Plan(s, i), WireAt(s, i), role);
  }

  lemma {:induction false} VolumeMonotone(s: Setup, role: Role, i: nat, j: nat)
    requires i <= j
    ensures Volume(s, role, i) <= Volume(s, role, j)
    decreases j
  {
    hide Volume, WireAt;
    if i < j {
      VolumeMonotone(s, role, i, j - 1);
      VolumeNext(s, role, j - 1);
    }
  }

  lemma Volumes(s: Setup, role: Role, e: Endpoint)
    requires Honest(s, role, e)
    ensures |e.sent| == Volume(s, role, e.stage) + if e.io.Sending? then Done(e.io) else 0
    ensures |e.rcvd| == Volume(s, Peer(role), e.stage) + if e.io.Receiving? then Done(e.io) else 0
  {
    hide WireAt, LocalAt;
  }

  lemma OctetsUnderWay(sys: System, role: Role)
    requires Joined(sys)
    ensures |sys.Of(role).sent| == |sys.Of(Peer(role)).rcvd| + |sys.From(role)|
  {
  }

  lemma Situation(s: Setup, role: Role, e: Endpoint)
    requires Honest(s, role, e) && e.stage < MESSAGES
    ensures if SenderOf(e.stage) == role
            then e.io.Sending? && |e.io.wire| == |WireAt(s, e.stage)| && Done(e.io) <= |e.io.wire|
            else e.io.Receiving?
  {
    hide WireAt, LocalAt;
    if e.io.Sending? {
      SentPlanned(s, role, e);
    }
  }

  lemma NeedMeansShort(s: Setup, role: Role, e: Endpoint)
    requires Honest(s, role, e) && e.stage < MESSAGES && e.io.Receiving?
    requires FrameAt(s.suite, e.stage, e.io.got).Need?
    ensures Done(e.io) < |WireAt(s, e.stage)|
  {
    hide WireAt, LocalAt, FrameAt;
    FrameOfWire(s, e.stage, |e.io.got|);
    assert e.io.got == WireAt(s, e.stage)[..|e.io.got|];
  }

  lemma EmitOne(s: Setup, capacity: nat, sys: System, role: Role) returns (step: Step)
    requires Honest(s, role, sys.Of(role))
    requires var e := sys.Of(role); e.alive && e.stage < MESSAGES && e.io.Sending? && e.io.k < |e.io.wire|
    requires |sys.From(role)| < capacity
    ensures CanStep(s, capacity, sys, step) && !step.ev.Abort?
  {
    hide WireAt, LocalAt, FrameAt, Sane, Planned;
    var e := sys.Of(role);
    step := Step(role, Emit(e.io.wire[e.io.k..e.io.k + 1]));
  }

  lemma AbsorbOne(s: Setup, capacity: nat, sys: System, role: Role) returns (step: Step)
    requires var e := sys.Of(role); e.alive && e.stage < MESSAGES && e.io.Receiving?
    requires |sys.From(Peer(role))| > 0
    ensures CanStep(s, capacity, sys, step) && !step.ev.Abort?
  {
    hide FrameAt;
    var e := sys.Of(role);
    if FrameAt(s.suite, e.stage, e.io.got).Need? {
      step := Step(role, Absorb(sys.From(Peer(role))[..1]));
    } else {
      step := Step(role, Turn);
    }
  }

  /** While the program that is not ahead of its peer has a message to send, one of the two
      can move. */
  lemma SenderProgress(s: Setup, capacity: nat, sys: System, role: Role) returns (step: Step)
    requires Honest(s, role, sys.Of(role)) && Honest(s, Peer(role), sys.Of(Peer(role))) && Joined(sys)
    requires sys.Of(role).alive && sys.Of(Peer(role)).alive && capacity > 0
    requires var m := sys.Of(role).stage; m < MESSAGES && m <= sys.Of(Peer(role)).stage && SenderOf(m) == role
    ensures CanStep(s, capacity, sys, step) && !step.ev.Abort?
  {
    hide Honest, Joined, FrameAt, Volume, WireAt;
    var e, peer := sys.Of(role), sys.Of(Peer(role));
    Situation(s, role, e);
    if e.io.k == |e.io.wire| {
      step := Step(role, Turn);
    } else if |sys.From(role)| < capacity {
      step := EmitOne(s, capacity, sys, role);
    } else {
      PeerAtSameStage(s, sys, role);
      Situation(s, Peer(role), peer);
      step := AbsorbOne(s, capacity, sys, Peer(role));
    }
  }

  /** A program is not past a message its peer has not finished sending. */
  lemma PeerAtSameStage(s: Setup, sys: System, role: Role)
    requires Honest(s, role, sys.Of(role)) && Honest(s, Peer(role), sys.Of(Peer(role))) && Joined(sys)
    requires var e := sys.Of(role);
             e.stage < MESSAGES && SenderOf(e.stage) == role && e.io.Sending? && e.io.k < |e.io.wire|
    ensures sys.Of(Peer(role)).stage <= sys.Of(role).stage
  {
    hide Honest, Joined, Volume, FrameAt, WireAt, LocalAt;
    var e, peer := sys.Of(role), sys.Of(Peer(role));
    Situation(s, role, e);
    Volumes(s, role, e);
    Volumes(s, Peer(role), peer);
    OctetsUnderWay(sys, role);
    VolumeNext(s, role, e.stage);
    if e.stage < peer.stage {
      VolumeMonotone(s, role, e.stage + 1, peer.stage);
    }
  }

  /** A program waiting for octets that are not under way waits for a peer that is still
      sending them: it never finds the stream ended. */
  lemma PeerStillSending(s: Setup, sys: System, role: Role)
    requires Honest(s, role, sys.Of(role)) && Honest(s, Peer(role), sys.Of(Peer(role))) && Joined(sys)
    requires var e := sys.Of(role);
             e.stage < MESSAGES && e.io.Receiving? && FrameAt(s.suite, e.stage, e.io.got).Need?
    requires sys.From(Peer(role)) == []
    ensures sys.Of(Peer(role)).stage <= sys.Of(role).stage
    ensures sys.Of(Peer(role)).stage == sys.Of(role).stage ==>
              var io := sys.Of(Peer(role)).io; io.Sending? && io.k < |io.wire|
  {
    hide Honest, Joined, Volume, FrameAt, WireAt;
    var e, peer := sys.Of(role), sys.Of(Peer(role));
    ReceiverIs(s, role, e);
    NeedMeansShort(s, role, e);
    Volumes(s, role, e);
    Volumes(s, Peer(role), peer);
    OctetsUnderWay(sys, Peer(role));
    VolumeNext(s, Peer(role), e.stage);
    if e.stage < peer.stage {
      VolumeMonotone(s, Peer(role), e.stage + 1, peer.stage);
    } else if e.stage == peer.stage {
      Situation(s, Peer(role), peer);
    }
  }

  lemma ReceiverProgress(s: Setup, capacity: nat, sys: System, role: Role) returns (step: Step)
    requires Honest(s, role, sys.Of(role)) && Honest(s, Peer(role), sys.Of(Peer(role))) && Joined(sys)
    requires sys.Of(role).alive && sys.Of(Peer(role)).alive && capacity > 0
    requires var m := sys.Of(role).stage; m < MESSAGES && m <= sys.Of(Peer(role)).stage && SenderOf(m) != role
    ensures CanStep(s, capacity, sys, step) && !step.ev.Abort?
  {
    hide Honest, Joined, FrameAt, Volume, WireAt;
    var e := sys.Of(role);
    Situation(s, role, e);
    if |sys.From(Peer(role))| > 0 {
      step := AbsorbOne(s, capacity, sys, role);
    } else if FrameAt(s.suite, e.stage, e.io.got).Need? {
      PeerStillSending(s, sys, role);
      step := EmitOne(s, capacity, sys, Peer(role));
    } else {
      step := Step(role, Turn);
    }
  }

  /** No deadlock: while a program has not finished, some step is possible, however little
      the channels hold. */
  lemma Progress(s: Setup, capacity: nat, sys: System) returns (step: Step)
    requires Consistent(s, sys) && sys.client.alive && sys.server.alive && capacity > 0
    requires sys.client.stage < MESSAGES || sys.server.stage < MESSAGES
    ensures CanStep(s, capacity, sys, step) && !step.ev.Abort?
  {
    hide Honest, Joined, CanStep;
    var role := if sys.client.stage <= sys.server.stage then Client else Server;
    StageBound(s, Client, sys.client);
    StageBound(s, Server, sys.server);
    if SenderOf(sys.Of(role).stage) == role {
      step := SenderProgress(s, capacity, sys, role);
    } else {
      step := ReceiverProgress(s, capacity, sys, role);
    }
  }

  lemma StageBound(s: Setup, role: Role, e: Endpoint)
    requires Honest(s, role, e)
    ensures e.stage <= MESSAGES
  {
    hide Sane, LocalAt, Plan;
  }

  /** The work of a session is its octets and one step for the end of each of its messages. */
  lemma RestTotal(s: Setup)
    ensures Rest(s, 0) == |Stream(Plan(s, 8), Client)| + |Stream(Plan(s, 8), Server)| + 8
  {
    hide Volume, WireAt, LocalAt;
    RestFrom(s, 0);
    assert Volume(s, Client, 0) == 0 == Volume(s, Server, 0) by {
      VolumeStart(s);
    }
    assert Volume(s, Client, 8) == |Stream(Plan(s, 8), Client)| && Volume(s, Server, 8) == |Stream(Plan(s, 8), Server)| by {
      VolumeIs(s, Client, 8);
      VolumeIs(s, Server, 8);
    }
  }

  lemma VolumeStart(s: Setup)
    ensures Volume(s, Client, 0) == 0 == Volume(s, Server, 0)
  {
  }

  lemma VolumeIs(s: Setup, role: Role, i: nat)
    ensures Volume(s, role, i) == |Stream(Plan(s, i), role)|
  {
  }

  lemma {:induction false} RestFrom(s: Setup, i: nat)
    requires i <= MESSAGES
    ensures Rest(s, i) + Volume(s, Client, i) + Volume(s, Server, i)
            == Volume(s, Client, MESSAGES) + Volume(s, Server, MESSAGES) + (MESSAGES - i)
    decreases MESSAGES - i
  {
    hide Volume, WireAt, LocalAt;
    if i < MESSAGES {
      RestFrom(s, i + 1);
      VolumeNext(s, Client, i);
      VolumeNext(s, Server, i);
    }
  }

  // ---- The end ----------------------------------------------------------------------------

  lemma ServerInbox(s: Setup)
    requires Works(s)
    ensures LocalAt(s, Server, 8).inbox == s.clientText
  {
    hide LocalAt, WireAt, Works;
    TextOpened(s, 6);
    PlannedAccepted(s, 6);
    NextLocal(s, Server, 6);
    NextLocal(s, Server, 7);
  }

  lemma ClientInbox(s: Setup)
    requires Works(s)
    ensures LocalAt(s, Client, 8).inbox == s.serverText
  {
    hide LocalAt, WireAt, Works;
    TextOpened(s, 7);
    PlannedAccepted(s, 7);
    NextLocal(s, Client, 7);
  }

  /** Nothing is possible but a failure. */
  ghost predicate Stuck(s: Setup, capacity: nat, sys: System) {
    forall step: Step :: CanStep(s, capacity, sys, step) ==> step.ev.Abort?
  }

  /** An execution without a failure that cannot go on without one has ended with success on
      both sides, and each has read the text of the other. */
  lemma Completes(s: Setup, capacity: nat, steps: seq<Step>)
    requires Works(s) && capacity > 0 && FaultFree(steps)
    requires Execution(s, capacity, steps).Some?
    requires Stuck(s, capacity, Execution(s, capacity, steps).value)
    ensures var sys := Execution(s, capacity, steps).value;
            && sys.client.stage == MESSAGES && sys.client.alive && sys.client.l.inbox == s.serverText
            && sys.server.stage == MESSAGES && sys.server.alive && sys.server.l.inbox == s.clientText
  {
    hide LocalAt, WireAt, Works, CanStep, Sane, Joined, Plan, Held;
    var sys := Execution(s, capacity, steps).value;
    ExecutionConsistent(s, capacity, steps);
    AllAlive(s, capacity, steps);
    if sys.client.stage < MESSAGES || sys.server.stage < MESSAGES {
      var step := Progress(s, capacity, sys);
      assert false;
    }
    ClientInbox(s);
    ServerInbox(s);
  }

  // ---- The texts have to fit --------------------------------------------------------------

  /** There is room for every text that `role` has received on reaching `stage`. */
  predicate Fitted(s: Setup, role: Role, stage: nat) {
    && (role.Server? && stage > 6 ==> |s.clientText| <= RECORD_CAPACITY)
    && (role.Client? && stage > 7 ==> |s.serverText| <= RECORD_CAPACITY)
  }

  lemma WholeRecordFits(s: Setup, stage: nat)
    requires HANDSHAKE_MESSAGES <= stage < MESSAGES
    requires FrameAt(s.suite, stage, WireAt(s, stage)).Whole?
    ensures |TextOf(s, stage)| <= RECORD_CAPACITY
  {
    hide LocalAt, Sealed, RecordFrameOf;
    var d, text := LocalAt(s, SenderOf(stage), stage).snd, TextOf(s, stage);
    assert WireAt(s, stage)[..|WireAt(s, stage)|] == WireAt(s, stage);
    RoomDecides(s.suite, d, text, RECORD_CAPACITY, |WireAt(s, stage)|);
  }

  lemma TurnFitted(s: Setup, role: Role, e: Endpoint)
    requires Honest(s, role, e) && Enabled(s, e, Turn) && Fitted(s, role, e.stage)
    ensures Fitted(s, role, Apply(s, role, e, Turn).stage)
  {
    hide Sane, LocalAt, WireAt, FrameAt, Acceptable, AfterSend, AfterReceive, Prepare, WireOf;
    TurnCases(s, role, e);
    if e.io.Sending? {
      SenderIs(s, role, e);
    } else if FrameAt(s.suite, e.stage, e.io.got).Whole? {
      WholeIsPlanned(s, e.stage, e.io.got);
      if e.stage >= HANDSHAKE_MESSAGES {
        WholeRecordFits(s, e.stage);
      }
    }
  }

  lemma SenderIs(s: Setup, role: Role, e: Endpoint)
    requires Honest(s, role, e) && e.io.Sending?
    ensures e.stage < MESSAGES && role == SenderOf(e.stage)
  {
    hide LocalAt, WireAt;
  }

  lemma StepFitted(s: Setup, role: Role, e: Endpoint, ev: Event)
    requires Honest(s, role, e) && Enabled(s, e, ev) && Fitted(s, role, e.stage)
    ensures Fitted(s, role, Apply(s, role, e, ev).stage)
  {
    hide Honest, FrameAt, Fitted;
    if ev.Turn? {
      TurnFitted(s, role, e);
    }
  }

  /** A program that has read a text had room for it. Both sides send up to 1024 octets and
      have room for 1023, so a session with a text of 1024 octets never ends in success. */
  lemma {:induction false} NeedsRoom(s: Setup, capacity: nat, steps: seq<Step>)
    requires Execution(s, capacity, steps).Some?
    ensures Fitted(s, Client, Execution(s, capacity, steps).value.client.stage)
    ensures Fitted(s, Server, Execution(s, capacity, steps).value.server.stage)
  {
    hide Honest, Joined, Enabled, Apply, Fitted;
    if |steps| > 0 {
      var front, step := steps[..|steps| - 1], steps[|steps| - 1];
      NeedsRoom(s, capacity, front);
      ExecutionConsistent(s, capacity, front);
      StepFitted(s, step.role, Execution(s, capacity, front).value.Of(step.role), step.ev);
    } else {
      StartFitted(s);
    }
  }

  lemma StartFitted(s: Setup)
    ensures Fitted(s, Client, Start(s, Client).stage) && Fitted(s, Server, Start(s, Server).stage)
  {
  }

  predicate Succeeded(sys: System) {
    sys.client.alive && sys.client.stage == MESSAGES && sys.server.alive && sys.server.stage == MESSAGES
  }

  /** An execution without a failure that cannot go on without one has ended in success exactly
      if the texts fit. */
  lemma SucceedsExactly(s: Setup, capacity: nat, steps: seq<Step>)
    requires AlgorithmsWork(s) && capacity > 0 && FaultFree(steps)
    requires Execution(s, capacity, steps).Some?
    requires Stuck(s, capacity, Execution(s, capacity, steps).value)
    ensures Succeeded(Execution(s, capacity, steps).value) <==> TextsFit(s)
    ensures TextsFit(s) <==> |s.clientText| <= 1023 && |s.serverText| <= 1023
  {
    hide AlgorithmsWork, Execution, CanStep;
    NeedsRoom(s, capacity, steps);
    if TextsFit(s) {
      Completes(s, capacity, steps);
    }
  }

  lemma MoreSteps(s: Setup, capacity: nat, steps: seq<Step>, step: Step)
    requires FaultFree(steps) && !step.ev.Abort?
    requires Execution(s, capacity, steps).Some? && CanStep(s, capacity, Execution(s, capacity, steps).value, step)
    ensures FaultFree(steps + [step])
    ensures Execution(s, capacity, steps + [step]) == Some(After(s, capacity, Execution(s, capacity, steps).value, step))
  {
    hide CanStep, After;
    assert (steps + [step])[..|steps|] == steps;
  }

  /** Every execution without failures goes on to one that is stuck. */
  lemma {:induction false} ReachStuck(s: Setup, capacity: nat, steps: seq<Step>) returns (all: seq<Step>)
    requires FaultFree(steps) && Execution(s, capacity, steps).Some?
    ensures steps <= all && FaultFree(all)
    ensures Execution(s, capacity, all).Some? && Stuck(s, capacity, Execution(s, capacity, all).value)
    decreases 2 * Rest(s, 0) + 2 - |steps|
  {
    hide FaultFree, Execution, CanStep, After, Rest;
    var sys := Execution(s, capacity, steps).value;
    if Stuck(s, capacity, sys) {
      all := steps;
    } else {
      var step: Step :| CanStep(s, capacity, sys, step) && !step.ev.Abort?;
      MoreSteps(s, capacity, steps, step);
      Terminates(s, capacity, steps + [step]);
      all := ReachStuck(s, capacity, steps + [step]);
    }
  }

  /** From every state that an execution without failures has reached, success can be. */
  lemma SuccessReachable(s: Setup, capacity: nat, steps: seq<Step>) returns (all: seq<Step>)
    requires Works(s) && capacity > 0 && FaultFree(steps) && Execution(s, capacity, steps).Some?
    ensures steps <= all && FaultFree(all)
    ensures Execution(s, capacity, all).Some? && Succeeded(Execution(s, capacity, all).value)
  {
    hide Works, FaultFree, Execution, CanStep;
    all := ReachStuck(s, capacity, steps);
    Completes(s, capacity, all);
  }

  /** A setup with the given texts in which the algorithms work: what is asked of them can be
      had. */
  function Example(clientText: Bytes, serverText: Bytes): Setup
    requires 0 < |clientText| <= MAX_PLAINTEXT_LEN && 0 < |serverText| <= MAX_PLAINTEXT_LEN
  {
    Setup(DEGENERATE, Zeros(1), [], Zeros(1), [], 0, 0, clientText, serverText)
  }

  lemma WorksPossible(clientText: Bytes, serverText: Bytes)
    requires 0 < |clientText| <= MAX_PLAINTEXT_LEN && 0 < |serverText| <= MAX_PLAINTEXT_LEN
    ensures AlgorithmsWork(Example(clientText, serverText))
  {
    OpensPossible();
  }

  /** With working algorithms, no failing call, and a client text of the 1024 octets that a
      sender accepts, the programs come to a stop without success. */
  lemma TooLongFails() returns (s: Setup, steps: seq<Step>)
    ensures AlgorithmsWork(s) && |s.clientText| == MAX_PLAINTEXT_LEN
    ensures FaultFree(steps) && Execution(s, 1, steps).Some?
    ensures var sys := Execution(s, 1, steps).value; Stuck(s, 1, sys) && !Succeeded(sys)
  {
    hide AlgorithmsWork, CanStep, Start;
    s := Example(Zeros(MAX_PLAINTEXT_LEN), Zeros(1));
    WorksPossible(Zeros(MAX_PLAINTEXT_LEN), Zeros(1));
    steps := ReachStuck(s, 1, []);
    SucceedsExactly(s, 1, steps);
  }
}
