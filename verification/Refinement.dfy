/** Executions over byte channels refine executions over channels of whole messages. */
module Refinement {
  import opened ByteStrings
  import opened Primitives
  import opened Protocol
  import opened EndpointRuns
  import opened Session
  import opened Liveness

  // ---- The protocol over message queues ---------------------------------------------------

  /** `posted`: the message of this stage has been put on the queue. */
  datatype Party = Party(stage: nat, alive: bool, l: Local, posted: bool)

  datatype Exchange = Exchange(client: Party, server: Party, toServer: seq<Bytes>, toClient: seq<Bytes>)
  {
    function Of(role: Role): Party {
      if role.Client? then client else server
    }

    function From(role: Role): seq<Bytes> {
      if role.Client? then toServer else toClient
    }

    function With(role: Role, p: Party, from: seq<Bytes>, to: seq<Bytes>): Exchange {
      if role.Client? then Exchange(p, server, from, to) else Exchange(client, p, to, from)
    }
  }

  /** Put the message on the queue, go on to the next, take the message off the queue and
      accept it, or fail. */
  datatype Action = Post | Proceed | Accept | Halt

  datatype Move = Move(role: Role, action: Action)

  predicate CanMove(s: Setup, x: Exchange, move: Move) {
    var p, to := x.Of(move.role), x.From(Peer(move.role));
    && p.alive && p.stage < MESSAGES
    && match move.action {
       case Post => SenderOf(p.stage) == move.role && !p.posted
       case Proceed => p.posted
       case Accept =>
         SenderOf(p.stage) != move.role && |to| > 0
         && FrameAt(s.suite, p.stage, to[0]).Whole? && Acceptable(s, p.stage, p.l, to[0])
       case Halt => true
       }
  }

  function Moved(s: Setup, x: Exchange, move: Move): Exchange
    requires CanMove(s, x, move)
  {
    var role := move.role;
    var p, from, to := x.Of(role), x.From(role), x.From(Peer(role));
    match move.action
    case Post => x.With(role, p.(posted := true), from + [WireOf(s, p.stage, p.l)], to)
    case Proceed =>
      x.With(role, Party(p.stage + 1, true, Prepare(s, role, p.stage + 1, AfterSend(s, p.stage, p.l)), false), from, to)
    case Accept =>
      x.With(role, Party(p.stage + 1, true, Prepare(s, role, p.stage + 1, AfterReceive(s, p.stage, p.l, to[0])), false),
             from, to[1..])
    case Halt => x.With(role, p.(alive := false), from, to)
  }

  function Begin(s: Setup): Exchange {
    Exchange(Party(0, true, Prepare(s, Client, 0, INITIAL), false),
             Party(0, true, Prepare(s, Server, 0, INITIAL), false), [], [])
  }

  function Play(s: Setup, moves: seq<Move>): Option<Exchange> {
    if |moves| == 0 then Some(Begin(s))
    else
      var before := Play(s, moves[..|moves| - 1]);
      var move := moves[|moves| - 1];
      if before.Some? && CanMove(s, before.value, move) then Some(Moved(s, before.value, move)) else None
  }

  // ---- What a byte level state stands for -------------------------------------------------

  predicate Posted(io: Io) {
    io.Sending? && io.k >= |io.wire|
  }

  /** The number of stages whose messages `e` has sent whole, if they are its to send. */
  function Reached(e: Endpoint): nat {
    e.stage + if Posted(e.io) then 1 else 0
  }

  /** The messages from number `lo` up to `hi` that `role` sends. */
  function Queue(s: Setup, role: Role, lo: nat, hi: nat): seq<Bytes>
    decreases hi
  {
    if hi <= lo then []
    else Queue(s, role, lo, hi - 1) + if SenderOf(hi - 1) == role then [WireAt(s, hi - 1)] else []
  }

  function PartyOf(e: Endpoint): Party {
    Party(e.stage, e.alive, e.l, Posted(e.io))
  }

  /** Whole messages sent and not yet accepted are on the queues; anything else under way is
      part of a message and does not show. */
  function Abstract(s: Setup, sys: System): Exchange {
    Exchange(PartyOf(sys.client), PartyOf(sys.server),
             Queue(s, Client, sys.server.stage, Reached(sys.client)),
             Queue(s, Server, sys.client.stage, Reached(sys.server)))
  }

  /** The move that an event makes, if any: the last octet of a message posts it, other octets
      do nothing, the end of a message is what the program makes of it. */
  function ActionOf(s: Setup, e: Endpoint, ev: Event): Option<Action> {
    match ev
    case Emit(data) => if e.io.Sending? && e.io.k + |data| >= |e.io.wire| then Some(Post) else None
    case Absorb(_) => None
    case Turn =>
      if e.io.Sending? then Some(Proceed)
      else if e.io.Receiving? && FrameAt(s.suite, e.stage, e.io.got).Whole? && Acceptable(s, e.stage, e.l, e.io.got)
      then Some(Accept)
      else Some(Halt)
    case Abort => Some(Halt)
  }

  // ---- Queues -----------------------------------------------------------------------------

  lemma {:induction false} QueueHead(s: Setup, role: Role, lo: nat, hi: nat)
    requires lo < hi
    ensures Queue(s, role, lo, hi)
            == (if SenderOf(lo) == role then [WireAt(s, lo)] else []) + Queue(s, role, lo + 1, hi)
    decreases hi
  {
    hide WireAt;
    if lo + 1 < hi {
      QueueHead(s, role, lo, hi - 1);
    }
  }

  lemma QueueSkip(s: Setup, role: Role, lo: nat, hi: nat)
    requires SenderOf(lo) != role
    ensures Queue(s, role, lo, hi) == Queue(s, role, lo + 1, hi)
  {
    hide WireAt;
    if lo < hi {
      QueueHead(s, role, lo, hi);
    }
  }

  lemma QueueLast(s: Setup, role: Role, lo: nat, hi: nat)
    requires lo <= hi
    ensures Queue(s, role, lo, hi + 1)
            == Queue(s, role, lo, hi) + if SenderOf(hi) == role then [WireAt(s, hi)] else []
  {
    hide WireAt;
  }

  /** A queue that ends before it starts stays empty over a stage that is not its sender's. */
  lemma QueueIdle(s: Setup, role: Role, lo: nat, hi: nat)
    requires SenderOf(hi) != role
    ensures Queue(s, role, lo, hi + 1) == Queue(s, role, lo, hi)
  {
    hide WireAt;
  }

  lemma WirePositive(s: Setup, i: nat)
    ensures |WireAt(s, i)| > 0
  {
    hide LocalAt, BodyOf;
  }

  /** What is received whole has been sent whole. */
  lemma WholeWasSent(s: Setup, sys: System, role: Role)
    requires Consistent(s, sys)
    requires var e := sys.Of(role);
             e.stage < MESSAGES && e.io.Receiving? && FrameAt(s.suite, e.stage, e.io.got).Whole?
    ensures sys.Of(role).stage < Reached(sys.Of(Peer(role)))
  {
    hide Honest, Joined, FrameAt, WireAt, Volume;
    var e, peer := sys.Of(role), sys.Of(Peer(role));
    HeldWhole(s, role, e);
    ReceiverIs(s, role, e);
    Volumes(s, role, e);
    Volumes(s, Peer(role), peer);
    OctetsUnderWay(sys, Peer(role));
    WirePositive(s, e.stage);
    VolumeNext(s, Peer(role), e.stage);
    if peer.stage < e.stage {
      SentBelow(s, Peer(role), peer, e.stage);
    } else if peer.stage == e.stage {
      Situation(s, Peer(role), peer);
    }
  }

  lemma HeldWhole(s: Setup, role: Role, e: Endpoint)
    requires Honest(s, role, e) && e.stage < MESSAGES && e.io.Receiving? && FrameAt(s.suite, e.stage, e.io.got).Whole?
    ensures e.io.got == WireAt(s, e.stage)
  {
    hide Sane, LocalAt, WireAt, FrameAt;
    WholeIsPlanned(s, e.stage, e.io.got);
  }

  lemma SentBelow(s: Setup, role: Role, e: Endpoint, i: nat)
    requires Honest(s, role, e) && e.stage < i <= MESSAGES
    ensures |e.sent| <= Volume(s, role, i)
  {
    hide Honest, WireAt, Volume;
    Volumes(s, role, e);
    Situation(s, role, e);
    VolumeNext(s, role, e.stage);
    VolumeMonotone(s, role, e.stage + 1, i);
  }

  /** A program past a message of its peer has had all of it: the queue it reads from never
      ends before it starts while its peer is in the middle of a message. */
  lemma NotAhead(s: Setup, sys: System, role: Role)
    requires Consistent(s, sys)
    requires var e := sys.Of(role); e.stage < MESSAGES && SenderOf(e.stage) == role && !Posted(e.io)
    ensures sys.Of(Peer(role)).stage <= sys.Of(role).stage
  {
    hide Honest, Joined, WireAt;
    Situation(s, role, sys.Of(role));
    PeerAtSameStage(s, sys, role);
  }

  // ---- Every step is a move or nothing ----------------------------------------------------

  /** The part of the abstract state that belongs to the moving program. */
  lemma EmitParty(s: Setup, role: Role, e: Endpoint, data: Bytes)
    requires Honest(s, role, e) && Enabled(s, e, Emit(data))
    ensures var e' := Apply(s, role, e, Emit(data));
            && e.alive && e.stage < MESSAGES && e.io.Sending?
            && SenderOf(e.stage) == role && !Posted(e.io)
            && e.io.wire == WireAt(s, e.stage) == WireOf(s, e.stage, e.l)
            && PartyOf(e') == PartyOf(e).(posted := e.io.k + |data| >= |e.io.wire|)
  {
    hide LocalAt, WireAt, WireOf, FrameAt;
    SentPlanned(s, role, e);
  }

  lemma EmitRefines(s: Setup, capacity: nat, sys: System, role: Role, data: Bytes)
    requires Consistent(s, sys) && CanStep(s, capacity, sys, Step(role, Emit(data)))
    ensures Refines(s, capacity, sys, Step(role, Emit(data)))
  {
    hide Honest, Joined, WireAt, WireOf, Apply, Enabled, FrameAt, Queue;
    var e := sys.Of(role);
    EmitParty(s, role, e, data);
    NotAhead(s, sys, role);
    QueueLast(s, role, sys.Of(Peer(role)).stage, e.stage);
  }

  lemma AbsorbRefines(s: Setup, capacity: nat, sys: System, role: Role, data: Bytes)
    requires CanStep(s, capacity, sys, Step(role, Absorb(data)))
    ensures Refines(s, capacity, sys, Step(role, Absorb(data)))
  {
    hide FrameAt, Queue;
  }

  lemma AbortRefines(s: Setup, capacity: nat, sys: System, role: Role)
    requires CanStep(s, capacity, sys, Step(role, Abort))
    ensures Refines(s, capacity, sys, Step(role, Abort))
  {
    hide Queue;
  }

  /** A program that goes on to the next stage has posted nothing there yet. */
  lemma EnterParty(s: Setup, role: Role, e: Endpoint, stage: nat, l: Local, wires: seq<Bytes>)
    ensures var e' := Enter(s, role, e, stage, l, wires);
            PartyOf(e') == Party(stage, e.alive, Prepare(s, role, stage, l), false)
  {
    hide Prepare, BodyOf;
  }

  lemma ProceedRefines(s: Setup, capacity: nat, sys: System, role: Role)
    requires Consistent(s, sys) && CanStep(s, capacity, sys, Step(role, Turn)) && sys.Of(role).io.Sending?
    ensures Refines(s, capacity, sys, Step(role, Turn))
  {
    hide Honest, Joined, WireAt, WireOf, FrameAt, Queue, Acceptable, Prepare, AfterSend, AfterReceive, Enter;
    var e, peer := sys.Of(role), sys.Of(Peer(role));
    SenderIs(s, role, e);
    EnterParty(s, role, e, e.stage + 1, AfterSend(s, e.stage, e.l), e.wires + [e.io.wire]);
    QueueSkip(s, Peer(role), e.stage, Reached(peer));
  }

  lemma AcceptRefines(s: Setup, capacity: nat, sys: System, role: Role)
    requires Consistent(s, sys) && CanStep(s, capacity, sys, Step(role, Turn)) && sys.Of(role).io.Receiving?
    requires var e := sys.Of(role);
             FrameAt(s.suite, e.stage, e.io.got).Whole? && Acceptable(s, e.stage, e.l, e.io.got)
    ensures Refines(s, capacity, sys, Step(role, Turn))
  {
    hide Honest, Joined, WireAt, WireOf, FrameAt, Queue, Acceptable, Prepare, AfterSend, AfterReceive, Enter;
    var e, peer := sys.Of(role), sys.Of(Peer(role));
    ReceiverIs(s, role, e);
    HeldWhole(s, role, e);
    WholeWasSent(s, sys, role);
    EnterParty(s, role, e, e.stage + 1, AfterReceive(s, e.stage, e.l, e.io.got), e.wires + [e.io.got]);
    QueueHead(s, Peer(role), e.stage, Reached(peer));
    QueueIdle(s, role, peer.stage, e.stage);
  }

  lemma RejectRefines(s: Setup, capacity: nat, sys: System, role: Role)
    requires CanStep(s, capacity, sys, Step(role, Turn)) && sys.Of(role).io.Receiving?
    requires var e := sys.Of(role);
             !(FrameAt(s.suite, e.stage, e.io.got).Whole? && Acceptable(s, e.stage, e.l, e.io.got))
    ensures Refines(s, capacity, sys, Step(role, Turn))
  {
    hide FrameAt, Acceptable, Queue;
  }

  /** A step makes the move that it stands for, or leaves the abstract state as it is. */
  predicate Refines(s: Setup, capacity: nat, sys: System, step: Step)
    requires CanStep(s, capacity, sys, step)
  {
    var x, x' := Abstract(s, sys), Abstract(s, After(s, capacity, sys, step));
    match ActionOf(s, sys.Of(step.role), step.ev)
    case None => x' == x
    case Some(action) => CanMove(s, x, Move(step.role, action)) && x' == Moved(s, x, Move(step.role, action))
  }

  lemma StepRefines(s: Setup, capacity: nat, sys: System, step: Step)
    requires Consistent(s, sys) && CanStep(s, capacity, sys, step)
    ensures Refines(s, capacity, sys, step)
  {
    hide Refines, Consistent, FrameAt, Acceptable;
    var e := sys.Of(step.role);
    match step.ev
    case Emit(data) => EmitRefines(s, capacity, sys, step.role, data);
    case Absorb(data) => AbsorbRefines(s, capacity, sys, step.role, data);
    case Abort => AbortRefines(s, capacity, sys, step.role);
    case Turn =>
      if e.io.Sending? {
        ProceedRefines(s, capacity, sys, step.role);
      } else if FrameAt(s.suite, e.stage, e.io.got).Whole? && Acceptable(s, e.stage, e.l, e.io.got) {
        AcceptRefines(s, capacity, sys, step.role);
      } else {
        RejectRefines(s, capacity, sys, step.role);
      }
  }

  /** The moves that an execution makes. */
  function MovesOf(s: Setup, capacity: nat, steps: seq<Step>): seq<Move>
    requires Execution(s, capacity, steps).Some?
  {
    if |steps| == 0 then []
    else
      var front, step := steps[..|steps| - 1], steps[|steps| - 1];
      var action := ActionOf(s, Execution(s, capacity, front).value.Of(step.role), step.ev);
      MovesOf(s, capacity, front) + if action.Some? then [Move(step.role, action.value)] else []
  }

  lemma PlaySnoc(s: Setup, moves: seq<Move>, move: Move)
    requires Play(s, moves).Some? && CanMove(s, Play(s, moves).value, move)
    ensures Play(s, moves + [move]) == Some(Moved(s, Play(s, moves).value, move))
  {
    hide CanMove, Moved;
    assert (moves + [move])[..|moves|] == moves;
  }

  lemma BeginAbstract(s: Setup)
    ensures Abstract(s, System(Start(s, Client), Start(s, Server), [], [])) == Begin(s)
  {
    hide WireOf;
    WireNonempty(s, 0, INITIAL);
  }

  lemma WireNonempty(s: Setup, stage: nat, l: Local)
    ensures |WireOf(s, stage, l)| > 0
  {
    hide BodyOf;
  }

  /** Every execution over byte channels, whatever the chunks, the capacity and the failures,
      is an execution over message queues that reaches the state it stands for. */
  lemma {:induction false} ExecutionRefines(s: Setup, capacity: nat, steps: seq<Step>)
    requires Execution(s, capacity, steps).Some?
    ensures Play(s, MovesOf(s, capacity, steps)) == Some(Abstract(s, Execution(s, capacity, steps).value))
  {
    hide Abstract, Consistent, CanStep, After, CanMove, Moved, Start, Begin, ActionOf;
    if |steps| > 0 {
      var front, step := steps[..|steps| - 1], steps[|steps| - 1];
      var sys := Execution(s, capacity, front).value;
      ExecutionRefines(s, capacity, front);
      ExecutionConsistent(s, capacity, front);
      StepRefines(s, capacity, sys, step);
      var action := ActionOf(s, sys.Of(step.role), step.ev);
      var moves := MovesOf(s, capacity, front);
      if action.Some? {
        PlaySnoc(s, moves, Move(step.role, action.value));
      } else {
        assert moves + [] == moves;
      }
    } else {
      BeginAbstract(s);
    }
  }

  // ---- The octets under way ---------------------------------------------------------------

  /** The octets of a message not yet sent whole. */
  function Partial(io: Io): Bytes {
    if io.Sending? && !Posted(io) then io.wire[..io.k] else []
  }

  lemma {:induction false} StreamQueue(s: Setup, role: Role, lo: nat, hi: nat)
    requires lo <= hi
    ensures Stream(Plan(s, hi), role) == Stream(Plan(s, lo), role) + Concat(Queue(s, role, lo, hi))
    decreases hi
  {
    hide WireAt, Plan, Stream;
    var before := Stream(Plan(s, lo), role);
    if lo < hi {
      var queue, wire := Queue(s, role, lo, hi - 1), WireAt(s, hi - 1);
      StreamQueue(s, role, lo, hi - 1);
      NextPlan(s, hi - 1);
      StreamSnoc(Plan(s, hi - 1), wire, role);
      if SenderOf(hi - 1) == role {
        ConcatSnoc(queue, wire);
        ConcatAssociates(before, Concat(queue), wire);
      } else {
        assert queue + [] == queue;
        assert Stream(Plan(s, hi - 1), role) + [] == Stream(Plan(s, hi - 1), role);
      }
    } else {
      assert before + [] == before;
    }
  }

  lemma SentSplit(s: Setup, role: Role, e: Endpoint)
    requires Honest(s, role, e)
    ensures e.sent == Stream(Plan(s, Reached(e)), role) + Partial(e.io)
  {
    hide LocalAt, WireAt, WireOf, Stream, Plan, Logged, FrameAt, Held;
    if Posted(e.io) {
      SentPlanned(s, role, e);
      SenderIs(s, role, e);
      NextPlan(s, e.stage);
      StreamSnoc(Plan(s, e.stage), WireAt(s, e.stage), role);
      assert e.io.wire[..e.io.k] == e.io.wire;
    }
  }

  lemma ReceivedSplit(s: Setup, role: Role, e: Endpoint)
    requires Honest(s, role, e)
    ensures e.rcvd == Stream(Plan(s, e.stage), Peer(role)) + GotPart(e.io)
  {
    hide LocalAt, WireAt, WireOf;
  }

  lemma PartialVolume(s: Setup, role: Role, e: Endpoint, i: nat)
    requires Honest(s, role, e) && Reached(e) < i
    ensures |e.sent| <= Volume(s, role, i)
    ensures Partial(e.io) != [] ==> |e.sent| < Volume(s, role, i)
  {
    hide LocalAt, WireAt, WireOf, Plan;
    SentSplit(s, role, e);
    VolumeMonotone(s, role, Reached(e), i);
    if e.io.Sending? && !Posted(e.io) {
      SentPlanned(s, role, e);
      SenderIs(s, role, e);
      VolumeNext(s, role, e.stage);
      VolumeMonotone(s, role, e.stage + 1, i);
    }
  }

  /** The octets sent that the peer has not accepted as part of a message, held by it or still
      on the channel, are exactly the messages of the queue and then what has been sent of the
      message after them. */
  lemma InFlight(s: Setup, sys: System, role: Role)
    requires Consistent(s, sys)
    ensures var (e, peer) := (sys.Of(role), sys.Of(Peer(role)));
            GotPart(peer.io) + sys.From(role)
            == Concat(Queue(s, role, peer.stage, Reached(e))) + Partial(e.io)
  {
    hide Honest, Queue, Plan, Joined;
    var e, peer := sys.Of(role), sys.Of(Peer(role));
    SentSplit(s, role, e);
    ReceivedSplit(s, Peer(role), peer);
    JoinedBytes(sys, role);
    var hi, before := Reached(e), Stream(Plan(s, peer.stage), role);
    if peer.stage <= hi {
      StreamQueue(s, role, peer.stage, hi);
      ConcatAssociates(before, Concat(Queue(s, role, peer.stage, hi)), Partial(e.io));
      ConcatAssociates(before, GotPart(peer.io), sys.From(role));
      CancelHead(before, GotPart(peer.io) + sys.From(role), Concat(Queue(s, role, peer.stage, hi)) + Partial(e.io));
    } else {
      PartialVolume(s, role, e, peer.stage);
      QueueEmpty(s, role, peer.stage, hi);
      assert |e.sent| == |before| + |GotPart(peer.io)| + |sys.From(role)|;
      assert GotPart(peer.io) == [] && sys.From(role) == [] && Partial(e.io) == [];
    }
  }

  lemma JoinedBytes(sys: System, role: Role)
    requires Joined(sys)
    ensures sys.Of(role).sent == sys.Of(Peer(role)).rcvd + sys.From(role)
  {
  }

  lemma QueueEmpty(s: Setup, role: Role, lo: nat, hi: nat)
    requires hi <= lo
    ensures Queue(s, role, lo, hi) == []
  {
  }
}
