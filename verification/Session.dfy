/** Both programs, joined by two byte channels that deliver what they are given, in any
    interleaving. */
module Session {
  import opened ByteStrings
  import opened Primitives
  import Handshake
  import opened Record
  import opened Protocol
  import opened EndpointRuns

  /** `toServer` and `toClient` are the octets under way in each direction. */
  datatype System = System(client: Endpoint, server: Endpoint, toServer: Bytes, toClient: Bytes)
  {
    function Of(role: Role): Endpoint {
      if role.Client? then client else server
    }

    /** The octets under way from `role` to its peer. */
    function From(role: Role): Bytes {
      if role.Client? then toServer else toClient
    }

    function With(role: Role, e: Endpoint, from: Bytes, to: Bytes): System {
      if role.Client? then System(e, server, from, to) else System(client, e, to, from)
    }
  }

  datatype Step = Step(role: Role, ev: Event)

  /** A channel holds up to `capacity` octets. A program that finds its peer gone, or its
      channel shut, fails; that is an `Abort` here. */
  predicate CanStep(s: Setup, capacity: nat, sys: System, step: Step) {
    && Enabled(s, sys.Of(step.role), step.ev)
    && match step.ev {
       case Emit(data) => |sys.From(step.role)| + |data| <= capacity
       case Absorb(data) => data <= sys.From(Peer(step.role))
       case _ => true
       }
  }

  function After(s: Setup, capacity: nat, sys: System, step: Step): System
    requires CanStep(s, capacity, sys, step)
  {
    var e := Apply(s, step.role, sys.Of(step.role), step.ev);
    var from, to := sys.From(step.role), sys.From(Peer(step.role));
    sys.With(step.role, e,
             if step.ev.Emit? then from + step.ev.data else from,
             if step.ev.Absorb? then to[|step.ev.data|..] else to)
  }

  /** The state after `steps`, if each was possible when it happened. */
  function Execution(s: Setup, capacity: nat, steps: seq<Step>): Option<System> {
    if |steps| == 0 then Some(System(Start(s, Client), Start(s, Server), [], []))
    else
      var before := Execution(s, capacity, steps[..|steps| - 1]);
      var step := steps[|steps| - 1];
      if before.Some? && CanStep(s, capacity, before.value, step)
      then Some(After(s, capacity, before.value, step)) else None
  }

  // ---- Each side of an execution is a run of its program ----------------------------------

  function EventsOf(steps: seq<Step>, role: Role): seq<Event> {
    if |steps| == 0 then []
    else
      var last := steps[|steps| - 1];
      EventsOf(steps[..|steps| - 1], role) + if last.role == role then [last.ev] else []
  }

  lemma {:induction false} Projection(s: Setup, capacity: nat, steps: seq<Step>, role: Role)
    requires Execution(s, capacity, steps).Some?
    ensures Run(s, role, EventsOf(steps, role)) == Some(Execution(s, capacity, steps).value.Of(role))
  {
    if |steps| > 0 {
      var front, last := steps[..|steps| - 1], steps[|steps| - 1];
      Projection(s, capacity, front, role);
      if last.role == role {
        RunSnoc(s, role, EventsOf(front, role), last.ev);
      } else {
        assert EventsOf(front, role) + [] == EventsOf(front, role);
      }
    }
  }

  // ---- What every execution must do -------------------------------------------------------

  /** The variables of `role` on reaching message `i` if every message before it was accepted
      as its sender made it; and message `i` in that case. */
  function LocalAt(s: Setup, role: Role, i: nat): Local
    decreases i, 0
  {
    if i == 0 then Prepare(s, role, 0, INITIAL)
    else
      var l := LocalAt(s, role, i - 1);
      Prepare(s, role, i,
              if SenderOf(i - 1) == role then AfterSend(s, i - 1, l)
              else AfterReceive(s, i - 1, l, WireAt(s, i - 1)))
  }

  function WireAt(s: Setup, i: nat): Bytes
    decreases i, 1
  {
    WireOf(s, i, LocalAt(s, SenderOf(i), i))
  }

  /** The first `n` messages. */
  function Plan(s: Setup, n: nat): (plan: seq<Bytes>)
    ensures |plan| == n
  {
    if n == 0 then [] else Plan(s, n - 1) + [WireAt(s, n - 1)]
  }

  lemma {:induction false} PlanPrefix(s: Setup, i: nat, n: nat)
    requires i <= n
    ensures Plan(s, n)[..i] == Plan(s, i)
  {
    hide WireAt;
    if i < n {
      PlanPrefix(s, i, n - 1);
      TakeSnoc(Plan(s, n - 1), WireAt(s, n - 1), i);
      assert Plan(s, n) == Plan(s, n - 1) + [WireAt(s, n - 1)];
    } else {
      TakeAll(Plan(s, n));
    }
  }

  lemma TakeAll(parts: seq<Bytes>)
    ensures parts[..|parts|] == parts
  {
  }

  lemma PlanAt(s: Setup, i: nat, n: nat)
    requires i < n
    ensures Plan(s, n)[i] == WireAt(s, i)
  {
    hide WireAt;
    PlanPrefix(s, i + 1, n);
    assert Plan(s, n)[i] == Plan(s, n)[..i + 1][i];
  }

  lemma TakeSnoc(parts: seq<Bytes>, part: Bytes, i: nat)
    requires i <= |parts|
    ensures (parts + [part])[..i] == parts[..i]
  {
  }

  lemma BodyFits(s: Setup, i: nat, l: Local)
    requires i < HANDSHAKE_MESSAGES
    ensures |BodyOf(s, i, l)| <= CapacityOf(s.suite, i)
  {
  }

  /** What the receiver makes of the first `k` octets of message `i`. */
  lemma FrameOfWire(s: Setup, i: nat, k: nat)
    requires i < MESSAGES && k <= |WireAt(s, i)|
    ensures var frame := FrameAt(s.suite, i, WireAt(s, i)[..k]);
            && (frame.Need? ==> k < |WireAt(s, i)| && frame.more <= |WireAt(s, i)| - k)
            && (frame.Whole? ==> k == |WireAt(s, i)|)
            && (i < HANDSHAKE_MESSAGES ==> !frame.Bad?)
  {
    var l := LocalAt(s, SenderOf(i), i);
    if i < HANDSHAKE_MESSAGES {
      BodyFits(s, i, l);
      Handshake.FrameOfEncoding(Handshake.Message(KindOf(i), BodyOf(s, i, l)), CapacityOf(s.suite, i), k);
    } else {
      FrameOfRecord(s.suite, l.snd, TextOf(s, i), k);
    }
  }

  /** A record for whose text there is no room is given up on its header. */
  lemma FrameOfRecord(suite: Suite, d: Direction, text: Bytes, k: nat)
    requires 0 < |text| <= MAX_PLAINTEXT_LEN && k <= |Sealed(suite, d, text)|
    ensures var record := Sealed(suite, d, text);
            var frame := RecordFrameOf(RECORD_CAPACITY, record[..k]);
            && (frame.Need? ==> k < |record| && frame.more <= |record| - k)
            && (frame.Whole? ==> k == |record|)
            && (|text| <= RECORD_CAPACITY ==> !frame.Bad?)
  {
    var record := Sealed(suite, d, text);
    if |text| <= RECORD_CAPACITY {
      FrameOfSealed(suite, d, text, RECORD_CAPACITY, k);
    } else if k >= RECORD_HEADER_LEN {
      var rest := record[..k][RECORD_HEADER_LEN..];
      assert record[..k] == RecordHeader(|text| + TAG_LEN) + rest;
      FieldsOfHeader(|text| + TAG_LEN, rest);
    }
  }

  // ---- Octets of the plan -----------------------------------------------------------------

  lemma NextInStream(wires: seq<Bytes>, i: nat, role: Role)
    requires i < |wires| && SenderOf(i) == role
    ensures Stream(wires[..i], role) + wires[i] <= Stream(wires, role)
  {
    StreamUpTo(wires, i, role);
    StreamMonotone(wires, i + 1, role);
  }

  lemma PartInStream(wires: seq<Bytes>, i: nat, role: Role, k: nat)
    requires i < |wires| && SenderOf(i) == role && k <= |wires[i]|
    ensures Stream(wires[..i], role) + wires[i][..k] <= Stream(wires, role)
  {
    NextInStream(wires, i, role);
    var before := Stream(wires[..i], role);
    assert before + wires[i][..k] == (before + wires[i])[..|before| + k];
  }

  /** Octets that continue a stream inside message `i` are octets of message `i`. */
  lemma InsideMessage(before: Bytes, message: Bytes, part: Bytes, whole: Bytes)
    requires before + message <= whole && before + part <= whole && |part| <= |message|
    ensures part <= message
  {
    assert part == whole[|before|..|before| + |part|];
    assert message == whole[|before|..|before| + |message|];
  }

  // ---- Honest channels --------------------------------------------------------------------

  /** A program is where the plan says, and holds the first octets of the message it is
      receiving. */
  predicate Planned(s: Setup, role: Role, stage: nat, l: Local, wires: seq<Bytes>) {
    && stage <= MESSAGES
    && l == LocalAt(s, role, stage)
    && wires == Plan(s, stage)
  }

  predicate Held(s: Setup, stage: nat, got: Bytes) {
    if stage < MESSAGES then got <= WireAt(s, stage) else got == []
  }

  predicate Honest(s: Setup, role: Role, e: Endpoint) {
    && Sane(s, role, e)
    && Planned(s, role, e.stage, e.l, e.wires)
    && Held(s, e.stage, GotPart(e.io))
  }

  /** What one side sent is what the other received and what is under way. */
  predicate Joined(sys: System) {
    && sys.client.sent == sys.server.rcvd + sys.toServer
    && sys.server.sent == sys.client.rcvd + sys.toClient
  }

  lemma NextLocal(s: Setup, role: Role, i: nat)
    ensures LocalAt(s, role, i + 1)
            == Prepare(s, role, i + 1,
                       if SenderOf(i) == role then AfterSend(s, i, LocalAt(s, role, i))
                       else AfterReceive(s, i, LocalAt(s, role, i), WireAt(s, i)))
  {
  }

  lemma NextPlan(s: Setup, i: nat)
    ensures Plan(s, i + 1) == Plan(s, i) + [WireAt(s, i)]
  {
  }

  /** A message received whole is the planned one. */
  lemma WholeIsPlanned(s: Setup, i: nat, got: Bytes)
    requires i < MESSAGES && got <= WireAt(s, i) && FrameAt(s.suite, i, got).Whole?
    ensures got == WireAt(s, i)
  {
    FrameOfWire(s, i, |got|);
    assert got == WireAt(s, i)[..|got|];
  }

  lemma SentPlanned(s: Setup, role: Role, e: Endpoint)
    requires Honest(s, role, e) && e.io.Sending? && e.stage < MESSAGES
    ensures e.io.wire == WireAt(s, e.stage)
    ensures Planned(s, role, e.stage + 1, Prepare(s, role, e.stage + 1, AfterSend(s, e.stage, e.l)), e.wires + [e.io.wire])
  {
    NextLocal(s, role, e.stage);
    NextPlan(s, e.stage);
  }

  lemma ReceivedPlanned(s: Setup, role: Role, e: Endpoint)
    requires Honest(s, role, e) && e.io.Receiving? && e.stage < MESSAGES
    requires FrameAt(s.suite, e.stage, e.io.got).Whole?
    ensures Planned(s, role, e.stage + 1, Prepare(s, role, e.stage + 1, AfterReceive(s, e.stage, e.l, e.io.got)), e.wires + [e.io.got])
  {
    WholeIsPlanned(s, e.stage, e.io.got);
    NextLocal(s, role, e.stage);
    NextPlan(s, e.stage);
  }

  lemma EnterHonest(s: Setup, role: Role, e: Endpoint, stage: nat, l: Local, wires: seq<Bytes>)
    requires Planned(s, role, stage, Prepare(s, role, stage, l), wires)
    requires Sane(s, role, Enter(s, role, e, stage, l, wires))
    ensures Honest(s, role, Enter(s, role, e, stage, l, wires))
  {
    hide Sane, LocalAt, WireAt, Plan, WireOf, Prepare;
  }

  lemma DeadHonest(s: Setup, role: Role, e: Endpoint)
    requires Honest(s, role, e)
    ensures Honest(s, role, e.(alive := false))
  {
    hide LocalAt, WireAt, Plan, WireOf, FrameAt;
  }

  lemma TurnHonest(s: Setup, role: Role, e: Endpoint)
    requires Honest(s, role, e) && Enabled(s, e, Turn)
    ensures Honest(s, role, Apply(s, role, e, Turn))
  {
    hide Honest, Sane, Planned, FrameAt, AfterSend, AfterReceive, Prepare, Enter, Apply, Enabled;
    SaneFirst(s, role, e);
    EnabledRuns(s, e);
    TurnSane(s, role, e);
    TurnCases(s, role, e);
    DeadHonest(s, role, e);
    if e.io.Sending? {
      SentPlanned(s, role, e);
      EnterHonest(s, role, e, e.stage + 1, AfterSend(s, e.stage, e.l), e.wires + [e.io.wire]);
    } else if FrameAt(s.suite, e.stage, e.io.got).Whole? {
      ReceivedPlanned(s, role, e);
      if Apply(s, role, e, Turn) != e.(alive := false) {
        EnterHonest(s, role, e, e.stage + 1, AfterReceive(s, e.stage, e.l, e.io.got), e.wires + [e.io.got]);
      }
    }
  }

  lemma EnabledRuns(s: Setup, e: Endpoint)
    requires Enabled(s, e, Turn)
    ensures e.stage < MESSAGES
  {
    hide FrameAt;
  }

  lemma SaneFirst(s: Setup, role: Role, e: Endpoint)
    requires Honest(s, role, e)
    ensures Sane(s, role, e)
  {
    hide Sane, Planned, Held;
  }

  /** The octets on the channel to a receiver continue the message it is receiving. */
  lemma ChannelContinues(s: Setup, role: Role, e: Endpoint, chan: Bytes, data: Bytes)
    requires Honest(s, role, e) && e.io.Receiving? && e.stage < MESSAGES
    requires e.rcvd + chan <= Stream(Plan(s, MESSAGES), Peer(role)) && data <= chan
    requires |e.io.got| + |data| <= |WireAt(s, e.stage)|
    ensures e.io.got + data <= WireAt(s, e.stage)
  {
    hide LocalAt, WireAt;
    var plan, i := Plan(s, MESSAGES), e.stage;
    var before := Stream(plan[..i], Peer(role));
    PlanPrefix(s, i, MESSAGES);
    PlanAt(s, i, MESSAGES);
    NextInStream(plan, i, Peer(role));
    SplitPrefix(before, e.io.got, chan, data, Stream(plan, Peer(role)));
    InsideMessage(before, WireAt(s, i), e.io.got + data, Stream(plan, Peer(role)));
  }

  lemma SplitPrefix(before: Bytes, got: Bytes, chan: Bytes, data: Bytes, whole: Bytes)
    requires before + got + chan <= whole && data <= chan
    ensures before + (got + data) <= whole
  {
    assert before + (got + data) == (before + got + chan)[..|before| + |got| + |data|];
  }

  lemma SentInPlan(s: Setup, role: Role, e: Endpoint)
    requires Honest(s, role, e)
    ensures e.sent <= Stream(Plan(s, MESSAGES), role)
  {
    hide LocalAt, WireAt;
    var plan, i := Plan(s, MESSAGES), e.stage;
    PlanPrefix(s, i, MESSAGES);
    StreamMonotone(plan, i, role);
    if e.io.Sending? {
      SentPlanned(s, role, e);
      PlanAt(s, i, MESSAGES);
      PartInStream(plan, i, role, e.io.k);
    } else {
      assert Stream(plan[..i], role) + [] == Stream(plan[..i], role);
    }
  }

  lemma AbsorbHonest(s: Setup, role: Role, e: Endpoint, chan: Bytes, data: Bytes)
    requires Honest(s, role, e) && Enabled(s, e, Absorb(data))
    requires e.rcvd + chan <= Stream(Plan(s, MESSAGES), Peer(role)) && data <= chan
    ensures Honest(s, role, Apply(s, role, e, Absorb(data)))
  {
    hide LocalAt, WireAt;
    FrameOfWire(s, e.stage, |e.io.got|);
    assert e.io.got == WireAt(s, e.stage)[..|e.io.got|];
    ChannelContinues(s, role, e, chan, data);
    AbsorbSane(s, role, e, data);
  }

  lemma EmitHonest(s: Setup, role: Role, e: Endpoint, data: Bytes)
    requires Honest(s, role, e) && Enabled(s, e, Emit(data))
    ensures Honest(s, role, Apply(s, role, e, Emit(data)))
  {
    hide LocalAt, WireAt, Plan, Sane, FrameAt;
    EmitSane(s, role, e, data);
  }

  lemma AbortHonest(s: Setup, role: Role, e: Endpoint)
    requires Honest(s, role, e) && Enabled(s, e, Abort)
    ensures Honest(s, role, Apply(s, role, e, Abort))
  {
  }

  lemma StepHonest(s: Setup, role: Role, e: Endpoint, chan: Bytes, ev: Event)
    requires Honest(s, role, e) && e.rcvd + chan <= Stream(Plan(s, MESSAGES), Peer(role))
    requires Enabled(s, e, ev) && (ev.Absorb? ==> ev.data <= chan)
    ensures Honest(s, role, Apply(s, role, e, ev))
  {
    if ev.Emit? {
      EmitHonest(s, role, e, ev.data);
    } else if ev.Absorb? {
      AbsorbHonest(s, role, e, chan, ev.data);
    } else if ev.Turn? {
      TurnHonest(s, role, e);
    } else {
      AbortHonest(s, role, e);
    }
  }

  lemma StartHonest(s: Setup, role: Role)
    ensures Honest(s, role, Start(s, role))
  {
    RunSane(s, role, []);
  }

  predicate Consistent(s: Setup, sys: System) {
    Honest(s, Client, sys.client) && Honest(s, Server, sys.server) && Joined(sys)
  }

  lemma StepJoined(s: Setup, capacity: nat, sys: System, step: Step)
    requires Joined(sys) && CanStep(s, capacity, sys, step)
    ensures Joined(After(s, capacity, sys, step))
  {
  }

  /** In every execution, both programs follow the plan as far as they get, and nothing is
      lost or added between them; for any capacity, chunks, order, and failures. */
  lemma {:induction false} ExecutionConsistent(s: Setup, capacity: nat, steps: seq<Step>)
    requires Execution(s, capacity, steps).Some?
    ensures Consistent(s, Execution(s, capacity, steps).value)
  {
    hide LocalAt, WireAt;
    if |steps| == 0 {
      StartHonest(s, Client);
      StartHonest(s, Server);
    } else {
      var front, step := steps[..|steps| - 1], steps[|steps| - 1];
      var sys := Execution(s, capacity, front).value;
      ExecutionConsistent(s, capacity, front);
      SentInPlan(s, Peer(step.role), sys.Of(Peer(step.role)));
      StepHonest(s, step.role, sys.Of(step.role), sys.From(Peer(step.role)), step.ev);
      StepJoined(s, capacity, sys, step);
    }
  }
}
