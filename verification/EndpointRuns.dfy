/** What every run of one program keeps, whatever octets its peer or the network sends it. */
module EndpointRuns {
  import opened ByteStrings
  import Primitives
  import opened Handshake
  import opened Finished
  import opened Record
  import opened Protocol

  /** The messages of `wires` that `role` sends, one after the other. */
  function Stream(wires: seq<Bytes>, role: Role): Bytes {
    if |wires| == 0 then []
    else
      var last := |wires| - 1;
      Stream(wires[..last], role) + if SenderOf(last) == role then wires[last] else []
  }

  lemma StreamSnoc(wires: seq<Bytes>, wire: Bytes, role: Role)
    ensures Stream(wires + [wire], role)
            == Stream(wires, role) + if SenderOf(|wires|) == role then wire else []
  {
    assert (wires + [wire])[..|wires|] == wires;
  }

  function SentPart(io: Io): Bytes {
    if io.Sending? && io.k <= |io.wire| then io.wire[..io.k] else []
  }

  function GotPart(io: Io): Bytes {
    if io.Receiving? then io.got else []
  }

  /** A program is doing the input or output its stage calls for. */
  predicate Placed(role: Role, stage: nat, io: Io) {
    if stage >= MESSAGES then stage == MESSAGES && io.Closed?
    else if SenderOf(stage) == role then io.Sending? && io.k <= |io.wire|
    else io.Receiving?
  }

  /** The octets moved are the messages completed and the part done of the current one. */
  predicate Accounted(role: Role, wires: seq<Bytes>, io: Io, sent: Bytes, rcvd: Bytes) {
    && sent == Stream(wires, role) + SentPart(io)
    && rcvd == Stream(wires, Peer(role)) + GotPart(io)
  }

  /** The transcript is made of the handshake messages completed, as they were on the wire. */
  predicate Logged(log: seq<Message>, wires: seq<Bytes>) {
    && |log| == (if |wires| < HANDSHAKE_MESSAGES then |wires| else HANDSHAKE_MESSAGES)
    && forall j | 0 <= j < |log| :: wires[j] == Encode(log[j])
  }

  /** What is being sent is what the sender computed; what has been received so far was
      received no faster than the checks allow. */
  predicate Timely(s: Setup, stage: nat, l: Local, io: Io) {
    && (io.Sending? ==> io.wire == WireOf(s, stage, l))
    && (io.Receiving? ==>
          if stage < HANDSHAKE_MESSAGES then Paced(KindOf(stage), CapacityOf(s.suite, stage), io.got)
          else RecordPaced(RECORD_CAPACITY, io.got))
  }

  predicate Sane(s: Setup, role: Role, e: Endpoint) {
    && |e.wires| == e.stage
    && Placed(role, e.stage, e.io)
    && Accounted(role, e.wires, e.io, e.sent, e.rcvd)
    && Logged(e.l.log, e.wires)
    && Timely(s, e.stage, e.l, e.io)
  }

  lemma EmitAccounted(role: Role, wires: seq<Bytes>, wire: Bytes, k: nat, data: Bytes, sent: Bytes, rcvd: Bytes)
    requires k + |data| <= |wire| && data == wire[k..k + |data|]
    requires Accounted(role, wires, Sending(wire, k), sent, rcvd)
    ensures Accounted(role, wires, Sending(wire, k + |data|), sent + data, rcvd)
  {
    assert wire[..k + |data|] == wire[..k] + data;
    ConcatAssociates(Stream(wires, role), wire[..k], data);
  }

  lemma SentAccounted(role: Role, wires: seq<Bytes>, wire: Bytes, io: Io, sent: Bytes, rcvd: Bytes)
    requires SenderOf(|wires|) == role && SentPart(io) == [] && GotPart(io) == []
    requires Accounted(role, wires, Sending(wire, |wire|), sent, rcvd)
    ensures Accounted(role, wires + [wire], io, sent, rcvd)
  {
    StreamSnoc(wires, wire, role);
    StreamSnoc(wires, wire, Peer(role));
    assert wire[..|wire|] == wire;
  }

  lemma ReceivedAccounted(role: Role, wires: seq<Bytes>, got: Bytes, io: Io, sent: Bytes, rcvd: Bytes)
    requires SenderOf(|wires|) != role && SentPart(io) == [] && GotPart(io) == []
    requires Accounted(role, wires, Receiving(got), sent, rcvd)
    ensures Accounted(role, wires + [got], io, sent, rcvd)
  {
    StreamSnoc(wires, got, role);
    StreamSnoc(wires, got, Peer(role));
  }

  lemma PacedAbsorb(kind: Byte, capacity: nat, got: Bytes, data: Bytes)
    requires Paced(kind, capacity, got)
    requires FrameOf(kind, capacity, got).Need? && |data| <= FrameOf(kind, capacity, got).more
    ensures Paced(kind, capacity, got + data)
  {
    if |got| >= HEADER_LEN {
      assert (got + data)[..HEADER_LEN] == got[..HEADER_LEN];
      assert (got + data)[1..4] == got[1..4] == got[..HEADER_LEN][1..4];
    }
  }

  lemma RecordPacedAbsorb(capacity: nat, got: Bytes, data: Bytes)
    requires RecordPaced(capacity, got)
    requires RecordFrameOf(capacity, got).Need? && |data| <= RecordFrameOf(capacity, got).more
    ensures RecordPaced(capacity, got + data)
  {
    if |got| >= RECORD_HEADER_LEN {
      assert (got + data)[3..5] == got[3..5];
    }
  }

  lemma AbsorbTimely(s: Setup, stage: nat, l: Local, got: Bytes, data: Bytes)
    requires Timely(s, stage, l, Receiving(got))
    requires FrameAt(s.suite, stage, got).Need? && |data| <= FrameAt(s.suite, stage, got).more
    ensures Timely(s, stage, l, Receiving(got + data))
  {
    if stage < HANDSHAKE_MESSAGES {
      PacedAbsorb(KindOf(stage), CapacityOf(s.suite, stage), got, data);
    } else {
      RecordPacedAbsorb(RECORD_CAPACITY, got, data);
    }
  }

  lemma SentLogged(s: Setup, stage: nat, l: Local, wires: seq<Bytes>)
    requires |wires| == stage && Logged(l.log, wires)
    ensures Logged(AfterSend(s, stage, l).log, wires + [WireOf(s, stage, l)])
  {
  }

  /** A message received whole is the encoding of what its receiver takes it to be. */
  lemma WholeAt(s: Setup, stage: nat, l: Local, got: Bytes)
    requires stage < HANDSHAKE_MESSAGES
    requires Timely(s, stage, l, Receiving(got)) && FrameAt(s.suite, stage, got).Whole?
    ensures |Payload(got)| <= MAX_BODY_LEN && |Payload(got)| <= CapacityOf(s.suite, stage)
    ensures got == Encode(Message(KindOf(stage), Payload(got)))
  {
    WholeIsEncoding(KindOf(stage), CapacityOf(s.suite, stage), got);
    assert got[HEADER_LEN..HEADER_LEN + BodyLength(got)] == Payload(got);
  }

  lemma ReceivedLogged(s: Setup, stage: nat, l: Local, got: Bytes, wires: seq<Bytes>)
    requires |wires| == stage && Logged(l.log, wires)
    requires Timely(s, stage, l, Receiving(got)) && FrameAt(s.suite, stage, got).Whole?
    ensures Logged(AfterReceive(s, stage, l, got).log, wires + [got])
  {
    if stage < HANDSHAKE_MESSAGES {
      WholeAt(s, stage, l, got);
    }
  }

  lemma PrepareKeepsLog(s: Setup, role: Role, stage: nat, l: Local)
    ensures Prepare(s, role, stage, l).log == l.log
    ensures Prepare(s, role, stage, l).peerKey == l.peerKey
    ensures stage != 1 ==> Prepare(s, role, stage, l).secret == l.secret
  {
  }

  lemma EnterSane(s: Setup, role: Role, e: Endpoint, l: Local, wires: seq<Bytes>)
    requires |wires| <= MESSAGES && Logged(l.log, wires)
    requires Accounted(role, wires, Closed, e.sent, e.rcvd)
    ensures Sane(s, role, Enter(s, role, e, |wires|, l, wires))
  {
    PrepareKeepsLog(s, role, |wires|, l);
  }

  /** A program that has moved all of a message goes on to the next with its books in order. */
  lemma CompletedSane(s: Setup, role: Role, e: Endpoint, l: Local, wire: Bytes)
    requires Sane(s, role, e) && e.stage < MESSAGES
    requires e.io == Sending(wire, |wire|) || e.io == Receiving(wire)
    requires Logged(l.log, e.wires + [wire])
    ensures Sane(s, role, Enter(s, role, e, e.stage + 1, l, e.wires + [wire]))
  {
    hide Enter, Stream, Logged, Timely;
    if e.io.Sending? {
      SentAccounted(role, e.wires, wire, Closed, e.sent, e.rcvd);
    } else {
      ReceivedAccounted(role, e.wires, wire, Closed, e.sent, e.rcvd);
    }
    EnterSane(s, role, e, l, e.wires + [wire]);
  }

  lemma TurnSane(s: Setup, role: Role, e: Endpoint)
    requires Sane(s, role, e) && Enabled(s, e, Turn)
    ensures Sane(s, role, Apply(s, role, e, Turn))
  {
    TurnCases(s, role, e);
    if e.io.Sending? {
      SentLogged(s, e.stage, e.l, e.wires);
      CompletedSane(s, role, e, AfterSend(s, e.stage, e.l), e.io.wire);
    } else if FrameAt(s.suite, e.stage, e.io.got).Whole? {
      ReceivedLogged(s, e.stage, e.l, e.io.got, e.wires);
      CompletedSane(s, role, e, AfterReceive(s, e.stage, e.l, e.io.got), e.io.got);
    }
  }

  lemma TurnCases(s: Setup, role: Role, e: Endpoint)
    requires Enabled(s, e, Turn)
    ensures var e' := Apply(s, role, e, Turn);
            || (e.io.Sending? && e' == Enter(s, role, e, e.stage + 1, AfterSend(s, e.stage, e.l), e.wires + [e.io.wire]))
            || (e.io.Receiving? && FrameAt(s.suite, e.stage, e.io.got).Whole?
                && e' == Enter(s, role, e, e.stage + 1, AfterReceive(s, e.stage, e.l, e.io.got), e.wires + [e.io.got]))
            || (e.io.Receiving? && e' == e.(alive := false))
  {
    hide FrameAt, Acceptable, AfterSend, AfterReceive, WireOf, Prepare;
  }

  lemma EmitSane(s: Setup, role: Role, e: Endpoint, data: Bytes)
    requires Sane(s, role, e) && e.io.Sending?
    requires e.io.k + |data| <= |e.io.wire| && data == e.io.wire[e.io.k..e.io.k + |data|]
    ensures Sane(s, role, e.(io := Sending(e.io.wire, e.io.k + |data|), sent := e.sent + data))
  {
    EmitAccounted(role, e.wires, e.io.wire, e.io.k, data, e.sent, e.rcvd);
  }

  lemma AbsorbSane(s: Setup, role: Role, e: Endpoint, data: Bytes)
    requires Sane(s, role, e) && e.io.Receiving?
    requires FrameAt(s.suite, e.stage, e.io.got).Need? && |data| <= FrameAt(s.suite, e.stage, e.io.got).more
    ensures Sane(s, role, e.(io := Receiving(e.io.got + data), rcvd := e.rcvd + data))
  {
    AbsorbTimely(s, e.stage, e.l, e.io.got, data);
    ConcatAssociates(Stream(e.wires, Peer(role)), e.io.got, data);
  }

  lemma StepSane(s: Setup, role: Role, e: Endpoint, ev: Event)
    requires Sane(s, role, e) && Enabled(s, e, ev)
    ensures Sane(s, role, Apply(s, role, e, ev))
  {
    match ev
    case Emit(data) => EmitSane(s, role, e, data);
    case Absorb(data) => AbsorbSane(s, role, e, data);
    case Turn => TurnSane(s, role, e);
    case Abort =>
  }

  lemma {:induction false} RunSane(s: Setup, role: Role, events: seq<Event>)
    requires Run(s, role, events).Some?
    ensures Sane(s, role, Run(s, role, events).value)
  {
    if |events| == 0 {
      EnterSane(s, role, Endpoint(0, true, INITIAL, Closed, [], [], []), INITIAL, []);
    } else {
      var front := events[..|events| - 1];
      RunSane(s, role, front);
      StepSane(s, role, Run(s, role, front).value, events[|events| - 1]);
    }
  }

  // ---- The transcript is the octets on the wire -------------------------------------------

  lemma EncodeAllUpTo(log: seq<Message>, n: nat)
    requires n < |log|
    ensures EncodeAll(log[..n + 1]) == EncodeAll(log[..n]) + Encode(log[n])
  {
    assert log[..n + 1] == log[..n] + [log[n]];
    EncodeAllSnoc(log[..n], log[n]);
  }

  lemma StreamUpTo(wires: seq<Bytes>, n: nat, role: Role)
    requires n < |wires|
    ensures Stream(wires[..n + 1], role) == Stream(wires[..n], role) + if SenderOf(n) == role then wires[n] else []
  {
    assert wires[..n + 1] == wires[..n] + [wires[n]];
    StreamSnoc(wires[..n], wires[n], role);
  }

  lemma {:induction false} StreamMonotone(wires: seq<Bytes>, i: nat, role: Role)
    requires i <= |wires|
    ensures Stream(wires[..i], role) <= Stream(wires, role)
    decreases |wires|
  {
    if i < |wires| {
      var last := |wires| - 1;
      StreamMonotone(wires[..last], i, role);
      assert wires[..last][..i] == wires[..i];
    } else {
      assert wires[..i] == wires;
    }
  }

  /** Up to the server Finished, the transcript is the ClientHello and then all that the
      server sent. */
  lemma {:induction false} ServerFlight(log: seq<Message>, wires: seq<Bytes>, n: nat)
    requires Logged(log, wires) && 1 <= n <= 5 && n <= |log|
    ensures Stream(wires[..n], Client) == wires[0]
    ensures EncodeAll(log[..n]) == wires[0] + Stream(wires[..n], Server)
  {
    EncodeAllUpTo(log, n - 1);
    StreamUpTo(wires, n - 1, Client);
    StreamUpTo(wires, n - 1, Server);
    if n == 1 {
      assert log[..0] == [] && wires[..0] == [];
    } else {
      ServerFlight(log, wires, n - 1);
      ConcatAssociates(wires[0], Stream(wires[..n - 1], Server), wires[n - 1]);
    }
  }

  lemma WholeHandshake(log: seq<Message>, wires: seq<Bytes>)
    requires Logged(log, wires) && |wires| == HANDSHAKE_MESSAGES
    ensures Stream(wires, Client) == wires[0] + wires[5]
    ensures EncodeAll(log) == wires[0] + Stream(wires, Server) + wires[5]
  {
    ServerFlight(log, wires, 5);
    LastMessage(log, wires);
    assert EncodeAll(log[..5]) + wires[5] == wires[0] + Stream(wires[..5], Server) + wires[5];
  }

  lemma LastMessage(log: seq<Message>, wires: seq<Bytes>)
    requires Logged(log, wires) && |wires| == HANDSHAKE_MESSAGES
    ensures EncodeAll(log) == EncodeAll(log[..5]) + wires[5]
    ensures Stream(wires, Client) == Stream(wires[..5], Client) + wires[5]
    ensures Stream(wires, Server) == Stream(wires[..5], Server)
  {
    EncodeAllUpTo(log, 5);
    StreamUpTo(wires, 5, Client);
    StreamUpTo(wires, 5, Server);
    assert log[..6] == log && wires[..6] == wires;
  }

  lemma {:induction false} WiresGrow(s: Setup, role: Role, e: Endpoint, ev: Event)
    requires Enabled(s, e, ev)
    ensures e.wires <= Apply(s, role, e, ev).wires
  {
  }

  /** The first message of a run is a ClientHello for a key of the length both sides use. */
  lemma {:induction false} FirstWire(s: Setup, role: Role, events: seq<Event>)
    requires Run(s, role, events).Some? && |Run(s, role, events).value.wires| > 0
    ensures |Run(s, role, events).value.wires[0]| == HEADER_LEN + s.suite.kemPublicLen
  {
    if |events| > 0 {
      var front, ev := events[..|events| - 1], events[|events| - 1];
      var e := Run(s, role, front).value;
      RunSane(s, role, front);
      if |e.wires| > 0 {
        FirstWire(s, role, front);
        WiresGrow(s, role, e, ev);
      } else if e.io.Receiving? {
        WholeAt(s, 0, e.l, e.io.got);
      }
    }
  }

  /** A client that reaches the derivation of the application keys has hashed exactly the
      ClientHello it sent, all it received, and the Finished it sent, whatever it received
      and however it was cut up. */
  lemma ClientTranscript(s: Setup, events: seq<Event>)
    requires Run(s, Client, events).Some?
    requires var e := Run(s, Client, events).value; e.stage == HANDSHAKE_MESSAGES && e.io.Sending? && e.io.k == 0
    ensures var e := Run(s, Client, events).value;
            var hello := HEADER_LEN + s.suite.kemPublicLen;
            && hello <= |e.sent|
            && EncodeAll(e.l.log) == e.sent[..hello] + e.rcvd + e.sent[hello..]
  {
    var e := Run(s, Client, events).value;
    RunSane(s, Client, events);
    FirstWire(s, Client, events);
    WholeHandshake(e.l.log, e.wires);
    assert e.sent == e.wires[0] + e.wires[5] && e.rcvd == Stream(e.wires, Server);
    assert e.sent[..|e.wires[0]|] == e.wires[0] && e.sent[|e.wires[0]|..] == e.wires[5];
  }

  /** Symmetrically for a server: what it received first, all it sent, what it received last. */
  lemma ServerTranscript(s: Setup, events: seq<Event>)
    requires Run(s, Server, events).Some?
    requires var e := Run(s, Server, events).value; e.stage == HANDSHAKE_MESSAGES && e.io == Receiving([])
    ensures var e := Run(s, Server, events).value;
            var hello := HEADER_LEN + s.suite.kemPublicLen;
            && hello <= |e.rcvd|
            && EncodeAll(e.l.log) == e.rcvd[..hello] + e.sent + e.rcvd[hello..]
  {
    var e := Run(s, Server, events).value;
    RunSane(s, Server, events);
    FirstWire(s, Server, events);
    WholeHandshake(e.l.log, e.wires);
    assert e.rcvd == e.wires[0] + e.wires[5] && e.sent == Stream(e.wires, Server);
    assert e.rcvd[..|e.wires[0]|] == e.wires[0] && e.rcvd[|e.wires[0]|..] == e.wires[5];
  }

  lemma KeptHandshake(log: seq<Message>, wires: seq<Bytes>)
    requires Logged(log, wires) && |wires| >= HANDSHAKE_MESSAGES
    ensures wires[0] + wires[5] <= Stream(wires, Client)
    ensures exists n: nat :: n <= |Stream(wires, Server)|
                             && EncodeAll(log) == wires[0] + Stream(wires, Server)[..n] + wires[5]
  {
    var handshake := wires[..HANDSHAKE_MESSAGES];
    assert Logged(log, handshake);
    WholeHandshake(log, handshake);
    StreamMonotone(wires, HANDSHAKE_MESSAGES, Client);
    StreamMonotone(wires, HANDSHAKE_MESSAGES, Server);
    assert Stream(wires, Server)[..|Stream(handshake, Server)|] == Stream(handshake, Server);
  }

  /** `t` is the first `hello` octets of one stream, octets of the other, and then the next
      `finished` octets of the first. */
  predicate Framed(t: Bytes, outer: Bytes, inner: Bytes, hello: nat, finished: nat) {
    && hello + finished <= |t| && hello + finished <= |outer| && |t| - hello - finished <= |inner|
    && t == outer[..hello] + inner[..|t| - hello - finished] + outer[hello..hello + finished]
  }

  lemma FramedParts(t: Bytes, outer: Bytes, inner: Bytes, first: Bytes, n: nat, last: Bytes)
    requires first + last <= outer && n <= |inner| && t == first + inner[..n] + last
    ensures Framed(t, outer, inner, |first|, |last|)
  {
    assert outer[..|first|] == (first + last)[..|first|] == first;
    assert outer[|first|..|first| + |last|] == (first + last)[|first|..] == last;
  }

  const FINISHED_LEN: nat := HEADER_LEN + VERIFY_DATA_LEN

  /** From the end of the handshake on, whatever was received and however it was cut up, a
      client's transcript is the ClientHello it sent, what it received of the handshake, and the
      Finished it sent; a server's is the same with sending and receiving exchanged. */
  lemma TranscriptKept(s: Setup, role: Role, events: seq<Event>)
    requires Run(s, role, events).Some? && Run(s, role, events).value.stage >= HANDSHAKE_MESSAGES
    ensures var e := Run(s, role, events).value;
            Framed(EncodeAll(e.l.log), if role.Client? then e.sent else e.rcvd, if role.Client? then e.rcvd else e.sent,
                   HEADER_LEN + s.suite.kemPublicLen, FINISHED_LEN)
  {
    hide Run, Timely, Placed, VerifyData;
    var e := Run(s, role, events).value;
    RunSane(s, role, events);
    RunConfirmed(s, role, events);
    FirstWire(s, role, events);
    KeptHandshake(e.l.log, e.wires);
    var n: nat :| n <= |Stream(e.wires, Server)|
                  && EncodeAll(e.l.log) == e.wires[0] + Stream(e.wires, Server)[..n] + e.wires[5];
    assert |e.wires[5]| == FINISHED_LEN by {
      FinishedLength(s, e.l);
    }
    var outer, inner := if role.Client? then e.sent else e.rcvd, if role.Client? then e.rcvd else e.sent;
    assert Stream(e.wires, Client) <= outer && Stream(e.wires, Server) <= inner;
    assert inner[..n] == Stream(e.wires, Server)[..n];
    FramedParts(EncodeAll(e.l.log), outer, inner, e.wires[0], n, e.wires[5]);
  }

  lemma FinishedLength(s: Setup, l: Local)
    requires |l.log| > 5 && Confirmed(s, l)
    ensures |Encode(l.log[5])| == FINISHED_LEN
  {
  }

  /** What a program may have hashed by now: the messages completed, and perhaps the one that
      it has moved all of and is about to complete. */
  predicate Hashing(s: Setup, e: Endpoint, log: seq<Message>) {
    || log == e.l.log
    || (e.io.Sending? && e.io.k == |e.io.wire| && log == AfterSend(s, e.stage, e.l).log)
    || (e.io.Receiving? && FrameAt(s.suite, e.stage, e.io.got).Whole?
        && log == AfterReceive(s, e.stage, e.l, e.io.got).log)
  }

  // ---- What the Finished messages say -----------------------------------------------------

  /** `body` is the Finished value for `info` over the messages of `log`. */
  predicate Finishes(suite: Primitives.Suite, secret: Bytes, info: string, log: seq<Message>, body: Bytes) {
    body == Primitives.Hmac(suite, Primitives.Hkdf(suite, secret, [], Primitives.Ascii(info), 32),
                            Primitives.Hash(suite, EncodeAll(log)))
  }

  predicate Confirmed(s: Setup, l: Local) {
    && (|l.log| > 4 ==> Finishes(s.suite, l.secret, SERVER_LABEL, l.log[..4], l.log[4].body))
    && (|l.log| > 5 ==> Finishes(s.suite, l.secret, CLIENT_LABEL, l.log[..5], l.log[5].body))
  }

  lemma ConfirmedGrows(s: Setup, stage: nat, l: Local, m: Message, l': Local)
    requires Confirmed(s, l) && |l.log| == stage < HANDSHAKE_MESSAGES
    requires l'.log == l.log + [m] && (stage >= 2 ==> l'.secret == l.secret)
    requires stage == 4 ==> Finishes(s.suite, l.secret, SERVER_LABEL, l.log, m.body)
    requires stage == 5 ==> Finishes(s.suite, l.secret, CLIENT_LABEL, l.log, m.body)
    ensures Confirmed(s, l')
  {
    assert l'.log[..|l.log|] == l.log;
    if stage == 5 {
      assert l'.log[..4] == l.log[..4] && l'.log[4] == l.log[4];
    }
  }

  lemma SentConfirmed(s: Setup, role: Role, stage: nat, l: Local)
    requires Confirmed(s, l) && |l.log| == (if stage < HANDSHAKE_MESSAGES then stage else HANDSHAKE_MESSAGES)
    ensures Confirmed(s, Prepare(s, role, stage + 1, AfterSend(s, stage, l)))
  {
    var l' := Prepare(s, role, stage + 1, AfterSend(s, stage, l));
    if stage < HANDSHAKE_MESSAGES {
      ConfirmedGrows(s, stage, l, Message(KindOf(stage), BodyOf(s, stage, l)), l');
    }
  }

  lemma ReceivedConfirmed(s: Setup, role: Role, stage: nat, l: Local, got: Bytes)
    requires Confirmed(s, l) && |l.log| == (if stage < HANDSHAKE_MESSAGES then stage else HANDSHAKE_MESSAGES)
    requires stage < HANDSHAKE_MESSAGES ==> |Payload(got)| <= MAX_BODY_LEN && BodyAcceptable(s, stage, l, Payload(got))
    ensures Confirmed(s, Prepare(s, role, stage + 1, AfterReceive(s, stage, l, got)))
  {
    var l' := Prepare(s, role, stage + 1, AfterReceive(s, stage, l, got));
    if stage < HANDSHAKE_MESSAGES {
      ConfirmedGrows(s, stage, l, Message(KindOf(stage), Payload(got)), l');
    }
  }

  lemma SaneLog(s: Setup, role: Role, e: Endpoint)
    requires Sane(s, role, e)
    ensures |e.l.log| == if e.stage < HANDSHAKE_MESSAGES then e.stage else HANDSHAKE_MESSAGES
    ensures e.stage < HANDSHAKE_MESSAGES && e.io.Receiving? && FrameAt(s.suite, e.stage, e.io.got).Whole? ==>
              |Payload(e.io.got)| <= MAX_BODY_LEN
  {
    hide FrameAt, WireOf;
    if e.stage < HANDSHAKE_MESSAGES && e.io.Receiving? && FrameAt(s.suite, e.stage, e.io.got).Whole? {
      WholeAt(s, e.stage, e.l, e.io.got);
    }
  }

  lemma TurnConfirmed(s: Setup, role: Role, e: Endpoint)
    requires Sane(s, role, e) && Confirmed(s, e.l) && Enabled(s, e, Turn)
    ensures Confirmed(s, Apply(s, role, e, Turn).l)
  {
    hide FrameAt, AfterSend, AfterReceive, WireOf, Prepare, BodyAcceptable, Sane, Confirmed;
    SaneLog(s, role, e);
    if e.io.Sending? {
      SentConfirmed(s, role, e.stage, e.l);
    } else if FrameAt(s.suite, e.stage, e.io.got).Whole? && Acceptable(s, e.stage, e.l, e.io.got) {
      ReceivedConfirmed(s, role, e.stage, e.l, e.io.got);
    }
  }

  lemma {:induction false} RunConfirmed(s: Setup, role: Role, events: seq<Event>)
    requires Run(s, role, events).Some?
    ensures Confirmed(s, Run(s, role, events).value.l)
  {
    if |events| > 0 {
      var front := events[..|events| - 1];
      RunConfirmed(s, role, front);
      RunSane(s, role, front);
      if events[|events| - 1].Turn? {
        TurnConfirmed(s, role, Run(s, role, front).value);
      }
    }
  }

  /** Two programs, run in any environments, that have the same Finished value on record for
      a direction hold the same secret and the same messages before it, unless the values
      they compared come from a collision of the algorithms. */
  lemma FinishedAgreement(s: Setup, role: Role, events: seq<Event>, s': Setup, role': Role, events': seq<Event>, j: nat)
    requires s.suite == s'.suite && (j == 4 || j == 5)
    requires Run(s, role, events).Some? && Run(s', role', events').Some?
    requires var l, l' := Run(s, role, events).value.l, Run(s', role', events').value.l;
             && j < |l.log| && j < |l'.log| && l.log[j].body == l'.log[j].body
             && CollisionFree(s.suite, if j == 4 then SERVER_LABEL else CLIENT_LABEL,
                              l.secret, EncodeAll(l.log[..j]), l'.secret, EncodeAll(l'.log[..j]))
    ensures var l, l' := Run(s, role, events).value.l, Run(s', role', events').value.l;
            l.secret == l'.secret && l.log[..j] == l'.log[..j]
  {
    var l, l' := Run(s, role, events).value.l, Run(s', role', events').value.l;
    RunConfirmed(s, role, events);
    RunConfirmed(s', role', events');
    EncodeAllInjective(l.log[..j], l'.log[..j]);
  }

  // ---- The keys ---------------------------------------------------------------------------

  /** A program that has finished the handshake and not yet moved a record holds the keys of
      its secret and transcript, each direction the right way round, numbered from 0. */
  predicate Keyed(s: Setup, role: Role, stage: nat, l: Local) {
    stage == HANDSHAKE_MESSAGES ==>
      && l.snd == InitialDirection(s.suite, l.secret, TranscriptHash(s, l), role.Client?)
      && l.rcv == InitialDirection(s.suite, l.secret, TranscriptHash(s, l), role.Server?)
  }

  lemma PrepareKeyed(s: Setup, role: Role, stage: nat, l: Local)
    ensures Keyed(s, role, stage, Prepare(s, role, stage, l))
  {
    hide InitialDirection;
  }

  /** A program that has encapsulated or decapsulated holds a secret of the length of the KEM. */
  predicate HasSecret(s: Setup, role: Role, stage: nat, l: Local) {
    stage >= (if role.Server? then 1 else 2) ==> |l.secret| == s.suite.kemSecretLen
  }

  lemma SentSecret(s: Setup, role: Role, stage: nat, l: Local)
    requires HasSecret(s, role, stage, l) && SenderOf(stage) == role
    ensures HasSecret(s, role, stage + 1, Prepare(s, role, stage + 1, AfterSend(s, stage, l)))
  {
    hide InitialDirection, BodyOf;
  }

  lemma ReceivedSecret(s: Setup, role: Role, stage: nat, l: Local, got: Bytes)
    requires HasSecret(s, role, stage, l) && SenderOf(stage) != role
    requires stage < HANDSHAKE_MESSAGES ==> |Payload(got)| <= MAX_BODY_LEN
    ensures HasSecret(s, role, stage + 1, Prepare(s, role, stage + 1, AfterReceive(s, stage, l, got)))
  {
    hide InitialDirection, Opened;
  }

  lemma TurnSecret(s: Setup, role: Role, e: Endpoint)
    requires Sane(s, role, e) && HasSecret(s, role, e.stage, e.l) && Enabled(s, e, Turn)
    ensures var e' := Apply(s, role, e, Turn); HasSecret(s, role, e'.stage, e'.l)
  {
    hide FrameAt, Acceptable, AfterSend, AfterReceive, Prepare, WireOf, HasSecret;
    TurnCases(s, role, e);
    SaneLog(s, role, e);
    if e.io.Sending? {
      SentSecret(s, role, e.stage, e.l);
    } else if FrameAt(s.suite, e.stage, e.io.got).Whole? {
      ReceivedSecret(s, role, e.stage, e.l, e.io.got);
    }
  }

  lemma {:induction false} RunHasSecret(s: Setup, role: Role, events: seq<Event>)
    requires Run(s, role, events).Some?
    ensures var e := Run(s, role, events).value; HasSecret(s, role, e.stage, e.l)
  {
    hide Sane, FrameAt, Acceptable, AfterSend, AfterReceive, WireOf, Enter;
    if |events| > 0 {
      var front, ev := events[..|events| - 1], events[|events| - 1];
      RunHasSecret(s, role, front);
      RunSane(s, role, front);
      if ev.Turn? {
        TurnSecret(s, role, Run(s, role, front).value);
      }
    } else {
      StartStage(s, role);
    }
  }

  lemma StartStage(s: Setup, role: Role)
    ensures Start(s, role).stage == 0
  {
  }

  lemma {:induction false} RunDirections(s: Setup, role: Role, events: seq<Event>)
    requires Run(s, role, events).Some?
    ensures var e := Run(s, role, events).value; Keyed(s, role, e.stage, e.l)
  {
    hide Keyed, Prepare, AfterSend, AfterReceive, WireOf, FrameAt, Acceptable;
    if |events| == 0 {
      PrepareKeyed(s, role, 0, INITIAL);
    } else {
      var front, ev := events[..|events| - 1], events[|events| - 1];
      var e := Run(s, role, front).value;
      RunDirections(s, role, front);
      if ev.Turn? && e.io.Sending? {
        PrepareKeyed(s, role, e.stage + 1, AfterSend(s, e.stage, e.l));
      } else if ev.Turn? {
        PrepareKeyed(s, role, e.stage + 1, AfterReceive(s, e.stage, e.l, e.io.got));
      }
    }
  }

  lemma LabelsOfDirections(suite: Primitives.Suite, secret: Bytes, hash: Bytes)
    ensures var client := InitialDirection(suite, secret, hash, true);
            && client.key == Primitives.Hkdf(suite, secret, hash, Primitives.Ascii("pqc tls demo client application key"), 32)
            && client.iv == Primitives.Hkdf(suite, secret, hash, Primitives.Ascii("pqc tls demo client application iv"), 12)
            && client.sequenceNumber == 0
    ensures var server := InitialDirection(suite, secret, hash, false);
            && server.key == Primitives.Hkdf(suite, secret, hash, Primitives.Ascii("pqc tls demo server application key"), 32)
            && server.iv == Primitives.Hkdf(suite, secret, hash, Primitives.Ascii("pqc tls demo server application iv"), 12)
            && server.sequenceNumber == 0
  {
  }

  /** On starting the records a program holds, for the direction from the client, the key and IV
      that the client's labels derive from its secret with the hash of its whole transcript for
      salt, for the other direction those of the server's labels, and both numbers are 0; a
      client sends in the first direction and a server in the second. */
  lemma RunKeyed(s: Setup, role: Role, events: seq<Event>)
    requires Run(s, role, events).Some? && Run(s, role, events).value.stage == 6
    ensures var l := Run(s, role, events).value.l;
            var hash := Primitives.Hash(s.suite, EncodeAll(l.log));
            var fromClient, fromServer := if role.Client? then l.snd else l.rcv, if role.Client? then l.rcv else l.snd;
            && fromClient.key == Primitives.Hkdf(s.suite, l.secret, hash, Primitives.Ascii("pqc tls demo client application key"), 32)
            && fromClient.iv == Primitives.Hkdf(s.suite, l.secret, hash, Primitives.Ascii("pqc tls demo client application iv"), 12)
            && fromServer.key == Primitives.Hkdf(s.suite, l.secret, hash, Primitives.Ascii("pqc tls demo server application key"), 32)
            && fromServer.iv == Primitives.Hkdf(s.suite, l.secret, hash, Primitives.Ascii("pqc tls demo server application iv"), 12)
            && fromClient.sequenceNumber == 0 == fromServer.sequenceNumber
  {
    hide Run, InitialDirection;
    var l := Run(s, role, events).value.l;
    RunDirections(s, role, events);
    LabelsOfDirections(s.suite, l.secret, TranscriptHash(s, l));
  }
}
