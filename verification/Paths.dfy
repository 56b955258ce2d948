/** Stretches of a run: what a call of the transport does is a sequence of events. */
module Paths {
  import opened ByteStrings
  import opened Primitives
  import opened Handshake
  import Finished
  import opened Record
  import opened Protocol

  predicate Running(e: Endpoint) {
    e.alive && e.stage < MESSAGES
  }

  /** Handing the kernel the octets of a message up to position `to`. */
  lemma {:induction false} EmitTo(s: Setup, role: Role, events: seq<Event>, e: Endpoint, to: nat) returns (events': seq<Event>)
    requires Run(s, role, events) == Some(e) && Running(e) && e.io.Sending?
    requires e.io.k <= to <= |e.io.wire|
    ensures Run(s, role, events')
            == Some(e.(io := Sending(e.io.wire, to), sent := e.sent + e.io.wire[e.io.k..to]))
    decreases |e.io.wire| - e.io.k
  {
    hide Run;
    var wire, k := e.io.wire, e.io.k;
    if k == to {
      assert e.sent + wire[k..to] == e.sent;
      return events;
    }
    var left := TransferLeft(e.stage, |wire|, k);
    var n := if left < to - k then left else to - k;
    var ev := Emit(wire[k..k + n]);
    RunSnoc(s, role, events, ev);
    var e' := Apply(s, role, e, ev);
    assert e' == e.(io := Sending(wire, k + n), sent := e.sent + wire[k..k + n]);
    events' := EmitTo(s, role, events + [ev], e', to);
    assert wire[k..to] == wire[k..k + n] + wire[k + n..to];
    ConcatAssociates(e.sent, wire[k..k + n], wire[k + n..to]);
  }

  predicate PacedAt(s: Setup, stage: nat, got: Bytes) {
    if stage < HANDSHAKE_MESSAGES then Paced(KindOf(stage), CapacityOf(s.suite, stage), got)
    else RecordPaced(RECORD_CAPACITY, got)
  }

  /** A receiver that may come to hold `got` asks for more while it holds less. */
  lemma PacedNeeds(s: Setup, stage: nat, held: Bytes, got: Bytes)
    requires PacedAt(s, stage, got) && held < got
    ensures FrameAt(s.suite, stage, held).Need?
  {
    if stage < HANDSHAKE_MESSAGES {
      if |held| >= HEADER_LEN {
        assert got[..HEADER_LEN] == held[..HEADER_LEN];
        assert got[1..4] == held[1..4] == got[..HEADER_LEN][1..4];
      }
    } else {
      RecordPacedNeeds(RECORD_CAPACITY, held, got);
    }
  }

  /** Receiving the octets of a message up to `got`. */
  lemma {:induction false} AbsorbTo(s: Setup, role: Role, events: seq<Event>, e: Endpoint, got: Bytes) returns (events': seq<Event>)
    requires Run(s, role, events) == Some(e) && Running(e) && e.io.Receiving?
    requires e.io.got <= got && PacedAt(s, e.stage, got)
    ensures Run(s, role, events')
            == Some(e.(io := Receiving(got), rcvd := e.rcvd + got[|e.io.got|..]))
    decreases |got| - |e.io.got|
  {
    hide Run, FrameAt;
    var held := e.io.got;
    if held == got {
      assert e.rcvd + got[|held|..] == e.rcvd;
      return events;
    }
    PacedNeeds(s, e.stage, held, got);
    var more := FrameAt(s.suite, e.stage, held).more;
    var n := if more < |got| - |held| then more else |got| - |held|;
    var ev := Absorb(got[|held|..|held| + n]);
    RunSnoc(s, role, events, ev);
    var e' := Apply(s, role, e, ev);
    assert held + got[|held|..|held| + n] == got[..|held| + n];
    events' := AbsorbTo(s, role, events + [ev], e', got);
    assert got[|held|..] == got[|held|..|held| + n] + got[|held| + n..];
    ConcatAssociates(e.rcvd, got[|held|..|held| + n], got[|held| + n..]);
  }

  lemma FailAt(s: Setup, role: Role, events: seq<Event>, e: Endpoint)
    requires Run(s, role, events) == Some(e) && Running(e)
    ensures Run(s, role, events + [Abort]) == Some(e.(alive := false))
  {
    hide Run;
    RunSnoc(s, role, events, Abort);
  }

  lemma TurnSent(s: Setup, role: Role, events: seq<Event>, e: Endpoint)
    requires Run(s, role, events) == Some(e) && Running(e) && e.io.Sending? && e.io.k == |e.io.wire|
    ensures Run(s, role, events + [Turn])
            == Some(Enter(s, role, e, e.stage + 1, AfterSend(s, e.stage, e.l), e.wires + [e.io.wire]))
  {
    hide Run, Enter;
    RunSnoc(s, role, events, Turn);
  }

  lemma TurnAccepted(s: Setup, role: Role, events: seq<Event>, e: Endpoint)
    requires Run(s, role, events) == Some(e) && Running(e) && e.io.Receiving?
    requires FrameAt(s.suite, e.stage, e.io.got).Whole? && Acceptable(s, e.stage, e.l, e.io.got)
    ensures Run(s, role, events + [Turn])
            == Some(Enter(s, role, e, e.stage + 1, AfterReceive(s, e.stage, e.l, e.io.got), e.wires + [e.io.got]))
  {
    hide Run, Enter, FrameAt, Acceptable;
    RunSnoc(s, role, events, Turn);
  }

  /** What a program has to do first at a stage. */
  function FreshIo(s: Setup, role: Role, stage: nat, l: Local): Io {
    if stage >= MESSAGES then Closed
    else if SenderOf(stage) == role then Sending(WireOf(s, stage, l), 0)
    else Receiving([])
  }

  lemma Entered(s: Setup, role: Role, e: Endpoint, stage: nat, l: Local, wires: seq<Bytes>)
    ensures var e' := Enter(s, role, e, stage, l, wires);
            && e'.stage == stage && e'.l == Prepare(s, role, stage, l)
            && e'.io == FreshIo(s, role, stage, e'.l)
            && e'.alive == e.alive && e'.sent == e.sent && e'.rcvd == e.rcvd
  {
    hide Prepare, WireOf;
  }

  lemma RecordAcceptable(s: Setup, stage: nat, l: Local, got: Bytes)
    requires HANDSHAKE_MESSAGES <= stage
    requires RecordFrameOf(RECORD_CAPACITY, got).Whole? && Opened(s.suite, l.rcv, got).Some?
    ensures FrameAt(s.suite, stage, got).Whole? && Acceptable(s, stage, l, got)
    ensures AfterReceive(s, stage, l, got) == l.(rcv := Next(l.rcv), inbox := Opened(s.suite, l.rcv, got).value)
  {
    hide Opened;
  }

  /** What a receiver of a handshake message makes of what it holds. */
  lemma HandshakeChecks(s: Setup, stage: nat, got: Bytes)
    requires stage < HANDSHAKE_MESSAGES
    ensures FrameAt(s.suite, stage, got) == FrameOf(KindOf(stage), CapacityOf(s.suite, stage), got)
    ensures PacedAt(s, stage, got) <==> Paced(KindOf(stage), CapacityOf(s.suite, stage), got)
    ensures Paced(KindOf(stage), CapacityOf(s.suite, stage), got) && FrameAt(s.suite, stage, got).Whole? ==>
              && FrameAt(s.suite, stage, got).body == Payload(got)
              && |Payload(got)| <= MAX_BODY_LEN && |Payload(got)| <= CapacityOf(s.suite, stage)
  {
    if Paced(KindOf(stage), CapacityOf(s.suite, stage), got) && FrameAt(s.suite, stage, got).Whole? {
      WholeIsEncoding(KindOf(stage), CapacityOf(s.suite, stage), got);
      assert got[HEADER_LEN..HEADER_LEN + BodyLength(got)] == Payload(got);
    }
  }

  /** What the checks on a record are. */
  lemma RecordChecks(s: Setup, stage: nat, l: Local, got: Bytes)
    requires HANDSHAKE_MESSAGES <= stage
    ensures FrameAt(s.suite, stage, got) == RecordFrameOf(RECORD_CAPACITY, got)
    ensures Acceptable(s, stage, l, got) <==> |got| >= RECORD_HEADER_LEN && Opened(s.suite, l.rcv, got).Some?
    ensures RecordFrameOf(RECORD_CAPACITY, got).Whole? ==> |got| >= RECORD_HEADER_LEN
  {
    hide Opened;
  }

  /** What the check on a Finished message is. */
  lemma FinishedCheck(s: Setup, stage: nat, l: Local, body: Bytes)
    requires stage == 4 || stage == 5
    ensures BodyAcceptable(s, stage, l, body) <==>
            body == Finished.VerifyData(s.suite, l.secret, if stage == 4 then Finished.SERVER_LABEL else Finished.CLIENT_LABEL, TranscriptHash(s, l))
  {
    hide Finished.VerifyData;
  }

  /** The variables after a handshake message has been sent. */
  lemma VariablesAfterSend(s: Setup, role: Role, stage: nat, l: Local)
    ensures var l' := Prepare(s, role, stage + 1, AfterSend(s, stage, l));
            l'.peerKey == l.peerKey && (stage > 0 ==> l'.secret == l.secret)
  {
    hide BodyOf, InitialDirection;
  }

  /** The variables after a handshake message has been accepted. */
  lemma VariablesAfterBody(s: Setup, role: Role, stage: nat, l: Local, body: Bytes)
    requires |body| <= MAX_BODY_LEN
    ensures var l' := Prepare(s, role, stage + 1, AfterBody(s, stage, l, body));
            && l'.peerKey == (if stage == 0 || stage == 2 then body else l.peerKey)
            && (stage == 1 ==> l'.secret == Decaps(s.suite, s.kemSecret, body))
            && (stage >= 2 ==> l'.secret == l.secret)
  {
    hide InitialDirection;
  }

  /** What the check on a ClientHello, a ServerHello or a Certificate is. */
  lemma LengthCheck(s: Setup, stage: nat, l: Local, body: Bytes)
    requires stage <= 2
    ensures BodyAcceptable(s, stage, l, body) <==> |body| == CapacityOf(s.suite, stage)
  {
  }

  /** What the check on a CertificateVerify is. */
  lemma SignatureCheck(s: Setup, l: Local, body: Bytes)
    ensures BodyAcceptable(s, 3, l, body) <==> 0 < |body| && s.suite.verify(l.peerKey, TranscriptHash(s, l), body)
  {
  }
}
