/** What the two programs have in common: a socket, a transcript, their variables, and the
    calls they make in the same way. The ghost field `events` is the run of the machine of
    `Protocol` that the program has made so far. */
module Programs {
  import opened ByteStrings
  import opened Framing
  import Transport
  import opened Primitives
  import opened Handshake
  import Transcripts
  import Finished
  import KeySchedule
  import opened Record
  import opened Protocol
  import opened EndpointRuns
  import opened Paths

  /** Why a program stopped: a call of the kernel failed, the peer closed in the middle of a
      message, a message was not one to accept, or a call of a library failed. */
  datatype Reason = KernelError | StreamEnded | MessageRefused | LibraryError

  class Program {
    const setup: Setup
    const role: Role
    const socket: Transport.Socket
    const library: Library
    const transcript: Transcripts.Transcript
    var sharedSecret: Bytes
    /** The key received from the peer: `sig_public_key` or `kem_public_key`. */
    var peerKey: Bytes
    var inbox: Bytes
    /** All the octets the peer will have written before it closes. */
    ghost const first: Bytes
    ghost var events: seq<Event>
    ghost var reason: Reason
    /** The messages hashed when the program stopped. */
    ghost var hashed: seq<Message>

    ghost predicate Wired()
      reads this`events
    {
      Run(setup, role, events).Some?
    }

    ghost function State(): Endpoint
      reads this`events
      requires Wired()
    {
      Run(setup, role, events).value
    }

    /** The octets moved on the socket are those of the run. */
    ghost predicate Tracked()
      reads this`events, socket
    {
      && Wired()
      && socket.outbound == State().sent
      && first == State().rcvd + socket.inbound
    }

    /** No call of the kernel on the socket and no call of a library has failed. */
    ghost predicate Healthy()
      reads socket, library`faulted
    {
      !socket.faulted && !library.faulted
    }

    /** The program has cause to stop for `why`. */
    ghost predicate Justified(why: Reason)
      reads this`events, socket, library`faulted
      requires Wired()
    {
      var (stage, l, io) := (State().stage, State().l, State().io);
      match why
      case KernelError => socket.faulted
      case StreamEnded => io.Receiving? && FrameAt(setup.suite, stage, io.got).Need? && socket.inbound == []
      case MessageRefused =>
        io.Receiving? && !FrameAt(setup.suite, stage, io.got).Need?
        && !(FrameAt(setup.suite, stage, io.got).Whole? && Acceptable(setup, stage, l, io.got))
      case LibraryError => library.faulted
    }

    /** The octets received leave the program no way to go on. */
    ghost predicate Wronged()
      reads this`events, socket, library`faulted
      requires Wired()
    {
      Justified(StreamEnded) || Justified(MessageRefused)
    }

    ghost predicate Failed()
      reads this`events, this`reason, this`hashed, socket, library`faulted, transcript, transcript.ctx
    {
      && Tracked() && !State().alive && Justified(reason)
      && Hashed(hashed) && Hashing(setup, State(), hashed)
    }

    /** The program is about to start on message `stage`, with `l` for its variables. */
    ghost predicate Reached(stage: nat, l: Local)
      reads this`events, socket, library`faulted, transcript, transcript.ctx
    {
      && Tracked() && Healthy() && Hashed(l.log)
      && State().alive && State().stage == stage && State().l == l
      && State().io == FreshIo(setup, role, stage, l)
    }

    ghost predicate Hashed(log: seq<Message>)
      reads transcript, transcript.ctx
    {
      transcript.Valid() && transcript.suite == setup.suite && transcript.Absorbed() == EncodeAll(log)
    }

    /** The program has come to its end and has the text of its peer. */
    ghost predicate Completed()
      reads this`events, this`inbox, socket, library`faulted, transcript, transcript.ctx
    {
      Wired() && Reached(MESSAGES, State().l) && inbox == State().l.inbox
    }

    /** The program has received all of handshake message `stage`, with the body `body`. */
    ghost predicate Holding(stage: nat, l: Local, body: Bytes)
      reads this`events, socket, library`faulted
    {
      Tracked() && Healthy() && HoldingState(stage, l, body)
    }

    ghost predicate HoldingState(stage: nat, l: Local, body: Bytes)
      reads this`events
      requires Wired()
    {
      && stage < HANDSHAKE_MESSAGES
      && State().alive && State().stage == stage && State().l == l
      && State().io.Receiving? && FrameAt(setup.suite, stage, State().io.got).Whole?
      && Payload(State().io.got) == body && |body| <= MAX_BODY_LEN && |body| <= CapacityOf(setup.suite, stage)
    }

    /** The variables of the program are those of the run, as far as they are set. */
    ghost predicate InSync(stage: nat, l: Local)
      reads this`sharedSecret, this`peerKey
    {
      && (stage >= 2 ==> sharedSecret == l.secret)
      && (stage >= (if role.Client? then 3 else 1) ==> peerKey == l.peerKey)
    }

    ghost predicate At(stage: nat)
      reads this`events, this`sharedSecret, this`peerKey, socket, library`faulted, transcript, transcript.ctx
    {
      Wired() && Reached(stage, State().l) && InSync(stage, State().l)
    }

    constructor (setup: Setup, role: Role, socket: Transport.Socket, library: Library, transcript: Transcripts.Transcript)
      requires socket.outbound == [] && !socket.faulted && !library.faulted
      requires transcript.Valid() && transcript.suite == setup.suite && transcript.Absorbed() == []
      ensures At(0)
      ensures this.setup == setup && this.role == role && this.socket == socket && first == socket.inbound
      ensures this.library == library && this.transcript == transcript
    {
      this.setup, this.role, this.socket := setup, role, socket;
      this.library, this.transcript := library, transcript;
      this.sharedSecret, this.peerKey, this.inbox := [], [], [];
      this.first := socket.inbound;
      this.events := [];
      this.reason, this.hashed := LibraryError, [];
    }

    /** A program at its end had no cause to stop. */
    lemma CompletedIsWell()
      requires Completed()
      ensures Healthy() && !Wronged()
    {
      hide Run, FrameAt, Acceptable, Hash, EncodeAll;
    }

    /** One that failed had. */
    lemma FailedIsNot()
      requires Failed()
      ensures !(Healthy() && !Wronged())
    {
      hide Run, FrameAt, Acceptable, Hashing, EncodeAll;
    }

    /** `goto end`. */
    ghost method GiveUp(why: Reason, log: seq<Message>)
      requires Tracked() && Running(State()) && Justified(why)
      requires Hashed(log) && Hashing(setup, State(), log)
      modifies this`events, this`reason, this`hashed
      ensures Failed()
    {
      hide Run, FrameAt, Acceptable, AfterSend, AfterReceive;
      FailAt(setup, role, events, State());
      events := events + [Abort];
      reason, hashed := why, log;
    }

    /** `goto end` because of a handshake message that is not to be accepted. */
    ghost method Refuse(stage: nat, l: Local, body: Bytes)
      requires Holding(stage, l, body) && !BodyAcceptable(setup, stage, l, body) && Hashed(l.log)
      modifies this`events, this`reason, this`hashed
      ensures Failed()
    {
      hide Run, FrameAt, BodyAcceptable;
      GiveUp(MessageRefused, l.log);
    }

    /** `goto end` when a handshake message has been hashed and then the library fails. */
    ghost method GiveUpHashed(stage: nat, l: Local, body: Bytes)
      requires library.faulted && Tracked() && HoldingState(stage, l, body)
      requires Hashed(l.log + [Message(KindOf(stage), body)])
      modifies this`events, this`reason, this`hashed
      ensures Failed()
    {
      hide Run, FrameAt;
      GiveUp(LibraryError, l.log + [Message(KindOf(stage), body)]);
    }

    /** The program has sent all of message `stage`. */
    ghost predicate Delivered(stage: nat, l: Local)
      reads this`events, socket, library`faulted
    {
      && Tracked() && Healthy() && stage < MESSAGES
      && State().alive && State().stage == stage && State().l == l
      && State().io == Sending(WireOf(setup, stage, l), |WireOf(setup, stage, l)|)
    }

    method Deliver(kind: Byte, body: Bytes, ghost stage: nat, ghost l: Local) returns (ok: bool)
      requires kind == KindOf(stage) && Reached(stage, l) && stage < HANDSHAKE_MESSAGES && SenderOf(stage) == role
      requires body == BodyOf(setup, stage, l)
      modifies this`events, this`reason, this`hashed, socket`outbound, socket`faulted
      ensures if ok then Delivered(stage, l) else Failed()
    {
      hide Run, BodyOf;
      var rc;
      ghost var moved;
      rc, moved := SendHandshakeMsg(socket, kind, body);
      events := EmitTo(setup, role, events, State(), moved);
      if rc == -1 {
        GiveUp(KernelError, l.log);
        return false;
      }
      return true;
    }

    /** Adds a message to the transcript. */
    method HashMessage(kind: Byte, body: Bytes, ghost log: seq<Message>) returns (ok: bool)
      requires Tracked() && Running(State()) && Hashed(log) && log == State().l.log && |body| <= MAX_BODY_LEN
      modifies this`events, this`reason, this`hashed, transcript.ctx, library`faulted
      ensures if ok then Hashed(log + [Message(kind, body)]) && events == old(events) && library.faulted == old(library.faulted) else Failed()
    {
      hide Run, Encode;
      var rc := transcript.UpdateHandshakeMsg(library, kind, body);
      EncodeAllSnoc(log, Message(kind, body));
      if rc != 0 {
        GiveUp(LibraryError, log);
        return false;
      }
      return true;
    }

    ghost method Proceed(stage: nat, l: Local)
      requires Delivered(stage, l) && Hashed(AfterSend(setup, stage, l).log)
      modifies this`events
      ensures Reached(stage + 1, Prepare(setup, role, stage + 1, AfterSend(setup, stage, l)))
    {
      hide Run, WireOf, Prepare, Enter, AfterSend;
      var e := State();
      TurnSent(setup, role, events, e);
      Entered(setup, role, e, stage + 1, AfterSend(setup, stage, l), e.wires + [e.io.wire]);
      PrepareKeepsLog(setup, role, stage + 1, AfterSend(setup, stage, l));
      events := events + [Turn];
    }

    /** Sends handshake message `stage` and adds it to the transcript. */
    method SendMessage(kind: Byte, body: Bytes, ghost stage: nat, ghost l: Local) returns (ok: bool)
      requires kind == KindOf(stage) && Reached(stage, l) && stage < HANDSHAKE_MESSAGES && SenderOf(stage) == role
      requires body == BodyOf(setup, stage, l)
      modifies this`events, this`reason, this`hashed, socket`outbound, socket`faulted, transcript.ctx, library`faulted
      ensures if ok then Reached(stage + 1, Prepare(setup, role, stage + 1, AfterSend(setup, stage, l))) else Failed()
    {
      hide Run, WireOf, BodyOf, Prepare;
      ok := Deliver(kind, body, stage, l);
      if ok {
        ok := HashMessage(kind, body, l.log);
      }
      if ok {
        Proceed(stage, l);
      }
    }

    /** The octets `got` have come off the stream. */
    ghost method TakeIn(e: Endpoint, stream: Bytes, got: Bytes)
      requires Wired() && State() == e && Running(e) && e.io == Receiving([]) && PacedAt(setup, e.stage, got)
      requires first == e.rcvd + stream && socket.outbound == e.sent && got + socket.inbound == stream
      modifies this`events
      ensures Tracked() && State() == e.(io := Receiving(got), rcvd := e.rcvd + got)
    {
      hide Run, PacedAt;
      events := AbsorbTo(setup, role, events, e, got);
      ConcatAssociates(e.rcvd, got, socket.inbound);
    }

    /** Receives handshake message `stage`. */
    method ReceiveMessage(kind: Byte, capacity: nat, ghost stage: nat, ghost l: Local) returns (ok: bool, body: Bytes)
      requires kind == KindOf(stage) && Reached(stage, l) && stage < HANDSHAKE_MESSAGES && SenderOf(stage) != role
      requires capacity == CapacityOf(setup.suite, stage)
      modifies this`events, this`reason, this`hashed, socket`inbound, socket`faulted
      ensures if ok then Holding(stage, l, body) else Failed()
    {
      hide Run, FrameAt, FrameOf, Paced, PacedAt, Payload, Acceptable;
      var buffer := new Byte[capacity](_ => 0);
      var bodyLen := new Size();
      var rc;
      ghost var moved;
      ghost var stream, e := socket.inbound, State();
      rc, moved := RecvHandshakeMsg(socket, kind, buffer, capacity, bodyLen);
      ghost var got := stream[..moved];
      assert stream == got + stream[moved..];
      HandshakeChecks(setup, stage, got);
      TakeIn(e, stream, got);
      if rc != 0 {
        GiveUp(if rc == 1 then StreamEnded
               else if FrameOf(kind, capacity, got).Bad? then MessageRefused else KernelError, l.log);
        return false, [];
      }
      body := buffer[..bodyLen.value];
      return true, body;
    }

    /** Goes on after a handshake message that passed the checks. */
    ghost method Accept(stage: nat, l: Local, body: Bytes)
      requires Holding(stage, l, body) && BodyAcceptable(setup, stage, l, body)
      requires Hashed(l.log + [Message(KindOf(stage), body)])
      modifies this`events
      ensures Reached(stage + 1, Prepare(setup, role, stage + 1, AfterBody(setup, stage, l, body)))
    {
      hide Run, FrameAt, WireOf, Prepare, Enter, BodyAcceptable;
      var e := State();
      TurnAccepted(setup, role, events, e);
      Entered(setup, role, e, stage + 1, AfterBody(setup, stage, l, body), e.wires + [e.io.got]);
      PrepareKeepsLog(setup, role, stage + 1, AfterBody(setup, stage, l, body));
      events := events + [Turn];
    }

    /** Adds a received message that passed the checks to the transcript and goes on. */
    method Adopt(kind: Byte, body: Bytes, ghost stage: nat, ghost l: Local) returns (ok: bool)
      requires kind == KindOf(stage) && Holding(stage, l, body) && BodyAcceptable(setup, stage, l, body)
      requires Hashed(l.log)
      modifies this`events, this`reason, this`hashed, transcript.ctx, library`faulted
      ensures if ok then |body| <= MAX_BODY_LEN && Reached(stage + 1, Prepare(setup, role, stage + 1, AfterBody(setup, stage, l, body)))
              else Failed()
    {
      hide Run, FrameAt, BodyAcceptable, Prepare, AfterBody;
      ok := HashMessage(kind, body, l.log);
      if ok {
        Accept(stage, l, body);
      }
    }

    /** The hash of the messages hashed so far. */
    method Snapshot(ghost l: Local) returns (ok: bool, transcriptHash: Bytes)
      requires Tracked() && Running(State()) && State().l == l && Hashed(l.log)
      modifies this`events, this`reason, this`hashed, library`faulted
      ensures if ok then events == old(events) && library.faulted == old(library.faulted) && transcriptHash == TranscriptHash(setup, l) else Failed()
    {
      hide Run;
      var buffer := new Byte[HASH_LEN](_ => 0);
      var length := new Size();
      var rc := transcript.GetHash(library, buffer, length);
      if rc != 0 {
        GiveUp(LibraryError, l.log);
        return false, [];
      }
      return true, buffer[..length.value];
    }

    /** The Finished value for `info` over the messages hashed so far. */
    method FinishedValue(info: string, ghost l: Local) returns (ok: bool, value: Bytes)
      requires Tracked() && Running(State()) && State().l == l && Hashed(l.log) && sharedSecret == l.secret
      modifies this`events, this`reason, this`hashed, library`faulted
      ensures if ok
              then events == old(events) && library.faulted == old(library.faulted)
                   && value == Finished.VerifyData(setup.suite, l.secret, info, TranscriptHash(setup, l))
              else Failed()
    {
      hide Run, Finished.VerifyData, TranscriptHash;
      var transcriptHash;
      ok, transcriptHash := Snapshot(l);
      if !ok {
        return false, [];
      }
      var verifyData := new Byte[Finished.VERIFY_DATA_LEN](_ => 0);
      var rc := Finished.ComputeFinishedVerifyData(library, setup.suite, sharedSecret, info, transcriptHash, verifyData);
      if rc != 0 {
        GiveUp(LibraryError, l.log);
        return false, [];
      }
      return true, verifyData[..];
    }

    /** Derives the application keys over the whole handshake. */
    method ApplicationKeysOf(ghost l: Local) returns (ok: bool, keys: KeySchedule.ApplicationKeys)
      requires Tracked() && Running(State()) && State().l == l && Hashed(l.log) && sharedSecret == l.secret
      requires |sharedSecret| > 0
      modifies this`events, this`reason, this`hashed, library`faulted
      ensures fresh(keys)
      ensures if ok
              then events == old(events) && library.faulted == old(library.faulted)
                   && keys.Hold(setup.suite, l.secret, TranscriptHash(setup, l))
              else Failed()
    {
      hide Run, KeySchedule.Derived;
      keys := new KeySchedule.ApplicationKeys();
      var transcriptHash;
      ok, transcriptHash := Snapshot(l);
      if !ok {
        return false, keys;
      }
      var rc := keys.Derive(library, setup.suite, sharedSecret, transcriptHash);
      if rc != 0 {
        GiveUp(LibraryError, l.log);
        return false, keys;
      }
      return true, keys;
    }

    /** Sends an application data record. */
    method SendRecord(text: Bytes, state: RecordState, ghost stage: nat, ghost l: Local) returns (ok: bool)
      requires Reached(stage, l) && HANDSHAKE_MESSAGES <= stage < MESSAGES && SenderOf(stage) == role
      requires text == TextOf(setup, stage) && state.Valid() && state.Value() == l.snd
      modifies this`events, this`reason, this`hashed, socket`outbound, socket`faulted, library`faulted, state`sequenceNumber
      ensures state.Valid()
      ensures if ok then Delivered(stage, l) && state.Value() == Next(l.snd) else Failed()
    {
      hide Run, Sealed;
      var rc;
      ghost var result, moved;
      rc, result, moved := SendEncryptedRecord(library, setup.suite, socket, text, state);
      events := EmitTo(setup, role, events, State(), moved);
      if rc != 0 {
        GiveUp(if result.Refused? then LibraryError else KernelError, l.log);
        return false;
      }
      return true;
    }

    /** Goes on after a record that was sent. */
    ghost method ProceedRecord(stage: nat, l: Local)
      requires Delivered(stage, l) && HANDSHAKE_MESSAGES <= stage && Hashed(l.log)
      modifies this`events
      ensures Reached(stage + 1, AfterSend(setup, stage, l))
    {
      hide Run, WireOf, Enter;
      Proceed(stage, l);
    }

    /** Sends an application data record and goes on. */
    method SendText(text: Bytes, state: RecordState, ghost stage: nat, ghost l: Local) returns (ok: bool)
      requires Reached(stage, l) && HANDSHAKE_MESSAGES <= stage < MESSAGES && SenderOf(stage) == role
      requires text == TextOf(setup, stage) && state.Valid() && state.Value() == l.snd
      modifies this`events, this`reason, this`hashed, socket`outbound, socket`faulted, library`faulted, state`sequenceNumber
      ensures state.Valid()
      ensures if ok then Reached(stage + 1, AfterSend(setup, stage, l)) && state.Value() == Next(l.snd) else Failed()
    {
      hide Run, WireOf, AfterSend, TextOf, FrameAt, Hashing, Acceptable;
      ok := SendRecord(text, state, stage, l);
      if ok {
        ProceedRecord(stage, l);
      }
    }

    /** Receives an application data record into a buffer of 1024 octets, the last of them
        kept for a terminator, and keeps its text. */
    method ReceiveRecord(state: RecordState, ghost stage: nat, ghost l: Local) returns (ok: bool)
      requires Reached(stage, l) && HANDSHAKE_MESSAGES <= stage < MESSAGES && SenderOf(stage) != role
      requires state.Valid() && state.Value() == l.rcv
      modifies this`events, this`reason, this`hashed, this`inbox, socket`inbound, socket`faulted, library`faulted, state`sequenceNumber
      ensures state.Valid()
      ensures if ok
              then Wired() && Reached(stage + 1, State().l) && inbox == State().l.inbox && state.Value() == State().l.rcv
                   && State().l == l.(rcv := State().l.rcv, inbox := State().l.inbox)
              else Failed()
    {
      hide Run, Opened, FrameAt, RecordFrameOf, Acceptable, RecordPaced, NonceFor, Next;
      var plaintext := new Byte[1024](_ => 0);
      var plaintextLen := new Size();
      ghost var stream, e := socket.inbound, State();
      var rc;
      ghost var moved, libraryFailed;
      rc, moved, libraryFailed :=
        RecvEncryptedRecord(library, setup.suite, socket, plaintext, plaintext.Length - 1, plaintextLen, state);
      ghost var got := stream[..moved];
      assert stream == got + stream[moved..];
      TakeIn(e, stream, got);
      RecordChecks(setup, stage, l, got);
      if rc != 0 {
        GiveUp(ReasonFor(RecordFrameOf(RECORD_CAPACITY, got), rc, libraryFailed), l.log);
        return false;
      }
      inbox := plaintext[..plaintextLen.value];
      RecordAcceptable(setup, stage, l, got);
      AcceptRecord(stage, l);
      return true;
    }

    ghost function ReasonFor(frame: Frame, rc: int, libraryFailed: bool): Reason {
      match frame
      case Need(_) => if rc == 1 then StreamEnded else KernelError
      case Bad => MessageRefused
      case Whole(_) => if libraryFailed then LibraryError else MessageRefused
    }

    ghost method AcceptRecord(stage: nat, l: Local)
      requires Tracked() && Healthy() && Hashed(l.log) && HANDSHAKE_MESSAGES <= stage < MESSAGES
      requires var e := State(); e.alive && e.stage == stage && e.l == l && e.io.Receiving?
      requires FrameAt(setup.suite, stage, State().io.got).Whole? && Acceptable(setup, stage, l, State().io.got)
      modifies this`events
      ensures Reached(stage + 1, AfterReceive(setup, stage, l, old(State()).io.got))
    {
      hide Run, FrameAt, Acceptable, Enter, WireOf;
      var e := State();
      TurnAccepted(setup, role, events, e);
      Entered(setup, role, e, stage + 1, AfterReceive(setup, stage, l, e.io.got), e.wires + [e.io.got]);
      events := events + [Turn];
    }
  }

  /** Starts a program on a connected socket: there is one unless the library failed in making
      its transcript. */
  method OpenProgram(setup: Setup, role: Role, socket: Transport.Socket, library: Library) returns (p: Program?)
    requires socket.outbound == [] && !socket.faulted && !library.faulted
    modifies library`faulted
    ensures p == null <==> library.faulted
    ensures p != null ==>
              && p.setup == setup && p.role == role && p.socket == socket && p.library == library
              && p.first == socket.inbound && p.At(0)
              && fresh(p) && fresh(p.transcript) && fresh(p.transcript.ctx)
  {
    var rc, transcript := Transcripts.InitTranscript(library, setup.suite);
    if rc != 0 {
      return null;
    }
    p := new Program(setup, role, socket, library, transcript);
  }
}
