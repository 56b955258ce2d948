/** The two programs of `secure_client.c` and `secure_server.c`, each as a machine that moves
    octets to and from its socket and computes between one message and the next. */
module Protocol {
  import opened ByteStrings
  import Framing
  import opened Primitives
  import opened Handshake
  import opened Finished
  import opened Record

  datatype Role = Client | Server

  function Peer(role: Role): Role {
    if role.Client? then Server else Client
  }

  /** Messages 0 to 5 are the handshake: ClientHello, ServerHello, Certificate,
      CertificateVerify, server Finished, client Finished. Messages 6 and 7 are the application
      data records of the client and of the server. */
  const HANDSHAKE_MESSAGES: nat := 6
  const MESSAGES: nat := 8

  /** Who sends message `stage`. */
  function SenderOf(stage: nat): Role {
    if stage == 0 || stage == 5 || stage == 6 then Client else Server
  }

  function KindOf(stage: nat): Byte {
    if stage == 0 then CLIENT_HELLO
    else if stage == 1 then SERVER_HELLO
    else if stage == 2 then CERTIFICATE
    else if stage == 3 then CERTIFICATE_VERIFY
    else FINISHED
  }

  /** The room the receiver of message `stage` has for its body. */
  function CapacityOf(suite: Suite, stage: nat): nat {
    if stage == 0 then suite.kemPublicLen
    else if stage == 1 then suite.kemCiphertextLen
    else if stage == 2 then suite.sigPublicLen
    else if stage == 3 then suite.sigLen
    else VERIFY_DATA_LEN
  }

  /** Both programs pass the size of a 1024 octet buffer, less one, to receive a record. */
  const RECORD_CAPACITY: nat := 1023

  /** What the programs are started with: the key pairs, the randomness the server will use to
      encapsulate and to sign, and the text each side sends. */
  datatype RawSetup = Setup(
    suite: Suite,
    kemPublic: Bytes, kemSecret: Bytes,
    sigPublic: Bytes, sigSecret: Bytes,
    encapsCoins: nat, signCoins: nat,
    clientText: Bytes, serverText: Bytes)
  {
    predicate Sound() {
      && |kemPublic| == suite.kemPublicLen && |sigPublic| == suite.sigPublicLen
      && 0 < |clientText| <= MAX_PLAINTEXT_LEN && 0 < |serverText| <= MAX_PLAINTEXT_LEN
    }
  }

  type Setup = s: RawSetup | s.Sound()
    witness Setup(DEGENERATE, Zeros(1), [], Zeros(1), [], 0, 0, Zeros(1), Zeros(1))

  const NO_DIRECTION: Direction := Direction(Zeros(KEY_LEN), Zeros(IV_LEN), 0)

  /** The variables of a program: the messages hashed into its transcript, the shared secret,
      the public key received from the peer, the record states and the decrypted text. */
  datatype Local = Local(log: seq<Message>, secret: Bytes, peerKey: Bytes, snd: Direction, rcv: Direction, inbox: Bytes)

  const INITIAL: Local := Local([], [], [], NO_DIRECTION, NO_DIRECTION, [])

  function TranscriptHash(s: Setup, l: Local): Bytes {
    Hash(s.suite, EncodeAll(l.log))
  }

  // ---- Sending ----------------------------------------------------------------------------

  /** The body of handshake message `stage`, as its sender computes it. */
  function BodyOf(s: Setup, stage: nat, l: Local): (body: Bytes)
    requires stage < HANDSHAKE_MESSAGES
    ensures |body| <= MAX_BODY_LEN
  {
    if stage == 0 then s.kemPublic
    else if stage == 1 then Encaps(s.suite, l.peerKey, s.encapsCoins).0
    else if stage == 2 then s.sigPublic
    else if stage == 3 then Sign(s.suite, s.sigSecret, TranscriptHash(s, l), s.signCoins)
    else if stage == 4 then VerifyData(s.suite, l.secret, SERVER_LABEL, TranscriptHash(s, l))
    else VerifyData(s.suite, l.secret, CLIENT_LABEL, TranscriptHash(s, l))
  }

  function TextOf(s: Setup, stage: nat): Bytes {
    if stage == HANDSHAKE_MESSAGES then s.clientText else s.serverText
  }

  /** Message `stage` on the wire. */
  function WireOf(s: Setup, stage: nat, l: Local): Bytes {
    if stage < HANDSHAKE_MESSAGES then Encode(Message(KindOf(stage), BodyOf(s, stage, l)))
    else Sealed(s.suite, l.snd, TextOf(s, stage))
  }

  /** The sender's variables once the message is sent. */
  function AfterSend(s: Setup, stage: nat, l: Local): Local {
    if stage < HANDSHAKE_MESSAGES then l.(log := l.log + [Message(KindOf(stage), BodyOf(s, stage, l))])
    else l.(snd := Next(l.snd))
  }

  // ---- Receiving --------------------------------------------------------------------------

  function FrameAt(suite: Suite, stage: nat, got: Bytes): (f: Framing.Frame)
    ensures f.Need? ==> f.more > 0
  {
    if stage < HANDSHAKE_MESSAGES then FrameOf(KindOf(stage), CapacityOf(suite, stage), got)
    else RecordFrameOf(RECORD_CAPACITY, got)
  }

  /** The checks the receiver makes on a handshake message it has received whole. */
  predicate BodyAcceptable(s: Setup, stage: nat, l: Local, body: Bytes) {
    if stage == 0 then |body| == s.suite.kemPublicLen
    else if stage == 1 then |body| == s.suite.kemCiphertextLen
    else if stage == 2 then |body| == s.suite.sigPublicLen
    else if stage == 3 then 0 < |body| && s.suite.verify(l.peerKey, TranscriptHash(s, l), body)
    else if stage == 4 then body == VerifyData(s.suite, l.secret, SERVER_LABEL, TranscriptHash(s, l))
    else body == VerifyData(s.suite, l.secret, CLIENT_LABEL, TranscriptHash(s, l))
  }

  predicate Acceptable(s: Setup, stage: nat, l: Local, got: Bytes) {
    if stage < HANDSHAKE_MESSAGES then BodyAcceptable(s, stage, l, Payload(got))
    else |got| >= RECORD_HEADER_LEN && Opened(s.suite, l.rcv, got).Some?
  }

  /** The receiver's variables once it has accepted a handshake message. */
  function AfterBody(s: Setup, stage: nat, l: Local, body: Bytes): Local
    requires |body| <= MAX_BODY_LEN
  {
    l.(log := l.log + [Message(KindOf(stage), body)],
       peerKey := if stage == 0 || stage == 2 then body else l.peerKey,
       secret := if stage == 1 then Decaps(s.suite, s.kemSecret, body) else l.secret)
  }

  /** The same for any message. */
  function AfterReceive(s: Setup, stage: nat, l: Local, got: Bytes): Local {
    if stage < HANDSHAKE_MESSAGES then
      if |Payload(got)| > MAX_BODY_LEN then l else AfterBody(s, stage, l, Payload(got))
    else
      l.(rcv := Next(l.rcv),
         inbox := if Acceptable(s, stage, l, got) then Opened(s.suite, l.rcv, got).value else l.inbox)
  }

  // ---- Between messages -------------------------------------------------------------------

  /** What a program computes on reaching message `stage`: the server encapsulates before its
      first message; both derive the application keys after the handshake, crossed over. */
  function Prepare(s: Setup, role: Role, stage: nat, l: Local): Local {
    if stage == 1 && role.Server? then l.(secret := Encaps(s.suite, l.peerKey, s.encapsCoins).1)
    else if stage == HANDSHAKE_MESSAGES then
      var hash := TranscriptHash(s, l);
      l.(snd := InitialDirection(s.suite, l.secret, hash, role.Client?),
         rcv := InitialDirection(s.suite, l.secret, hash, role.Server?))
    else l
  }

  // ---- The machine ------------------------------------------------------------------------

  /** `Sending(wire, k)`: the first `k` octets of `wire` have been handed to the kernel.
      `Receiving(got)`: the octets received of the current message. */
  datatype Io = Sending(wire: Bytes, k: nat) | Receiving(got: Bytes) | Closed

  /** `stage` is the message being sent or received, 8 at the end; `alive` turns false at the
      first failure. `wires`, `sent` and `rcvd` are history: the messages completed and all the
      octets moved. */
  datatype Endpoint = Endpoint(stage: nat, alive: bool, l: Local, io: Io, wires: seq<Bytes>, sent: Bytes, rcvd: Bytes)

  function Enter(s: Setup, role: Role, e: Endpoint, stage: nat, l: Local, wires: seq<Bytes>): Endpoint {
    var l' := Prepare(s, role, stage, l);
    var io :=
      if stage >= MESSAGES then Closed
      else if SenderOf(stage) == role then Sending(WireOf(s, stage, l'), 0)
      else Receiving([]);
    e.(stage := stage, l := l', io := io, wires := wires)
  }

  function Start(s: Setup, role: Role): Endpoint {
    Enter(s, role, Endpoint(0, true, INITIAL, Closed, [], [], []), 0, INITIAL, [])
  }

  /** One `send` accepting octets, one `recv` delivering octets, the computation at the end of
      a message, or a failure of the kernel or of a library. */
  datatype Event = Emit(data: Bytes) | Absorb(data: Bytes) | Turn | Abort

  /** The octets left in the transfer that position `k` of a message falls in: header, then
      body; or header, then ciphertext, then tag. */
  function TransferLeft(stage: nat, total: nat, k: nat): int {
    if stage < HANDSHAKE_MESSAGES then
      if k < HEADER_LEN then HEADER_LEN - k else total - k
    else
      if k < RECORD_HEADER_LEN then RECORD_HEADER_LEN - k
      else if k < total - TAG_LEN then total - TAG_LEN - k
      else total - k
  }

  predicate Enabled(s: Setup, e: Endpoint, ev: Event) {
    && e.alive && e.stage < MESSAGES
    && match ev {
       case Emit(data) =>
         && e.io.Sending? && e.io.k < |e.io.wire|
         && 0 < |data| <= TransferLeft(e.stage, |e.io.wire|, e.io.k)
         && e.io.k + |data| <= |e.io.wire|
         && data == e.io.wire[e.io.k..e.io.k + |data|]
       case Absorb(data) =>
         && e.io.Receiving?
         && FrameAt(s.suite, e.stage, e.io.got).Need?
         && 0 < |data| <= FrameAt(s.suite, e.stage, e.io.got).more
       case Turn =>
         (e.io.Sending? && e.io.k == |e.io.wire|)
         || (e.io.Receiving? && !FrameAt(s.suite, e.stage, e.io.got).Need?)
       case Abort => true
       }
  }

  /** The kernel may accept any part of what is left of the transfer it is given: of the header of
      a handshake message or its body, or of the header, the ciphertext or the tag of a record. */
  lemma AnyPart(s: Setup, e: Endpoint, n: nat)
    requires e.alive && e.stage < 8 && e.io.Sending? && n > 0 && e.io.k + n <= |e.io.wire|
    requires var k, size := e.io.k, |e.io.wire|;
             if e.stage < 6 then k >= 4 || k + n <= 4
             else k + n <= 5 || (5 <= k && k + n <= size - 16) || (5 <= k && size - 16 <= k)
    ensures Enabled(s, e, Emit(e.io.wire[e.io.k..e.io.k + n]))
  {
  }

  function Apply(s: Setup, role: Role, e: Endpoint, ev: Event): Endpoint
    requires Enabled(s, e, ev)
  {
    match ev
    case Emit(data) => e.(io := Sending(e.io.wire, e.io.k + |data|), sent := e.sent + data)
    case Absorb(data) => e.(io := Receiving(e.io.got + data), rcvd := e.rcvd + data)
    case Turn =>
      if e.io.Sending? then
        Enter(s, role, e, e.stage + 1, AfterSend(s, e.stage, e.l), e.wires + [e.io.wire])
      else if FrameAt(s.suite, e.stage, e.io.got).Whole? && Acceptable(s, e.stage, e.l, e.io.got) then
        Enter(s, role, e, e.stage + 1, AfterReceive(s, e.stage, e.l, e.io.got), e.wires + [e.io.got])
      else e.(alive := false)
    case Abort => e.(alive := false)
  }

  /** The state after `events`, if each was enabled when it happened. Nothing is said of where
      the octets received come from. */
  function Run(s: Setup, role: Role, events: seq<Event>): Option<Endpoint> {
    if |events| == 0 then Some(Start(s, role))
    else
      var before := Run(s, role, events[..|events| - 1]);
      var ev := events[|events| - 1];
      if before.Some? && Enabled(s, before.value, ev) then Some(Apply(s, role, before.value, ev)) else None
  }

  lemma RunSnoc(s: Setup, role: Role, events: seq<Event>, ev: Event)
    requires Run(s, role, events).Some? && Enabled(s, Run(s, role, events).value, ev)
    ensures Run(s, role, events + [ev]) == Some(Apply(s, role, Run(s, role, events).value, ev))
  {
    assert (events + [ev])[..|events|] == events;
  }
}
