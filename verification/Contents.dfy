/** What the messages of every run are, in terms of the libraries: types, keys, ciphertexts,
    signatures, Finished values and records, and what they were computed over. */
module Contents {
  import opened ByteStrings
  import opened Primitives
  import opened Handshake
  import opened Record
  import opened Protocol
  import opened EndpointRuns
  import Finished

  /** Message `j` of the transcript is right, given the messages before it and the secret. */
  predicate Right(s: Setup, role: Role, secret: Bytes, log: seq<Message>, j: nat)
    requires j < |log|
  {
    var m, hash := log[j], Hash(s.suite, EncodeAll(log[..j]));
    m.kind == KindOf(j)
    && if j == 0 then |m.body| == s.suite.kemPublicLen && (role.Client? ==> m.body == s.kemPublic)
       else if j == 1 then
         if role.Client? then |m.body| == s.suite.kemCiphertextLen && secret == Decaps(s.suite, s.kemSecret, m.body)
         else (m.body, secret) == Encaps(s.suite, log[0].body, s.encapsCoins)
       else if j == 2 then |m.body| == s.suite.sigPublicLen && (role.Server? ==> m.body == s.sigPublic)
       else if j == 3 then
         if role.Client? then 0 < |m.body| <= s.suite.sigLen && s.suite.verify(log[2].body, hash, m.body)
         else m.body == Sign(s.suite, s.sigSecret, hash, s.signCoins)
       else m.body == Finished.VerifyData(s.suite, secret, if j == 4 then Finished.SERVER_LABEL else Finished.CLIENT_LABEL, hash)
  }

  function Held(stage: nat): nat {
    if stage < HANDSHAKE_MESSAGES then stage else HANDSHAKE_MESSAGES
  }

  /** All the messages so far are right, and so are the variables the next ones depend on. */
  predicate Ready(s: Setup, role: Role, stage: nat, l: Local) {
    && |l.log| == Held(stage)
    && (forall j | 0 <= j < |l.log| :: Right(s, role, l.secret, l.log, j))
    && (role.Server? && stage >= 1 ==>
          l.peerKey == l.log[0].body && l.secret == Encaps(s.suite, l.log[0].body, s.encapsCoins).1)
    && (role.Client? && stage >= 3 ==> l.peerKey == l.log[2].body)
  }

  lemma RightKept(s: Setup, role: Role, secret: Bytes, secret': Bytes, log: seq<Message>, m: Message, j: nat)
    requires j < |log| && Right(s, role, secret, log, j) && (j > 0 ==> secret' == secret)
    ensures Right(s, role, secret', log + [m], j)
  {
    assert (log + [m])[..j] == log[..j];
  }

  lemma AllRightKept(s: Setup, role: Role, secret: Bytes, secret': Bytes, log: seq<Message>, m: Message)
    requires forall j | 0 <= j < |log| :: Right(s, role, secret, log, j)
    requires |log| > 1 ==> secret' == secret
    requires Right(s, role, secret', log + [m], |log|)
    ensures forall j | 0 <= j < |log| + 1 :: Right(s, role, secret', log + [m], j)
  {
    forall j | 0 <= j < |log| + 1
      ensures Right(s, role, secret', log + [m], j)
    {
      if j < |log| {
        RightKept(s, role, secret, secret', log, m, j);
      }
    }
  }

  lemma SentRight(s: Setup, role: Role, stage: nat, l: Local)
    requires stage < HANDSHAKE_MESSAGES && SenderOf(stage) == role && Ready(s, role, stage, l)
    ensures Right(s, role, l.secret, l.log + [Message(KindOf(stage), BodyOf(s, stage, l))], stage)
  {
    assert (l.log + [Message(KindOf(stage), BodyOf(s, stage, l))])[..stage] == l.log;
  }

  lemma ReceivedRight(s: Setup, role: Role, stage: nat, l: Local, body: Bytes)
    requires stage < HANDSHAKE_MESSAGES && SenderOf(stage) != role && Ready(s, role, stage, l)
    requires |body| <= MAX_BODY_LEN && |body| <= CapacityOf(s.suite, stage) && BodyAcceptable(s, stage, l, body)
    ensures Right(s, role, AfterBody(s, stage, l, body).secret, l.log + [Message(KindOf(stage), body)], stage)
  {
    assert (l.log + [Message(KindOf(stage), body)])[..stage] == l.log;
  }

  /** Going on with the log `log` and the variables `l`. */
  lemma PreparedReady(s: Setup, role: Role, stage: nat, l: Local)
    requires |l.log| == Held(stage) && forall j | 0 <= j < |l.log| :: Right(s, role, l.secret, l.log, j)
    requires role.Server? && stage >= 1 ==> l.peerKey == l.log[0].body
    requires role.Server? && stage >= 2 ==> l.secret == Encaps(s.suite, l.log[0].body, s.encapsCoins).1
    requires role.Client? && stage >= 3 ==> l.peerKey == l.log[2].body
    ensures Ready(s, role, stage, Prepare(s, role, stage, l))
  {
    hide InitialDirection;
    var l' := Prepare(s, role, stage, l);
    forall j | 0 <= j < |l'.log|
      ensures Right(s, role, l'.secret, l'.log, j)
    {
      assert Right(s, role, l.secret, l.log, j);
    }
  }

  lemma SentReady(s: Setup, role: Role, stage: nat, l: Local)
    requires SenderOf(stage) == role && Ready(s, role, stage, l)
    ensures Ready(s, role, stage + 1, Prepare(s, role, stage + 1, AfterSend(s, stage, l)))
  {
    hide Right, BodyOf;
    var l' := AfterSend(s, stage, l);
    if stage < HANDSHAKE_MESSAGES {
      var m := Message(KindOf(stage), BodyOf(s, stage, l));
      SentRight(s, role, stage, l);
      AllRightKept(s, role, l.secret, l.secret, l.log, m);
    }
    PreparedReady(s, role, stage + 1, l');
  }

  lemma ReceivedReady(s: Setup, role: Role, stage: nat, l: Local, got: Bytes)
    requires SenderOf(stage) != role && Ready(s, role, stage, l)
    requires stage < HANDSHAKE_MESSAGES ==>
               && |Payload(got)| <= MAX_BODY_LEN && |Payload(got)| <= CapacityOf(s.suite, stage)
               && BodyAcceptable(s, stage, l, Payload(got))
    ensures Ready(s, role, stage + 1, Prepare(s, role, stage + 1, AfterReceive(s, stage, l, got)))
  {
    hide Right, BodyAcceptable, Opened, Payload;
    var l' := AfterReceive(s, stage, l, got);
    if stage < HANDSHAKE_MESSAGES {
      var m := Message(KindOf(stage), Payload(got));
      ReceivedRight(s, role, stage, l, Payload(got));
      AllRightKept(s, role, l.secret, l'.secret, l.log, m);
    }
    PreparedReady(s, role, stage + 1, l');
  }

  lemma PayloadFits(s: Setup, role: Role, e: Endpoint)
    requires Sane(s, role, e) && e.stage < HANDSHAKE_MESSAGES && e.io.Receiving? && FrameAt(s.suite, e.stage, e.io.got).Whole?
    ensures |Payload(e.io.got)| <= MAX_BODY_LEN && |Payload(e.io.got)| <= CapacityOf(s.suite, e.stage)
  {
    hide FrameAt, WireOf;
    WholeAt(s, e.stage, e.l, e.io.got);
  }

  lemma SenderOrNot(s: Setup, role: Role, e: Endpoint)
    requires Sane(s, role, e) && e.stage < MESSAGES
    ensures e.io.Sending? <==> SenderOf(e.stage) == role
    ensures e.io.Sending? || e.io.Receiving?
  {
    hide Accounted, Logged, Timely;
  }

  lemma TurnReady(s: Setup, role: Role, e: Endpoint)
    requires Sane(s, role, e) && Ready(s, role, e.stage, e.l) && Enabled(s, e, Turn)
    ensures var e' := Apply(s, role, e, Turn); Ready(s, role, e'.stage, e'.l)
  {
    hide Sane, Ready, FrameAt, Acceptable, AfterSend, AfterReceive, WireOf, Prepare, BodyAcceptable;
    SenderOrNot(s, role, e);
    if e.io.Sending? {
      SentReady(s, role, e.stage, e.l);
    } else if FrameAt(s.suite, e.stage, e.io.got).Whole? && Acceptable(s, e.stage, e.l, e.io.got) {
      if e.stage < HANDSHAKE_MESSAGES {
        PayloadFits(s, role, e);
        AcceptableBody(s, e.stage, e.l, e.io.got);
      }
      ReceivedReady(s, role, e.stage, e.l, e.io.got);
    }
  }

  lemma AcceptableBody(s: Setup, stage: nat, l: Local, got: Bytes)
    requires stage < HANDSHAKE_MESSAGES && Acceptable(s, stage, l, got)
    ensures BodyAcceptable(s, stage, l, Payload(got))
  {
    hide BodyAcceptable;
  }

  lemma {:induction false} RunReady(s: Setup, role: Role, events: seq<Event>)
    requires Run(s, role, events).Some?
    ensures var e := Run(s, role, events).value; Ready(s, role, e.stage, e.l)
  {
    hide Sane, Ready, FrameAt, Acceptable, AfterSend, AfterReceive, WireOf, Enter;
    if |events| > 0 {
      var front, ev := events[..|events| - 1], events[|events| - 1];
      RunReady(s, role, front);
      RunSane(s, role, front);
      if ev.Turn? {
        TurnReady(s, role, Run(s, role, front).value);
      }
    } else {
      StartReady(s, role);
    }
  }

  lemma StartReady(s: Setup, role: Role)
    ensures var e := Start(s, role); Ready(s, role, e.stage, e.l)
  {
    hide WireOf;
  }

  // ---- The handshake ----------------------------------------------------------------------

  lemma FinishedIs(suite: Suite, secret: Bytes, hash: Bytes)
    ensures Finished.VerifyData(suite, secret, Finished.SERVER_LABEL, hash)
            == Hmac(suite, Hkdf(suite, secret, [], Ascii("Server Finished Key"), 32), hash)
    ensures Finished.VerifyData(suite, secret, Finished.CLIENT_LABEL, hash)
            == Hmac(suite, Hkdf(suite, secret, [], Ascii("Client Finished Key"), 32), hash)
  {
  }

  /** The messages of every client run: types 1, 2, 11, 15, 20 and 20; its own KEM key; a secret
      that is the ciphertext decapsulated; a signature that verifies, under the key received, over
      the hash of the three messages before it; and Finished values under the secret and the
      label of each direction over the hash of the messages before. */
  lemma ClientMessages(s: Setup, events: seq<Event>)
    requires Run(s, Client, events).Some?
    ensures var l := Run(s, Client, events).value.l;
            var (log, secret, suite) := (l.log, l.secret, s.suite);
            && |log| <= 6
            && (|log| > 0 ==> log[0] == Message(1, s.kemPublic))
            && (|log| > 1 ==> log[1].kind == 2 && |log[1].body| == suite.kemCiphertextLen
                              && secret == Decaps(suite, s.kemSecret, log[1].body))
            && (|log| > 2 ==> log[2].kind == 11 && |log[2].body| == suite.sigPublicLen)
            && (|log| > 3 ==> log[3].kind == 15 && 0 < |log[3].body| <= suite.sigLen
                              && suite.verify(log[2].body, Hash(suite, EncodeAll(log[..3])), log[3].body))
            && (|log| > 4 ==> log[4].kind == 20
                              && log[4].body == Hmac(suite, Hkdf(suite, secret, [], Ascii("Server Finished Key"), 32),
                                                     Hash(suite, EncodeAll(log[..4]))))
            && (|log| > 5 ==> log[5].kind == 20
                              && log[5].body == Hmac(suite, Hkdf(suite, secret, [], Ascii("Client Finished Key"), 32),
                                                     Hash(suite, EncodeAll(log[..5]))))
  {
    hide Run, EncodeAll, Finished.VerifyData;
    RunReady(s, Client, events);
    var l := Run(s, Client, events).value.l;
    var log := l.log;
    assert |log| > 0 ==> Right(s, Client, l.secret, log, 0);
    assert |log| > 1 ==> Right(s, Client, l.secret, log, 1);
    assert |log| > 2 ==> Right(s, Client, l.secret, log, 2);
    assert |log| > 3 ==> Right(s, Client, l.secret, log, 3);
    if |log| > 4 {
      assert Right(s, Client, l.secret, log, 4);
      FinishedIs(s.suite, l.secret, Hash(s.suite, EncodeAll(log[..4])));
    }
    if |log| > 5 {
      assert Right(s, Client, l.secret, log, 5);
      FinishedIs(s.suite, l.secret, Hash(s.suite, EncodeAll(log[..5])));
    }
  }

  /** Symmetrically for every server run: ciphertext and secret are an encapsulation to the key
      received, the Certificate is its own signing key, and the CertificateVerify is its signature
      over the hash of the three messages before it. */
  lemma ServerMessages(s: Setup, events: seq<Event>)
    requires Run(s, Server, events).Some?
    ensures var l := Run(s, Server, events).value.l;
            var (log, secret, suite) := (l.log, l.secret, s.suite);
            && |log| <= 6
            && (|log| > 0 ==> log[0].kind == 1 && |log[0].body| == suite.kemPublicLen)
            && (|log| > 1 ==> log[1].kind == 2
                              && (log[1].body, secret) == Encaps(suite, log[0].body, s.encapsCoins))
            && (|log| > 2 ==> log[2] == Message(11, s.sigPublic))
            && (|log| > 3 ==> log[3].kind == 15
                              && log[3].body == Sign(suite, s.sigSecret, Hash(suite, EncodeAll(log[..3])), s.signCoins))
            && (|log| > 4 ==> log[4].kind == 20
                              && log[4].body == Hmac(suite, Hkdf(suite, secret, [], Ascii("Server Finished Key"), 32),
                                                     Hash(suite, EncodeAll(log[..4]))))
            && (|log| > 5 ==> log[5].kind == 20
                              && log[5].body == Hmac(suite, Hkdf(suite, secret, [], Ascii("Client Finished Key"), 32),
                                                     Hash(suite, EncodeAll(log[..5]))))
  {
    hide Run, EncodeAll, Finished.VerifyData;
    RunReady(s, Server, events);
    var l := Run(s, Server, events).value.l;
    var log := l.log;
    assert |log| > 0 ==> Right(s, Server, l.secret, log, 0);
    assert |log| > 1 ==> Right(s, Server, l.secret, log, 1);
    assert |log| > 2 ==> Right(s, Server, l.secret, log, 2);
    assert |log| > 3 ==> Right(s, Server, l.secret, log, 3);
    if |log| > 4 {
      assert Right(s, Server, l.secret, log, 4);
      FinishedIs(s.suite, l.secret, Hash(s.suite, EncodeAll(log[..4])));
    }
    if |log| > 5 {
      assert Right(s, Server, l.secret, log, 5);
      FinishedIs(s.suite, l.secret, Hash(s.suite, EncodeAll(log[..5])));
    }
  }

  /** A client that has accepted a CertificateVerify under a server's key has the same three
      messages before it as the server had when it signed, if a signature that verifies under
      that key over the client's hash is over a hash the server signed, and the hash does not
      collide on the two transcripts. */
  lemma SignedAgreement(s: Setup, events: seq<Event>, s': Setup, events': seq<Event>)
    requires s.suite == s'.suite && Run(s, Client, events).Some? && Run(s', Server, events').Some?
    requires var log, log' := Run(s, Client, events).value.l.log, Run(s', Server, events').value.l.log;
             && |log| > 3 && |log'| > 3 && log[2].body == s'.sigPublic
             && (s.suite.verify(s'.sigPublic, Hash(s.suite, EncodeAll(log[..3])), log[3].body) ==>
                   Hash(s.suite, EncodeAll(log[..3])) == Hash(s.suite, EncodeAll(log'[..3])))
             && (Hash(s.suite, EncodeAll(log[..3])) == Hash(s.suite, EncodeAll(log'[..3])) ==>
                   EncodeAll(log[..3]) == EncodeAll(log'[..3]))
    ensures Run(s, Client, events).value.l.log[..3] == Run(s', Server, events').value.l.log[..3]
  {
    hide Run, EncodeAll;
    ClientMessages(s, events);
    EncodeAllInjective(Run(s, Client, events).value.l.log[..3], Run(s', Server, events').value.l.log[..3]);
  }

  // ---- The records ------------------------------------------------------------------------

  function FromClient(s: Setup, l: Local): Direction {
    InitialDirection(s.suite, l.secret, TranscriptHash(s, l), true)
  }

  function FromServer(s: Setup, l: Local): Direction {
    InitialDirection(s.suite, l.secret, TranscriptHash(s, l), false)
  }

  /** Where the two directions are at each stage of the records. */
  predicate Numbered(s: Setup, role: Role, stage: nat, l: Local) {
    stage >= HANDSHAKE_MESSAGES ==>
      && (if role.Client? then l.snd else l.rcv) == (if stage > 6 then Next(FromClient(s, l)) else FromClient(s, l))
      && (if role.Client? then l.rcv else l.snd) == (if stage > 7 then Next(FromServer(s, l)) else FromServer(s, l))
  }

  predicate Reads(s: Setup, d: Direction, wire: Bytes, text: Bytes) {
    |wire| >= RECORD_HEADER_LEN && Opened(s.suite, d, wire) == Some(text)
  }

  predicate Carried(s: Setup, role: Role, stage: nat, l: Local, wires: seq<Bytes>) {
    && |wires| == stage
    && (stage > 6 ==> if role.Client? then wires[6] == Sealed(s.suite, FromClient(s, l), s.clientText)
                      else Reads(s, FromClient(s, l), wires[6], l.inbox))
    && (stage > 7 ==> if role.Client? then Reads(s, FromServer(s, l), wires[7], l.inbox)
                      else wires[7] == Sealed(s.suite, FromServer(s, l), s.serverText))
  }

  predicate RecordsRight(s: Setup, role: Role, stage: nat, l: Local, wires: seq<Bytes>) {
    Numbered(s, role, stage, l) && Carried(s, role, stage, l, wires)
  }

  lemma PreparedRecords(s: Setup, role: Role, stage: nat, l: Local, wires: seq<Bytes>)
    requires |wires| == stage && stage <= 6
    ensures RecordsRight(s, role, stage, Prepare(s, role, stage, l), wires)
  {
    hide InitialDirection;
  }

  lemma SentRecord(s: Setup, role: Role, stage: nat, l: Local, wires: seq<Bytes>)
    requires 6 <= stage < 8 && SenderOf(stage) == role && RecordsRight(s, role, stage, l, wires)
    ensures RecordsRight(s, role, stage + 1, Prepare(s, role, stage + 1, AfterSend(s, stage, l)), wires + [WireOf(s, stage, l)])
  {
    hide InitialDirection, Sealed, Opened, Next;
  }

  lemma ReceivedRecord(s: Setup, role: Role, stage: nat, l: Local, wires: seq<Bytes>, got: Bytes)
    requires 6 <= stage < 8 && SenderOf(stage) != role && RecordsRight(s, role, stage, l, wires)
    requires Acceptable(s, stage, l, got)
    ensures RecordsRight(s, role, stage + 1, Prepare(s, role, stage + 1, AfterReceive(s, stage, l, got)), wires + [got])
  {
    hide InitialDirection, Sealed, Opened, Next;
  }

  lemma TurnRecords(s: Setup, role: Role, e: Endpoint)
    requires Sane(s, role, e) && RecordsRight(s, role, e.stage, e.l, e.wires) && Enabled(s, e, Turn)
    ensures var e' := Apply(s, role, e, Turn); RecordsRight(s, role, e'.stage, e'.l, e'.wires)
  {
    hide Sane, RecordsRight, FrameAt, Acceptable, AfterSend, AfterReceive, WireOf, Prepare;
    SenderOrNot(s, role, e);
    WiresCount(s, role, e);
    if e.io.Sending? {
      if e.stage < 6 {
        PreparedRecords(s, role, e.stage + 1, AfterSend(s, e.stage, e.l), e.wires + [e.io.wire]);
      } else {
        SentRecord(s, role, e.stage, e.l, e.wires);
      }
    } else if FrameAt(s.suite, e.stage, e.io.got).Whole? && Acceptable(s, e.stage, e.l, e.io.got) {
      if e.stage < 6 {
        PreparedRecords(s, role, e.stage + 1, AfterReceive(s, e.stage, e.l, e.io.got), e.wires + [e.io.got]);
      } else {
        ReceivedRecord(s, role, e.stage, e.l, e.wires, e.io.got);
      }
    }
  }

  lemma WiresCount(s: Setup, role: Role, e: Endpoint)
    requires Sane(s, role, e)
    ensures |e.wires| == e.stage
    ensures e.io.Sending? ==> e.io.wire == WireOf(s, e.stage, e.l)
  {
    hide Accounted, Logged, Placed, WireOf;
  }

  lemma {:induction false} RunRecords(s: Setup, role: Role, events: seq<Event>)
    requires Run(s, role, events).Some?
    ensures var e := Run(s, role, events).value; RecordsRight(s, role, e.stage, e.l, e.wires)
  {
    hide Sane, RecordsRight, FrameAt, Acceptable, AfterSend, AfterReceive, WireOf, Enter;
    if |events| > 0 {
      var front, ev := events[..|events| - 1], events[|events| - 1];
      RunRecords(s, role, front);
      RunSane(s, role, front);
      if ev.Turn? {
        TurnRecords(s, role, Run(s, role, front).value);
      }
    } else {
      StartRecords(s, role);
    }
  }

  lemma StartRecords(s: Setup, role: Role)
    ensures var e := Start(s, role); RecordsRight(s, role, e.stage, e.l, e.wires)
  {
    hide WireOf, RecordsRight, Prepare;
    PreparedRecords(s, role, 0, INITIAL, []);
  }

  /** Reading in terms of the library. */
  lemma ReadOctets(s: Setup, d: Direction, wire: Bytes, text: Bytes)
    requires Reads(s, d, wire, text)
    ensures |wire| >= 5
    ensures var plain := s.suite.open(d.key, NonceFor(d.iv, d.sequenceNumber), wire[..5], wire[5..]);
            plain.Some? && (|plain.value| + 16 == |wire| - 5 ==> text == plain.value)
  {
    hide NonceFor;
  }

  /** The record that every client run sends: the header, then its text sealed as number 0 under
      the key and IV of the client's labels, with the header authenticated. */
  lemma ClientRecordSent(s: Setup, events: seq<Event>, e: Endpoint)
    requires Run(s, Client, events) == Some(e) && e.stage > 6
    ensures |e.wires| > 6
    ensures var hash := Hash(s.suite, EncodeAll(e.l.log));
            var key := Hkdf(s.suite, e.l.secret, hash, Ascii("pqc tls demo client application key"), 32);
            var iv := Hkdf(s.suite, e.l.secret, hash, Ascii("pqc tls demo client application iv"), 12);
            var length := |s.clientText| + 16;
            var header: Bytes := [23, 3, 3, length / 256, length % 256];
            var sealed := s.suite.seal(key, NonceFor(iv, 0), header, s.clientText);
            |sealed| == length ==> e.wires[6] == header + sealed
  {
    hide Run, InitialDirection, NonceFor, EncodeAll, Sealed, Reads;
    RunRecords(s, Client, events);
    LabelsOfDirections(s.suite, e.l.secret, TranscriptHash(s, e.l));
    SealedOctets(s.suite, FromClient(s, e.l), s.clientText);
  }

  /** The record that every server run sends: the header, then its text sealed as number 0 under
      the key and IV of the server's labels, with the header authenticated. */
  lemma ServerRecordSent(s: Setup, events: seq<Event>, e: Endpoint)
    requires Run(s, Server, events) == Some(e) && e.stage > 7
    ensures |e.wires| > 7
    ensures var hash := Hash(s.suite, EncodeAll(e.l.log));
            var key := Hkdf(s.suite, e.l.secret, hash, Ascii("pqc tls demo server application key"), 32);
            var iv := Hkdf(s.suite, e.l.secret, hash, Ascii("pqc tls demo server application iv"), 12);
            var length := |s.serverText| + 16;
            var header: Bytes := [23, 3, 3, length / 256, length % 256];
            var sealed := s.suite.seal(key, NonceFor(iv, 0), header, s.serverText);
            |sealed| == length ==> e.wires[7] == header + sealed
  {
    hide Run, InitialDirection, NonceFor, EncodeAll, Sealed, Reads;
    RunRecords(s, Server, events);
    LabelsOfDirections(s.suite, e.l.secret, TranscriptHash(s, e.l));
    SealedOctets(s.suite, FromServer(s, e.l), s.serverText);
  }

  /** The record that every client run accepts: the library opens it, as number 0 under the key and
      IV of the server's labels, with its header authenticated, to the text that is kept. */
  lemma ClientRecordRead(s: Setup, events: seq<Event>, e: Endpoint)
    requires Run(s, Client, events) == Some(e) && e.stage > 7
    ensures |e.wires| > 7 && |e.wires[7]| >= 5
    ensures var hash := Hash(s.suite, EncodeAll(e.l.log));
            var key := Hkdf(s.suite, e.l.secret, hash, Ascii("pqc tls demo server application key"), 32);
            var iv := Hkdf(s.suite, e.l.secret, hash, Ascii("pqc tls demo server application iv"), 12);
            var wire := e.wires[7];
            var text := s.suite.open(key, NonceFor(iv, 0), wire[..5], wire[5..]);
            text.Some? && (|text.value| + 16 == |wire| - 5 ==> text.value == e.l.inbox)
  {
    hide Run, InitialDirection, NonceFor, EncodeAll, Sealed, Reads;
    RunRecords(s, Client, events);
    LabelsOfDirections(s.suite, e.l.secret, TranscriptHash(s, e.l));
    ReadOctets(s, FromServer(s, e.l), e.wires[7], e.l.inbox);
  }

  /** The record that every server run accepts: the library opens it, as number 0 under the key and
      IV of the client's labels, with its header authenticated, to the text that is kept. */
  lemma ServerRecordRead(s: Setup, events: seq<Event>, e: Endpoint)
    requires Run(s, Server, events) == Some(e) && e.stage > 6
    ensures |e.wires| > 6 && |e.wires[6]| >= 5
    ensures var hash := Hash(s.suite, EncodeAll(e.l.log));
            var key := Hkdf(s.suite, e.l.secret, hash, Ascii("pqc tls demo client application key"), 32);
            var iv := Hkdf(s.suite, e.l.secret, hash, Ascii("pqc tls demo client application iv"), 12);
            var wire := e.wires[6];
            var text := s.suite.open(key, NonceFor(iv, 0), wire[..5], wire[5..]);
            text.Some? && (|text.value| + 16 == |wire| - 5 ==> text.value == e.l.inbox)
  {
    hide Run, InitialDirection, NonceFor, EncodeAll, Sealed, Reads;
    RunRecords(s, Server, events);
    LabelsOfDirections(s.suite, e.l.secret, TranscriptHash(s, e.l));
    ReadOctets(s, FromClient(s, e.l), e.wires[6], e.l.inbox);
  }
}
