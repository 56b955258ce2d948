/** The client program (`secure_client.c`), stage by stage. */
module SecureClient {
  import ByteStrings
  import opened Primitives
  import opened Handshake
  import opened Finished
  import KeySchedule
  import opened Record
  import opened Protocol
  import opened EndpointRuns
  import opened Paths
  import opened Programs
  import Transport

  method SendClientHello(p: Program) returns (ok: bool)
    requires p.role.Client? && p.At(0)
    modifies p, p.socket, p.transcript.ctx, p.library
    ensures if ok then p.At(1) else p.Failed()
  {
    hide Run, WireOf, FrameAt, VerifyData, BodyAcceptable, Prepare, AfterSend, AfterBody, Enter;
    ghost var l := p.State().l;
    assert p.setup.kemPublic == BodyOf(p.setup, 0, l) by { ClientHelloBody(p.setup, l); }
    VariablesAfterSend(p.setup, p.role, 0, l);
    ok := p.SendMessage(CLIENT_HELLO, p.setup.kemPublic, 0, l);
  }

  lemma ClientHelloBody(s: Setup, l: Local)
    ensures BodyOf(s, 0, l) == s.kemPublic
  {
  }

  method RecvServerHello(p: Program) returns (ok: bool)
    requires p.role.Client? && p.At(1)
    modifies p, p.socket, p.transcript.ctx, p.library
    ensures if ok then p.At(2) else p.Failed()
  {
    hide Run, WireOf, FrameAt, VerifyData, BodyAcceptable, Prepare, AfterSend, AfterBody, Enter, Hashing, Decaps;
    ghost var l := p.State().l;
    var ciphertext;
    ok, ciphertext := p.ReceiveMessage(SERVER_HELLO, p.setup.suite.kemCiphertextLen, 1, l);
    if !ok {
      return false;
    }
    LengthCheck(p.setup, 1, l, ciphertext);
    if |ciphertext| != p.setup.suite.kemCiphertextLen {
      p.Refuse(1, l, ciphertext);
      return false;
    }
    ok := HashAndDecapsulate(p, ciphertext, l);
    if !ok {
      return false;
    }
    VariablesAfterBody(p.setup, p.role, 1, l, ciphertext);
    p.Accept(1, l, ciphertext);
    return true;
  }

  /** Hashes the ServerHello and gets the shared secret out of it. */
  method HashAndDecapsulate(p: Program, ciphertext: ByteStrings.Bytes, ghost l: Local) returns (ok: bool)
    requires p.Holding(1, l, ciphertext) && p.Hashed(l.log)
    modifies p`events, p`reason, p`hashed, p`sharedSecret, p.transcript.ctx, p.library`faulted
    ensures if ok
            then p.Holding(1, l, ciphertext) && p.Hashed(l.log + [Message(SERVER_HELLO, ciphertext)])
                 && p.sharedSecret == Decaps(p.setup.suite, p.setup.kemSecret, ciphertext)
            else p.Failed()
  {
    hide Run, FrameAt, Hashing, Decaps, Payload;
    ok := p.HashMessage(SERVER_HELLO, ciphertext, l.log);
    if !ok {
      return false;
    }
    ok := p.library.Attempt();
    if !ok {
      p.GiveUpHashed(1, l, ciphertext);
      return false;
    }
    p.sharedSecret := Decaps(p.setup.suite, p.setup.kemSecret, ciphertext);
  }

  method RecvCertificate(p: Program) returns (ok: bool)
    requires p.role.Client? && p.At(2)
    modifies p, p.socket, p.transcript.ctx, p.library
    ensures if ok then p.At(3) else p.Failed()
  {
    hide Run, WireOf, FrameAt, VerifyData, BodyAcceptable, Prepare, AfterSend, AfterBody, Enter;
    ghost var l := p.State().l;
    var sigPublicKey;
    ok, sigPublicKey := p.ReceiveMessage(CERTIFICATE, p.setup.suite.sigPublicLen, 2, l);
    if !ok {
      return false;
    }
    LengthCheck(p.setup, 2, l, sigPublicKey);
    if |sigPublicKey| != p.setup.suite.sigPublicLen {
      p.Refuse(2, l, sigPublicKey);
      return false;
    }
    p.peerKey := sigPublicKey;
    VariablesAfterBody(p.setup, p.role, 2, l, sigPublicKey);
    ok := p.Adopt(CERTIFICATE, sigPublicKey, 2, l);
  }

  method RecvCertificateVerify(p: Program) returns (ok: bool)
    requires p.role.Client? && p.At(3)
    modifies p, p.socket, p.transcript.ctx, p.library
    ensures if ok then p.At(4) else p.Failed()
  {
    hide Run, WireOf, FrameAt, VerifyData, BodyAcceptable, Prepare, AfterSend, AfterBody, Enter;
    ghost var l := p.State().l;
    var signature;
    ok, signature := p.ReceiveMessage(CERTIFICATE_VERIFY, p.setup.suite.sigLen, 3, l);
    if !ok {
      return false;
    }
    SignatureCheck(p.setup, l, signature);
    if |signature| == 0 || |signature| > p.setup.suite.sigLen {
      p.Refuse(3, l, signature);
      return false;
    }
    var transcriptHash;
    ok, transcriptHash := p.Snapshot(l);
    if !ok {
      return false;
    }
    ok := p.library.Attempt();
    if !ok {
      p.GiveUp(LibraryError, l.log);
      return false;
    }
    if !p.setup.suite.verify(p.peerKey, transcriptHash, signature) {
      p.Refuse(3, l, signature);
      return false;
    }
    VariablesAfterBody(p.setup, p.role, 3, l, signature);
    ok := p.Adopt(CERTIFICATE_VERIFY, signature, 3, l);
  }

  method RecvServerFinished(p: Program) returns (ok: bool)
    requires p.role.Client? && p.At(4)
    modifies p, p.socket, p.transcript.ctx, p.library
    ensures if ok then p.At(5) else p.Failed()
  {
    hide Run, WireOf, FrameAt, VerifyData, BodyAcceptable, Prepare, AfterSend, AfterBody, Enter;
    ghost var l := p.State().l;
    var serverFinished, expected;
    ok, serverFinished := p.ReceiveMessage(FINISHED, VERIFY_DATA_LEN, 4, l);
    if !ok {
      return false;
    }
    ok, expected := p.FinishedValue(SERVER_LABEL, l);
    if !ok {
      return false;
    }
    FinishedCheck(p.setup, 4, l, serverFinished);
    if |serverFinished| != VERIFY_DATA_LEN || serverFinished != expected {
      p.Refuse(4, l, serverFinished);
      return false;
    }
    VariablesAfterBody(p.setup, p.role, 4, l, serverFinished);
    ok := p.Adopt(FINISHED, serverFinished, 4, l);
  }

  method SendClientFinished(p: Program) returns (ok: bool)
    requires p.role.Client? && p.At(5)
    modifies p, p.socket, p.transcript.ctx, p.library
    ensures if ok then p.At(6) else p.Failed()
  {
    hide Run, WireOf, FrameAt, VerifyData, BodyAcceptable, Prepare, AfterSend, AfterBody, Enter;
    ghost var l := p.State().l;
    var clientFinished;
    ok, clientFinished := p.FinishedValue(CLIENT_LABEL, l);
    if !ok {
      return false;
    }
    VariablesAfterSend(p.setup, p.role, 5, l);
    ok := p.SendMessage(FINISHED, clientFinished, 5, l);
  }

  /** The whole program from its first message on: the result is 0 exactly when the machine
      reached its end, and its every octet and variable is the machine's. */
  method RunClient(p: Program) returns (ret: int)
    requires p.role.Client? && p.At(0)
    modifies p, p.socket, p.transcript.ctx, p.library
    ensures ret == 0 || ret == 1
    ensures if ret == 0 then p.Completed() else p.Failed()
    ensures ret == 0 <==> p.Healthy() && !p.Wronged()
  {
    hide Run, WireOf, FrameAt, Acceptable, Hashing, EncodeAll;
    var ok := SendClientHello(p);
    if ok { ok := RecvServerHello(p); }
    if ok { ok := RecvCertificate(p); }
    if ok { ok := RecvCertificateVerify(p); }
    if ok { ok := RecvServerFinished(p); }
    if ok { ok := SendClientFinished(p); }
    if ok { ok := ExchangeTexts(p); }
    if ok {
      p.CompletedIsWell();
      return 0;
    } else {
      p.FailedIsNot();
      return 1;
    }
  }

  /** Derives the keys and sets up the record states: the client's key to send, the server's to
      receive. */
  method InitStates(p: Program, ghost l: Local) returns (sendState: RecordState?, recvState: RecordState?)
    requires p.role.Client? && p.At(6) && p.State().l == l
    modifies p`events, p`reason, p`hashed, p.library`faulted
    ensures sendState != null ==>
              && recvState != null && fresh(sendState) && fresh(recvState) && sendState != recvState
              && sendState.Valid() && recvState.Valid()
              && sendState.Value() == l.snd && recvState.Value() == l.rcv
              && p.Reached(6, l)
    ensures sendState != null && recvState != null ==>
              var suite, hash := p.setup.suite, Hash(p.setup.suite, EncodeAll(l.log));
              && sendState.key == Hkdf(suite, l.secret, hash, Ascii("pqc tls demo client application key"), 32)
              && sendState.staticIv == Hkdf(suite, l.secret, hash, Ascii("pqc tls demo client application iv"), 12)
              && recvState.key == Hkdf(suite, l.secret, hash, Ascii("pqc tls demo server application key"), 32)
              && recvState.staticIv == Hkdf(suite, l.secret, hash, Ascii("pqc tls demo server application iv"), 12)
    ensures sendState == null ==> p.Failed()
  {
    hide Run, WireOf, FrameAt, KeySchedule.Derived, TranscriptHash, Hashing, Acceptable;
    RunDirections(p.setup, p.role, p.events);
    RunKeyed(p.setup, p.role, p.events);
    RunHasSecret(p.setup, p.role, p.events);
    var ok, keys := p.ApplicationKeysOf(l);
    if !ok {
      return null, null;
    }
    sendState := new RecordState(keys.clientKey, keys.clientIv);
    recvState := new RecordState(keys.serverKey, keys.serverIv);
  }

  /** Sends a record, receives a record. */
  method ExchangeTexts(p: Program) returns (ok: bool)
    requires p.role.Client? && p.At(6)
    modifies p, p.socket, p.library
    ensures if ok then p.Completed() else p.Failed()
  {
    hide Run, WireOf, FrameAt, TranscriptHash, Hashing, Acceptable, EncodeAll, Hash, Hkdf, Ascii;
    ghost var l := p.State().l;
    var sendState, recvState := InitStates(p, l);
    if sendState == null {
      return false;
    }
    ok := p.SendText(p.setup.clientText, sendState, 6, l);
    if !ok {
      return false;
    }
    ok := p.ReceiveRecord(recvState, 7, p.State().l);
  }

  /** The program from the connected socket on, its transcript's set-up included: there is
      nothing but an exit code if that fails. */
  method RunConnected(setup: Setup, socket: Transport.Socket, library: Library) returns (ret: int, p: Program?)
    requires socket.outbound == [] && !socket.faulted && !library.faulted
    modifies socket, library
    ensures p == null ==> ret == 1 && library.faulted && unchanged(socket)
    ensures p != null ==>
              && p.role == Client && p.setup == setup && p.socket == socket && p.library == library
              && p.first == old(socket.inbound)
              && (if ret == 0 then p.Completed() else ret == 1 && p.Failed())
              && (ret == 0 <==> p.Healthy() && !p.Wronged())
  {
    hide Run, WireOf, FrameAt, Acceptable, Hashing, EncodeAll;
    p := OpenProgram(setup, Client, socket, library);
    if p == null {
      return 1, null;
    }
    ret := RunClient(p);
  }
}
