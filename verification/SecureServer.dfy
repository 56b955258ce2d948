/** The server program (`secure_server.c`), stage by stage. */
module SecureServer {
  import Primitives
  import opened Handshake
  import opened Finished
  import KeySchedule
  import opened Record
  import opened Protocol
  import opened EndpointRuns
  import opened Paths
  import opened Programs
  import Transport

  method RecvClientHello(p: Program) returns (ok: bool)
    requires p.role.Server? && p.At(0)
    modifies p, p.socket, p.transcript.ctx, p.library
    ensures if ok then p.At(1) else p.Failed()
  {
    hide Run, WireOf, FrameAt, VerifyData, BodyAcceptable, Prepare, AfterSend, AfterBody, Enter;
    ghost var l := p.State().l;
    var kemPublicKey;
    ok, kemPublicKey := p.ReceiveMessage(CLIENT_HELLO, p.setup.suite.kemPublicLen, 0, l);
    if !ok {
      return false;
    }
    LengthCheck(p.setup, 0, l, kemPublicKey);
    if |kemPublicKey| != p.setup.suite.kemPublicLen {
      p.Refuse(0, l, kemPublicKey);
      return false;
    }
    p.peerKey := kemPublicKey;
    VariablesAfterBody(p.setup, p.role, 0, l, kemPublicKey);
    ok := p.Adopt(CLIENT_HELLO, kemPublicKey, 0, l);
  }

  method SendServerHello(p: Program) returns (ok: bool)
    requires p.role.Server? && p.At(1)
    modifies p, p.socket, p.transcript.ctx, p.library
    ensures if ok then p.At(2) else p.Failed()
  {
    hide Run, WireOf, FrameAt, VerifyData, BodyAcceptable, Prepare, AfterSend, AfterBody, Enter;
    ghost var l := p.State().l;
    ok := p.library.Attempt();
    if !ok {
      p.GiveUp(LibraryError, l.log);
      return false;
    }
    var encapsulated := Primitives.Encaps(p.setup.suite, p.peerKey, p.setup.encapsCoins);
    var ciphertext := encapsulated.0;
    p.sharedSecret := encapsulated.1;
    ServerSecret(p.setup, p.events);
    VariablesAfterSend(p.setup, p.role, 1, l);
    ok := p.SendMessage(SERVER_HELLO, ciphertext, 1, l);
  }

  /** A server that is to send its first message has encapsulated to the key it received. */
  lemma {:induction false} ServerSecret(s: Setup, events: seq<Event>)
    requires Run(s, Server, events).Some? && Run(s, Server, events).value.stage == 1
    ensures var l := Run(s, Server, events).value.l; l.secret == Primitives.Encaps(s.suite, l.peerKey, s.encapsCoins).1
  {
    hide FrameAt, Acceptable, BodyOf;
    if |events| > 0 {
      var front, ev := events[..|events| - 1], events[|events| - 1];
      if Run(s, Server, front).value.stage == 1 {
        ServerSecret(s, front);
      }
    }
  }

  method SendCertificate(p: Program) returns (ok: bool)
    requires p.role.Server? && p.At(2)
    modifies p, p.socket, p.transcript.ctx, p.library
    ensures if ok then p.At(3) else p.Failed()
  {
    hide Run, WireOf, FrameAt, VerifyData, BodyAcceptable, Prepare, AfterSend, AfterBody, Enter;
    ghost var l := p.State().l;
    VariablesAfterSend(p.setup, p.role, 2, l);
    ok := p.SendMessage(CERTIFICATE, p.setup.sigPublic, 2, l);
  }

  method SendCertificateVerify(p: Program) returns (ok: bool)
    requires p.role.Server? && p.At(3)
    modifies p, p.socket, p.transcript.ctx, p.library
    ensures if ok then p.At(4) else p.Failed()
  {
    hide Run, WireOf, FrameAt, VerifyData, BodyAcceptable, Prepare, AfterSend, AfterBody, Enter;
    ghost var l := p.State().l;
    var transcriptHash;
    ok, transcriptHash := p.Snapshot(l);
    if !ok {
      return false;
    }
    ok := p.library.Attempt();
    if !ok {
      p.GiveUp(LibraryError, l.log);
      return false;
    }
    var signature := Primitives.Sign(p.setup.suite, p.setup.sigSecret, transcriptHash, p.setup.signCoins);
    VariablesAfterSend(p.setup, p.role, 3, l);
    ok := p.SendMessage(CERTIFICATE_VERIFY, signature, 3, l);
  }

  method SendServerFinished(p: Program) returns (ok: bool)
    requires p.role.Server? && p.At(4)
    modifies p, p.socket, p.transcript.ctx, p.library
    ensures if ok then p.At(5) else p.Failed()
  {
    hide Run, WireOf, FrameAt, VerifyData, BodyAcceptable, Prepare, AfterSend, AfterBody, Enter;
    ghost var l := p.State().l;
    var serverFinished;
    ok, serverFinished := p.FinishedValue(SERVER_LABEL, l);
    if !ok {
      return false;
    }
    VariablesAfterSend(p.setup, p.role, 4, l);
    ok := p.SendMessage(FINISHED, serverFinished, 4, l);
  }

  method RecvClientFinished(p: Program) returns (ok: bool)
    requires p.role.Server? && p.At(5)
    modifies p, p.socket, p.transcript.ctx, p.library
    ensures if ok then p.At(6) else p.Failed()
  {
    hide Run, WireOf, FrameAt, VerifyData, BodyAcceptable, Prepare, AfterSend, AfterBody, Enter;
    ghost var l := p.State().l;
    var clientFinished, expected;
    ok, clientFinished := p.ReceiveMessage(FINISHED, VERIFY_DATA_LEN, 5, l);
    if !ok {
      return false;
    }
    ok, expected := p.FinishedValue(CLIENT_LABEL, l);
    if !ok {
      return false;
    }
    FinishedCheck(p.setup, 5, l, clientFinished);
    if |clientFinished| != VERIFY_DATA_LEN || clientFinished != expected {
      p.Refuse(5, l, clientFinished);
      return false;
    }
    VariablesAfterBody(p.setup, p.role, 5, l, clientFinished);
    ok := p.Adopt(FINISHED, clientFinished, 5, l);
  }

  /** Derives the keys and sets up the record states: the client's key to receive, the server's
      to send. */
  method InitStates(p: Program, ghost l: Local) returns (sendState: RecordState?, recvState: RecordState?)
    requires p.role.Server? && p.At(6) && p.State().l == l
    modifies p`events, p`reason, p`hashed, p.library`faulted
    ensures sendState != null ==>
              && recvState != null && fresh(sendState) && fresh(recvState) && sendState != recvState
              && sendState.Valid() && recvState.Valid()
              && sendState.Value() == l.snd && recvState.Value() == l.rcv
              && p.Reached(6, l)
    ensures sendState != null && recvState != null ==>
              var suite, hash := p.setup.suite, Primitives.Hash(p.setup.suite, EncodeAll(l.log));
              && recvState.key == Primitives.Hkdf(suite, l.secret, hash, Primitives.Ascii("pqc tls demo client application key"), 32)
              && recvState.staticIv == Primitives.Hkdf(suite, l.secret, hash, Primitives.Ascii("pqc tls demo client application iv"), 12)
              && sendState.key == Primitives.Hkdf(suite, l.secret, hash, Primitives.Ascii("pqc tls demo server application key"), 32)
              && sendState.staticIv == Primitives.Hkdf(suite, l.secret, hash, Primitives.Ascii("pqc tls demo server application iv"), 12)
    ensures sendState == null ==> p.Failed()
  {
    hide Run, WireOf, FrameAt, KeySchedule.Derived, TranscriptHash, Hashing, Acceptable;
    RunDirections(p.setup, p.role, p.events);
    RunKeyed(p.setup, p.role, p.events);
    RunHasSecret(p.setup, p.role, p.events);
    var ok, keys := p.ApplicationKeysOf(l);
    if !ok {
      return null, null;
    }
    recvState := new RecordState(keys.clientKey, keys.clientIv);
    sendState := new RecordState(keys.serverKey, keys.serverIv);
  }

  /** Receives a record, sends a record. */
  method ExchangeTexts(p: Program) returns (ok: bool)
    requires p.role.Server? && p.At(6)
    modifies p, p.socket, p.library
    ensures if ok then p.Completed() else p.Failed()
  {
    hide Run, WireOf, FrameAt, TranscriptHash, Hashing, Acceptable, EncodeAll;
    hide Primitives.Hash, Primitives.Hkdf, Primitives.Ascii;
    ghost var l := p.State().l;
    var sendState, recvState := InitStates(p, l);
    if sendState == null {
      return false;
    }
    ok := p.ReceiveRecord(recvState, 6, l);
    if !ok {
      return false;
    }
    l := p.State().l;
    ok := p.SendText(p.setup.serverText, sendState, 7, l);
  }

  /** The whole program from its first message on; compare `SecureClient.RunClient`. */
  method RunServer(p: Program) returns (ret: int)
    requires p.role.Server? && p.At(0)
    modifies p, p.socket, p.transcript.ctx, p.library
    ensures ret == 0 || ret == 1
    ensures if ret == 0 then p.Completed() else p.Failed()
    ensures ret == 0 <==> p.Healthy() && !p.Wronged()
  {
    hide Run, WireOf, FrameAt, Acceptable, Hashing, EncodeAll;
    var ok := RecvClientHello(p);
    if ok { ok := SendServerHello(p); }
    if ok { ok := SendCertificate(p); }
    if ok { ok := SendCertificateVerify(p); }
    if ok { ok := SendServerFinished(p); }
    if ok { ok := RecvClientFinished(p); }
    if ok { ok := ExchangeTexts(p); }
    if ok {
      p.CompletedIsWell();
      return 0;
    } else {
      p.FailedIsNot();
      return 1;
    }
  }

  /** The program from the connected socket on, its transcript's set-up included: there is
      nothing but an exit code if that fails. */
  method RunConnected(setup: Setup, socket: Transport.Socket, library: Primitives.Library) returns (ret: int, p: Program?)
    requires socket.outbound == [] && !socket.faulted && !library.faulted
    modifies socket, library
    ensures p == null ==> ret == 1 && library.faulted && unchanged(socket)
    ensures p != null ==>
              && p.role == Server && p.setup == setup && p.socket == socket && p.library == library
              && p.first == old(socket.inbound)
              && (if ret == 0 then p.Completed() else ret == 1 && p.Failed())
              && (ret == 0 <==> p.Healthy() && !p.Wronged())
  {
    hide Run, WireOf, FrameAt, Acceptable, Hashing, EncodeAll;
    p := OpenProgram(setup, Server, socket, library);
    if p == null {
      return 1, null;
    }
    ret := RunServer(p);
  }
}
