/** What the two programs agree on in every execution over honest channels. */
module Agreement {
  import ByteStrings
  import opened Primitives
  import opened Handshake
  import opened Record
  import opened Protocol
  import opened EndpointRuns
  import opened Session

  // ---- Transcripts ------------------------------------------------------------------------

  lemma PayloadOfEncoding(m: Message)
    ensures Payload(Encode(m)) == m.body
  {
  }

  /** The message that handshake stage `i` adds to both transcripts. */
  function MessageAt(s: Setup, i: nat): Message
    requires i < HANDSHAKE_MESSAGES
  {
    Message(KindOf(i), BodyOf(s, i, LocalAt(s, SenderOf(i), i)))
  }

  lemma LogGrows(s: Setup, role: Role, i: nat)
    ensures LocalAt(s, role, i + 1).log
            == LocalAt(s, role, i).log + if i < HANDSHAKE_MESSAGES then [MessageAt(s, i)] else []
  {
    hide LocalAt, BodyOf, Encode;
    NextLocal(s, role, i);
    if i < HANDSHAKE_MESSAGES {
      PayloadOfEncoding(MessageAt(s, i));
    }
  }

  /** The messages of the handshake up to stage `i`. */
  function LogAt(s: Setup, i: nat): seq<Message> {
    if i == 0 then []
    else LogAt(s, i - 1) + if i <= HANDSHAKE_MESSAGES then [MessageAt(s, i - 1)] else []
  }

  lemma LogAtNext(s: Setup, i: nat)
    ensures LogAt(s, i + 1) == LogAt(s, i) + if i < HANDSHAKE_MESSAGES then [MessageAt(s, i)] else []
  {
    hide MessageAt;
  }

  lemma LogStart(s: Setup, role: Role)
    ensures LocalAt(s, role, 0).log == LogAt(s, 0)
  {
  }

  lemma LogsPlanned(s: Setup, role: Role, i: nat)
    ensures LocalAt(s, role, i).log == LogAt(s, i)
  {
    hide LocalAt, MessageAt, LogAt;
    var p := (k: nat) => LocalAt(s, role, k).log == LogAt(s, k);
    forall k | 0 <= k < i && p(k)
      ensures p(k + 1)
    {
      LogGrows(s, role, k);
      LogAtNext(s, k);
    }
    LogStart(s, role);
    ByteStrings.Induction(p, 0, i);
  }

  lemma {:induction false} LogMonotone(s: Setup, i: nat, j: nat)
    requires i <= j
    ensures LogAt(s, i) <= LogAt(s, j)
    decreases j
  {
    if i < j {
      LogMonotone(s, i, j - 1);
    }
  }

  /** In every execution, failed or not, one transcript is a prefix of the other, as lists of
      messages and so as octets. */
  lemma TranscriptPrefix(s: Setup, capacity: nat, steps: seq<Step>)
    requires Execution(s, capacity, steps).Some?
    ensures var sys := Execution(s, capacity, steps).value;
            var (c, v) := (sys.client, sys.server);
            if c.stage <= v.stage
            then c.l.log <= v.l.log && EncodeAll(c.l.log) <= EncodeAll(v.l.log)
            else v.l.log <= c.l.log && EncodeAll(v.l.log) <= EncodeAll(c.l.log)
  {
    ExecutionConsistent(s, capacity, steps);
    var sys := Execution(s, capacity, steps).value;
    var i, j := sys.client.stage, sys.server.stage;
    LogsPlanned(s, Client, i);
    LogsPlanned(s, Server, j);
    if i <= j {
      LogMonotone(s, i, j);
      EncodeAllMonotone(LogAt(s, i), LogAt(s, j));
    } else {
      LogMonotone(s, j, i);
      EncodeAllMonotone(LogAt(s, j), LogAt(s, i));
    }
  }

  lemma HashingPlanned(s: Setup, role: Role, e: Endpoint, log: seq<Message>)
    requires Honest(s, role, e) && Hashing(s, e, log)
    ensures log == LogAt(s, e.stage) || log == LogAt(s, e.stage + 1)
  {
    hide LocalAt, WireAt, AfterSend, AfterReceive, LogAt, FrameAt, Prepare, WireOf;
    LogsPlanned(s, role, e.stage);
    if log != e.l.log {
      LogsPlanned(s, role, e.stage + 1);
      NextLocal(s, role, e.stage);
      if e.io.Sending? {
        SentPlanned(s, role, e);
        PrepareKeepsLog(s, role, e.stage + 1, AfterSend(s, e.stage, e.l));
      } else {
        ReceivedPlanned(s, role, e);
        PrepareKeepsLog(s, role, e.stage + 1, AfterReceive(s, e.stage, e.l, e.io.got));
      }
    }
  }

  /** The same at the moments in between, when a message has been moved and one program may
      have hashed it already and the other not: whatever each transcript is by then, one is a
      prefix of the other. */
  lemma TranscriptPrefixBetween(s: Setup, capacity: nat, steps: seq<Step>, c: seq<Message>, v: seq<Message>)
    requires Execution(s, capacity, steps).Some?
    requires Hashing(s, Execution(s, capacity, steps).value.client, c)
    requires Hashing(s, Execution(s, capacity, steps).value.server, v)
    ensures (c <= v && EncodeAll(c) <= EncodeAll(v)) || (v <= c && EncodeAll(v) <= EncodeAll(c))
  {
    hide Hashing, LogAt, Honest, Execution;
    ExecutionConsistent(s, capacity, steps);
    var sys := Execution(s, capacity, steps).value;
    HashingPlanned(s, Client, sys.client, c);
    HashingPlanned(s, Server, sys.server, v);
    LogsNested(s, if c == LogAt(s, sys.client.stage) then sys.client.stage else sys.client.stage + 1,
               if v == LogAt(s, sys.server.stage) then sys.server.stage else sys.server.stage + 1);
  }

  lemma LogsNested(s: Setup, i: nat, j: nat)
    ensures var (c, v) := (LogAt(s, i), LogAt(s, j));
            (c <= v && EncodeAll(c) <= EncodeAll(v)) || (v <= c && EncodeAll(v) <= EncodeAll(c))
  {
    hide LogAt;
    if i <= j {
      LogMonotone(s, i, j);
      EncodeAllMonotone(LogAt(s, i), LogAt(s, j));
    } else {
      LogMonotone(s, j, i);
      EncodeAllMonotone(LogAt(s, j), LogAt(s, i));
    }
  }

  lemma EncodeAllMonotone(ms: seq<Message>, ns: seq<Message>)
    requires ms <= ns
    ensures EncodeAll(ms) <= EncodeAll(ns)
  {
    assert ns == ms + ns[|ms|..];
    EncodeAllAppend(ms, ns[|ms|..]);
  }

  /** When the two programs compute for the same stage, at whatever moments, they do so over
      the same transcript: the signature and its verification, each Finished value and its
      check, and the derivation of the keys. */
  lemma SamePoints(s: Setup, capacity: nat, steps: seq<Step>, steps': seq<Step>)
    requires Execution(s, capacity, steps).Some? && Execution(s, capacity, steps').Some?
    requires Execution(s, capacity, steps).value.client.stage == Execution(s, capacity, steps').value.server.stage
    ensures var c, v := Execution(s, capacity, steps).value.client, Execution(s, capacity, steps').value.server;
            c.l.log == v.l.log && TranscriptHash(s, c.l) == TranscriptHash(s, v.l)
  {
    ExecutionConsistent(s, capacity, steps);
    ExecutionConsistent(s, capacity, steps');
    var i := Execution(s, capacity, steps).value.client.stage;
    LogsPlanned(s, Client, i);
    LogsPlanned(s, Server, i);
  }

  // ---- Secrets and keys -------------------------------------------------------------------

  /** Decapsulation undoes the encapsulation the server makes to the client's key. */
  predicate KemWorks(s: Setup) {
    var (ciphertext, secret) := Encaps(s.suite, s.kemPublic, s.encapsCoins);
    Decaps(s.suite, s.kemSecret, ciphertext) == secret
  }

  lemma ServerSecretFirst(s: Setup)
    ensures LocalAt(s, Server, 1).peerKey == s.kemPublic
    ensures LocalAt(s, Server, 1).secret == Encaps(s.suite, s.kemPublic, s.encapsCoins).1
  {
    NextLocal(s, Server, 0);
    PayloadOfEncoding(MessageAt(s, 0));
  }

  lemma ClientSecretFirst(s: Setup)
    ensures LocalAt(s, Client, 2).secret == Decaps(s.suite, s.kemSecret, Encaps(s.suite, s.kemPublic, s.encapsCoins).0)
  {
    ServerSecretFirst(s);
    NextLocal(s, Client, 1);
    PayloadOfEncoding(MessageAt(s, 1));
  }

  lemma SecretStays(s: Setup, role: Role, i: nat)
    requires i >= 2 || (i == 1 && role.Server?)
    ensures LocalAt(s, role, i + 1).secret == LocalAt(s, role, i).secret
  {
    NextLocal(s, role, i);
  }

  lemma SecretKept(s: Setup, role: Role, i: nat, j: nat)
    requires i <= j && (i >= 2 || (i == 1 && role.Server?))
    ensures LocalAt(s, role, j).secret == LocalAt(s, role, i).secret
  {
    hide LocalAt;
    var secret := LocalAt(s, role, i).secret;
    var p := (k: nat) => LocalAt(s, role, k).secret == secret;
    forall k | i <= k < j && p(k)
      ensures p(k + 1)
    {
      SecretStays(s, role, k);
    }
    ByteStrings.Induction(p, i, j);
  }

  /** From the ServerHello on, the two programs are to hold the same secret exactly if
      decapsulation undoes the encapsulation that is made. */
  lemma {:induction false} SecretsAgree(s: Setup, i: nat)
    requires i >= 2
    ensures LocalAt(s, Client, i).secret == LocalAt(s, Server, i).secret <==> KemWorks(s)
  {
    hide LocalAt;
    ServerSecretFirst(s);
    ClientSecretFirst(s);
    SecretKept(s, Client, 2, i);
    SecretKept(s, Server, 1, i);
  }

  /** In every execution in which both programs have their secret, it is the same exactly if
      decapsulation undoes the encapsulation that was made. */
  lemma SecretsShared(s: Setup, capacity: nat, steps: seq<Step>)
    requires Execution(s, capacity, steps).Some?
    requires var sys := Execution(s, capacity, steps).value; sys.client.stage >= 2 && sys.server.stage >= 1
    ensures var sys := Execution(s, capacity, steps).value;
            sys.client.l.secret == sys.server.l.secret <==> KemWorks(s)
  {
    hide LocalAt, Execution, Sane, Held, Plan;
    ExecutionConsistent(s, capacity, steps);
    var sys := Execution(s, capacity, steps).value;
    ServerSecretFirst(s);
    ClientSecretFirst(s);
    SecretKept(s, Client, 2, sys.client.stage);
    SecretKept(s, Server, 1, sys.server.stage);
  }

  lemma KeysDerived(s: Setup, role: Role)
    ensures var l := LocalAt(s, role, HANDSHAKE_MESSAGES);
            && l.snd == InitialDirection(s.suite, l.secret, TranscriptHash(s, l), role.Client?)
            && l.rcv == InitialDirection(s.suite, l.secret, TranscriptHash(s, l), role.Server?)
  {
    NextLocal(s, role, 5);
  }

  lemma DirectionsFirst(s: Setup)
    requires KemWorks(s)
    ensures LocalAt(s, Client, HANDSHAKE_MESSAGES).snd == LocalAt(s, Server, HANDSHAKE_MESSAGES).rcv
    ensures LocalAt(s, Server, HANDSHAKE_MESSAGES).snd == LocalAt(s, Client, HANDSHAKE_MESSAGES).rcv
  {
    hide LocalAt;
    SecretsAgree(s, HANDSHAKE_MESSAGES);
    LogsPlanned(s, Client, HANDSHAKE_MESSAGES);
    LogsPlanned(s, Server, HANDSHAKE_MESSAGES);
    KeysDerived(s, Client);
    KeysDerived(s, Server);
  }

  /** One record moves the two ends of its direction together. */
  lemma DirectionsMove(s: Setup, role: Role, i: nat)
    requires HANDSHAKE_MESSAGES <= i
    ensures LocalAt(s, role, i + 1).snd
            == if SenderOf(i) == role then Next(LocalAt(s, role, i).snd) else LocalAt(s, role, i).snd
    ensures LocalAt(s, role, i + 1).rcv
            == if SenderOf(i) == role then LocalAt(s, role, i).rcv else Next(LocalAt(s, role, i).rcv)
  {
    NextLocal(s, role, i);
  }

  predicate Crossed(s: Setup, i: nat) {
    && LocalAt(s, Client, i).snd == LocalAt(s, Server, i).rcv
    && LocalAt(s, Server, i).snd == LocalAt(s, Client, i).rcv
  }

  /** After the handshake each side's sending state is the other's receiving state. */
  lemma DirectionsCross(s: Setup, i: nat)
    requires KemWorks(s) && HANDSHAKE_MESSAGES <= i
    ensures Crossed(s, i)
  {
    hide LocalAt;
    DirectionsFirst(s);
    var p := (k: nat) => Crossed(s, k);
    forall k | HANDSHAKE_MESSAGES <= k < i && p(k)
      ensures p(k + 1)
    {
      DirectionsMove(s, Client, k);
      DirectionsMove(s, Server, k);
    }
    ByteStrings.Induction(p, HANDSHAKE_MESSAGES, i);
  }

  /** In every execution, when both programs have reached the same stage of the records, what
      one sends with is what the other receives with, both ways, numbers included. */
  lemma StatesCross(s: Setup, capacity: nat, steps: seq<Step>)
    requires KemWorks(s) && Execution(s, capacity, steps).Some?
    requires var sys := Execution(s, capacity, steps).value; HANDSHAKE_MESSAGES <= sys.client.stage == sys.server.stage
    ensures var sys := Execution(s, capacity, steps).value;
            sys.client.l.snd == sys.server.l.rcv && sys.server.l.snd == sys.client.l.rcv
  {
    hide LocalAt, Execution, Sane, Held, Plan;
    ExecutionConsistent(s, capacity, steps);
    DirectionsCross(s, Execution(s, capacity, steps).value.client.stage);
  }

  predicate SameKeys(d: Direction, d': Direction) {
    d.key == d'.key && d.iv == d'.iv
  }

  lemma KeysKept(s: Setup, role: Role, i: nat)
    requires HANDSHAKE_MESSAGES <= i
    ensures SameKeys(LocalAt(s, role, i).snd, LocalAt(s, role, HANDSHAKE_MESSAGES).snd)
    ensures SameKeys(LocalAt(s, role, i).rcv, LocalAt(s, role, HANDSHAKE_MESSAGES).rcv)
  {
    hide LocalAt;
    var snd, rcv := LocalAt(s, role, HANDSHAKE_MESSAGES).snd, LocalAt(s, role, HANDSHAKE_MESSAGES).rcv;
    var p := (k: nat) => SameKeys(LocalAt(s, role, k).snd, snd) && SameKeys(LocalAt(s, role, k).rcv, rcv);
    forall k | HANDSHAKE_MESSAGES <= k < i && p(k)
      ensures p(k + 1)
    {
      DirectionsMove(s, role, k);
    }
    ByteStrings.Induction(p, HANDSHAKE_MESSAGES, i);
  }

  /** In every execution in which both programs have set up their record states, what one
      seals under is what the other opens under, both ways, and the numbers start at 0. */
  lemma KeyAgreement(s: Setup, capacity: nat, steps: seq<Step>)
    requires KemWorks(s) && Execution(s, capacity, steps).Some?
    requires var sys := Execution(s, capacity, steps).value;
             sys.client.stage >= HANDSHAKE_MESSAGES && sys.server.stage >= HANDSHAKE_MESSAGES
    ensures var sys := Execution(s, capacity, steps).value;
            var (c, v) := (sys.client, sys.server);
            && SameKeys(c.l.snd, v.l.rcv) && SameKeys(v.l.snd, c.l.rcv)
            && (c.stage == HANDSHAKE_MESSAGES ==> c.l.snd.sequenceNumber == 0 == c.l.rcv.sequenceNumber)
            && (v.stage == HANDSHAKE_MESSAGES ==> v.l.snd.sequenceNumber == 0 == v.l.rcv.sequenceNumber)
  {
    ExecutionConsistent(s, capacity, steps);
    var sys := Execution(s, capacity, steps).value;
    KeysKept(s, Client, sys.client.stage);
    KeysKept(s, Server, sys.server.stage);
    DirectionsCross(s, HANDSHAKE_MESSAGES);
    KeysDerived(s, Client);
    KeysDerived(s, Server);
  }
}
