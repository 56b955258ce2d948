/** A sender and a receiver on one connection: what they do is a run of `RecordChannel`. */
module RecordExchange {
  import opened ByteStrings
  import Framing
  import opened Primitives
  import opened Record
  import opened RecordChannel
  import Transport

  /** A call to send a text, or a call to receive one once all that was sent has arrived. */
  datatype Turn = SendNext(text: Bytes) | ReceiveNext

  /** The octets the sender has handed over, the texts received and the states of both ends are
      those of the run; `left` is what has been handed over and not been received. */
  predicate Followed(suite: Suite, capacity: nat, d: Direction, events: seq<Event>,
                     snd: Direction, stopped: bool, texts: seq<Bytes>, sent: Bytes, rcv: Direction, received: seq<Bytes>, deaf: bool, left: Bytes)
  {
    && Run(suite, capacity, d, events).Some?
    && var s := Run(suite, capacity, d, events).value;
    && s.snd == snd && (!stopped ==> !s.busy && s.pending == [] && s.texts == texts)
    && sent + s.pending == Concat(s.wires)
    && s.rcv == rcv && s.received == received && (!deaf ==> s.got == [] && !s.rejected)
    && s.chan == left
  }

  lemma RunSnoc(suite: Suite, capacity: nat, d: Direction, events: seq<Event>, e: Event)
    requires Run(suite, capacity, d, events).Some? && Enabled(capacity, Run(suite, capacity, d, events).value, e)
    ensures Run(suite, capacity, d, events + [e])
            == Some(Apply(suite, capacity, Run(suite, capacity, d, events).value, e))
  {
    hide Enabled, Apply;
    assert (events + [e])[..|events|] == events;
  }

  /** Handing over the first `n` octets of a record. */
  lemma EmitSome(suite: Suite, capacity: nat, d: Direction, events: seq<Event>, n: nat) returns (events': seq<Event>)
    requires Run(suite, capacity, d, events).Some?
    requires var s := Run(suite, capacity, d, events).value; s.busy && n <= |s.pending|
    ensures var s := Run(suite, capacity, d, events).value;
            Run(suite, capacity, d, events') == Some(s.(pending := s.pending[n..], chan := s.chan + s.pending[..n]))
  {
    hide Run;
    if n == 0 {
      var s := Run(suite, capacity, d, events).value;
      assert s.chan + s.pending[..0] == s.chan;
      events' := events;
    } else {
      RunSnoc(suite, capacity, d, events, Emit(n));
      events' := events + [Emit(n)];
    }
  }

  lemma SendFollowed(suite: Suite, capacity: nat, d: Direction, events: seq<Event>, snd: Direction, texts: seq<Bytes>, sent: Bytes,
                     rcv: Direction, received: seq<Bytes>, deaf: bool, left: Bytes,
                     text: Bytes, result: SendResult, moved: nat) returns (events': seq<Event>)
    requires Followed(suite, capacity, d, events, snd, false, texts, sent, rcv, received, deaf, left)
    requires moved <= |Sealed(suite, snd, text)| && (moved == |Sealed(suite, snd, text)| <==> result.Sent?)
    requires if result.Refused? then moved == 0 else 0 < |text| <= MAX_PLAINTEXT_LEN
    ensures var part := Sealed(suite, snd, text)[..moved];
            Followed(suite, capacity, d, events', if result.Sent? then Next(snd) else snd, !result.Sent?, texts + [text], sent + part,
                     rcv, received, deaf, left + part)
  {
    hide Run, Sealed;
    var record := Sealed(suite, snd, text);
    if result.Refused? {
      assert sent + record[..0] == sent && left + record[..0] == left;
      events' := events;
    } else {
      var s := Run(suite, capacity, d, events).value;
      assert sent == sent + s.pending == Concat(s.wires);
      RunSnoc(suite, capacity, d, events, Submit(text));
      ConcatSnoc(s.wires, record);
      events' := EmitSome(suite, capacity, d, events + [Submit(text)], moved);
      assert sent + record[..moved] + record[moved..] == sent + record;
      if result.Sent? {
        RunSnoc(suite, capacity, d, events', Finish);
        events' := events' + [Finish];
      }
    }
  }

  /** Receiving the octets of a record up to `got`. */
  lemma {:induction false} TakeTo(suite: Suite, capacity: nat, d: Direction, events: seq<Event>, s: State, got: Bytes)
    returns (events': seq<Event>)
    requires Run(suite, capacity, d, events) == Some(s) && !s.rejected
    requires s.got <= got && got[|s.got|..] <= s.chan && RecordPaced(capacity, got)
    ensures Run(suite, capacity, d, events') == Some(s.(got := got, chan := s.chan[|got| - |s.got|..]))
    decreases |got| - |s.got|
  {
    hide Run, RecordFrameOf, RecordPaced;
    if s.got == got {
      assert s.chan[0..] == s.chan;
      events' := events;
    } else {
      RecordPacedNeeds(capacity, s.got, got);
      var more, rest := RecordFrameOf(capacity, s.got).more, |got| - |s.got|;
      var n := if more < rest then more else rest;
      RunSnoc(suite, capacity, d, events, Take(n));
      var s' := s.(got := s.got + s.chan[..n], chan := s.chan[n..]);
      assert s.chan[..n] == got[|s.got|..|s.got| + n];
      assert s'.got == got[..|s.got| + n];
      assert got[|s'.got|..] == got[|s.got|..][n..] <= s.chan[n..];
      events' := TakeTo(suite, capacity, d, events + [Take(n)], s', got);
      assert s.chan[n..][rest - n..] == s.chan[rest..];
    }
  }

  lemma ReceiveFollowed(suite: Suite, capacity: nat, d: Direction, events: seq<Event>, snd: Direction, stopped: bool,
                        texts: seq<Bytes>, sent: Bytes, rcv: Direction, received: seq<Bytes>, left: Bytes,
                        moved: nat, ok: bool, text: Bytes, libraryFailed: bool) returns (events': seq<Event>)
    requires Followed(suite, capacity, d, events, snd, stopped, texts, sent, rcv, received, false, left)
    requires moved <= |left| && RecordPaced(capacity, left[..moved])
    requires ok ==> RecordFrameOf(capacity, left[..moved]).Whole?
    requires RecordFrameOf(capacity, left[..moved]).Whole? ==>
               var plain := Opened(suite, rcv, left[..moved]);
               (ok <==> !libraryFailed && plain.Some?) && (ok ==> text == plain.value)
    ensures Followed(suite, capacity, d, events', snd, stopped, texts, sent, if ok then Next(rcv) else rcv,
                     if ok then received + [text] else received, !ok, left[moved..])
  {
    hide Run, Opened, RecordFrameOf, RecordPaced;
    var s := Run(suite, capacity, d, events).value;
    events' := TakeTo(suite, capacity, d, events, s, left[..moved]);
    if ok {
      RunSnoc(suite, capacity, d, events', Act);
      events' := events' + [Act];
    }
  }

  // ---- The calls --------------------------------------------------------------------------

  function Texts(turns: seq<Turn>): seq<Bytes> {
    if |turns| == 0 then []
    else
      var last := turns[|turns| - 1];
      Texts(turns[..|turns| - 1]) + if last.SendNext? then [last.text] else []
  }

  function Receives(turns: seq<Turn>): nat {
    if |turns| == 0 then 0
    else Receives(turns[..|turns| - 1]) + if turns[|turns| - 1].ReceiveNext? then 1 else 0
  }

  /** All texts can be sent and received, and no call to receive comes before its text. */
  predicate Orderly(turns: seq<Turn>, capacity: nat) {
    && Fit(Texts(turns), capacity)
    && forall n | 0 <= n <= |turns| :: Receives(turns[..n]) <= |Texts(turns[..n])|
  }

  lemma TurnsUpTo(turns: seq<Turn>, i: nat)
    requires i < |turns|
    ensures Texts(turns[..i + 1]) == Texts(turns[..i]) + if turns[i].SendNext? then [turns[i].text] else []
    ensures Receives(turns[..i + 1]) == Receives(turns[..i]) + if turns[i].ReceiveNext? then 1 else 0
  {
    assert turns[..i + 1][..i] == turns[..i];
  }

  lemma {:induction false} TextsPrefix(turns: seq<Turn>, i: nat)
    requires i <= |turns|
    ensures Texts(turns[..i]) <= Texts(turns)
    decreases |turns| - i
  {
    if i < |turns| {
      TurnsUpTo(turns, i);
      TextsPrefix(turns, i + 1);
    } else {
      assert turns[..i] == turns;
    }
  }

  /** What an orderly caller may rely on at turn `i`. */
  lemma OrderlyAt(turns: seq<Turn>, capacity: nat, i: nat)
    requires Orderly(turns, capacity) && i < |turns|
    ensures Fit(Texts(turns[..i]), capacity)
    ensures turns[i].SendNext? ==> 0 < |turns[i].text| <= MAX_PLAINTEXT_LEN
    ensures turns[i].ReceiveNext? ==> Receives(turns[..i]) < |Texts(turns[..i])|
  {
    TurnsUpTo(turns, i);
    TextsPrefix(turns, i);
    TextsPrefix(turns, i + 1);
    var texts := Texts(turns);
    assert forall k | 0 <= k < |Texts(turns[..i])| :: Texts(turns[..i])[k] == texts[k];
    if turns[i].SendNext? {
      assert turns[i].text == Texts(turns[..i + 1])[|Texts(turns[..i])|] == texts[|Texts(turns[..i])|];
    }
    assert Receives(turns[..i + 1]) <= |Texts(turns[..i + 1])|;
  }

  /** A receiver that has not got all that was sent finds the record of the next text. */
  lemma NextOnWire(suite: Suite, capacity: nat, d: Direction, events: seq<Event>, snd: Direction, texts: seq<Bytes>, sent: Bytes,
                   rcv: Direction, received: seq<Bytes>, left: Bytes) returns (rest: Bytes)
    requires Followed(suite, capacity, d, events, snd, false, texts, sent, rcv, received, false, left)
    requires Opens(suite) && Fit(texts, capacity) && |received| < |texts|
    ensures left == Sealed(suite, rcv, texts[|received|]) + rest
  {
    hide Run, Sealed;
    var s := Run(suite, capacity, d, events).value;
    HonestChannel(suite, capacity, d, events);
    var later := s.wires[|received|..];
    assert s.got + s.chan + s.pending == s.chan;
    assert later[0] == s.wires[|received|];
    rest := Concat(later[1..]);
  }

  /** What a caller is promised after the turns `turns`. */
  predicate Promised(turns: seq<Turn>, stopped: bool, deaf: bool, texts: seq<Bytes>, received: seq<Bytes>) {
    !stopped && !deaf && texts == Texts(turns) && |received| == Receives(turns)
  }

  /** Makes any calls to send and to receive, each side stopping at its first failure. Octets,
      texts and states are those of a run of the channel; so what is received is what was sent,
      in order and once each, as far as it got. Without a failing call a caller that does not
      ask for texts too early receives as many as it asks for. */
  method Converse(library: Library, suite: Suite, near: Transport.Socket, far: Transport.Socket, snd: RecordState, rcv: RecordState,
                  capacity: nat, turns: seq<Turn>)
    returns (received: seq<Bytes>, ghost events: seq<Event>, ghost stopped: bool, ghost deaf: bool, ghost texts: seq<Bytes>,
             ghost left: Bytes)
    requires near != far && near.outbound == [] && far.inbound == []
    requires snd != rcv && snd.Valid() && rcv.Valid() && snd.Value() == rcv.Value()
    modifies library`faulted, near`outbound, near`faulted, far`inbound, far`faulted
    modifies snd`sequenceNumber, rcv`sequenceNumber
    ensures snd.Valid() && rcv.Valid()
    ensures Followed(suite, capacity, old(snd.Value()), events, snd.Value(), stopped, texts, near.outbound,
                     rcv.Value(), received, deaf, left)
    ensures Opens(suite) && Fit(Run(suite, capacity, old(snd.Value()), events).value.texts, capacity) ==>
              received <= Run(suite, capacity, old(snd.Value()), events).value.texts
    ensures Opens(suite) && Orderly(turns, capacity) && !near.faulted && !far.faulted && !library.faulted ==>
              Receives(turns) <= |Texts(turns)| && received == Texts(turns)[..Receives(turns)]
  {
    hide Followed, Orderly, Texts, Receives, Run, Opens, Fit;
    ghost var d := snd.Value();
    received, events, stopped, deaf, texts, left := [], [], false, false, [], [];
    var failed, lost := false, false;
    var carried: nat := 0;
    StartFollowed(suite, capacity, d);
    StartPromised(turns);
    for i := 0 to |turns|
      invariant snd.Valid() && rcv.Valid() && failed == stopped && lost == deaf
      invariant carried <= |near.outbound| && left == far.inbound + near.outbound[carried..]
      invariant Followed(suite, capacity, d, events, snd.Value(), stopped, texts, near.outbound, rcv.Value(), received, deaf, left)
      invariant Opens(suite) && Orderly(turns, capacity) && !near.faulted && !far.faulted && !library.faulted ==>
                  Promised(turns[..i], stopped, deaf, texts, received)
    {
      TurnsUpTo(turns, i);
      if Orderly(turns, capacity) {
        OrderlyAt(turns, capacity, i);
      }
      match turns[i] {
        case SendNext(text) =>
          if !failed {
            ghost var waiting := near.outbound[carried..];
            ghost var part;
            failed, events, part :=
              SendTurn(library, suite, near, snd, text, capacity, d, events, texts, rcv.Value(), received, deaf, left, carried);
            ConcatAssociates(far.inbound, waiting, part);
            stopped, texts, left := failed, texts + [text], left + part;
          }
        case ReceiveNext =>
          far.inbound := far.inbound + near.outbound[carried..];
          carried := |near.outbound|;
          if !lost {
            lost, received, events := ReceiveTurn(library, suite, far, rcv, capacity, d, events,
                                                  snd.Value(), stopped, texts, near.outbound, received);
            deaf, left := lost, far.inbound;
          }
      }
    }
    assert turns[..|turns|] == turns;
    ReceivedInOrder(suite, capacity, d, events, snd.Value(), stopped, texts, near.outbound, rcv.Value(), received, deaf, left);
    if Opens(suite) && Orderly(turns, capacity) {
      OrderlyFits(turns, capacity);
    }
  }

  lemma OrderlyFits(turns: seq<Turn>, capacity: nat)
    requires Orderly(turns, capacity)
    ensures Fit(Texts(turns), capacity) && Receives(turns) <= |Texts(turns)|
  {
    assert turns[..|turns|] == turns;
  }

  lemma StartPromised(turns: seq<Turn>)
    ensures Promised(turns[..0], false, false, [], [])
  {
  }

  lemma ReceivedInOrder(suite: Suite, capacity: nat, d: Direction, events: seq<Event>, snd: Direction, stopped: bool,
                        texts: seq<Bytes>, sent: Bytes, rcv: Direction, received: seq<Bytes>, deaf: bool, left: Bytes)
    requires Followed(suite, capacity, d, events, snd, stopped, texts, sent, rcv, received, deaf, left)
    ensures Run(suite, capacity, d, events).Some?
    ensures !stopped ==> Run(suite, capacity, d, events).value.texts == texts
    ensures Opens(suite) && Fit(Run(suite, capacity, d, events).value.texts, capacity) ==>
              received <= Run(suite, capacity, d, events).value.texts
  {
    hide Run;
    if Opens(suite) && Fit(Run(suite, capacity, d, events).value.texts, capacity) {
      HonestChannel(suite, capacity, d, events);
    }
  }

  lemma StartFollowed(suite: Suite, capacity: nat, d: Direction)
    ensures Followed(suite, capacity, d, [], d, false, [], [], d, [], false, [])
  {
  }

  method SendTurn(library: Library, suite: Suite, near: Transport.Socket, snd: RecordState, text: Bytes, ghost capacity: nat,
                  ghost d: Direction, ghost before: seq<Event>, ghost texts: seq<Bytes>, ghost rcv: Direction,
                  ghost received: seq<Bytes>, ghost deaf: bool, ghost left: Bytes, ghost carried: nat)
    returns (failed: bool, ghost events: seq<Event>, ghost part: Bytes)
    requires snd.Valid() && carried <= |near.outbound|
    requires Followed(suite, capacity, d, before, snd.Value(), false, texts, near.outbound, rcv, received, deaf, left)
    modifies library`faulted, near`outbound, near`faulted, snd`sequenceNumber
    ensures snd.Valid() && near.outbound == old(near.outbound) + part
    ensures carried <= |near.outbound| && near.outbound[carried..] == old(near.outbound[carried..]) + part
    ensures Followed(suite, capacity, d, events, snd.Value(), failed, texts + [text], near.outbound, rcv, received, deaf,
                     left + part)
    ensures failed ==> near.faulted || library.faulted || |text| == 0 || |text| > MAX_PLAINTEXT_LEN
    ensures (old(near.faulted) ==> near.faulted) && (old(library.faulted) ==> library.faulted)
  {
    hide Followed, Sealed;
    ghost var was, sent := snd.Value(), near.outbound;
    var rc;
    ghost var result, moved;
    rc, result, moved := SendEncryptedRecord(library, suite, near, text, snd);
    failed := rc != 0;
    events := SendFollowed(suite, capacity, d, before, was, texts, sent, rcv, received, deaf, left, text, result, moved);
    part := Sealed(suite, was, text)[..moved];
    assert (sent + part)[carried..] == sent[carried..] + part;
  }

  method ReceiveTurn(library: Library, suite: Suite, far: Transport.Socket, rcv: RecordState, capacity: nat,
                     ghost d: Direction, ghost before: seq<Event>, ghost snd: Direction, ghost stopped: bool,
                     ghost texts: seq<Bytes>, ghost sent: Bytes, received: seq<Bytes>)
    returns (lost: bool, received': seq<Bytes>, ghost events: seq<Event>)
    requires rcv.Valid()
    requires Followed(suite, capacity, d, before, snd, stopped, texts, sent, rcv.Value(), received, false, far.inbound)
    modifies library`faulted, far`inbound, far`faulted, rcv`sequenceNumber
    ensures rcv.Valid()
    ensures Followed(suite, capacity, d, events, snd, stopped, texts, sent, rcv.Value(), received', lost, far.inbound)
    ensures !lost ==> |received'| == |received| + 1
    ensures (old(far.faulted) ==> far.faulted) && (old(library.faulted) ==> library.faulted)
    ensures Opens(suite) && !stopped && Fit(texts, capacity) && |received| < |texts| && !far.faulted && !library.faulted ==>
              !lost
  {
    hide Followed, Opened, RecordFrameOf, RecordPaced, Sealed;
    ghost var was, left := rcv.Value(), far.inbound;
    var buffer := new Byte[capacity](_ => 0);
    var length := new Framing.Size();
    var rc;
    ghost var moved, libraryFailed;
    rc, moved, libraryFailed := RecvEncryptedRecord(library, suite, far, buffer, capacity, length, rcv);
    lost := rc != 0;
    var text := if rc == 0 then buffer[..length.value] else [];
    received' := if lost then received else received + [text];
    events := ReceiveFollowed(suite, capacity, d, before, snd, stopped, texts, sent, was, received, left, moved, rc == 0, text, libraryFailed);
    if Opens(suite) && !stopped && Fit(texts, capacity) && |received| < |texts| {
      ghost var rest := NextOnWire(suite, capacity, d, before, snd, texts, sent, was, received, left);
      RecordRoundTrip(suite, was, texts[|received|], rest, capacity, moved);
    }
  }
}
