/** Callers of the record layer: what they do to two record states, to the octets and to the
    texts is what `RecordHistory` and `RecordAdversary` say. */
module RecordCalls {
  import opened ByteStrings
  import Framing
  import opened Primitives
  import opened Record
  import opened RecordAdversary
  import opened Transport
  import RecordHistory

  // ---- One state, any calls ---------------------------------------------------------------

  /** A call to send `text` on the caller's socket, or to receive, with room for `capacity`
      octets, from a peer that writes `stream` and closes. */
  datatype Call = SendText(text: Bytes) | ReceiveFrom(stream: Bytes, capacity: nat)

  /** What a call on the state `d` did: the octets `part` sent, the text read. */
  predicate Explained(suite: Suite, d: Direction, call: Call, ok: bool, part: Bytes, text: Bytes) {
    match call
    case SendText(sent) =>
      && part <= Sealed(suite, d, sent)
      && (ok <==> part == Sealed(suite, d, sent))
      && (ok ==> 0 < |sent| <= MAX_PLAINTEXT_LEN)
    case ReceiveFrom(stream, capacity) =>
      && part == []
      && (ok ==> exists n :: 0 <= n <= |stream| && ReadsAs(suite, d, stream[..n], capacity, text))
  }

  /** The receiving end of `d` reads the record `got` as `text`. */
  predicate ReadsAs(suite: Suite, d: Direction, got: Bytes, capacity: nat, text: Bytes) {
    RecordFrameOf(capacity, got).Whole? && |got| >= RECORD_HEADER_LEN && Opened(suite, d, got) == Some(text)
  }

  /** Makes any calls on one state, going on after failures: the state, the octets sent and the
      texts read are those of `RecordHistory`. */
  method MakeCalls(library: Library, suite: Suite, socket: Socket, state: RecordState, calls: seq<Call>)
    returns (succeeded: seq<bool>, texts: seq<Bytes>, ghost parts: seq<Bytes>)
    requires state.Valid()
    modifies library`faulted, socket`outbound, socket`faulted, state`sequenceNumber
    ensures state.Valid() && |succeeded| == |texts| == |parts| == |calls|
    ensures state.Value() == RecordHistory.After(old(state.Value()), succeeded)
    ensures state.Value() ==
            old(state.Value()).(sequenceNumber := Wrap(old(state.sequenceNumber) + RecordHistory.Successes(succeeded)))
    ensures socket.outbound == old(socket.outbound) + Concat(parts)
    ensures forall i | 0 <= i < |calls| ::
              Explained(suite, RecordHistory.After(old(state.Value()), succeeded[..i]), calls[i], succeeded[i], parts[i], texts[i])
    ensures !socket.faulted && !library.faulted ==>
              forall i | 0 <= i < |calls| && calls[i].SendText? :: succeeded[i] <==> 0 < |calls[i].text| <= MAX_PLAINTEXT_LEN
  {
    hide Explained, RecordHistory.After;
    ghost var d := state.Value();
    succeeded, texts, parts := [], [], [];
    assert RecordHistory.After(d, []) == d by { RecordHistory.Accounting(d, []); }
    for i := 0 to |calls|
      invariant state.Valid() && |succeeded| == |texts| == |parts| == i
      invariant state.Value() == RecordHistory.After(d, succeeded)
      invariant socket.outbound == old(socket.outbound) + Concat(parts)
      invariant forall k | 0 <= k < i ::
                  Explained(suite, RecordHistory.After(d, succeeded[..k]), calls[k], succeeded[k], parts[k], texts[k])
      invariant !socket.faulted && !library.faulted ==>
                  forall k | 0 <= k < i && calls[k].SendText? :: succeeded[k] <==> 0 < |calls[k].text| <= MAX_PLAINTEXT_LEN
    {
      var ok, text;
      ghost var part;
      ok, text, part := MakeCall(library, suite, socket, state, calls[i]);
      AfterCall(d, succeeded, ok);
      ConcatSnoc(parts, part);
      ConcatAssociates(old(socket.outbound), Concat(parts), part);
      succeeded, texts, parts := succeeded + [ok], texts + [text], parts + [part];
      assert forall k | 0 <= k <= i :: succeeded[..i][..k] == succeeded[..k];
    }
    RecordHistory.Accounting(d, succeeded);
  }

  lemma AfterCall(d: Direction, succeeded: seq<bool>, ok: bool)
    ensures RecordHistory.After(d, succeeded + [ok])
            == if ok then Next(RecordHistory.After(d, succeeded)) else RecordHistory.After(d, succeeded)
  {
    assert (succeeded + [ok])[..|succeeded|] == succeeded;
  }

  method MakeCall(library: Library, suite: Suite, socket: Socket, state: RecordState, call: Call)
    returns (ok: bool, text: Bytes, ghost part: Bytes)
    requires state.Valid()
    modifies library`faulted, socket`outbound, socket`faulted, state`sequenceNumber
    ensures state.Valid() && state.Value() == if ok then Next(old(state.Value())) else old(state.Value())
    ensures socket.outbound == old(socket.outbound) + part
    ensures Explained(suite, old(state.Value()), call, ok, part, text)
    ensures old(socket.faulted) ==> socket.faulted
    ensures old(library.faulted) ==> library.faulted
    ensures call.SendText? && ok ==> 0 < |call.text| <= MAX_PLAINTEXT_LEN
    ensures call.SendText? && !ok && 0 < |call.text| <= MAX_PLAINTEXT_LEN ==> socket.faulted || library.faulted
  {
    hide Sealed, Opened, RecordPaced;
    match call {
      case SendText(sent) =>
        var rc;
        ghost var result, moved;
        rc, result, moved := SendEncryptedRecord(library, suite, socket, sent, state);
        ok, text, part := rc == 0, [], Sealed(suite, old(state.Value()), sent)[..moved];
      case ReceiveFrom(stream, capacity) =>
        ghost var moved, libraryFailed;
        ok, text, moved, libraryFailed := ReceiveText(library, suite, stream, capacity, state);
        part := [];
        assert ok ==> ReadsAs(suite, old(state.Value()), stream[..moved], capacity, text);
    }
  }

  /** Receives one record from a peer that writes `stream` and closes. */
  method ReceiveText(library: Library, suite: Suite, stream: Bytes, capacity: nat, state: RecordState)
    returns (ok: bool, text: Bytes, ghost moved: nat, ghost libraryFailed: bool)
    requires state.Valid()
    modifies library`faulted, state`sequenceNumber
    ensures state.Valid() && moved <= |stream| && RecordPaced(capacity, stream[..moved])
    ensures old(library.faulted) ==> library.faulted
    ensures libraryFailed ==> library.faulted
    ensures ok ==> RecordFrameOf(capacity, stream[..moved]).Whole?
    ensures RecordFrameOf(capacity, stream[..moved]).Whole? ==>
              var plain := Opened(suite, old(state.Value()), stream[..moved]);
              && (ok <==> !libraryFailed && plain.Some?)
              && (ok ==> text == plain.value)
    ensures state.Value() == if ok then Next(old(state.Value())) else old(state.Value())
  {
    var peer := new Socket(stream);
    var buffer := new Byte[capacity](_ => 0);
    var length := new Framing.Size();
    var rc;
    rc, moved, libraryFailed := RecvEncryptedRecord(library, suite, peer, buffer, capacity, length, state);
    ok := rc == 0;
    text := if ok then buffer[..length.value] else [];
  }

  // ---- A sender and a receiver with an adversary between them -----------------------------

  /** The records of `log`. */
  function Records(suite: Suite, log: seq<Sealing>): (records: seq<Bytes>)
    ensures |records| == |log|
  {
    seq(|log|, i requires 0 <= i < |log| => Sealed(suite, log[i].d, log[i].text))
  }

  /** The octets sent are those of the records sealed, all of them unless the sender has
      stopped. */
  predicate OnWire(suite: Suite, log: seq<Sealing>, stopped: bool, sent: Bytes) {
    && sent <= Concat(Records(suite, log))
    && (!stopped ==> sent == Concat(Records(suite, log)))
  }

  /** The two ends, the octets sent and the texts accepted are those of the world that the
      attempts lead to. */
  predicate Mirrored(suite: Suite, d: Direction, attempts: seq<Attempt>,
                     snd: Direction, stopped: bool, sent: Bytes, rcv: Direction, accepted: seq<Bytes>)
  {
    After(suite, d, attempts).Some? ==>
      var w := After(suite, d, attempts).value;
      && w.snd == snd && w.stopped == stopped && w.rcv == rcv && w.accepted == accepted
      && OnWire(suite, w.log, stopped, sent)
  }

  lemma AfterSnoc(suite: Suite, d: Direction, attempts: seq<Attempt>, a: Attempt)
    ensures After(suite, d, attempts + [a]) ==
            if After(suite, d, attempts).Some? && Possible(suite, After(suite, d, attempts).value, a)
            then Some(Outcome(suite, After(suite, d, attempts).value, a)) else None
  {
    hide Possible, Outcome;
    assert (attempts + [a])[..|attempts|] == attempts;
  }

  lemma RecordsSnoc(suite: Suite, log: seq<Sealing>, d: Direction, text: Bytes)
    ensures Concat(Records(suite, log + [Sealing(d, text)])) == Concat(Records(suite, log)) + Sealed(suite, d, text)
  {
    hide Sealed;
    ConcatSnoc(Records(suite, log), Sealed(suite, d, text));
    assert Records(suite, log + [Sealing(d, text)]) == Records(suite, log) + [Sealed(suite, d, text)];
  }

  lemma SendMirrored(suite: Suite, d: Direction, attempts: seq<Attempt>, snd: Direction, sent: Bytes, rcv: Direction,
                     accepted: seq<Bytes>, text: Bytes, result: SendResult, moved: nat)
    requires Mirrored(suite, d, attempts, snd, false, sent, rcv, accepted)
    requires moved <= |Sealed(suite, snd, text)| && (moved == |Sealed(suite, snd, text)| <==> result.Sent?)
    requires result.Refused? ==> moved == 0
    ensures Mirrored(suite, d, attempts + [Attempt.Send(text, result)], if result.Sent? then Next(snd) else snd,
                     !result.Sent?, sent + Sealed(suite, snd, text)[..moved], rcv, accepted)
  {
    hide After, Sealed, OnWire;
    AfterSnoc(suite, d, attempts, Attempt.Send(text, result));
    if After(suite, d, attempts).Some? {
      SentOnWire(suite, After(suite, d, attempts).value.log, sent, snd, text, result, moved);
    }
  }

  lemma SentOnWire(suite: Suite, log: seq<Sealing>, sent: Bytes, snd: Direction, text: Bytes, result: SendResult, moved: nat)
    requires OnWire(suite, log, false, sent)
    requires moved <= |Sealed(suite, snd, text)| && (moved == |Sealed(suite, snd, text)| <==> result.Sent?)
    requires result.Refused? ==> moved == 0
    ensures OnWire(suite, if result.Refused? then log else log + [Sealing(snd, text)], !result.Sent?,
                   sent + Sealed(suite, snd, text)[..moved])
  {
    hide Sealed, Records;
    var record := Sealed(suite, snd, text);
    RecordsSnoc(suite, log, snd, text);
    if result.Refused? {
      assert sent + record[..0] == sent;
    } else {
      assert (sent + record)[..|sent| + moved] == sent + record[..moved];
    }
  }

  lemma DeliverMirrored(suite: Suite, d: Direction, attempts: seq<Attempt>, snd: Direction, stopped: bool, sent: Bytes,
                        rcv: Direction, accepted: seq<Bytes>, a: Attempt, ok: bool, text: Bytes)
    requires Mirrored(suite, d, attempts, snd, stopped, sent, rcv, accepted)
    requires a.Deliver? && a.moved <= |a.stream|
    requires ok ==> RecordFrameOf(a.capacity, a.stream[..a.moved]).Whole?
    requires RecordFrameOf(a.capacity, a.stream[..a.moved]).Whole? ==>
               var plain := Opened(suite, rcv, a.stream[..a.moved]);
               (ok <==> !a.libraryFailed && plain.Some?) && (ok ==> text == plain.value)
    ensures Mirrored(suite, d, attempts + [a], snd, stopped, sent, if ok then Next(rcv) else rcv,
                     if ok then accepted + [text] else accepted)
  {
    hide After, OnWire, RecordFrameOf, Opened;
    AfterSnoc(suite, d, attempts, a);
  }

  /** The adversary has delivered a record that the receiver can open and the sender did not
      seal. */
  ghost predicate Forged(suite: Suite, d: Direction, attempts: seq<Attempt>) {
    exists n :: 0 <= n < |attempts| && ForgedAt(suite, d, attempts[..n], attempts[n])
  }

  predicate ForgedAt(suite: Suite, d: Direction, before: seq<Attempt>, a: Attempt) {
    && After(suite, d, before).Some?
    && a.Deliver? && a.moved <= |a.stream| && RecordFrameOf(a.capacity, a.stream[..a.moved]).Whole?
    && !Unforged(suite, After(suite, d, before).value, a.stream[..a.moved])
  }

  /** The only way for attempts to lead nowhere is a forgery. */
  ghost predicate Followed(suite: Suite, d: Direction, attempts: seq<Attempt>) {
    After(suite, d, attempts).Some? || Forged(suite, d, attempts)
  }

  lemma ForgedStays(suite: Suite, d: Direction, attempts: seq<Attempt>, a: Attempt)
    requires Forged(suite, d, attempts)
    ensures Forged(suite, d, attempts + [a])
  {
    hide ForgedAt;
    var n :| 0 <= n < |attempts| && ForgedAt(suite, d, attempts[..n], attempts[n]);
    assert (attempts + [a])[..n] == attempts[..n] && (attempts + [a])[n] == attempts[n];
  }

  lemma NextSound(suite: Suite, d: Direction, attempts: seq<Attempt>, a: Attempt)
    requires Followed(suite, d, attempts)
    requires After(suite, d, attempts).Some? ==>
               || Possible(suite, After(suite, d, attempts).value, a)
               || ForgedAt(suite, d, attempts, a)
    ensures Followed(suite, d, attempts + [a])
  {
    hide After, Possible, Outcome, ForgedAt;
    AfterSnoc(suite, d, attempts, a);
    if Forged(suite, d, attempts) {
      ForgedStays(suite, d, attempts, a);
    } else {
      assert (attempts + [a])[..|attempts|] == attempts && (attempts + [a])[|attempts|] == a;
    }
  }

  /** What the calls submit and what they are given to receive. */
  function Texts(calls: seq<Call>): seq<Bytes> {
    if |calls| == 0 then []
    else
      var last := calls[|calls| - 1];
      Texts(calls[..|calls| - 1]) + if last.SendText? then [last.text] else []
  }

  function Streams(calls: seq<Call>): seq<(Bytes, nat)> {
    if |calls| == 0 then []
    else
      var last := calls[|calls| - 1];
      Streams(calls[..|calls| - 1]) + if last.ReceiveFrom? then [(last.stream, last.capacity)] else []
  }

  /** The same of attempts. */
  function Submitted(attempts: seq<Attempt>): seq<Bytes> {
    if |attempts| == 0 then []
    else
      var last := attempts[|attempts| - 1];
      Submitted(attempts[..|attempts| - 1]) + if last.Send? then [last.text] else []
  }

  function Delivered(attempts: seq<Attempt>): seq<(Bytes, nat)> {
    if |attempts| == 0 then []
    else
      var last := attempts[|attempts| - 1];
      Delivered(attempts[..|attempts| - 1]) + if last.Deliver? then [(last.stream, last.capacity)] else []
  }

  /** Every call to receive is an attempt, and so is every call to send until the sender stops. */
  predicate Matched(calls: seq<Call>, attempts: seq<Attempt>, stopped: bool) {
    && Delivered(attempts) == Streams(calls)
    && Submitted(attempts) <= Texts(calls)
    && (!stopped ==> Submitted(attempts) == Texts(calls))
  }

  lemma MatchedSend(calls: seq<Call>, text: Bytes, attempts: seq<Attempt>, result: SendResult)
    requires Matched(calls, attempts, false)
    ensures Matched(calls + [SendText(text)], attempts + [Attempt.Send(text, result)], false)
  {
    assert (calls + [SendText(text)])[..|calls|] == calls;
    assert (attempts + [Attempt.Send(text, result)])[..|attempts|] == attempts;
  }

  lemma MatchedReceive(calls: seq<Call>, stream: Bytes, capacity: nat, attempts: seq<Attempt>, a: Attempt, stopped: bool)
    requires Matched(calls, attempts, stopped) && a.Deliver? && a.stream == stream && a.capacity == capacity
    ensures Matched(calls + [ReceiveFrom(stream, capacity)], attempts + [a], stopped)
  {
    assert (calls + [ReceiveFrom(stream, capacity)])[..|calls|] == calls;
    assert (attempts + [a])[..|attempts|] == attempts;
  }

  lemma MatchedSkip(calls: seq<Call>, call: Call, attempts: seq<Attempt>)
    requires Matched(calls, attempts, true) && call.SendText?
    ensures Matched(calls + [call], attempts, true)
  {
    assert (calls + [call])[..|calls|] == calls;
  }

  /** Makes any calls, to send with one state and to receive with another that starts out the
      same, the streams received being the adversary's. The sender stops at its first failure;
      the receiver goes on. Unless the adversary forges a record, states, octets and texts are
      those of the world of `RecordAdversary`, and the texts accepted are those sealed first. */
  method MakeCallsUnderAttack(library: Library, suite: Suite, socket: Socket, snd: RecordState, rcv: RecordState, calls: seq<Call>)
    returns (accepted: seq<Bytes>, ghost attempts: seq<Attempt>, ghost stopped: bool)
    requires snd != rcv && snd.Valid() && rcv.Valid() && snd.Value() == rcv.Value()
    requires socket.outbound == []
    modifies library`faulted, socket`outbound, socket`faulted, snd`sequenceNumber, rcv`sequenceNumber
    ensures snd.Valid() && rcv.Valid()
    ensures Mirrored(suite, old(snd.Value()), attempts, snd.Value(), stopped, socket.outbound, rcv.Value(), accepted)
    ensures Followed(suite, old(snd.Value()), attempts) && Matched(calls, attempts, stopped)
    ensures stopped ==> socket.faulted || library.faulted || exists text :: text in Texts(calls) && !Sendable(text)
    ensures Opens(suite) && After(suite, old(snd.Value()), attempts).Some?
            && |After(suite, old(snd.Value()), attempts).value.log| < TWO64 ==>
              var log := After(suite, old(snd.Value()), attempts).value.log;
              |accepted| <= |log| && forall i | 0 <= i < |accepted| :: accepted[i] == log[i].text
  {
    hide After, Sealed, RecordFrameOf, Opened, RecordPaced, Mirrored, ForgedAt, Unforged, Possible, Forged, Matched, Sendable;
    ghost var d := snd.Value();
    accepted, attempts := [], [];
    var failed := false;
    stopped := false;
    StartMirrored(suite, d);
    for i := 0 to |calls|
      invariant snd.Valid() && rcv.Valid() && failed == stopped
      invariant Mirrored(suite, d, attempts, snd.Value(), stopped, socket.outbound, rcv.Value(), accepted)
      invariant Followed(suite, d, attempts) && Matched(calls[..i], attempts, stopped)
      invariant stopped ==> socket.faulted || library.faulted || exists text :: text in Texts(calls[..i]) && !Sendable(text)
    {
      TextsUpTo(calls, i);
      match calls[i] {
        case SendText(text) =>
          if failed {
            MatchedSkip(calls[..i], calls[i], attempts);
          } else {
            failed, attempts := SendUnderAttack(library, suite, socket, snd, text, d, attempts, rcv.Value(), accepted, calls[..i]);
            stopped := failed;
          }
        case ReceiveFrom(stream, capacity) =>
          accepted, attempts := ReceiveUnderAttack(library, suite, stream, capacity, rcv, d, attempts,
                                                   snd.Value(), stopped, socket.outbound, accepted, calls[..i]);
      }
    }
    assert calls[..|calls|] == calls;
    if Opens(suite) && After(suite, d, attempts).Some? && |After(suite, d, attempts).value.log| < TWO64 {
      AcceptedIsPrefix(suite, d, attempts);
      AcceptedTexts(suite, d, attempts, snd.Value(), stopped, socket.outbound, rcv.Value(), accepted);
    }
  }

  predicate Sendable(text: Bytes) {
    0 < |text| <= MAX_PLAINTEXT_LEN
  }

  lemma TextsUpTo(calls: seq<Call>, i: nat)
    requires i < |calls|
    ensures calls[..i + 1] == calls[..i] + [calls[i]]
    ensures Texts(calls[..i + 1]) == Texts(calls[..i]) + if calls[i].SendText? then [calls[i].text] else []
  {
    assert calls[..i + 1][..i] == calls[..i];
  }

  lemma AcceptedTexts(suite: Suite, d: Direction, attempts: seq<Attempt>, snd: Direction, stopped: bool, sent: Bytes,
                      rcv: Direction, accepted: seq<Bytes>)
    requires After(suite, d, attempts).Some? && Safe(d, After(suite, d, attempts).value)
    requires Mirrored(suite, d, attempts, snd, stopped, sent, rcv, accepted)
    ensures var log := After(suite, d, attempts).value.log;
            |accepted| <= |log| && forall i | 0 <= i < |accepted| :: accepted[i] == log[i].text
  {
    hide After, OnWire;
  }

  lemma StartMirrored(suite: Suite, d: Direction)
    ensures Followed(suite, d, []) && Matched([], [], false) && Mirrored(suite, d, [], d, false, [], d, [])
  {
    assert Records(suite, []) == [];
  }

  method SendUnderAttack(library: Library, suite: Suite, socket: Socket, snd: RecordState, text: Bytes,
                         ghost d: Direction, ghost before: seq<Attempt>, ghost rcv: Direction, ghost accepted: seq<Bytes>,
                         ghost calls: seq<Call>)
    returns (failed: bool, ghost attempts: seq<Attempt>)
    requires snd.Valid() && Mirrored(suite, d, before, snd.Value(), false, socket.outbound, rcv, accepted)
    requires Followed(suite, d, before) && Matched(calls, before, false)
    modifies library`faulted, socket`outbound, socket`faulted, snd`sequenceNumber
    ensures snd.Valid() && Mirrored(suite, d, attempts, snd.Value(), failed, socket.outbound, rcv, accepted)
    ensures Followed(suite, d, attempts) && Matched(calls + [SendText(text)], attempts, failed)
    ensures failed ==> socket.faulted || library.faulted || !Sendable(text)
  {
    hide After, Sealed, ForgedAt, Forged, OnWire, Submitted, Delivered, Texts, Streams;
    var rc;
    ghost var result, moved;
    ghost var was, sent := snd.Value(), socket.outbound;
    rc, result, moved := SendEncryptedRecord(library, suite, socket, text, snd);
    failed := rc != 0;
    attempts := before + [Attempt.Send(text, result)];
    MatchedSend(calls, text, before, result);
    SendMirrored(suite, d, before, was, sent, rcv, accepted, text, result, moved);
    NextSound(suite, d, before, Attempt.Send(text, result));
  }

  method ReceiveUnderAttack(library: Library, suite: Suite, stream: Bytes, capacity: nat, rcv: RecordState,
                            ghost d: Direction, ghost before: seq<Attempt>, ghost snd: Direction, ghost stopped: bool,
                            ghost sent: Bytes, accepted: seq<Bytes>, ghost calls: seq<Call>)
    returns (accepted': seq<Bytes>, ghost attempts: seq<Attempt>)
    requires rcv.Valid() && Mirrored(suite, d, before, snd, stopped, sent, rcv.Value(), accepted)
    requires Followed(suite, d, before) && Matched(calls, before, stopped)
    modifies library`faulted, rcv`sequenceNumber
    ensures rcv.Valid() && Mirrored(suite, d, attempts, snd, stopped, sent, rcv.Value(), accepted')
    ensures Followed(suite, d, attempts) && Matched(calls + [ReceiveFrom(stream, capacity)], attempts, stopped)
    ensures old(library.faulted) ==> library.faulted
  {
    hide After, RecordFrameOf, Opened, RecordPaced, Mirrored, Unforged, Forged, Matched;
    var ok, text;
    ghost var moved, libraryFailed, was := 0, false, rcv.Value();
    ok, text, moved, libraryFailed := ReceiveText(library, suite, stream, capacity, rcv);
    ghost var a := Deliver(stream, moved, capacity, libraryFailed);
    attempts := before + [a];
    accepted' := if ok then accepted + [text] else accepted;
    MatchedReceive(calls, stream, capacity, before, a, stopped);
    DeliverMirrored(suite, d, before, snd, stopped, sent, was, accepted, a, ok, text);
    NextSound(suite, d, before, a);
  }
}
