/** One direction of the record layer when the octets that reach the receiver are chosen by an
    adversary that cannot make a record the sender did not seal. */
module RecordAdversary {
  import opened ByteStrings
  import opened Primitives
  import opened Record
  import opened RecordChannel

  /** A call to send `text` that ended in `result`, or a call to receive, with room for
      `capacity` octets, that took the first `moved` octets of a stream of the adversary's
      making. Dropping, replaying, reordering and cutting records short are such streams. */
  datatype Attempt = Send(text: Bytes, result: SendResult)
                   | Deliver(stream: Bytes, moved: nat, capacity: nat, libraryFailed: bool)

  datatype Sealing = Sealing(d: Direction, text: Bytes)

  /** `log` is everything the sender has encrypted, with the state it was encrypted in. */
  datatype World = World(snd: Direction, stopped: bool, log: seq<Sealing>, rcv: Direction, accepted: seq<Bytes>)

  /** If the library opens `got` under the receiver's key and nonce, it is a record that was sealed
      under that nonce. */
  predicate Unforged(suite: Suite, w: World, got: Bytes)
    requires |got| >= RECORD_HEADER_LEN
  {
    suite.open(w.rcv.key, NonceFor(w.rcv.iv, w.rcv.sequenceNumber), got[..5], got[5..]).Some? ==>
      exists i :: 0 <= i < |w.log|
                  && NonceOf(w.log[i].d) == NonceOf(w.rcv)
                  && got == Sealed(suite, w.log[i].d, w.log[i].text)
  }

  /** The sender stops at its first failure; the receiver may go on. */
  predicate Possible(suite: Suite, w: World, a: Attempt) {
    match a
    case Send(text, result) => !w.stopped && (result.Refused? || 0 < |text| <= MAX_PLAINTEXT_LEN)
    case Deliver(stream, moved, capacity, _) =>
      && moved <= |stream| && RecordPaced(capacity, stream[..moved])
      && (RecordFrameOf(capacity, stream[..moved]).Whole? ==> Unforged(suite, w, stream[..moved]))
  }

  function Outcome(suite: Suite, w: World, a: Attempt): World
    requires Possible(suite, w, a)
  {
    match a
    case Send(text, result) =>
      w.(snd := if result.Sent? then Next(w.snd) else w.snd,
         stopped := !result.Sent?,
         log := if result.Refused? then w.log else w.log + [Sealing(w.snd, text)])
    case Deliver(stream, moved, capacity, libraryFailed) =>
      var got := stream[..moved];
      if RecordFrameOf(capacity, got).Whole? && !libraryFailed && Opened(suite, w.rcv, got).Some?
      then w.(rcv := Next(w.rcv), accepted := w.accepted + [Opened(suite, w.rcv, got).value])
      else w
  }

  function After(suite: Suite, d: Direction, attempts: seq<Attempt>): Option<World> {
    if |attempts| == 0 then Some(World(d, false, [], d, []))
    else
      var before := After(suite, d, attempts[..|attempts| - 1]);
      var a := attempts[|attempts| - 1];
      if before.Some? && Possible(suite, before.value, a) then Some(Outcome(suite, before.value, a)) else None
  }

  predicate Safe(d: Direction, w: World) {
    && (forall i | 0 <= i < |w.log| :: w.log[i].d == At(d, i))
    && (!w.stopped ==> w.snd == At(d, |w.log|))
    && w.rcv == At(d, |w.accepted|)
    && |w.accepted| <= |w.log|
    && (forall i | 0 <= i < |w.accepted| :: w.accepted[i] == w.log[i].text)
  }

  lemma SameNumber(d: Direction, i: nat, r: nat)
    requires i < TWO64 && r < TWO64
    requires At(d, i).sequenceNumber == At(d, r).sequenceNumber
    ensures i == r
  {
    WrapInjective(d.sequenceNumber, i, r);
  }

  lemma WrapInjective(base: nat, i: nat, r: nat)
    requires i < TWO64 && r < TWO64 && Wrap(base + i) == Wrap(base + r)
    ensures i == r
  {
    var w := 0x1_0000_0000_0000_0000;
    assert (base + i) / w * w + Wrap(base + i) == base + i;
    assert (base + r) / w * w + Wrap(base + r) == base + r;
  }

  /** A record the receiver opens is the next one that was sealed. */
  lemma OpenedIsNext(suite: Suite, d: Direction, w: World, got: Bytes)
    requires Opens(suite) && Safe(d, w) && |w.log| < TWO64
    requires |got| >= RECORD_HEADER_LEN && Unforged(suite, w, got) && Opened(suite, w.rcv, got).Some?
    ensures |w.accepted| < |w.log|
    ensures Opened(suite, w.rcv, got).value == w.log[|w.accepted|].text
  {
    var i :| 0 <= i < |w.log| && NonceOf(w.log[i].d) == NonceOf(w.rcv)
             && got == Sealed(suite, w.log[i].d, w.log[i].text);
    SameNonceSameNumber(w.log[i].d, w.rcv);
    SameNumber(d, i, |w.accepted|);
    OpenedSealed(suite, w.log[i].d, w.log[i].text);
  }

  lemma SendSafe(d: Direction, w: World, text: Bytes, result: SendResult)
    requires Safe(d, w) && !w.stopped
    ensures Safe(d, w.(snd := if result.Sent? then Next(w.snd) else w.snd, stopped := !result.Sent?,
                       log := if result.Refused? then w.log else w.log + [Sealing(w.snd, text)]))
  {
    AtNext(d, |w.log|);
  }

  lemma AcceptSafe(d: Direction, w: World)
    requires Safe(d, w) && |w.accepted| < |w.log|
    ensures Safe(d, w.(rcv := Next(w.rcv), accepted := w.accepted + [w.log[|w.accepted|].text]))
  {
    AtNext(d, |w.accepted|);
  }

  lemma StepSafe(suite: Suite, d: Direction, w: World, a: Attempt)
    requires Opens(suite) && Safe(d, w) && |w.log| < TWO64
    requires Possible(suite, w, a)
    ensures Safe(d, Outcome(suite, w, a))
  {
    match a
    case Send(text, result) => SendSafe(d, w, text, result);
    case Deliver(stream, moved, capacity, libraryFailed) =>
      var got := stream[..moved];
      if RecordFrameOf(capacity, got).Whole? && !libraryFailed && Opened(suite, w.rcv, got).Some? {
        OpenedIsNext(suite, d, w, got);
        AcceptSafe(d, w);
      }
  }

  /** Whatever the adversary delivers, what is accepted is a prefix of what was sealed: nothing
      is accepted out of order, twice, or after a gap. */
  lemma {:induction false} AcceptedIsPrefix(suite: Suite, d: Direction, attempts: seq<Attempt>)
    requires Opens(suite)
    requires After(suite, d, attempts).Some? && |After(suite, d, attempts).value.log| < TWO64
    ensures Safe(d, After(suite, d, attempts).value)
  {
    if |attempts| > 0 {
      var front := attempts[..|attempts| - 1];
      AcceptedIsPrefix(suite, d, front);
      StepSafe(suite, d, After(suite, d, front).value, attempts[|attempts| - 1]);
    } else {
      assert At(d, 0) == d;
    }
  }
}
