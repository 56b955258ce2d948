/** One direction of the record layer over a byte channel that delivers what it is given. */
module RecordChannel {
  import opened ByteStrings
  import opened Primitives
  import opened Record

  /** A sender handing over a text, moving octets of the record to the channel or finishing
      the call, or a receiver taking octets from the channel or acting on what it holds. */
  datatype Event = Submit(text: Bytes) | Emit(n: nat) | Finish | Take(n: nat) | Act

  /** `pending` is what the sender still has to hand to the channel while it is `busy` with a
      record, `got` what the receiver holds of the record it is receiving; `texts` and `wires`
      are the texts submitted so far and the records made for them. */
  datatype State = State(
    snd: Direction, busy: bool, pending: Bytes, texts: seq<Bytes>, wires: seq<Bytes>,
    chan: Bytes,
    rcv: Direction, got: Bytes, received: seq<Bytes>, rejected: bool)

  predicate Enabled(capacity: nat, s: State, e: Event) {
    match e
    case Submit(text) => !s.busy && 0 < |text| <= MAX_PLAINTEXT_LEN
    case Emit(n) => s.busy && 0 < n <= |s.pending|
    case Finish => s.busy && s.pending == []
    case Take(n) =>
      var frame := RecordFrameOf(capacity, s.got);
      !s.rejected && frame.Need? && 0 < n <= frame.more && n <= |s.chan|
    case Act => !s.rejected && !RecordFrameOf(capacity, s.got).Need?
  }

  function Apply(suite: Suite, capacity: nat, s: State, e: Event): State
    requires Enabled(capacity, s, e)
  {
    match e
    case Submit(text) =>
      var record := Sealed(suite, s.snd, text);
      s.(busy := true, pending := record, texts := s.texts + [text], wires := s.wires + [record])
    case Emit(n) => s.(pending := s.pending[n..], chan := s.chan + s.pending[..n])
    case Finish => s.(busy := false, snd := Next(s.snd))
    case Take(n) => s.(got := s.got + s.chan[..n], chan := s.chan[n..])
    case Act =>
      if RecordFrameOf(capacity, s.got).Whole? && Opened(suite, s.rcv, s.got).Some?
      then s.(rcv := Next(s.rcv), got := [], received := s.received + [Opened(suite, s.rcv, s.got).value])
      else s.(rejected := true)
  }

  /** The state after `events`, if each was enabled when it happened. */
  function Run(suite: Suite, capacity: nat, d: Direction, events: seq<Event>): Option<State> {
    if |events| == 0 then Some(State(d, false, [], [], [], [], d, [], [], false))
    else
      var before := Run(suite, capacity, d, events[..|events| - 1]);
      var e := events[|events| - 1];
      if before.Some? && Enabled(capacity, before.value, e)
      then Some(Apply(suite, capacity, before.value, e))
      else None
  }

  /** The direction `d` after `k` records. */
  function At(d: Direction, k: nat): Direction {
    d.(sequenceNumber := Wrap(d.sequenceNumber + k))
  }

  lemma AtNext(d: Direction, k: nat)
    ensures Next(At(d, k)) == At(d, k + 1)
  {
    SuccessorWraps(d.sequenceNumber + k);
  }

  predicate Fit(texts: seq<Bytes>, capacity: nat) {
    forall i | 0 <= i < |texts| :: 0 < |texts[i]| <= MAX_PLAINTEXT_LEN && |texts[i]| <= capacity
  }

  /** The octets between the two ends are exactly the records not yet accepted, of which the
      receiver holds no more than the first. */
  predicate Flowing(s: State) {
    var r := |s.received|;
    && r <= |s.wires|
    && s.got + s.chan + s.pending == Concat(s.wires[r..])
    && (r < |s.wires| ==> |s.got| <= |s.wires[r]|)
    && (!s.busy ==> s.pending == [])
  }

  /** The records carry the texts under consecutive numbers. */
  ghost predicate Carry(suite: Suite, d: Direction, wires: seq<Bytes>, texts: seq<Bytes>) {
    && |wires| == |texts|
    && forall i | 0 <= i < |texts| :: wires[i] == Sealed(suite, At(d, i), texts[i])
  }

  /** What was received is what was submitted first, in order, and each side is at the number
      of its next record. */
  predicate InStep(d: Direction, s: State) {
    Numbered(d, s.snd, s.busy, s.texts, s.rcv, s.received) && !s.rejected
  }

  predicate Numbered(d: Direction, snd: Direction, busy: bool, texts: seq<Bytes>, rcv: Direction, received: seq<Bytes>) {
    && received <= texts
    && rcv == At(d, |received|)
    && (busy ==> |texts| > 0)
    && snd == At(d, if busy then |texts| - 1 else |texts|)
  }

  /** The receiver holds a prefix of the record it is waiting for. */
  lemma GotIsPrefix(s: State)
    requires Flowing(s)
    ensures var r := |s.received|;
            if r == |s.wires| then s.got == [] && s.chan == [] else s.got == s.wires[r][..|s.got|]
  {
    var r := |s.received|;
    if r < |s.wires| {
      assert s.wires[r..][0] == s.wires[r] && s.wires[r..][1..] == s.wires[r + 1..];
      assert s.got == (s.got + s.chan + s.pending)[..|s.got|];
      assert (s.wires[r] + Concat(s.wires[r + 1..]))[..|s.got|] == s.wires[r][..|s.got|];
    } else {
      assert |s.got + s.chan + s.pending| == 0;
    }
  }

  lemma SubmitFlows(s: State, record: Bytes)
    requires Flowing(s) && !s.busy
    ensures Flowing(s.(busy := true, pending := record, wires := s.wires + [record]))
  {
    var r := |s.received|;
    ConcatSnoc(s.wires[r..], record);
    assert (s.wires + [record])[r..] == s.wires[r..] + [record];
    assert s.got + s.chan + s.pending == s.got + s.chan;
    GotIsPrefix(s);
  }

  lemma EmitFlows(s: State, n: nat)
    requires Flowing(s) && s.busy && n <= |s.pending|
    ensures Flowing(s.(pending := s.pending[n..], chan := s.chan + s.pending[..n]))
  {
    assert s.got + (s.chan + s.pending[..n]) + s.pending[n..] == s.got + s.chan + s.pending;
  }

  lemma TakeFlows(s: State, n: nat)
    requires Flowing(s) && n <= |s.chan|
    requires var r := |s.received|; r < |s.wires| ==> |s.got| + n <= |s.wires[r]|
    ensures Flowing(s.(got := s.got + s.chan[..n], chan := s.chan[n..]))
  {
    assert s.got + s.chan[..n] + s.chan[n..] + s.pending == s.got + s.chan + s.pending;
  }

  lemma AcceptFlows(s: State, text: Bytes)
    requires Flowing(s) && |s.received| < |s.wires| && s.got == s.wires[|s.received|]
    ensures Flowing(s.(got := [], received := s.received + [text]))
  {
    var r := |s.received|;
    assert s.wires[r..][0] == s.wires[r] && s.wires[r..][1..] == s.wires[r + 1..];
    ConcatAssociates(s.got, s.chan, s.pending);
    CancelHead(s.got, s.chan + s.pending, Concat(s.wires[r + 1..]));
    assert [] + s.chan + s.pending == s.chan + s.pending;
  }

  /** What the receiver makes of what it holds: it never rejects. */
  lemma GotFrame(suite: Suite, capacity: nat, d: Direction, s: State)
    requires Opens(suite) && Fit(s.texts, capacity)
    requires Flowing(s) && Carry(suite, d, s.wires, s.texts) && s.rcv == At(d, |s.received|)
    ensures var r, frame := |s.received|, RecordFrameOf(capacity, s.got);
            && !frame.Bad?
            && (frame.Need? && r < |s.wires| ==> frame.more <= |s.wires[r]| - |s.got|)
            && (frame.Whole? ==> r < |s.wires| && s.got == s.wires[r]
                                 && Opened(suite, s.rcv, s.got) == Some(s.texts[r]))
  {
    var r := |s.received|;
    GotIsPrefix(s);
    if r < |s.wires| {
      var record := s.wires[r];
      FrameOfSealed(suite, At(d, r), s.texts[r], capacity, |s.got|);
      assert record[..|record|] == record;
      OpenedSealed(suite, At(d, r), s.texts[r]);
    }
  }

  lemma FinishNumbered(d: Direction, snd: Direction, texts: seq<Bytes>, rcv: Direction, received: seq<Bytes>)
    requires Numbered(d, snd, true, texts, rcv, received)
    ensures Numbered(d, Next(snd), false, texts, rcv, received)
  {
    AtNext(d, |texts| - 1);
  }

  lemma AcceptNumbered(d: Direction, snd: Direction, busy: bool, texts: seq<Bytes>, rcv: Direction, received: seq<Bytes>)
    requires Numbered(d, snd, busy, texts, rcv, received) && |received| < |texts|
    ensures Numbered(d, snd, busy, texts, Next(rcv), received + [texts[|received|]])
  {
    AtNext(d, |received|);
  }

  lemma StepFlows(suite: Suite, capacity: nat, d: Direction, s: State, e: Event)
    requires Opens(suite) && Fit(s.texts, capacity)
    requires Flowing(s) && Carry(suite, d, s.wires, s.texts) && s.rcv == At(d, |s.received|)
    requires Enabled(capacity, s, e)
    ensures Flowing(Apply(suite, capacity, s, e))
  {
    match e
    case Submit(text) => SubmitFlows(s, Sealed(suite, s.snd, text));
    case Emit(n) => EmitFlows(s, n);
    case Finish =>
    case Take(n) =>
      GotFrame(suite, capacity, d, s);
      GotIsPrefix(s);
      TakeFlows(s, n);
    case Act =>
      GotFrame(suite, capacity, d, s);
      ActAccepts(suite, capacity, d, s);
      AcceptFlows(s, s.texts[|s.received|]);
  }

  lemma ActAccepts(suite: Suite, capacity: nat, d: Direction, s: State)
    requires Opens(suite) && Fit(s.texts, capacity)
    requires Flowing(s) && Carry(suite, d, s.wires, s.texts) && s.rcv == At(d, |s.received|)
    requires Enabled(capacity, s, Act)
    ensures |s.received| < |s.texts|
    ensures Apply(suite, capacity, s, Act)
            == s.(rcv := Next(s.rcv), got := [], received := s.received + [s.texts[|s.received|]])
  {
    GotFrame(suite, capacity, d, s);
  }

  lemma StepInStep(suite: Suite, capacity: nat, d: Direction, s: State, e: Event)
    requires Opens(suite) && Fit(s.texts, capacity)
    requires Flowing(s) && Carry(suite, d, s.wires, s.texts) && InStep(d, s)
    requires Enabled(capacity, s, e)
    ensures InStep(d, Apply(suite, capacity, s, e))
  {
    match e
    case Submit(text) => assert s.texts <= s.texts + [text];
    case Finish => FinishNumbered(d, s.snd, s.texts, s.rcv, s.received);
    case Act =>
      ActAccepts(suite, capacity, d, s);
      AcceptNumbered(d, s.snd, s.busy, s.texts, s.rcv, s.received);
    case _ =>
  }

  lemma CarrySnoc(suite: Suite, d: Direction, wires: seq<Bytes>, texts: seq<Bytes>, text: Bytes)
    requires Carry(suite, d, wires, texts)
    ensures Carry(suite, d, wires + [Sealed(suite, At(d, |texts|), text)], texts + [text])
  {
    var wires', texts' := wires + [Sealed(suite, At(d, |texts|), text)], texts + [text];
    forall i | 0 <= i < |texts'|
      ensures wires'[i] == Sealed(suite, At(d, i), texts'[i])
    {
      if i < |texts| {
        assert wires'[i] == wires[i] && texts'[i] == texts[i];
      }
    }
  }

  lemma StepCarries(suite: Suite, capacity: nat, d: Direction, s: State, e: Event)
    requires Carry(suite, d, s.wires, s.texts) && InStep(d, s) && Enabled(capacity, s, e)
    ensures var s' := Apply(suite, capacity, s, e); Carry(suite, d, s'.wires, s'.texts)
  {
    if e.Submit? {
      CarrySnoc(suite, d, s.wires, s.texts, e.text);
    }
  }

  lemma FitEarlier(suite: Suite, capacity: nat, s: State, e: Event)
    requires Enabled(capacity, s, e) && Fit(Apply(suite, capacity, s, e).texts, capacity)
    ensures Fit(s.texts, capacity)
  {
    var s' := Apply(suite, capacity, s, e);
    assert s.texts == s'.texts[..|s.texts|];
  }

  /** For every list of texts that fit and every interleaving and division into chunks: what
      arrives is what was sent, in order and once each; what is under way is exactly the
      records of the rest, under consecutive numbers; and nothing is rejected. */
  lemma {:induction false} HonestChannel(suite: Suite, capacity: nat, d: Direction, events: seq<Event>)
    requires Opens(suite)
    requires Run(suite, capacity, d, events).Some?
    requires Fit(Run(suite, capacity, d, events).value.texts, capacity)
    ensures Flowing(Run(suite, capacity, d, events).value)
    ensures var s := Run(suite, capacity, d, events).value;
            InStep(d, s) && Carry(suite, d, s.wires, s.texts)
  {
    if |events| > 0 {
      var front, e := events[..|events| - 1], events[|events| - 1];
      var s := Run(suite, capacity, d, front).value;
      FitEarlier(suite, capacity, s, e);
      HonestChannel(suite, capacity, d, front);
      StepFlows(suite, capacity, d, s, e);
      StepInStep(suite, capacity, d, s, e);
      StepCarries(suite, capacity, d, s, e);
    } else {
      assert At(d, 0) == d;
    }
  }
}
