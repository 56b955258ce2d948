/** Handshake message framing (`tls_handshake.c`): one octet of type, three of length, body. */
module Handshake {
  import opened ByteStrings
  import opened Framing
  import opened Transport

  const HEADER_LEN: nat := 4
  /** The size of the length field in octets. */
  const LENGTH_LEN: nat := 3
  const MAX_BODY_LEN: nat := 0xFFFFFF

  const CLIENT_HELLO: Byte := 1
  const SERVER_HELLO: Byte := 2
  const CERTIFICATE: Byte := 11
  const CERTIFICATE_VERIFY: Byte := 15
  const FINISHED: Byte := 20

  /** A message whose body length fits the 24-bit length field. */
  datatype RawMessage = Message(kind: Byte, body: Bytes)
  type Message = m: RawMessage | |m.body| <= MAX_BODY_LEN witness Message(0, [])

  function Encode(m: Message): (wire: Bytes)
    ensures |wire| == HEADER_LEN + |m.body|
  {
    [m.kind] + BigEndian(|m.body|, LENGTH_LEN) + m.body
  }

  /** The encodings of `ms`, one after the other. */
  function EncodeAll(ms: seq<Message>): Bytes {
    if |ms| == 0 then [] else EncodeAll(ms[..|ms| - 1]) + Encode(ms[|ms| - 1])
  }

  function BodyLength(got: Bytes): nat
    requires |got| >= HEADER_LEN
  {
    FromBigEndian(got[1..4])
  }

  function FrameOf(kind: Byte, capacity: nat, got: Bytes): (f: Frame)
    ensures f.Need? ==> f.more > 0
  {
    if |got| < HEADER_LEN then Need(HEADER_LEN - |got|)
    else if got[0] != kind || BodyLength(got) > capacity then Bad
    else if |got| < HEADER_LEN + BodyLength(got) then Need(HEADER_LEN + BodyLength(got) - |got|)
    else Whole(got[HEADER_LEN..HEADER_LEN + BodyLength(got)])
  }

  /** The octets `got` are ones a receiver can be holding: it never takes octets beyond the
      header before the header has been checked, nor any beyond the announced body. */
  predicate Paced(kind: Byte, capacity: nat, got: Bytes) {
    |got| <= HEADER_LEN
    || (FrameOf(kind, capacity, got[..HEADER_LEN]) == Need(BodyLength(got))
        && |got| <= HEADER_LEN + BodyLength(got))
  }

  /** The part of `got` that a receiver puts in its body buffer. */
  function Payload(got: Bytes): Bytes {
    if |got| < HEADER_LEN then [] else got[HEADER_LEN..]
  }

  method SendHandshakeMsg(socket: Socket, kind: Byte, body: Bytes) returns (rc: int, ghost moved: nat)
    modifies socket`outbound, socket`faulted
    ensures |body| > MAX_BODY_LEN ==> rc == -1 && moved == 0
    ensures |body| > MAX_BODY_LEN ==> unchanged(socket)
    ensures |body| <= MAX_BODY_LEN ==>
              var wire := Encode(Message(kind, body));
              && moved <= |wire| && socket.outbound == old(socket.outbound) + wire[..moved]
              && (rc == 0 <==> moved == |wire|)
              && (rc == 0 || rc == -1)
              && socket.faulted == (old(socket.faulted) || rc == -1)
  {
    if |body| > MAX_BODY_LEN {
      return -1, 0;
    }
    var header := HeaderOctets(kind, |body|);
    rc, moved := SendTwo(socket, header, body);
  }

  method HeaderOctets(kind: Byte, length: nat) returns (header: Bytes)
    ensures header == [kind] + BigEndian(length, LENGTH_LEN)
  {
    BigEndian3(length);
    header := [kind, length / 0x1_0000 % 0x100, length / 0x100 % 0x100, length % 0x100];
  }

  /** The body length of a header, put together with shifts and or. */
  method AnnouncedLength(header: array<Byte>) returns (len: nat)
    requires header.Length == HEADER_LEN
    ensures len == BodyLength(header[..])
    ensures len == (header[1] as int) * 0x1_0000 + (header[2] as int) * 0x100 + header[3]
  {
    OctetsOr3(header[1], header[2], header[3]);
    FromBigEndian3(header[..][1..4]);
    len := Or(Or((header[1] as int) * 0x1_0000, (header[2] as int) * 0x100), header[3]);
  }

  method RecvHandshakeMsg(socket: Socket, expectedKind: Byte, body: array<Byte>, bodyCapacity: nat, bodyLen: Size)
    returns (rc: int, ghost moved: nat)
    requires bodyCapacity <= body.Length
    modifies socket`inbound, socket`faulted, body, bodyLen
    ensures moved <= |old(socket.inbound)| && socket.inbound == old(socket.inbound)[moved..]
    ensures var got := old(socket.inbound)[..moved];
            var frame := FrameOf(expectedKind, bodyCapacity, got);
            && Paced(expectedKind, bodyCapacity, got)
            && Ended(frame, got, old(socket.inbound), rc)
            && socket.faulted == (old(socket.faulted) || (rc == -1 && frame.Need?))
            && |Payload(got)| <= body.Length
            && body[..] == Payload(got) + old(body[..])[|Payload(got)|..]
            && bodyLen.value == if frame.Whole? then |frame.body| else old(bodyLen.value)
    ensures moved >= 4 ==>
              var got := old(socket.inbound)[..moved];
              var announced := (got[1] as int) * 0x1_0000 + (got[2] as int) * 0x100 + got[3];
              if got[0] != expectedKind || announced > bodyCapacity
              then moved == 4 && rc == -1 && socket.faulted == old(socket.faulted)
              else moved <= 4 + announced && (rc == 0 <==> moved == 4 + announced)
  {
    var header := new Byte[HEADER_LEN](_ => 0);
    ghost var stream := socket.inbound;
    rc, moved := RecvAll(socket, header, HEADER_LEN);
    if rc != 0 {
      return rc, moved;
    }
    assert header[..] == stream[..4];
    assert header[0] == stream[0] && header[1] == stream[1] && header[2] == stream[2] && header[3] == stream[3];
    var len := AnnouncedLength(header);
    if header[0] != expectedKind {
      return -1, moved;
    }
    if len > bodyCapacity {
      return -1, moved;
    }
    ghost var received;
    rc, received := RecvAll(socket, body, len);
    moved := HEADER_LEN + received;
    GotSplits(stream, received);
    if rc != 0 {
      return rc, moved;
    }
    bodyLen.value := len;
    return 0, moved;
  }

  lemma GotSplits(stream: Bytes, received: nat)
    requires HEADER_LEN + received <= |stream|
    ensures stream[..HEADER_LEN + received][..HEADER_LEN] == stream[..HEADER_LEN]
    ensures stream[..HEADER_LEN + received][1..4] == stream[..HEADER_LEN][1..4]
    ensures Payload(stream[..HEADER_LEN + received]) == stream[HEADER_LEN..][..received]
    ensures stream[HEADER_LEN..][received..] == stream[HEADER_LEN + received..]
  {
  }

  /** `encode_handshake_msg`: writes the message into the front of `out`. */
  method EncodeHandshakeMsg(kind: Byte, body: Bytes, out: array<Byte>, outLen: Size) returns (rc: int)
    modifies out, outLen
    ensures rc == if |body| <= MAX_BODY_LEN && HEADER_LEN + |body| <= out.Length then 0 else -1
    ensures rc == 0 ==>
              var wire := Encode(Message(kind, body));
              && outLen.value == |wire|
              && out[..] == wire + old(out[..])[|wire|..]
    ensures rc != 0 ==> out[..] == old(out[..]) && outLen.value == old(outLen.value)
  {
    if |body| > MAX_BODY_LEN || out.Length < HEADER_LEN + |body| {
      return -1;
    }
    out[0] := kind;
    out[1] := |body| / 0x1_0000 % 0x100;
    out[2] := |body| / 0x100 % 0x100;
    out[3] := |body| % 0x100;
    BigEndian3(|body|);
    forall i | 0 <= i < |body| {
      out[HEADER_LEN + i] := body[i];
    }
    outLen.value := HEADER_LEN + |body|;
    assert out[..4] == [kind] + BigEndian(|body|, LENGTH_LEN);
    assert out[4..4 + |body|] == body;
    return 0;
  }

  // ---- The code is uniquely decodable -----------------------------------------------------

  lemma LengthOfEncoding(m: Message, rest: Bytes)
    ensures (Encode(m) + rest)[0] == m.kind
    ensures BodyLength(Encode(m) + rest) == |m.body|
  {
    assert (Encode(m) + rest)[1..4] == BigEndian(|m.body|, LENGTH_LEN);
    Pow256Values();
    BigEndianDecodes(|m.body|, LENGTH_LEN);
  }

  /** Holding the first `k` octets of the encoding of a message it expects and has room for,
      a receiver wants more exactly while `k` is short of the whole encoding, never more than
      the encoding still has, and ends up with the body. */
  lemma FrameOfEncoding(m: Message, capacity: nat, k: nat)
    requires |m.body| <= capacity && k <= |Encode(m)|
    ensures Paced(m.kind, capacity, Encode(m)[..k])
    ensures var frame := FrameOf(m.kind, capacity, Encode(m)[..k]);
            if k == |Encode(m)| then frame == Whole(m.body)
            else frame.Need? && frame.more <= |Encode(m)| - k
  {
    var got := Encode(m)[..k];
    if k >= HEADER_LEN {
      assert Encode(m) == got + Encode(m)[k..];
      assert got[1..4] == Encode(m)[1..4];
      assert Encode(m) + [] == Encode(m);
      LengthOfEncoding(m, []);
      assert got[..HEADER_LEN][1..4] == got[1..4];
    }
  }

  /** A receiver asks for the rest of the header, then gives up on a bad one or asks for the rest
      of the body. */
  lemma FrameAsks(kind: Byte, capacity: nat, got: Bytes)
    ensures |got| < 4 ==> FrameOf(kind, capacity, got) == Need(4 - |got|)
    ensures |got| >= 4 ==>
              var announced := (got[1] as int) * 0x1_0000 + (got[2] as int) * 0x100 + got[3];
              && (got[0] != kind || announced > capacity ==> FrameOf(kind, capacity, got) == Bad)
              && (got[0] == kind && announced <= capacity && |got| < 4 + announced ==>
                    FrameOf(kind, capacity, got) == Need(4 + announced - |got|))
              && (got[0] == kind && announced <= capacity && |got| >= 4 + announced ==>
                    FrameOf(kind, capacity, got) == Whole(got[4..4 + announced]))
  {
    if |got| >= 4 {
      FromBigEndian3(got[1..4]);
    }
  }

  /** Conversely, the octets of a whole message are the encoding of its body under the type
      that was expected. */
  lemma WholeIsEncoding(kind: Byte, capacity: nat, got: Bytes)
    requires Paced(kind, capacity, got) && FrameOf(kind, capacity, got).Whole?
    ensures var body := FrameOf(kind, capacity, got).body;
            && |body| <= capacity && |body| <= MAX_BODY_LEN
            && got == Encode(Message(kind, body))
  {
    var body := FrameOf(kind, capacity, got).body;
    FromBigEndianBound(got[1..4]);
    Pow256Values();
    FromBigEndianEncodes(got[1..4]);
    assert got == [got[0]] + got[1..4] + got[4..];
  }

  /** A call on a stream that starts with the encoding of a message returns 0, the body, and
      leaves what follows it, however the stream was cut up, unless the kernel failed. */
  lemma ReceiveRoundTrip(m: Message, rest: Bytes, capacity: nat, moved: nat, rc: int)
    requires |m.body| <= capacity && moved <= |Encode(m) + rest|
    requires Paced(m.kind, capacity, (Encode(m) + rest)[..moved])
    requires var frame := FrameOf(m.kind, capacity, (Encode(m) + rest)[..moved]);
             && Ended(frame, (Encode(m) + rest)[..moved], Encode(m) + rest, rc)
             && !(rc == -1 && frame.Need?)
    ensures rc == 0
    ensures FrameOf(m.kind, capacity, (Encode(m) + rest)[..moved]) == Whole(m.body)
    ensures (Encode(m) + rest)[moved..] == rest
  {
    var stream := Encode(m) + rest;
    if moved >= HEADER_LEN {
      LengthOfEncoding(m, rest);
      assert stream[..moved][1..4] == stream[1..4];
    }
    assert moved <= |Encode(m)|;
    assert stream[..moved] == Encode(m)[..moved];
    FrameOfEncoding(m, capacity, moved);
  }

  /** No encoding is a proper prefix of another: two streams that start with messages start
      with the same message. */
  lemma EncodingPrefixFree(m: Message, x: Bytes, n: Message, y: Bytes)
    requires Encode(m) + x == Encode(n) + y
    ensures m == n && x == y
  {
    LengthOfEncoding(m, x);
    LengthOfEncoding(n, y);
    assert m.body == (Encode(m) + x)[4..|Encode(m)|];
    assert n.body == (Encode(n) + y)[4..|Encode(n)|];
    assert x == (Encode(m) + x)[|Encode(m)|..];
    assert y == (Encode(n) + y)[|Encode(n)|..];
  }

  lemma {:induction false} EncodeAllAppend(ms: seq<Message>, ns: seq<Message>)
    ensures EncodeAll(ms + ns) == EncodeAll(ms) + EncodeAll(ns)
    decreases |ns|
  {
    hide Encode;
    if |ns| == 0 {
      assert ms + ns == ms;
    } else {
      var front, last := ns[..|ns| - 1], ns[|ns| - 1];
      EncodeAllAppend(ms, front);
      EncodeAllSnoc(ms + front, last);
      assert ms + ns == ms + front + [last];
      ConcatAssociates(EncodeAll(ms), EncodeAll(front), Encode(last));
    }
  }

  lemma EncodeAllSnoc(ms: seq<Message>, m: Message)
    ensures EncodeAll(ms + [m]) == EncodeAll(ms) + Encode(m)
  {
    assert (ms + [m])[..|ms|] == ms;
  }

  lemma {:induction false} EncodeAllLength(ms: seq<Message>)
    ensures |EncodeAll(ms)| >= HEADER_LEN * |ms|
  {
    if |ms| > 0 {
      EncodeAllLength(ms[..|ms| - 1]);
    }
  }

  /** Equal transcripts are transcripts of equal lists of messages. */
  lemma {:induction false} EncodeAllInjective(ms: seq<Message>, ns: seq<Message>)
    requires EncodeAll(ms) == EncodeAll(ns)
    ensures ms == ns
    decreases |ms|
  {
    EncodeAllLength(ms);
    EncodeAllLength(ns);
    if |ms| > 0 && |ns| > 0 {
      EncodeAllHead(ms);
      EncodeAllHead(ns);
      EncodingPrefixFree(ms[0], EncodeAll(ms[1..]), ns[0], EncodeAll(ns[1..]));
      EncodeAllInjective(ms[1..], ns[1..]);
    }
  }

  lemma EncodeAllHead(ms: seq<Message>)
    requires |ms| > 0
    ensures EncodeAll(ms) == Encode(ms[0]) + EncodeAll(ms[1..])
  {
    assert ms == [ms[0]] + ms[1..];
    EncodeAllAppend([ms[0]], ms[1..]);
    EncodeAllSnoc([], ms[0]);
    assert [] + [ms[0]] == [ms[0]];
    assert [] + Encode(ms[0]) == Encode(ms[0]);
  }
}
