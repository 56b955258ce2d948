/** The encrypted record layer (`tls_record.c`): a five octet header, which is also the
    additional authenticated data, then the ciphertext and its tag. */
module Record {
  import opened ByteStrings
  import opened Transport
  import opened Framing
  import opened Primitives
  import opened KeySchedule

  const RECORD_HEADER_LEN: nat := 5
  /** The size of the version and length fields in octets. */
  const FIELD_LEN: nat := 2
  const RECORD_VERSION: nat := 0x0303
  /** The size of a sequence number in octets. */
  const SEQUENCE_LEN: nat := 8
  const APPLICATION_DATA: Byte := 23
  const MAX_PLAINTEXT_LEN: nat := 1024

  // ---- Headers and nonces -----------------------------------------------------------------

  /** The header of an application data record whose encrypted part has `length` octets. */
  function RecordHeader(length: nat): (h: Bytes)
    ensures |h| == RECORD_HEADER_LEN
  {
    [APPLICATION_DATA] + BigEndian(RECORD_VERSION, FIELD_LEN) + BigEndian(length, FIELD_LEN)
  }

  method EncodeRecordHeader(header: array<Byte>, contentType: Byte, length: nat)
    requires header.Length == RECORD_HEADER_LEN && length < 0x1_0000
    modifies header
    ensures header[..] == [contentType] + BigEndian(RECORD_VERSION, FIELD_LEN) + BigEndian(length, FIELD_LEN)
  {
    BigEndian2(RECORD_VERSION);
    BigEndian2(length);
    header[0] := contentType;
    header[1] := RECORD_VERSION / 0x100 % 0x100;
    header[2] := RECORD_VERSION % 0x100;
    header[3] := length / 0x100 % 0x100;
    header[4] := length % 0x100;
  }

  /** The keys of one direction and the number of its next record. */
  datatype RawDirection = Direction(key: Bytes, iv: Bytes, sequenceNumber: UInt64)
  type Direction = d: RawDirection | |d.key| == KEY_LEN && |d.iv| == IV_LEN
    witness Direction(Zeros(KEY_LEN), Zeros(IV_LEN), 0)

  /** The first state of the client-to-server or of the server-to-client direction. */
  function InitialDirection(suite: Suite, secret: Bytes, transcriptHash: Bytes, fromClient: bool): Direction {
    if fromClient then
      Direction(Derived(suite, secret, transcriptHash, CLIENT_KEY_LABEL, KEY_LEN),
                Derived(suite, secret, transcriptHash, CLIENT_IV_LABEL, IV_LEN), 0)
    else
      Direction(Derived(suite, secret, transcriptHash, SERVER_KEY_LABEL, KEY_LEN),
                Derived(suite, secret, transcriptHash, SERVER_IV_LABEL, IV_LEN), 0)
  }

  function Next(d: Direction): Direction {
    d.(sequenceNumber := Successor(d.sequenceNumber))
  }

  /** The per-record nonce of section 5.3 of RFC 8446: the sequence number as 64 bits in
      network order, padded to the left with zeros, exclusive-or the static IV. */
  function NonceFor(iv: Bytes, sequenceNumber: UInt64): (nonce: Bytes)
    requires |iv| == IV_LEN
    ensures |nonce| == IV_LEN
  {
    XorBytes(iv, Zeros(4) + BigEndian(sequenceNumber, SEQUENCE_LEN))
  }

  function NonceOf(d: Direction): Bytes {
    NonceFor(d.iv, d.sequenceNumber)
  }

  /** `make_record_nonce`: copies the IV, then changes its last eight octets in place, the
      least significant octet of the sequence number going to the last. */
  method MakeRecordNonce(staticIv: Bytes, sequenceNumber: UInt64, nonce: array<Byte>)
    requires |staticIv| == IV_LEN == nonce.Length
    modifies nonce
    ensures nonce[..] == NonceFor(staticIv, sequenceNumber)
  {
    Copy(staticIv, nonce);
    for i := 0 to SEQUENCE_LEN
      invariant nonce[..] == PartialNonce(staticIv, sequenceNumber, i)
    {
      PartialNonceGrows(staticIv, sequenceNumber, i);
      var at := IV_LEN - 1 - i;
      ghost var before := nonce[..];
      nonce[at] := Xor(nonce[at], ShiftRight8(sequenceNumber, i) % 0x100);
      assert nonce[..] == before[at := Folded(staticIv, sequenceNumber, at)];
    }
    PartialNonceComplete(staticIv, sequenceNumber);
  }

  /** `memcpy`. */
  method Copy(source: Bytes, target: array<Byte>)
    requires |source| == target.Length
    modifies target
    ensures target[..] == source
  {
    forall i | 0 <= i < |source| {
      target[i] := source[i];
    }
  }

  /** Octet `j` of the IV with the octet of `n` that belongs to it folded in. */
  function Folded(iv: Bytes, n: UInt64, j: nat): Byte
    requires |iv| == IV_LEN && j < IV_LEN
  {
    Xor(iv[j], ShiftRight8(n, IV_LEN - 1 - j) % 0x100)
  }

  /** The nonce buffer when the `k` least significant octets of `n` have been folded in. */
  ghost function PartialNonce(iv: Bytes, n: UInt64, k: nat): (nonce: Bytes)
    requires |iv| == IV_LEN && k <= SEQUENCE_LEN
    ensures |nonce| == IV_LEN
    ensures k == 0 ==> nonce == iv
  {
    seq(IV_LEN, j requires 0 <= j < IV_LEN && |iv| == IV_LEN =>
      if j < IV_LEN - k then iv[j] else Folded(iv, n, j))
  }

  lemma PartialNonceGrows(iv: Bytes, n: UInt64, k: nat)
    requires |iv| == IV_LEN && k < SEQUENCE_LEN
    ensures var at := IV_LEN - 1 - k;
            && PartialNonce(iv, n, k)[at] == iv[at]
            && PartialNonce(iv, n, k + 1) == PartialNonce(iv, n, k)[at := Folded(iv, n, at)]
  {
  }

  lemma PartialNonceComplete(iv: Bytes, n: UInt64)
    requires |iv| == IV_LEN
    ensures PartialNonce(iv, n, SEQUENCE_LEN) == NonceFor(iv, n)
  {
    forall j | 0 <= j < IV_LEN
      ensures PartialNonce(iv, n, SEQUENCE_LEN)[j] == NonceFor(iv, n)[j]
    {
      NonceAt(iv, n, j);
      assert j < IV_LEN - SEQUENCE_LEN ==> PartialNonce(iv, n, SEQUENCE_LEN)[j] == iv[j];
    }
  }

  lemma NonceAt(iv: Bytes, n: UInt64, j: nat)
    requires |iv| == IV_LEN && j < IV_LEN
    ensures NonceFor(iv, n)[j] ==
            if j < IV_LEN - SEQUENCE_LEN then iv[j] else Folded(iv, n, j)
  {
    var padded := Zeros(4) + BigEndian(n, SEQUENCE_LEN);
    XorBytesAt(iv, padded, j);
    if j < 4 {
      XorZero(iv[j]);
    } else {
      BigEndianAt(n, SEQUENCE_LEN, IV_LEN - 1 - j);
      assert padded[j] == BigEndian(n, SEQUENCE_LEN)[j - 4];
    }
  }

  /** The first four octets of a nonce are those of the IV; a bit of the others is set exactly
      if the bit of the IV differs from the bit of the number in network order. */
  lemma NonceBits(iv: Bytes, n: UInt64, j: nat, k: nat)
    requires |iv| == 12 && j < 12 && k < 8
    ensures j < 4 ==> NonceFor(iv, n)[j] == iv[j]
    ensures j >= 4 ==>
              (Bit(NonceFor(iv, n)[j], k) == 1 <==> Bit(iv[j], k) != Bit(BigEndian(n, 8)[j - 4], k))
  {
    NonceAt(iv, n, j);
    if j >= 4 {
      BigEndianAt(n, SEQUENCE_LEN, IV_LEN - 1 - j);
      XorAt(iv[j], BigEndian(n, 8)[j - 4], k);
    }
  }

  /** The IV taken out of a nonce again leaves the number in network order, padded. */
  lemma NonceReveals(iv: Bytes, n: UInt64)
    requires |iv| == 12
    ensures XorBytes(NonceFor(iv, n), iv) == [0, 0, 0, 0] + BigEndian(n, 8)
  {
    var padded := Zeros(4) + BigEndian(n, SEQUENCE_LEN);
    assert Zeros(4) == [0, 0, 0, 0];
    XorBytesCommutes(iv, padded);
    XorBytesTwice(padded, iv);
  }

  /** Under one IV, two sequence numbers give one nonce only if they are the same number. */
  lemma NonceInjective(iv: Bytes, m: UInt64, n: UInt64)
    requires |iv| == IV_LEN && NonceFor(iv, m) == NonceFor(iv, n)
    ensures m == n
  {
    XorBytesCancels(iv, Zeros(4) + BigEndian(m, SEQUENCE_LEN), Zeros(4) + BigEndian(n, SEQUENCE_LEN));
    assert (Zeros(4) + BigEndian(m, SEQUENCE_LEN))[4..] == BigEndian(m, SEQUENCE_LEN);
    assert (Zeros(4) + BigEndian(n, SEQUENCE_LEN))[4..] == BigEndian(n, SEQUENCE_LEN);
    Pow256Values();
    BigEndianDecodes(m, SEQUENCE_LEN);
    BigEndianDecodes(n, SEQUENCE_LEN);
  }

  lemma SameNonceSameNumber(a: Direction, b: Direction)
    requires a.iv == b.iv && NonceOf(a) == NonceOf(b)
    ensures a.sequenceNumber == b.sequenceNumber
  {
    NonceInjective(a.iv, a.sequenceNumber, b.sequenceNumber);
  }

  // ---- Records on the wire ----------------------------------------------------------------

  /** The record that carries `text` as the next record of `d`. */
  function Sealed(suite: Suite, d: Direction, text: Bytes): (record: Bytes)
    ensures |record| == RECORD_HEADER_LEN + |text| + TAG_LEN
  {
    var header := RecordHeader(|text| + TAG_LEN);
    header + Seal(suite, d.key, NonceOf(d), header, text)
  }

  function EncryptedLength(got: Bytes): nat
    requires |got| >= RECORD_HEADER_LEN
  {
    FromBigEndian(got[3..5])
  }

  /** The checks a receiver makes on a header, with room for `capacity` octets of plaintext. */
  predicate HeaderAccepted(capacity: nat, got: Bytes)
    requires |got| >= RECORD_HEADER_LEN
  {
    && got[1] == 0x03 && got[2] == 0x03
    && got[0] == APPLICATION_DATA
    && TAG_LEN < EncryptedLength(got)
    && EncryptedLength(got) - TAG_LEN <= MAX_PLAINTEXT_LEN
    && EncryptedLength(got) - TAG_LEN <= capacity
  }

  function RecordFrameOf(capacity: nat, got: Bytes): (f: Frame)
    ensures f.Need? ==> f.more > 0
  {
    if |got| < RECORD_HEADER_LEN then Need(RECORD_HEADER_LEN - |got|)
    else if !HeaderAccepted(capacity, got) then Bad
    else
      var end := RECORD_HEADER_LEN + EncryptedLength(got);
      if |got| < end - TAG_LEN then Need(end - TAG_LEN - |got|)
      else if |got| < end then Need(end - |got|)
      else Whole(got[RECORD_HEADER_LEN..end])
  }

  /** A receiver can be holding `got`; compare `Handshake.Paced`. */
  predicate RecordPaced(capacity: nat, got: Bytes) {
    |got| <= RECORD_HEADER_LEN
    || (HeaderAccepted(capacity, got) && |got| <= RECORD_HEADER_LEN + EncryptedLength(got))
  }

  /** What the receiving side of `d` makes of a whole record. */
  function Opened(suite: Suite, d: Direction, got: Bytes): Option<Bytes>
    requires |got| >= RECORD_HEADER_LEN
  {
    Open(suite, d.key, NonceOf(d), got[..RECORD_HEADER_LEN], got[RECORD_HEADER_LEN..])
  }

  // ---- The state of a direction and its operations ----------------------------------------

  /** `tls_record_state`. */
  class RecordState {
    var key: Bytes
    var staticIv: Bytes
    var sequenceNumber: UInt64

    predicate Valid()
      reads this
    {
      |key| == KEY_LEN && |staticIv| == IV_LEN
    }

    function Value(): Direction
      reads this
      requires Valid()
    {
      Direction(key, staticIv, sequenceNumber)
    }

    /** `tls_record_state_init`. */
    constructor (key: Bytes, staticIv: Bytes)
      requires |key| == KEY_LEN && |staticIv| == IV_LEN
      ensures Valid() && Value() == Direction(key, staticIv, 0)
    {
      this.key, this.staticIv, sequenceNumber := key, staticIv, 0;
    }
  }

  /** How a call to send a record ended: nothing was encrypted, the record was encrypted but
      not entirely sent, or it was sent. */
  datatype SendResult = Refused | Interrupted | Sent

  /** `aes_gcm_encrypt`. */
  method AesGcmEncrypt(library: Library, suite: Suite, plaintext: Bytes, aad: Bytes, key: Bytes, nonce: Bytes)
    returns (ok: bool, ciphertext: Bytes, tag: Bytes)
    modifies library`faulted
    ensures library.faulted == (old(library.faulted) || !ok)
    ensures ok ==> |ciphertext| == |plaintext| && |tag| == TAG_LEN
    ensures ok ==> ciphertext + tag == Seal(suite, key, nonce, aad, plaintext)
    ensures var sealed := suite.seal(key, nonce, aad, plaintext);
            ok && |sealed| == |plaintext| + 16 ==> ciphertext + tag == sealed
  {
    ok := library.Attempt();
    var sealed := Seal(suite, key, nonce, aad, plaintext);
    ciphertext, tag := sealed[..|plaintext|], sealed[|plaintext|..];
  }

  /** The first half of `send_encrypted_record`: header, nonce, encryption. */
  method SealRecord(library: Library, suite: Suite, plaintext: Bytes, state: RecordState)
    returns (ok: bool, header: Bytes, ciphertext: Bytes, tag: Bytes)
    requires state.Valid() && 0 < |plaintext| <= MAX_PLAINTEXT_LEN
    modifies library`faulted
    ensures library.faulted == (old(library.faulted) || !ok)
    ensures ok ==> header + ciphertext + tag == Sealed(suite, state.Value(), plaintext)
  {
    header := HeaderOctets(|plaintext|);
    var nonce := NonceOctets(state);
    ok, ciphertext, tag := AesGcmEncrypt(library, suite, plaintext, header, state.key, nonce);
    if ok {
      SealedParts(suite, state.Value(), plaintext, header, ciphertext, tag);
    }
  }

  lemma SealedParts(suite: Suite, d: Direction, text: Bytes, header: Bytes, ciphertext: Bytes, tag: Bytes)
    requires header == RecordHeader(|text| + TAG_LEN)
    requires ciphertext + tag == Seal(suite, d.key, NonceOf(d), header, text)
    ensures header + ciphertext + tag == Sealed(suite, d, text)
  {
    ConcatAssociates(header, ciphertext, tag);
  }

  /** The header of the record for a plaintext of the given length; the cast to `uint16_t`
      loses nothing. */
  method HeaderOctets(plaintextLen: nat) returns (octets: Bytes)
    requires plaintextLen <= MAX_PLAINTEXT_LEN
    ensures octets == RecordHeader(plaintextLen + TAG_LEN)
  {
    var encryptedLen := (plaintextLen + TAG_LEN) % 0x1_0000;
    var header := new Byte[RECORD_HEADER_LEN](_ => 0);
    EncodeRecordHeader(header, APPLICATION_DATA, encryptedLen);
    octets := header[..];
  }

  method NonceOctets(state: RecordState) returns (octets: Bytes)
    requires state.Valid()
    ensures octets == NonceOf(state.Value())
  {
    var nonce := new Byte[IV_LEN](_ => 0);
    MakeRecordNonce(state.staticIv, state.sequenceNumber, nonce);
    octets := nonce[..];
  }

  /** `send_encrypted_record`. */
  method SendEncryptedRecord(library: Library, suite: Suite, socket: Socket, plaintext: Bytes, state: RecordState)
    returns (rc: int, ghost result: SendResult, ghost moved: nat)
    requires state.Valid()
    modifies library`faulted, socket`outbound, socket`faulted, state`sequenceNumber
    ensures state.Valid()
    ensures rc == if result.Sent? then 0 else -1
    ensures |plaintext| == 0 || |plaintext| > MAX_PLAINTEXT_LEN ==> result.Refused?
    ensures moved > 0 ==> !result.Refused?
    ensures socket.faulted == (old(socket.faulted) || result.Interrupted?)
    ensures library.faulted == (old(library.faulted) || (result.Refused? && 0 < |plaintext| <= MAX_PLAINTEXT_LEN))
    ensures var record := Sealed(suite, old(state.Value()), plaintext);
            && moved <= |record| && socket.outbound == old(socket.outbound) + record[..moved]
            && (moved == |record| <==> result.Sent?)
    ensures state.Value() == if result.Sent? then Next(old(state.Value())) else old(state.Value())
  {
    ghost var d := state.Value();
    ghost var record := Sealed(suite, d, plaintext);
    result, moved := Refused, 0;
    if |plaintext| == 0 || |plaintext| > MAX_PLAINTEXT_LEN {
      return -1, result, moved;
    }
    var ok, header, ciphertext, tag := SealRecord(library, suite, plaintext, state);
    if !ok {
      return -1, result, moved;
    }
    rc, moved := SendThree(socket, header, ciphertext, tag);
    if rc == -1 {
      return -1, Interrupted, moved;
    }
    state.sequenceNumber := Successor(state.sequenceNumber);
    return 0, Sent, moved;
  }

  /** `recv_encrypted_record`. */
  method RecvEncryptedRecord(library: Library, suite: Suite, socket: Socket, plaintext: array<Byte>, capacity: nat,
                             plaintextLen: Size, state: RecordState)
    returns (rc: int, ghost moved: nat, ghost libraryFailed: bool)
    requires state.Valid() && capacity <= plaintext.Length
    modifies library`faulted, socket`inbound, socket`faulted, plaintext, plaintextLen, state`sequenceNumber
    ensures state.Valid()
    ensures moved <= |old(socket.inbound)| && socket.inbound == old(socket.inbound)[moved..]
    ensures var got := old(socket.inbound)[..moved];
            var frame := RecordFrameOf(capacity, got);
            && RecordPaced(capacity, got)
            && (if frame.Whole?
                then rc == if !libraryFailed && Opened(suite, old(state.Value()), got).Some? then 0 else -1
                else Ended(frame, got, old(socket.inbound), rc))
            && socket.faulted == (old(socket.faulted) || (rc == -1 && frame.Need?))
            && (rc == 0 ==>
                  var text := Opened(suite, old(state.Value()), got).value;
                  && plaintextLen.value == |text| <= capacity
                  && plaintext[..] == text + old(plaintext[..])[|text|..])
    ensures state.Value() == if rc == 0 then Next(old(state.Value())) else old(state.Value())
    ensures rc != 0 ==> plaintextLen.value == old(plaintextLen.value)
    ensures library.faulted == (old(library.faulted) || libraryFailed)
    ensures libraryFailed ==> RecordFrameOf(capacity, old(socket.inbound)[..moved]).Whole?
    ensures var got := old(socket.inbound)[..moved];
            RecordFrameOf(capacity, got).Whole? ==>
              var text := suite.open(old(state.key), NonceFor(old(state.staticIv), old(state.sequenceNumber)), got[..5], got[5..]);
              && (text.None? ==> rc == -1)
              && (text.Some? && |text.value| + 16 == |got[5..]| && !libraryFailed ==>
                    rc == 0 && plaintextLen.value == |text.value| && plaintext[..|text.value|] == text.value)
  {
    libraryFailed := false;
    ghost var stream := socket.inbound;
    var header := new Byte[RECORD_HEADER_LEN](_ => 0);
    var ciphertext := new Byte[MAX_PLAINTEXT_LEN](_ => 0);
    var tag := new Byte[TAG_LEN](_ => 0);
    var ciphertextLen;
    rc, ciphertextLen, moved := RecvRecord(socket, header, ciphertext, tag, capacity);
    if rc != 0 {
      return rc, moved, libraryFailed;
    }
    var nonce := NonceOctets(state);
    ghost var got := stream[..moved];
    assert got[RECORD_HEADER_LEN..] == ciphertext[..ciphertextLen] + tag[..];
    assert got[..RECORD_HEADER_LEN] == header[..];
    var decryptedLen;
    decryptedLen, libraryFailed :=
      AesGcmDecrypt(library, suite, ciphertext[..ciphertextLen], header[..], tag[..], state.key, nonce, plaintext);
    if decryptedLen < 0 {
      return -1, moved, libraryFailed;
    }
    plaintextLen.value := decryptedLen;
    state.sequenceNumber := Successor(state.sequenceNumber);
    return 0, moved, libraryFailed;
  }

  /** `recv_record_header`. */
  method RecvRecordHeader(socket: Socket, header: array<Byte>) returns (rc: int, contentType: Byte, length: nat, ghost moved: nat)
    requires header.Length == RECORD_HEADER_LEN
    modifies socket`inbound, socket`faulted, header
    ensures moved <= |old(socket.inbound)| && socket.inbound == old(socket.inbound)[moved..]
    ensures rc == 0 ==> header[..] == old(socket.inbound)[..moved]
    ensures var got := old(socket.inbound)[..moved];
            if |got| < RECORD_HEADER_LEN
            then rc == -1 || (rc == 1 && got == old(socket.inbound))
            else && |got| == RECORD_HEADER_LEN
                 && rc == (if got[1] == 0x03 && got[2] == 0x03 then 0 else -1)
                 && contentType == got[0] && length == EncryptedLength(got)
    ensures socket.faulted == (old(socket.faulted) || (rc == -1 && moved < RECORD_HEADER_LEN))
  {
    contentType, length := 0, 0;
    ghost var stream := socket.inbound;
    rc, moved := RecvAll(socket, header, RECORD_HEADER_LEN);
    if rc != 0 {
      return rc, contentType, length, moved;
    }
    assert header[..] == stream[..5];
    FromBigEndian2(stream[..5][3..5]);
    OctetsOr2(header[3], header[4]);
    contentType, length := header[0], Or((header[3] as int) * 0x100, header[4]);
    if header[1] != 0x03 || header[2] != 0x03 {
      return -1, contentType, length, moved;
    }
    return 0, contentType, length, moved;
  }

  /** The receiving half of `recv_encrypted_record`: header, checks, ciphertext, tag. */
  method RecvRecord(socket: Socket, header: array<Byte>, ciphertext: array<Byte>, tag: array<Byte>, capacity: nat)
    returns (rc: int, ciphertextLen: nat, ghost moved: nat)
    requires header != ciphertext && header != tag && ciphertext != tag
    requires header.Length == RECORD_HEADER_LEN && ciphertext.Length == MAX_PLAINTEXT_LEN && tag.Length == TAG_LEN
    modifies socket`inbound, socket`faulted, header, ciphertext, tag
    ensures moved <= |old(socket.inbound)| && socket.inbound == old(socket.inbound)[moved..]
    ensures var got := old(socket.inbound)[..moved];
            var frame := RecordFrameOf(capacity, got);
            && RecordPaced(capacity, got)
            && Ended(frame, got, old(socket.inbound), rc)
            && socket.faulted == (old(socket.faulted) || (rc == -1 && frame.Need?))
            && (rc == 0 ==>
                  && ciphertextLen <= MAX_PLAINTEXT_LEN && ciphertextLen <= capacity
                  && got == header[..] + (ciphertext[..ciphertextLen] + tag[..]))
  {
    ciphertextLen := 0;
    ghost var stream := socket.inbound;
    var contentType, encryptedLen;
    rc, contentType, encryptedLen, moved := RecvRecordHeader(socket, header);
    if rc != 0 {
      return rc, ciphertextLen, moved;
    }
    if contentType != APPLICATION_DATA {
      return -1, ciphertextLen, moved;
    }
    if encryptedLen <= TAG_LEN {
      return -1, ciphertextLen, moved;
    }
    ciphertextLen := encryptedLen - TAG_LEN;
    if ciphertextLen > MAX_PLAINTEXT_LEN || ciphertextLen > capacity {
      return -1, ciphertextLen, moved;
    }
    assert HeaderAccepted(capacity, stream[..RECORD_HEADER_LEN]);
    ghost var part;
    rc, part := RecvFragment(socket, ciphertext, ciphertextLen, tag);
    moved := RECORD_HEADER_LEN + part;
    RecordGotSplits(stream, capacity, part);
    return rc, ciphertextLen, moved;
  }

  /** Receives a ciphertext, then its tag. */
  method RecvFragment(socket: Socket, ciphertext: array<Byte>, ciphertextLen: nat, tag: array<Byte>)
    returns (rc: int, ghost moved: nat)
    requires ciphertext != tag && ciphertextLen <= ciphertext.Length && tag.Length == TAG_LEN
    modifies socket`inbound, socket`faulted, ciphertext, tag
    ensures rc == 0 || rc == 1 || rc == -1
    ensures moved <= |old(socket.inbound)| && socket.inbound == old(socket.inbound)[moved..]
    ensures moved <= ciphertextLen + TAG_LEN && (rc == 0 <==> moved == ciphertextLen + TAG_LEN)
    ensures rc == 0 ==> ciphertext[..ciphertextLen] + tag[..] == old(socket.inbound)[..moved]
    ensures rc == 1 ==> moved == |old(socket.inbound)|
    ensures socket.faulted == (old(socket.faulted) || rc == -1)
  {
    ghost var stream := socket.inbound;
    rc, moved := RecvAll(socket, ciphertext, ciphertextLen);
    if rc == 0 {
      assert ciphertext[..ciphertextLen] == stream[..ciphertextLen];
      ghost var part;
      rc, part := RecvAll(socket, tag, TAG_LEN);
      moved := ciphertextLen + part;
      assert stream[ciphertextLen..][..part] == stream[ciphertextLen..moved];
      if rc == 0 {
        assert tag[..] == stream[ciphertextLen..moved];
      }
    }
  }

  /** `aes_gcm_decrypt`: the length of the plaintext, now in the front of the buffer, or -1,
      the front of the buffer then holding anything. */
  method AesGcmDecrypt(library: Library, suite: Suite, ciphertext: Bytes, aad: Bytes, tag: Bytes, key: Bytes, nonce: Bytes,
                       plaintext: array<Byte>)
    returns (length: int, ghost libraryFailed: bool)
    requires |tag| == TAG_LEN && |ciphertext| <= plaintext.Length
    modifies library`faulted, plaintext
    ensures library.faulted == (old(library.faulted) || libraryFailed)
    ensures var text := Open(suite, key, nonce, aad, ciphertext + tag);
            if text.Some? && !libraryFailed
            then length == |text.value| == |ciphertext| && plaintext[..] == text.value + old(plaintext[..])[length..]
            else length == -1 && plaintext[|ciphertext|..] == old(plaintext[|ciphertext|..])
    ensures var text := suite.open(key, nonce, aad, ciphertext + tag);
            && (text.None? ==> length == -1)
            && (text.Some? && |text.value| == |ciphertext| && !libraryFailed ==>
                  length == |text.value| && plaintext[..] == text.value + old(plaintext[..])[length..])
  {
    var ok := library.Attempt();
    libraryFailed := !ok;
    var text := Open(suite, key, nonce, aad, ciphertext + tag);
    var written: Bytes;
    if text.Some? {
      written := text.value;
    } else {
      written :| |written| == |ciphertext|;
    }
    forall i | 0 <= i < |ciphertext| {
      plaintext[i] := written[i];
    }
    assert plaintext[..] == written + old(plaintext[..])[|ciphertext|..];
    assert plaintext[|ciphertext|..] == old(plaintext[|ciphertext|..]);
    if !ok || text.None? {
      return -1, libraryFailed;
    }
    return |ciphertext|, libraryFailed;
  }

  lemma RecordGotSplits(stream: Bytes, capacity: nat, received: nat)
    requires RECORD_HEADER_LEN + received <= |stream|
    requires HeaderAccepted(capacity, stream[..RECORD_HEADER_LEN])
    ensures var got := stream[..RECORD_HEADER_LEN + received];
            && got == stream[..RECORD_HEADER_LEN] + stream[RECORD_HEADER_LEN..][..received]
            && HeaderAccepted(capacity, got)
            && EncryptedLength(got) == EncryptedLength(stream[..RECORD_HEADER_LEN])
  {
    assert stream[..RECORD_HEADER_LEN + received][3..5] == stream[..RECORD_HEADER_LEN][3..5];
  }

  /** A record octet by octet: type 23, version 0x0303, the length of what follows, and what the
      library makes of the text under the key and the nonce of the number, with those five octets
      authenticated. */
  lemma SealedOctets(suite: Suite, d: Direction, text: Bytes)
    requires |text| <= 1024
    ensures var length: nat := |text| + 16;
            var header: Bytes := [23, 3, 3, length / 256, length % 256];
            var sealed := suite.seal(d.key, NonceFor(d.iv, d.sequenceNumber), header, text);
            |sealed| == length ==> Sealed(suite, d, text) == header + sealed
  {
    var length: nat := |text| + 16;
    BigEndian2(length);
    BigEndian2(RECORD_VERSION);
    assert RecordHeader(length) == [23, 3, 3, length / 256, length % 256];
  }

  /** A header that is not type 23, version 0x0303 and a length of 17 to 1040 for which there is
      room ends the receiving, with nothing taken after it; after any other the ciphertext and
      then the tag are asked for. */
  lemma BadHeaderStops(capacity: nat, got: Bytes)
    requires RecordPaced(capacity, got) && |got| >= 5
    ensures var length := (got[3] as int) * 256 + got[4];
            if got[0] == 23 && got[1] == 3 && got[2] == 3 && 17 <= length <= 1040 && length <= capacity + 16
            then RecordFrameOf(capacity, got)
                 == if |got| < 5 + length - 16 then Need(5 + length - 16 - |got|)
                    else if |got| < 5 + length then Need(5 + length - |got|)
                    else Whole(got[5..5 + length])
            else RecordFrameOf(capacity, got).Bad? && |got| == 5
  {
    FromBigEndian2(got[3..5]);
  }

  // ---- What the header checks and the frames mean -----------------------------------------

  lemma FieldsOfHeader(length: nat, rest: Bytes)
    requires length < 0x1_0000
    ensures var got := RecordHeader(length) + rest;
            && got[0] == APPLICATION_DATA && got[1] == 0x03 && got[2] == 0x03
            && EncryptedLength(got) == length
            && got[..RECORD_HEADER_LEN] == RecordHeader(length)
  {
    var got := RecordHeader(length) + rest;
    BigEndian2(RECORD_VERSION);
    assert got[3..5] == BigEndian(length, FIELD_LEN);
    Pow256Values();
    BigEndianDecodes(length, FIELD_LEN);
  }

  /** The headers a receiver accepts are exactly the ones a sender makes for a plaintext of
      1 to 1024 octets that the receiver has room for: both authenticate the same octets. */
  lemma AcceptedHeaders(capacity: nat, got: Bytes)
    requires |got| >= RECORD_HEADER_LEN
    ensures HeaderAccepted(capacity, got) <==>
            exists length :: 1 + TAG_LEN <= length <= MAX_PLAINTEXT_LEN + TAG_LEN && length <= capacity + TAG_LEN
                             && got[..RECORD_HEADER_LEN] == RecordHeader(length)
  {
    assert got == got[..RECORD_HEADER_LEN] + got[RECORD_HEADER_LEN..];
    if HeaderAccepted(capacity, got) {
      FromBigEndianEncodes(got[3..5]);
      BigEndian2(RECORD_VERSION);
      assert got[..RECORD_HEADER_LEN] == [got[0]] + [got[1], got[2]] + got[3..5];
      assert got[..RECORD_HEADER_LEN] == RecordHeader(EncryptedLength(got));
    }
    if length :| 1 + TAG_LEN <= length <= MAX_PLAINTEXT_LEN + TAG_LEN && length <= capacity + TAG_LEN
                 && got[..RECORD_HEADER_LEN] == RecordHeader(length) {
      FieldsOfHeader(length, got[RECORD_HEADER_LEN..]);
      assert HeaderAccepted(capacity, got);
    }
  }

  /** Compare `Handshake.FrameOfEncoding`: a receiver holding the first `k` octets of a record
      it has room for never gives up, never asks for more than the record still has, and holds
      a whole record exactly when it holds all of it. */
  lemma FrameOfSealed(suite: Suite, d: Direction, text: Bytes, capacity: nat, k: nat)
    requires 0 < |text| <= MAX_PLAINTEXT_LEN && |text| <= capacity
    requires k <= |Sealed(suite, d, text)|
    ensures var record := Sealed(suite, d, text);
            var frame := RecordFrameOf(capacity, record[..k]);
            && RecordPaced(capacity, record[..k])
            && (if k == |record| then frame == Whole(record[RECORD_HEADER_LEN..])
                else frame.Need? && frame.more <= |record| - k)
  {
    var record := Sealed(suite, d, text);
    if k >= RECORD_HEADER_LEN {
      var rest := record[..k][RECORD_HEADER_LEN..];
      assert record[..k] == RecordHeader(|text| + TAG_LEN) + rest;
      FieldsOfHeader(|text| + TAG_LEN, rest);
    }
  }

  /** A receiver that may come to hold `got` asks for more while it holds less. */
  lemma RecordPacedNeeds(capacity: nat, held: Bytes, got: Bytes)
    requires RecordPaced(capacity, got) && held < got
    ensures RecordFrameOf(capacity, held).Need?
  {
    if |held| >= RECORD_HEADER_LEN {
      assert got[3..5] == held[3..5];
    }
  }

  /** A receiver gives up on the record of a text, as soon as it holds the header, exactly if it
      has no room for the text. */
  lemma RoomDecides(suite: Suite, d: Direction, text: Bytes, capacity: nat, k: nat)
    requires 0 < |text| <= MAX_PLAINTEXT_LEN
    requires RECORD_HEADER_LEN <= k <= |Sealed(suite, d, text)|
    ensures RecordFrameOf(capacity, Sealed(suite, d, text)[..k]).Bad? <==> |text| > capacity
  {
    var record := Sealed(suite, d, text);
    var rest := record[..k][RECORD_HEADER_LEN..];
    assert record[..k] == RecordHeader(|text| + TAG_LEN) + rest;
    FieldsOfHeader(|text| + TAG_LEN, rest);
  }

  /** The receiving side in the same state as the sender recovers what was sealed. */
  lemma OpenedSealed(suite: Suite, d: Direction, text: Bytes)
    requires Opens(suite)
    ensures Opened(suite, d, Sealed(suite, d, text)) == Some(text)
  {
    var header := RecordHeader(|text| + TAG_LEN);
    var record := Sealed(suite, d, text);
    assert record[..RECORD_HEADER_LEN] == header;
    assert record[RECORD_HEADER_LEN..] == Seal(suite, d.key, NonceOf(d), header, text);
  }

  /** A receiver in the sender's state that takes octets from a stream that starts with the
      record of a text it has room for never gives up, does not come to the end of the stream
      inside the record, and recovers the text. */
  lemma RecordRoundTrip(suite: Suite, d: Direction, text: Bytes, rest: Bytes, capacity: nat, moved: nat)
    requires Opens(suite) && 0 < |text| <= MAX_PLAINTEXT_LEN && |text| <= capacity
    requires moved <= |Sealed(suite, d, text) + rest|
    requires RecordPaced(capacity, (Sealed(suite, d, text) + rest)[..moved])
    ensures var stream := Sealed(suite, d, text) + rest;
            var frame := RecordFrameOf(capacity, stream[..moved]);
            && !frame.Bad?
            && (frame.Need? ==> stream[..moved] != stream)
            && (frame.Whole? ==> Opened(suite, d, stream[..moved]) == Some(text) && stream[moved..] == rest)
  {
    hide Opened, RecordHeader;
    var record := Sealed(suite, d, text);
    var stream := record + rest;
    PacedWithin(suite, d, text, rest, capacity, moved);
    assert stream[..moved] == record[..moved];
    FrameOfSealed(suite, d, text, capacity, moved);
    if moved == |record| {
      assert record[..moved] == record;
      OpenedSealed(suite, d, text);
    }
  }

  lemma PacedWithin(suite: Suite, d: Direction, text: Bytes, rest: Bytes, capacity: nat, moved: nat)
    requires 0 < |text| <= MAX_PLAINTEXT_LEN && moved <= |Sealed(suite, d, text) + rest|
    requires RecordPaced(capacity, (Sealed(suite, d, text) + rest)[..moved])
    ensures moved <= |Sealed(suite, d, text)|
  {
    var got := (Sealed(suite, d, text) + rest)[..moved];
    if moved > RECORD_HEADER_LEN {
      assert got == RecordHeader(|text| + TAG_LEN) + got[RECORD_HEADER_LEN..];
      FieldsOfHeader(|text| + TAG_LEN, got[RECORD_HEADER_LEN..]);
    }
  }
}
