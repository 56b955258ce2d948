/** The running hash of the handshake messages (`tls_transcript.c`). */
module Transcripts {
  import opened ByteStrings
  import Framing
  import opened Handshake
  import opened Primitives

  /** A message digest context of the crypto library. Finalizing one ends its use. */
  class DigestContext {
    var absorbed: Bytes
    var finalized: bool

    constructor ()
      ensures absorbed == [] && !finalized
    {
      absorbed, finalized := [], false;
    }

    method Update(library: Library, data: Bytes) returns (ok: bool)
      requires !finalized
      modifies this`absorbed, library`faulted
      ensures absorbed == if ok then old(absorbed) + data else old(absorbed)
      ensures library.faulted == (old(library.faulted) || !ok)
    {
      ok := library.Attempt();
      if ok {
        absorbed := absorbed + data;
      }
    }

    method CopyFrom(library: Library, other: DigestContext) returns (ok: bool)
      requires this != other && !other.finalized
      modifies this, library`faulted
      ensures ok ==> absorbed == other.absorbed && !finalized
      ensures library.faulted == (old(library.faulted) || !ok)
    {
      ok := library.Attempt();
      if ok {
        absorbed, finalized := other.absorbed, false;
      }
    }

    method Final(library: Library, suite: Suite) returns (ok: bool, digest: Bytes)
      requires !finalized
      modifies this`finalized, library`faulted
      ensures finalized && (ok ==> digest == Hash(suite, absorbed))
      ensures library.faulted == (old(library.faulted) || !ok)
    {
      finalized := true;
      ok := library.Attempt();
      digest := if ok then Hash(suite, absorbed) else [];
    }
  }

  /** `transcript_init`: a transcript that has hashed nothing, or none if the library failed. */
  method InitTranscript(library: Library, suite: Suite) returns (rc: int, transcript: Transcript?)
    modifies library`faulted
    ensures rc == 0 || rc == -1
    ensures library.faulted == (old(library.faulted) || rc == -1)
    ensures rc == 0 <==> transcript != null
    ensures rc == 0 ==>
              && fresh(transcript) && fresh(transcript.ctx)
              && transcript.Valid() && transcript.Absorbed() == [] && transcript.suite == suite
  {
    var ok := library.Attempt();
    if ok {
      ok := library.Attempt();
    }
    if !ok {
      return -1, null;
    }
    transcript := new Transcript(suite);
    return 0, transcript;
  }

  class Transcript {
    const suite: Suite
    const ctx: DigestContext

    ghost predicate Valid()
      reads this, ctx
    {
      !ctx.finalized
    }

    /** The octets hashed so far. */
    ghost function Absorbed(): Bytes
      reads this, ctx
    {
      ctx.absorbed
    }

    constructor (suite: Suite)
      ensures Valid() && fresh(ctx) && this.suite == suite && Absorbed() == []
    {
      this.suite := suite;
      ctx := new DigestContext();
    }

    /** `transcript_update`: refuses empty data, and fails only if the library does. */
    method Update(library: Library, data: Bytes) returns (rc: int)
      requires Valid()
      modifies ctx, library`faulted
      ensures Valid() && (rc == 0 || rc == -1)
      ensures |data| == 0 ==> rc == -1
      ensures Absorbed() == if rc == 0 then old(Absorbed()) + data else old(Absorbed())
      ensures library.faulted == (old(library.faulted) || (rc == -1 && |data| > 0))
    {
      if |data| <= 0 {
        return -1;
      }
      var ok := ctx.Update(library, data);
      return if ok then 0 else -1;
    }

    /** `transcript_get_hash`: finalizes a copy, so the transcript itself is undisturbed and
        can go on; refuses a buffer that is too short, and else fails only if the library does. */
    method GetHash(library: Library, hash: array<Byte>, hashLen: Framing.Size) returns (rc: int)
      requires Valid()
      modifies library`faulted, hash, hashLen
      ensures Valid() && (rc == 0 || rc == -1)
      ensures Absorbed() == old(Absorbed())
      ensures hash.Length < HASH_LEN ==> rc == -1
      ensures library.faulted == (old(library.faulted) || (rc == -1 && hash.Length >= HASH_LEN))
      ensures rc == 0 ==> hashLen.value == HASH_LEN
      ensures hash[..] == if rc == 0 then Hash(suite, Absorbed()) + old(hash[..])[HASH_LEN..] else old(hash[..])
      ensures rc == -1 ==> hashLen.value == old(hashLen.value)
      ensures rc == 0 && |suite.hash(Absorbed())| == 32 ==> hash[..32] == suite.hash(Absorbed())
    {
      if hash.Length < HASH_LEN {
        return -1;
      }
      var ok := library.Attempt();
      if !ok {
        return -1;
      }
      var copy := new DigestContext();
      ok := copy.CopyFrom(library, ctx);
      if !ok {
        return -1;
      }
      var digest;
      ok, digest := copy.Final(library, suite);
      if !ok {
        return -1;
      }
      forall i | 0 <= i < HASH_LEN {
        hash[i] := digest[i];
      }
      assert hash[..HASH_LEN] == digest;
      hashLen.value := |digest|;
      return 0;
    }

    /** `transcript_update_handshake_msg`: hashes the encoding of the message. */
    method UpdateHandshakeMsg(library: Library, kind: Byte, body: Bytes) returns (rc: int)
      requires Valid()
      modifies ctx, library`faulted
      ensures Valid() && (rc == 0 || rc == -1)
      ensures |body| > MAX_BODY_LEN ==> rc == -1
      ensures Absorbed() ==
              if rc == 0 then old(Absorbed()) + Encode(Message(kind, body)) else old(Absorbed())
      ensures library.faulted == (old(library.faulted) || (rc == -1 && |body| <= MAX_BODY_LEN))
    {
      if |body| > MAX_BODY_LEN {
        return -1;
      }
      var ok := library.Attempt();
      if !ok {
        return -1;
      }
      var encodedMsg := new Byte[HEADER_LEN + |body|](_ => 0);
      var encodedLen := new Framing.Size();
      rc := EncodeHandshakeMsg(kind, body, encodedMsg, encodedLen);
      if rc != 0 {
        return -1;
      }
      ghost var wire := Encode(Message(kind, body));
      assert encodedMsg[..encodedLen.value] == wire;
      rc := Update(library, encodedMsg[..encodedLen.value]);
    }
  }
}
