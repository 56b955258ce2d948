/** Finished values (`tls_finished.c`). */
module Finished {
  import opened ByteStrings
  import opened Primitives

  const VERIFY_DATA_LEN: nat := 32
  const FINISHED_KEY_LEN: nat := 32
  const SERVER_LABEL: string := "Server Finished Key"
  const CLIENT_LABEL: string := "Client Finished Key"

  function FinishedKey(suite: Suite, secret: Bytes, info: string): Bytes {
    Hkdf(suite, secret, [], Ascii(info), FINISHED_KEY_LEN)
  }

  function VerifyData(suite: Suite, secret: Bytes, info: string, transcriptHash: Bytes): (d: Bytes)
    ensures |d| == VERIFY_DATA_LEN
  {
    Hmac(suite, FinishedKey(suite, secret, info), transcriptHash)
  }

  /** `derive_finished_key`: fills `finishedKey` unless the library fails. */
  method DeriveFinishedKey(library: Library, suite: Suite, secret: Bytes, info: string, finishedKey: array<Byte>) returns (rc: int)
    requires finishedKey.Length == FINISHED_KEY_LEN
    modifies library`faulted, finishedKey
    ensures rc == 0 || rc == -1
    ensures rc == 0 ==> finishedKey[..] == FinishedKey(suite, secret, info)
    ensures rc == 0 ==> finishedKey[..] == Hkdf(suite, secret, [], Ascii(info), 32)
    ensures library.faulted == (old(library.faulted) || rc == -1)
  {
    var ok := library.Attempt();
    if !ok {
      return -1;
    }
    var derived := FinishedKey(suite, secret, info);
    forall i | 0 <= i < FINISHED_KEY_LEN {
      finishedKey[i] := derived[i];
    }
    assert finishedKey[..] == derived;
    return 0;
  }

  /** `compute_finished_verify_data`: writes the value into the front of `verifyData`. */
  method ComputeFinishedVerifyData(library: Library, suite: Suite, secret: Bytes, info: string, transcriptHash: Bytes,
                                   verifyData: array<Byte>)
    returns (rc: int)
    modifies library`faulted, verifyData
    ensures rc == 0 || rc == -1
    ensures verifyData.Length < VERIFY_DATA_LEN ==> rc == -1
    ensures verifyData[..] ==
            if rc == 0
            then VerifyData(suite, secret, info, transcriptHash) + old(verifyData[..])[VERIFY_DATA_LEN..]
            else old(verifyData[..])
    ensures rc == 0 ==>
              verifyData[..32] == Hmac(suite, Hkdf(suite, secret, [], Ascii(info), 32), transcriptHash)
    ensures library.faulted == (old(library.faulted) || (rc == -1 && verifyData.Length >= VERIFY_DATA_LEN))
  {
    if verifyData.Length < VERIFY_DATA_LEN {
      return -1;
    }
    var finishedKey := new Byte[FINISHED_KEY_LEN](_ => 0);
    rc := DeriveFinishedKey(library, suite, secret, info, finishedKey);
    if rc != 0 {
      return -1;
    }
    var ok := library.Attempt();
    if !ok {
      return -1;
    }
    var mac := Hmac(suite, finishedKey[..], transcriptHash);
    forall i | 0 <= i < VERIFY_DATA_LEN {
      verifyData[i] := mac[i];
    }
    assert verifyData[..VERIFY_DATA_LEN] == mac == verifyData[..32];
    return 0;
  }

  /** No collision of the algorithms is met in comparing the value made from `secret` and
      `data` with the one made from `secret'` and `data'`. */
  ghost predicate CollisionFree(suite: Suite, info: string, secret: Bytes, data: Bytes, secret': Bytes, data': Bytes) {
    var key, key' := Hkdf(suite, secret, [], Ascii(info), 32), Hkdf(suite, secret', [], Ascii(info), 32);
    && (Hmac(suite, key, Hash(suite, data)) == Hmac(suite, key', Hash(suite, data')) ==>
          key == key' && Hash(suite, data) == Hash(suite, data'))
    && (key == key' ==> secret == secret')
    && (Hash(suite, data) == Hash(suite, data') ==> data == data')
  }
}
