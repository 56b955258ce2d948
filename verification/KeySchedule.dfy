/** Application traffic keys (`tls_key_schedule.c`). */
module KeySchedule {
  import opened ByteStrings
  import opened Primitives

  const CLIENT_KEY_LABEL: string := "pqc tls demo client application key"
  const SERVER_KEY_LABEL: string := "pqc tls demo server application key"
  const CLIENT_IV_LABEL: string := "pqc tls demo client application iv"
  const SERVER_IV_LABEL: string := "pqc tls demo server application iv"

  /** What the label `info` derives for an output of `length` octets. */
  function Derived(suite: Suite, secret: Bytes, transcriptHash: Bytes, info: string, length: nat): (out: Bytes)
    ensures |out| == length
  {
    Hkdf(suite, secret, transcriptHash, Ascii(info), length)
  }

  /** `tls_application_keys`. */
  class ApplicationKeys {
    var clientKey: Bytes
    var serverKey: Bytes
    var clientIv: Bytes
    var serverIv: Bytes

    constructor ()
      ensures Wiped()
    {
      clientKey, serverKey := Zeros(KEY_LEN), Zeros(KEY_LEN);
      clientIv, serverIv := Zeros(IV_LEN), Zeros(IV_LEN);
    }

    predicate Wiped()
      reads this
    {
      && clientKey == Zeros(KEY_LEN) && serverKey == Zeros(KEY_LEN)
      && clientIv == Zeros(IV_LEN) && serverIv == Zeros(IV_LEN)
    }

    predicate Hold(suite: Suite, secret: Bytes, transcriptHash: Bytes)
      reads this
    {
      && clientKey == Derived(suite, secret, transcriptHash, CLIENT_KEY_LABEL, KEY_LEN)
      && serverKey == Derived(suite, secret, transcriptHash, SERVER_KEY_LABEL, KEY_LEN)
      && clientIv == Derived(suite, secret, transcriptHash, CLIENT_IV_LABEL, IV_LEN)
      && serverIv == Derived(suite, secret, transcriptHash, SERVER_IV_LABEL, IV_LEN)
    }

    method Wipe()
      modifies this
      ensures Wiped()
    {
      clientKey, serverKey := Zeros(KEY_LEN), Zeros(KEY_LEN);
      clientIv, serverIv := Zeros(IV_LEN), Zeros(IV_LEN);
    }

    /** `derive_application_keys`: all four values or none of them. */
    method Derive(library: Library, suite: Suite, secret: Bytes, transcriptHash: Bytes) returns (rc: int)
      modifies this, library`faulted
      ensures rc == 0 || rc == -1
      ensures rc == 0 ==> Hold(suite, secret, transcriptHash)
      ensures rc == 0 ==>
                && clientKey == Hkdf(suite, secret, transcriptHash, Ascii("pqc tls demo client application key"), 32)
                && serverKey == Hkdf(suite, secret, transcriptHash, Ascii("pqc tls demo server application key"), 32)
                && clientIv == Hkdf(suite, secret, transcriptHash, Ascii("pqc tls demo client application iv"), 12)
                && serverIv == Hkdf(suite, secret, transcriptHash, Ascii("pqc tls demo server application iv"), 12)
      ensures |secret| == 0 || |transcriptHash| == 0 ==> rc == -1 && unchanged(this)
      ensures library.faulted ==
              (old(library.faulted) || (rc == -1 && |secret| > 0 && |transcriptHash| > 0))
      ensures |secret| > 0 && |transcriptHash| > 0 && rc == -1 ==> Wiped()
    {
      if |secret| == 0 || |transcriptHash| == 0 {
        return -1;
      }
      Wipe();
      var ok;
      ok, clientKey := HkdfDeriveLabel(library, suite, secret, transcriptHash, CLIENT_KEY_LABEL, KEY_LEN);
      if ok {
        ok, serverKey := HkdfDeriveLabel(library, suite, secret, transcriptHash, SERVER_KEY_LABEL, KEY_LEN);
      }
      if ok {
        ok, clientIv := HkdfDeriveLabel(library, suite, secret, transcriptHash, CLIENT_IV_LABEL, IV_LEN);
      }
      if ok {
        ok, serverIv := HkdfDeriveLabel(library, suite, secret, transcriptHash, SERVER_IV_LABEL, IV_LEN);
      }
      if !ok {
        Wipe();
        return -1;
      }
      return 0;
    }
  }

  /** `hkdf_derive_label`: a failed derivation leaves the output unspecified. */
  method HkdfDeriveLabel(library: Library, suite: Suite, secret: Bytes, salt: Bytes, info: string, length: nat)
    returns (ok: bool, out: Bytes)
    modifies library`faulted
    ensures |secret| == 0 || |salt| == 0 || length == 0 ==> !ok
    ensures ok ==> out == Derived(suite, secret, salt, info, length) == Hkdf(suite, secret, salt, Ascii(info), length)
    ensures library.faulted == (old(library.faulted) || (!ok && |secret| > 0 && |salt| > 0 && length > 0))
  {
    if |secret| == 0 || |salt| == 0 || length == 0 {
      out := *;
      return false, out;
    }
    ok := library.Attempt();
    if !ok {
      out := *;
      return false, out;
    }
    return true, Derived(suite, secret, salt, info, length);
  }

  /** The labels of the two directions are different inputs of the derivation. */
  lemma LabelsDiffer()
    ensures Ascii(CLIENT_KEY_LABEL) != Ascii(SERVER_KEY_LABEL)
    ensures Ascii(CLIENT_IV_LABEL) != Ascii(SERVER_IV_LABEL)
  {
    assert Ascii(CLIENT_KEY_LABEL)[13] != Ascii(SERVER_KEY_LABEL)[13];
    assert Ascii(CLIENT_IV_LABEL)[13] != Ascii(SERVER_IV_LABEL)[13];
  }
}
