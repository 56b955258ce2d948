/** The cryptographic algorithms, as parameters. Nothing is assumed of them unless a lemma
    says so; their results have the lengths of the buffers the programs have for them. */
module Primitives {
  import opened ByteStrings

  datatype Option<+T> = None | Some(value: T)

  const HASH_LEN: nat := 32
  const KEY_LEN: nat := 32
  const IV_LEN: nat := 12
  const TAG_LEN: nat := 16
  const MAX_LEN: nat := 0xFFFFFF

  /** What is in a buffer of `length` octets that `data` was written to. */
  function Filled(data: Bytes, length: nat): (r: Bytes)
    ensures |r| == length
    ensures |data| == length ==> r == data
  {
    if |data| >= length then data[..length] else data + Zeros(length - |data|)
  }

  /** `data`, made to have from 1 to `capacity` octets. */
  function Clipped(data: Bytes, capacity: nat): (r: Bytes)
    requires capacity > 0
    ensures 0 < |r| <= capacity
    ensures 0 < |data| <= capacity ==> r == data
  {
    if |data| == 0 then Zeros(1) else if |data| > capacity then data[..capacity] else data
  }

  /** The functions of the libraries and the sizes of keys, ciphertexts and signatures. */
  datatype Algorithms = Algorithms(
    hash: Bytes -> Bytes,
    hkdf: (Bytes, Bytes, Bytes, nat) -> Bytes,
    hmac: (Bytes, Bytes) -> Bytes,
    seal: (Bytes, Bytes, Bytes, Bytes) -> Bytes,
    open: (Bytes, Bytes, Bytes, Bytes) -> Option<Bytes>,
    encaps: (Bytes, nat) -> (Bytes, Bytes),
    decaps: (Bytes, Bytes) -> Bytes,
    sign: (Bytes, Bytes, nat) -> Bytes,
    verify: (Bytes, Bytes, Bytes) -> bool,
    kemPublicLen: nat,
    kemCiphertextLen: nat,
    kemSecretLen: nat,
    sigPublicLen: nat,
    sigLen: nat)
  {
    predicate Sized() {
      && 0 < kemPublicLen <= MAX_LEN && 0 < kemCiphertextLen <= MAX_LEN && 0 < kemSecretLen
      && 0 < sigPublicLen <= MAX_LEN && 0 < sigLen <= MAX_LEN
    }
  }

  /** Algorithms that exist, to show that the types below have values. */
  const DEGENERATE: Algorithms := Algorithms(
    _ => [], (_, _, _, _) => [], (_, _) => [],
    (_, _, _, text) => text,
    (_, _, _, sealed) => Some(sealed),
    (_, _) => ([], []), (_, _) => [], (_, _, _) => [], (_, _, _) => true, 1, 1, 1, 1, 1)

  type Suite = a: Algorithms | a.Sized()
    witness DEGENERATE

  function Hash(suite: Suite, data: Bytes): (r: Bytes)
    ensures |r| == HASH_LEN
    ensures |suite.hash(data)| == HASH_LEN ==> r == suite.hash(data)
  {
    Filled(suite.hash(data), HASH_LEN)
  }

  /** An empty salt stands for none. */
  function Hkdf(suite: Suite, secret: Bytes, salt: Bytes, info: Bytes, length: nat): (r: Bytes)
    ensures |r| == length
    ensures |suite.hkdf(secret, salt, info, length)| == length ==> r == suite.hkdf(secret, salt, info, length)
  {
    Filled(suite.hkdf(secret, salt, info, length), length)
  }

  function Hmac(suite: Suite, key: Bytes, data: Bytes): (r: Bytes)
    ensures |r| == HASH_LEN
    ensures |suite.hmac(key, data)| == HASH_LEN ==> r == suite.hmac(key, data)
  {
    Filled(suite.hmac(key, data), HASH_LEN)
  }

  /** The ciphertext of `text`, then the tag. */
  function Seal(suite: Suite, key: Bytes, nonce: Bytes, aad: Bytes, text: Bytes): (r: Bytes)
    ensures |r| == |text| + TAG_LEN
    ensures |suite.seal(key, nonce, aad, text)| == |text| + TAG_LEN ==> r == suite.seal(key, nonce, aad, text)
  {
    Filled(suite.seal(key, nonce, aad, text), |text| + TAG_LEN)
  }

  /** The plaintext of a ciphertext followed by a tag, if the tag is right. */
  function Open(suite: Suite, key: Bytes, nonce: Bytes, aad: Bytes, sealed: Bytes): (r: Option<Bytes>)
    ensures r.Some? ==> |r.value| + TAG_LEN == |sealed|
    ensures suite.open(key, nonce, aad, sealed).None? ==> r.None?
    ensures suite.open(key, nonce, aad, sealed).Some? && |suite.open(key, nonce, aad, sealed).value| + TAG_LEN == |sealed| ==>
              r == suite.open(key, nonce, aad, sealed)
  {
    var text := suite.open(key, nonce, aad, sealed);
    if |sealed| < TAG_LEN || text.None? then None else Some(Filled(text.value, |sealed| - TAG_LEN))
  }

  /** The ciphertext and the shared secret that `coins` gives. */
  function Encaps(suite: Suite, public: Bytes, coins: nat): (r: (Bytes, Bytes))
    ensures |r.0| == suite.kemCiphertextLen && |r.1| == suite.kemSecretLen
    ensures |suite.encaps(public, coins).0| == suite.kemCiphertextLen ==> r.0 == suite.encaps(public, coins).0
    ensures |suite.encaps(public, coins).1| == suite.kemSecretLen ==> r.1 == suite.encaps(public, coins).1
  {
    var (ciphertext, secret) := suite.encaps(public, coins);
    (Filled(ciphertext, suite.kemCiphertextLen), Filled(secret, suite.kemSecretLen))
  }

  function Decaps(suite: Suite, secretKey: Bytes, ciphertext: Bytes): (r: Bytes)
    ensures |r| == suite.kemSecretLen
    ensures |suite.decaps(secretKey, ciphertext)| == suite.kemSecretLen ==> r == suite.decaps(secretKey, ciphertext)
  {
    Filled(suite.decaps(secretKey, ciphertext), suite.kemSecretLen)
  }

  function Sign(suite: Suite, secretKey: Bytes, data: Bytes, coins: nat): (r: Bytes)
    ensures 0 < |r| <= suite.sigLen
    ensures 0 < |suite.sign(secretKey, data, coins)| <= suite.sigLen ==> r == suite.sign(secretKey, data, coins)
  {
    Clipped(suite.sign(secretKey, data, coins), suite.sigLen)
  }

  /** Authenticated decryption undoes encryption. */
  ghost predicate Opens(suite: Suite) {
    forall key, nonce, aad, text :: Open(suite, key, nonce, aad, Seal(suite, key, nonce, aad, text)) == Some(text)
  }

  /** There are suites in which it does. */
  lemma OpensPossible()
    ensures Opens(DEGENERATE)
  {
    forall key, nonce, aad, text
      ensures Open(DEGENERATE, key, nonce, aad, Seal(DEGENERATE, key, nonce, aad, text)) == Some(text)
    {
      var sealed := Seal(DEGENERATE, key, nonce, aad, text);
      assert sealed == text + Zeros(TAG_LEN);
      assert sealed[..|text|] == text;
    }
  }

  /** The crypto libraries as one process sees them: any call may fail. */
  class Library {
    /** Whether a call has failed. */
    var faulted: bool

    constructor ()
      ensures !faulted
    {
      faulted := false;
    }

    /** One call of a library that is to do something the program asks of it. */
    method Attempt() returns (ok: bool)
      modifies this`faulted
      ensures faulted == (old(faulted) || !ok)
    {
      ok := *;
      if !ok {
        faulted := true;
      }
    }
  }

  /** The octets of an ASCII string literal. */
  function Ascii(s: string): (r: Bytes)
    ensures |r| == |s|
    ensures forall i | 0 <= i < |s| && s[i] as int < 0x80 :: r[i] == s[i] as int
  {
    seq(|s|, i requires 0 <= i < |s| => s[i] as int % 0x80)
  }
}
