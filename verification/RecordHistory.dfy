/** What any history of calls on one record state does to it, and which nonces it uses. */
module RecordHistory {
  import opened ByteStrings
  import opened Primitives
  import opened KeySchedule
  import opened Record

  /** The state after calls that succeeded or failed as `calls` says. A successful call, of
      either kind, moves the state to `Next`; a failed one leaves it alone. */
  function After(d: Direction, calls: seq<bool>): Direction {
    if |calls| == 0 then d
    else
      var before := After(d, calls[..|calls| - 1]);
      if calls[|calls| - 1] then Next(before) else before
  }

  function Successes(calls: seq<bool>): nat {
    if |calls| == 0 then 0
    else Successes(calls[..|calls| - 1]) + if calls[|calls| - 1] then 1 else 0
  }

  /** The sequence number counts the successful calls modulo 2^64; key and IV never change. */
  lemma {:induction false} Accounting(d: Direction, calls: seq<bool>)
    ensures After(d, calls) == d.(sequenceNumber := Wrap(d.sequenceNumber + Successes(calls)))
    ensures (d.sequenceNumber + Successes(calls) - After(d, calls).sequenceNumber) % 0x1_0000_0000_0000_0000 == 0
  {
    if |calls| > 0 {
      Accounting(d, calls[..|calls| - 1]);
      SuccessorWraps(d.sequenceNumber + Successes(calls[..|calls| - 1]));
    }
    WrapCongruent(d.sequenceNumber + Successes(calls));
  }

  /** The sequence number that call number `i` of the history finds. */
  function NumberAt(d: Direction, calls: seq<bool>, i: nat): UInt64
    requires i <= |calls|
  {
    After(d, calls[..i]).sequenceNumber
  }

  lemma NumberRepeats(d: Direction, calls: seq<bool>, i: nat, j: nat)
    requires i <= j <= |calls|
    ensures NumberAt(d, calls, i) == NumberAt(d, calls, j) <==>
            Wrap(Successes(calls[..j]) - Successes(calls[..i])) == 0
  {
    Accounting(d, calls[..i]);
    Accounting(d, calls[..j]);
    WrapEqual(d.sequenceNumber + Successes(calls[..i]), d.sequenceNumber + Successes(calls[..j]));
  }

  /** The nonce that call number `i` of the history computes. */
  function NonceAt(d: Direction, calls: seq<bool>, i: nat): Bytes
    requires i <= |calls|
  {
    NonceFor(d.iv, NumberAt(d, calls, i))
  }

  /** Two calls of one history, whatever failed in between, use the same nonce exactly when
      the number of successes from the first to the second is a multiple of 2^64. */
  lemma NonceRepeats(d: Direction, calls: seq<bool>, i: nat, j: nat)
    requires i <= j <= |calls|
    ensures NonceAt(d, calls, i) == NonceAt(d, calls, j) <==>
            Wrap(Successes(calls[..j]) - Successes(calls[..i])) == 0
  {
    NumberRepeats(d, calls, i, j);
    NonceSame(d.iv, NumberAt(d, calls, i), NumberAt(d, calls, j));
  }

  lemma NonceSame(iv: Bytes, m: UInt64, n: UInt64)
    requires |iv| == IV_LEN
    ensures NonceFor(iv, m) == NonceFor(iv, n) <==> m == n
  {
    if NonceFor(iv, m) == NonceFor(iv, n) {
      NonceInjective(iv, m, n);
    }
  }

  /** The caller stops at the first failure, as both programs do. */
  predicate StopsOnFailure(calls: seq<bool>) {
    forall i | 0 <= i < |calls| - 1 :: calls[i]
  }

  lemma {:induction false} AllSucceeded(calls: seq<bool>)
    requires forall i | 0 <= i < |calls| :: calls[i]
    ensures Successes(calls) == |calls|
  {
    if |calls| > 0 {
      AllSucceeded(calls[..|calls| - 1]);
    }
  }

  lemma NumbersDistinct(d: Direction, calls: seq<bool>, i: nat, j: nat)
    requires StopsOnFailure(calls) && |calls| <= TWO64
    requires i < j < |calls|
    ensures NumberAt(d, calls, i) != NumberAt(d, calls, j)
  {
    AllSucceeded(calls[..i]);
    AllSucceeded(calls[..j]);
    NumberRepeats(d, calls, i, j);
  }

  /** If the caller stops at the first failure, no two of the first 2^64 calls share a nonce. */
  lemma NoncesDistinct(d: Direction, calls: seq<bool>, i: nat, j: nat)
    requires StopsOnFailure(calls) && |calls| <= TWO64
    requires i < j < |calls|
    ensures NonceAt(d, calls, i) != NonceAt(d, calls, j)
  {
    NumbersDistinct(d, calls, i, j);
    NonceSame(d.iv, NumberAt(d, calls, i), NumberAt(d, calls, j));
  }

  // ---- Calls to send ----------------------------------------------------------------------

  /** Which of the calls to send that ended in `results` succeeded. */
  function Successful(results: seq<SendResult>): (calls: seq<bool>)
    ensures |calls| == |results|
    ensures forall i | 0 <= i < |calls| :: calls[i] == results[i].Sent?
  {
    seq(|results|, i requires 0 <= i < |results| => results[i].Sent?)
  }

  /** Two calls encrypted under one nonce. */
  predicate NonceReused(d: Direction, results: seq<SendResult>) {
    exists i, j :: 0 <= i < j < |results| && !results[i].Refused? && !results[j].Refused?
                   && NonceAt(d, Successful(results), i) == NonceAt(d, Successful(results), j)
  }

  /** A call encrypted again after one whose record was encrypted and not sent. */
  predicate SealedAfterInterruption(results: seq<SendResult>) {
    exists i, j :: 0 <= i < j < |results| && results[i].Interrupted? && !results[j].Refused?
  }

  lemma {:induction false} SuccessesBetween(calls: seq<bool>, i: nat, j: nat)
    requires i <= j <= |calls|
    ensures Successes(calls[..i]) <= Successes(calls[..j]) <= Successes(calls[..i]) + (j - i)
    ensures (forall k | i <= k < j :: !calls[k]) ==> Successes(calls[..j]) == Successes(calls[..i])
    decreases j
  {
    if i < j {
      SuccessesBetween(calls, i, j - 1);
      SuccessesUpTo(calls, j - 1);
    }
  }

  lemma SuccessesUpTo(calls: seq<bool>, i: nat)
    requires i < |calls|
    ensures Successes(calls[..i + 1]) == Successes(calls[..i]) + if calls[i] then 1 else 0
  {
    assert calls[..i + 1][..i] == calls[..i];
  }

  lemma SameNonceUnsent(d: Direction, calls: seq<bool>, i: nat, j: nat)
    requires i < j < |calls| <= TWO64 && NonceAt(d, calls, i) == NonceAt(d, calls, j)
    ensures !calls[i]
  {
    hide NonceAt, Successes;
    NonceRepeats(d, calls, i, j);
    SuccessesBetween(calls, i, j);
    SuccessesUpTo(calls, i);
    SuccessesBetween(calls, i + 1, j);
  }

  lemma UnsentSameNonce(d: Direction, calls: seq<bool>, i: nat, j: nat)
    requires i < j < |calls| && forall k | i <= k < j :: !calls[k]
    ensures NonceAt(d, calls, i) == NonceAt(d, calls, j)
  {
    hide NonceAt, Successes;
    SuccessesBetween(calls, i, j);
    NonceRepeats(d, calls, i, j);
  }

  /** The first call from `i` on that encrypted. */
  lemma {:induction false} FirstSealing(results: seq<SendResult>, i: nat, j: nat) returns (k: nat)
    requires i <= j < |results| && !results[j].Refused?
    ensures i <= k <= j && !results[k].Refused?
    ensures forall m | i <= m < k :: results[m].Refused?
    decreases j - i
  {
    if results[i].Refused? {
      k := FirstSealing(results, i + 1, j);
    } else {
      k := i;
    }
  }

  /** Among up to 2^64 calls a nonce is used to encrypt twice exactly if a call encrypts after
      one whose record was encrypted and not sent. */
  lemma ReusedExactly(d: Direction, results: seq<SendResult>)
    requires |results| <= TWO64
    ensures NonceReused(d, results) <==> SealedAfterInterruption(results)
  {
    hide NonceAt;
    if NonceReused(d, results) {
      var i, j :| 0 <= i < j < |results| && !results[i].Refused? && !results[j].Refused?
                  && NonceAt(d, Successful(results), i) == NonceAt(d, Successful(results), j);
      SameNonceUnsent(d, Successful(results), i, j);
    }
    if SealedAfterInterruption(results) {
      var i, j :| 0 <= i < j < |results| && results[i].Interrupted? && !results[j].Refused?;
      var k := FirstSealing(results, i + 1, j);
      UnsentSameNonce(d, Successful(results), i, k);
    }
  }

  /** A caller that tries again after an interrupted send encrypts twice under one nonce. */
  lemma RetryRepeatsNonce(d: Direction)
    ensures NonceReused(d, [Interrupted, Sent])
  {
    var results := [Interrupted, Sent];
    assert results[0].Interrupted? && !results[1].Refused?;
    ReusedExactly(d, results);
  }

  /** A caller that stops at the first failure never does. */
  lemma StoppingNeverReuses(d: Direction, results: seq<SendResult>)
    requires StopsOnFailure(Successful(results)) && |results| <= TWO64
    ensures !NonceReused(d, results)
  {
    ReusedExactly(d, results);
  }

  // ---- Both directions of a session -------------------------------------------------------

  /** The labels of the key schedule. */
  function Labels(): set<Bytes> {
    {Ascii(CLIENT_KEY_LABEL), Ascii(SERVER_KEY_LABEL), Ascii(CLIENT_IV_LABEL), Ascii(SERVER_IV_LABEL)}
  }

  /** No two different labels of the key schedule derive the same key. */
  predicate KeysSeparated(suite: Suite, secret: Bytes, transcriptHash: Bytes) {
    forall a, b | a in Labels() && b in Labels() && a != b ::
      Hkdf(suite, secret, transcriptHash, a, KEY_LEN) != Hkdf(suite, secret, transcriptHash, b, KEY_LEN)
  }

  /** The key and nonce that call `i` of the sender of a direction seals under. */
  function KeyAndNonce(suite: Suite, secret: Bytes, transcriptHash: Bytes, fromClient: bool, calls: seq<bool>, i: nat): (Bytes, Bytes)
    requires i <= |calls|
  {
    var d := InitialDirection(suite, secret, transcriptHash, fromClient);
    (d.key, NonceAt(d, calls, i))
  }

  /** Over both directions of a session no key and nonce are used twice. */
  lemma SealsUnique(suite: Suite, secret: Bytes, transcriptHash: Bytes,
                    clientCalls: seq<bool>, serverCalls: seq<bool>, fromClient: bool, i: nat, fromClient': bool, j: nat)
    requires KeysSeparated(suite, secret, transcriptHash)
    requires StopsOnFailure(clientCalls) && |clientCalls| <= TWO64
    requires StopsOnFailure(serverCalls) && |serverCalls| <= TWO64
    requires i < |if fromClient then clientCalls else serverCalls|
    requires j < |if fromClient' then clientCalls else serverCalls|
    requires KeyAndNonce(suite, secret, transcriptHash, fromClient, if fromClient then clientCalls else serverCalls, i)
             == KeyAndNonce(suite, secret, transcriptHash, fromClient', if fromClient' then clientCalls else serverCalls, j)
    ensures fromClient == fromClient' && i == j
  {
    LabelsDiffer();
    var d := InitialDirection(suite, secret, transcriptHash, fromClient);
    var calls := if fromClient then clientCalls else serverCalls;
    if i < j && fromClient == fromClient' {
      NoncesDistinct(d, calls, i, j);
    } else if j < i && fromClient == fromClient' {
      NoncesDistinct(d, calls, j, i);
    }
  }

  /** Without that the two directions can clash: if they have the same key and IV, their first
      calls use the same key and nonce. */
  lemma SharedKeysRepeat(suite: Suite, secret: Bytes, transcriptHash: Bytes, clientCalls: seq<bool>, serverCalls: seq<bool>)
    requires var c, v := InitialDirection(suite, secret, transcriptHash, true), InitialDirection(suite, secret, transcriptHash, false);
             c.key == v.key && c.iv == v.iv
    ensures KeyAndNonce(suite, secret, transcriptHash, true, clientCalls, 0)
            == KeyAndNonce(suite, secret, transcriptHash, false, serverCalls, 0)
  {
    assert clientCalls[..0] == [] && serverCalls[..0] == [];
  }
}
