# A verified model of the PQC TLS demo

A Dafny model of the secure channel of `pqc_demo`: the byte transport, the framing of handshake
messages, the transcript, the Finished values, the key schedule, the encrypted record layer, and
the two programs that use them. It states what the channel is for and proves it for every input,
every division of the streams into chunks, and every run.

## How it is built

The C functions that work in place are methods on classes and arrays, each proved against
functions on values: a socket (`Transport`), the handshake codec (`Handshake`), the digest context
and transcript (`Transcripts`), `Finished`, `KeySchedule`, `Record`. The kernel decides how many
octets each `send` and `recv` moves and when a call fails; a library call may fail at any time. A
failing call sets a flag, `Socket.faulted` or `Library.faulted`, and the contracts say that on legal
arguments there is no other way to fail.

`Protocol` gives each program as a machine. Its state is the stage, the variables, and the part
moved of the current message; its events are one `send`, one `recv`, the computation at the end of
a message, and a failure. Stages 0 to 5 are ClientHello, ServerHello, Certificate,
CertificateVerify, server Finished and client Finished; 6 and 7 are the records of the client and
of the server. A program that has failed does nothing more.

- `EndpointRuns`: what every run of one program keeps, whatever it receives; `Contents`: what its
  messages are, in terms of the libraries' own functions and of types and labels written out.
- `Session`: both machines over two byte channels of any capacity, freely interleaved.
- `Agreement`, `Liveness`, `Refinement`: what every execution of the two keeps, that every
  execution ends, and that they refine a protocol over queues of whole messages.
- `Programs`, `SecureClient`, `SecureServer`: the two `main` functions as imperative programs, stage
  by stage. A ghost field holds the run of the machine made so far; every stage is proved to extend
  it, so the programs are refinements of the machine.
- `Interleaving` and `Deployment`: two such programs, each receiving nothing but what the other
  sends, are the two sides of one execution; so what is proved of executions holds of them.
- `RecordHistory`, `RecordChannel`, `RecordAdversary`: the record layer under any history of calls,
  over an honest channel, and against an adversary on the channel. `RecordCalls` and
  `RecordExchange` make such calls on record states and sockets and are proved to do what these
  machines say.

The cryptographic algorithms are parameters (`Primitives.Suite`) with any positive key, ciphertext
and signature lengths that a 24-bit length field can hold. A function such as `Primitives.Hash` is
the library's, cut or padded to its buffer; its contract says that an output of the right length is
left as it is. No property of them is assumed
globally: a lemma that needs one says so, in terms of the inputs it concerns where it can.
`Agreement.KemWorks`: decapsulation undoes the one encapsulation made. `Primitives.Opens`:
authenticated decryption undoes encryption. `Finished.CollisionFree`: no collision among the two
values compared. `RecordHistory.KeysSeparated`: no two labels of the key schedule derive the same key.
`RecordAdversary.Unforged`: what the receiver can open was sealed by the sender.
`Liveness.WorksPossible` shows that what is asked of the algorithms can be had.

Two findings about the code as it is:

- A sender accepts texts of up to 1024 octets, but both programs pass `sizeof(plaintext) - 1`, which
  is 1023, as the room for one. A session succeeds exactly if both texts have at most 1023 octets
  (`Liveness.SucceedsExactly`, `Deployment.BothSucceed`; `Liveness.TooLongFails` gives one that does
  not); the texts in the programs do.
- A record that was encrypted but not sent leaves the sequence number as it was. Among up to 2^64
  calls a nonce is used to encrypt twice exactly if a caller encrypts again after that
  (`RecordHistory.ReusedExactly`, with the instance `RecordHistory.RetryRepeatsNonce`). The programs
  stop at the first failure, and then it never is (`RecordHistory.StoppingNeverReuses`).

## Model

| member | source | states |
|---|---|---|
| `Transport.SendAll` | pqc_demo/src/common.c:7-21 | For every way the kernel splits the buffer: success hands over exactly the buffer in order; failure has handed over a strict prefix of it. |
| `Transport.RecvAll` | pqc_demo/src/common.c:24-40 | Success takes exactly the octets asked for; end of stream is reported only when the whole rest of the stream was shorter; either failure has taken a strict prefix, and the rest of the buffer is unchanged. |
| `Handshake.SendHandshakeMsg` | pqc_demo/src/tls_handshake.c:9-33 | A body too long for the length field moves nothing; otherwise success puts exactly the encoding on the stream and failure a strict prefix of it. |
| `Handshake.AnnouncedLength` | pqc_demo/src/tls_handshake.c:51 | The shifts and bitwise or put together the integer whose big-endian octets the header carries. |
| `Handshake.RecvHandshakeMsg` | pqc_demo/src/tls_handshake.c:35-70 | A header of another type, or one that announces more than there is room for, ends the call with -1 after exactly those 4 octets and no failing call; after any other, success means that exactly the announced octets were taken. What was taken is then one whole message whose body is in the buffer, and the length is reported only on success. |
| `Handshake.EncodeHandshakeMsg` | pqc_demo/src/tls_handshake.c:72-97 | What goes into the transcript is the very encoding that goes on the wire; refusal leaves the output untouched and happens exactly when the body or the buffer is of the wrong size. |
| `Handshake.FrameOfEncoding` | pqc_demo/src/tls_handshake.c:35-70 | A receiver holding any part of a message it expects never gives up, never asks for more than the message still has, and finishes exactly at its end. |
| `Handshake.FrameAsks` | pqc_demo/src/tls_handshake.c:45-66 | The kernel is asked for the rest of the 4 octet header, then, unless the type or the length is refused, for the rest of the body. |
| `Handshake.WholeIsEncoding` | pqc_demo/src/tls_handshake.c:45-69 | The octets of a message received with success are exactly the encoding of its body under the expected type. |
| `Handshake.ReceiveRoundTrip` | pqc_demo/src/tls_handshake.c:9-70 | Receiving a message that was sent gives its body back and leaves exactly the octets after it, for any chunking and any octets after it. |
| `Handshake.EncodingPrefixFree` | pqc_demo/src/tls_handshake.c:72-97 | Two streams that start with messages and are equal start with the same message and go on equally. |
| `Handshake.EncodeAllInjective` | pqc_demo/src/tls_transcript.c:97-132 | Equal transcripts are transcripts of equal lists of messages, of any length. |
| `Transcripts.InitTranscript` | pqc_demo/src/tls_transcript.c:8-30 | A new transcript that has hashed nothing, or none exactly if the library failed. |
| `Transcripts.Transcript.Update` | pqc_demo/src/tls_transcript.c:32-51 | Adds exactly the data or nothing; refuses empty data; any other refusal is a failing library call. |
| `Transcripts.Transcript.GetHash` | pqc_demo/src/tls_transcript.c:53-86 | The hash of everything so far in the front of the buffer, the transcript being undisturbed and still usable; a short buffer is refused, and any other refusal is a failing library call; a refusal changes nothing. |
| `Transcripts.Transcript.UpdateHandshakeMsg` | pqc_demo/src/tls_transcript.c:97-132 | Adds exactly the wire encoding of the message or nothing; nothing only for a body too long or a failing library call. |
| `Finished.DeriveFinishedKey` | pqc_demo/src/tls_finished.c:12-53 | The 32 octets that HKDF derives from the secret, without salt, for the label, unless a library call failed. |
| `Finished.ComputeFinishedVerifyData` | pqc_demo/src/tls_finished.c:55-85 | The HMAC of the transcript hash under the HKDF output for the secret and the label, written to the front of the buffer only; a short buffer is refused, and any other refusal is a failing library call. |
| `KeySchedule.HkdfDeriveLabel` | pqc_demo/src/tls_key_schedule.c:14-66 | Empty secret, salt or output is refused; otherwise the derivation for the label, unless a library call failed. |
| `KeySchedule.ApplicationKeys.Derive` | pqc_demo/src/tls_key_schedule.c:68-92 | All four values, each what HKDF derives from the secret with the transcript hash for salt under its own label, or all of them wiped, the latter only if a library call failed; bad arguments leave the keys as they were. |
| `KeySchedule.LabelsDiffer` | pqc_demo/src/tls_key_schedule.c:9-12 | The labels of the two directions are different inputs of the derivation. |
| `Record.EncodeRecordHeader` | pqc_demo/src/tls_record.c:10-16 | The header is type, version and length in network order. |
| `Record.MakeRecordNonce` | pqc_demo/src/tls_record.c:19-26 | The in-place loop computes the nonce of section 5.3 of RFC 8446: the IV exclusive-or the sequence number in network order padded to the left with zeros. |
| `Record.NonceBits` | pqc_demo/src/tls_record.c:19-26 | The first four octets of a nonce are those of the IV; a bit of the other eight is set exactly if the bit of the IV differs from that of the number in network order. |
| `Record.NonceReveals` | pqc_demo/src/tls_record.c:19-26 | A nonce exclusive-or its IV is the number in network order after four zeros. |
| `Record.NonceInjective` | pqc_demo/src/tls_record.c:19-26 | Under one IV, different sequence numbers give different nonces. |
| `Record.RecordState.constructor` | pqc_demo/src/tls_record.c:52-61 | Keeps key and IV and starts at number 0. |
| `Record.AesGcmEncrypt` | pqc_demo/src/aes_gcm.c:7-83 | Ciphertext as long as the plaintext and a 16 octet tag, together the sealed text, unless the library failed. |
| `Record.AesGcmDecrypt` | pqc_demo/src/aes_gcm.c:86-164 | -1 if the library does not open the ciphertext and tag under key, nonce and additional data; its text if it does, has the right length and no call failed; nothing past the ciphertext's length is touched. |
| `Record.HeaderOctets` | pqc_demo/src/tls_record.c:91-94 | The 16-bit cast of the encrypted length loses nothing for any text that is sent. |
| `Record.SealRecord` | pqc_demo/src/tls_record.c:91-104 | Header, ciphertext and tag are one record of the state's direction, authenticated together with the header, unless the library failed. |
| `Record.SealedOctets` | pqc_demo/src/tls_record.c:91-122 | A record is 23, 3, 3, the two octets of the length of what follows, and what the library seals under the key and the nonce of the number with those five octets authenticated. |
| `Record.SendEncryptedRecord` | pqc_demo/src/tls_record.c:75-125 | Success sends exactly one record and moves to the next number; an interrupted send has sent a strict prefix, and a refusal nothing, and both leave the state alone. Interruption is a failing kernel call, and refusal a text of the wrong size or a failing library call. |
| `Record.RecvRecordHeader` | pqc_demo/src/tls_record.c:28-50 | Takes at most a header; type and length are its fields; a wrong version is refused after the header. |
| `Record.RecvRecord` | pqc_demo/src/tls_record.c:143-176 | The octets taken decide the result: success means one record whose header passes all checks; nothing past a bad header or past the record is taken. |
| `Record.RecvEncryptedRecord` | pqc_demo/src/tls_record.c:128-191 | A whole record that the library does not open under the key and the nonce of the number, with its five octet header authenticated, gives -1; one that it opens gives 0 and its text unless a library call failed. Success moves to the next number; any failure leaves state and reported length untouched. |
| `Record.AcceptedHeaders` | pqc_demo/src/tls_record.c:143-163 | The headers a receiver accepts are exactly those a sender makes for texts of 1 to 1024 octets that fit, so both authenticate the same octets. |
| `Record.BadHeaderStops` | pqc_demo/src/tls_record.c:143-175 | A header other than 23, 3, 3 and a length of 17 to 1040 for which there is room ends the call with nothing taken after it; after such a header the ciphertext and then the 16 octet tag are asked for. |
| `Record.FrameOfSealed` | pqc_demo/src/tls_record.c:128-176 | A receiver with room that holds any part of a record never gives up, never asks for more than it still has, and finishes exactly at its end. |
| `Record.RoomDecides` | pqc_demo/src/tls_record.c:159-163 | A receiver gives up on a record, from its header on, exactly if it has no room for the text. |
| `Record.OpenedSealed` | pqc_demo/src/tls_record.c:75-191 | A receiver in the sender's state recovers the text that was sealed. |
| `Record.RecordRoundTrip` | pqc_demo/src/tls_record.c:75-191 | On a stream that starts with a record it has room for, with any octets after it and any chunking, a receiver never gives up or finds the stream ended, and recovers the text and leaves exactly the octets after the record. |
| `RecordHistory.Accounting` | pqc_demo/src/tls_record.c:106-124 | After any history of calls the number is the initial one plus the successful calls, modulo 2^64; key and IV never change. |
| `RecordHistory.NonceRepeats` | pqc_demo/src/tls_record.c:97-122 | Two calls of one history use the same nonce exactly if a multiple of 2^64 calls succeeded from the first to the second. |
| `RecordHistory.NoncesDistinct` | pqc_demo/network/secure_client.c:351-354 | A caller that stops at the first failure, as the programs do, uses no nonce twice in 2^64 calls. |
| `RecordHistory.ReusedExactly` | pqc_demo/src/tls_record.c:101-122 | Among up to 2^64 calls two encrypt under one nonce exactly if some call encrypts after one whose record was encrypted and not sent. |
| `RecordHistory.RetryRepeatsNonce` | pqc_demo/src/tls_record.c:101-122 | A caller that encrypts again after an interrupted send uses the same nonce for both records. |
| `RecordHistory.StoppingNeverReuses` | pqc_demo/network/secure_server.c:362-365 | A caller that stops at the first failure encrypts at most once under each nonce in 2^64 calls. |
| `RecordHistory.SealsUnique` | pqc_demo/src/tls_key_schedule.c:83-86 | Over both directions of a session whose senders stop at the first failure, with at most 2^64 calls each and no two labels of the key schedule deriving one key, no pair of key and nonce is used by two calls. |
| `RecordHistory.SharedKeysRepeat` | pqc_demo/src/tls_key_schedule.c:83-86 | The hypothesis is needed: if the two directions have the same key and IV, their first calls use the same key and nonce. |
| `RecordChannel.HonestChannel` | pqc_demo/src/tls_record.c:75-191 | For any texts that fit and any interleaving and chunking: texts sent are texts received followed by those under way, the octets under way are exactly their records under consecutive numbers, and nothing is rejected. |
| `RecordAdversary.OpenedIsNext` | pqc_demo/src/tls_record.c:179-190 | With fewer than 2^64 records sealed, and the library opening nothing that was not sealed under the nonce, a record that opens is the next one sealed. |
| `RecordAdversary.AcceptedIsPrefix` | pqc_demo/src/tls_record.c:75-191 | With fewer than 2^64 records sealed, however octets are dropped, replayed, reordered or cut short, and across rejected records, the texts accepted are a prefix of those sealed. |
| `RecordCalls.MakeCalls` | pqc_demo/src/tls_record.c:75-191 | Any list of calls on a record state leaves the number the history says; the octets sent are, call by call, the record under the number reached, whole exactly on success; texts read were opened under it; and without a failing call every legal send succeeds. |
| `RecordCalls.MakeCallsUnderAttack` | pqc_demo/src/tls_record.c:75-191 | Any list of calls to send and to receive from streams of the adversary's making leads states, octets and texts to the world of `RecordAdversary`, every call being an attempt there until the sender stops; unless a record was forged, the texts accepted are those sealed first. |
| `RecordExchange.Converse` | pqc_demo/src/tls_record.c:75-191 | Any list of calls to send and to receive on one connection is a run of the honest channel, so texts are received in order and once each; without a failing call a caller that asks for no text too early receives exactly as many as it asks for. |
| `EndpointRuns.RunSane` | pqc_demo/network/secure_client.c:147-322 | In every run the octets moved are the completed messages and the part done of the current one, and the transcript is the completed messages as they were on the wire. |
| `EndpointRuns.ClientTranscript` | pqc_demo/network/secure_client.c:147-347 | For every stream received, honest or not: a client at key derivation has hashed its ClientHello, all it received, and its Finished. |
| `EndpointRuns.ServerTranscript` | pqc_demo/network/secure_server.c:165-346 | A server at key derivation has hashed the ClientHello it received, all it sent, and the Finished it received. |
| `EndpointRuns.TranscriptKept` | pqc_demo/network/secure_server.c:165-369 | The same of both programs at every later moment, records included: the transcript stays the handshake octets of the two streams. |
| `EndpointRuns.RunConfirmed` | pqc_demo/network/secure_client.c:273-286 | In every run each Finished on record is the HMAC, under the HKDF output for the program's own secret, of the hash of the messages before it. |
| `EndpointRuns.FinishedAgreement` | pqc_demo/network/secure_server.c:300-313 | Two programs in any environments that hold the same Finished for a direction hold the same secret and the same messages before it, barring a collision of HMAC, HKDF or the hash on the inputs compared. |
| `EndpointRuns.RunKeyed` | pqc_demo/network/secure_server.c:329-346 | A program that starts on the records holds, for each direction, the key and the IV that HKDF derives for that direction's own two labels from its secret with the hash of its whole transcript for salt, and numbers 0; a client sends in the client's direction and a server in the server's. |
| `EndpointRuns.RunHasSecret` | pqc_demo/network/secure_client.c:184-189 | A program past the KEM step holds a secret of the KEM's length, so the key schedule never refuses it. |
| `Contents.ClientMessages` | pqc_demo/network/secure_client.c:147-322 | In every client run the messages have types 1, 2, 11, 15, 20, 20; the first carries its KEM key; the secret is the second one's ciphertext decapsulated; the library verified the CertificateVerify under the key received over the hash of the three messages before it; each Finished is the HMAC for its label over the messages before it. |
| `Contents.ServerMessages` | pqc_demo/network/secure_server.c:165-321 | In every server run likewise, ciphertext and secret being an encapsulation to the key received and the CertificateVerify its own signature over the hash of the three messages before it. |
| `Contents.SignedAgreement` | pqc_demo/network/secure_client.c:236-245 | A client that accepted a CertificateVerify under a server's key has the same ClientHello, ServerHello and Certificate as the server that signed, barring a forged signature or a hash collision on what they compared. |
| `Contents.ClientRecordSent` | pqc_demo/network/secure_client.c:349-354 | In every client run the record sent is header and text sealed as number 0 under the client's derived key and IV, with the header authenticated. |
| `Contents.ServerRecordSent` | pqc_demo/network/secure_server.c:360-365 | In every server run the record sent is header and text sealed as number 0 under the server's derived key and IV, with the header authenticated. |
| `Contents.ClientRecordRead` | pqc_demo/network/secure_client.c:358-364 | In every client run the library opened the record accepted, as number 0 under the server's derived key and IV with its header authenticated, to the text kept. |
| `Contents.ServerRecordRead` | pqc_demo/network/secure_server.c:349-356 | In every server run the library opened the record accepted, as number 0 under the client's derived key and IV with its header authenticated, to the text kept. |
| `Session.Projection` | pqc_demo/network/secure_client.c:147-369 | Each side of an execution is a run of its program, so what every run keeps holds there. |
| `Protocol.AnyPart` | pqc_demo/src/common.c:10-18 | The kernel may accept any part of what is left of the transfer it is given: header or body, or header, ciphertext or tag. |
| `Session.ExecutionConsistent` | pqc_demo/network/secure_server.c:165-369 | In every execution, failed or not, each side has accepted only what the other made, and sent octets are received octets followed by those on the channel. |
| `Agreement.TranscriptPrefix` | pqc_demo/network/secure_client.c:148-322 | In every execution one side's messages are a prefix of the other's, and so are the octets hashed. |
| `Agreement.TranscriptPrefixBetween` | pqc_demo/network/secure_server.c:166-321 | The same at the moments when one side has hashed the message under way and the other has not, in either order. |
| `Agreement.SamePoints` | pqc_demo/network/secure_server.c:228-333 | At every stage the two programs sign and verify, compute and check Finished, and derive keys over the same transcript hash. |
| `Agreement.SecretsShared` | pqc_demo/network/secure_client.c:184-189 | In every execution in which both sides have their secret, the two are equal exactly if decapsulation undoes the encapsulation made. |
| `Agreement.StatesCross` | pqc_demo/network/secure_client.c:343-347 | If the KEM works on the key pair, in every execution in which both sides have reached the same stage of the records, each side's sending state is the other's receiving state, number included. |
| `Agreement.KeyAgreement` | pqc_demo/network/secure_server.c:342-346 | If the KEM works on the key pair, in every execution with record states on both sides keys and IVs match crosswise, and both sides' numbers start at 0. |
| `Liveness.AllAlive` | pqc_demo/network/secure_client.c:147-369 | With working algorithms, texts that fit and no failing call, neither program rejects anything. |
| `Liveness.PeerStillSending` | pqc_demo/src/common.c:32-34 | A program that waits on an empty channel waits for a peer that has not finished sending the message. |
| `Liveness.Progress` | pqc_demo/network/secure_server.c:165-369 | No deadlock: with channels of any positive capacity some step is possible until both programs have finished. |
| `Liveness.Terminates` | pqc_demo/network/secure_server.c:165-369 | Every execution, with failures or without, whatever the algorithms and the texts, is bounded by twice the octets and messages of the session and two steps more. |
| `Liveness.RestTotal` | pqc_demo/network/secure_server.c:165-369 | That bound is the octets of all messages of the session and one step for the end of each. |
| `Liveness.Completes` | pqc_demo/network/secure_client.c:349-369 | With working algorithms and texts that fit, an execution without failures that cannot go on has ended in success on both sides, each with the other's text. |
| `Liveness.SuccessReachable` | pqc_demo/network/secure_server.c:165-369 | From every state reached without a failure, however the steps were ordered, there is a way on to success on both sides. |
| `Liveness.NeedsRoom` | pqc_demo/network/secure_server.c:349-353 | A program that has got past a record had room for its text. |
| `Liveness.SucceedsExactly` | pqc_demo/network/secure_client.c:358-362 | With working algorithms and no failing call, an execution that cannot go on has succeeded exactly if both texts have at most 1023 octets. |
| `Liveness.TooLongFails` | pqc_demo/network/secure_client.c:349-354 | There is a session with working algorithms, no failing call and a client text of 1024 octets, which a sender accepts, that comes to a stop without success. |
| `Refinement.StepRefines` | pqc_demo/network/secure_client.c:147-369 | Every step over byte channels is a move of the protocol over message queues or changes nothing there. |
| `Refinement.ExecutionRefines` | pqc_demo/network/secure_client.c:147-322 | Every execution over byte channels, with any chunks, capacity and failures, maps to a play of the message protocol that reaches its abstraction. |
| `Refinement.InFlight` | pqc_demo/src/common.c:7-40 | The octets sent and not yet accepted as part of a message are exactly the queued messages and the sent part of the one after them. |
| `Programs.Program.SendMessage` | pqc_demo/network/secure_client.c:147-159 | Sends the message of the stage, hashes it and moves the machine on; it fails only with a failing call, the octets moved being accounted for. |
| `Programs.Program.Snapshot` | pqc_demo/src/tls_transcript.c:53-86 | The hash of the machine's transcript, unless a library call failed. |
| `Programs.Program.ReceiveMessage` | pqc_demo/network/secure_client.c:161-171 | The program holds one whole message of the stage and its body, or has failed with a cause: a failing kernel call, a stream that ended inside the message, or a bad header. No library is involved. |
| `Programs.Program.Adopt` | pqc_demo/network/secure_client.c:206-214 | A message that passed the checks is hashed and the machine moves on with the variables it sets, unless a library call failed. |
| `Programs.Program.FinishedValue` | pqc_demo/network/secure_client.c:297-308 | The Finished value for the machine's secret and transcript, unless a library call failed. |
| `Programs.Program.ApplicationKeysOf` | pqc_demo/network/secure_client.c:330-339 | The four keys of the machine's secret and whole transcript, unless a library call failed. |
| `Programs.Program.SendRecord` | pqc_demo/network/secure_client.c:349-354 | The record of the stage is on the stream whole and the state is at the next number, unless a call failed. |
| `Programs.Program.SendText` | pqc_demo/network/secure_client.c:349-356 | The record of the stage is sent and the machine is at the next stage, unless a call failed. |
| `Programs.Program.ReceiveRecord` | pqc_demo/network/secure_client.c:358-364 | The machine accepts a record, its text and the next number being the program's, or the program has failed with a cause: a failing call, or octets received that leave it no way to go on. |
| `Programs.OpenProgram` | pqc_demo/network/secure_client.c:139-145 | A program at its first stage that has hashed nothing, or none exactly if the library failed. |
| `SecureClient.SendClientHello` | pqc_demo/network/secure_client.c:147-159 | Takes the program from the machine's stage 0 to stage 1, or to a failure with a flag set or octets received that justify it, as at every stage below. |
| `SecureClient.RecvServerHello` | pqc_demo/network/secure_client.c:161-191 | Stage 1 to 2: the secret is the machine's decapsulation; a wrong length is refused before hashing. |
| `SecureClient.HashAndDecapsulate` | pqc_demo/network/secure_client.c:178-189 | The ServerHello is hashed before the secret is taken out of it; it fails only with a failing library call. |
| `SecureClient.RecvCertificate` | pqc_demo/network/secure_client.c:193-214 | Stage 2 to 3: the key received is the one kept for verification. |
| `SecureClient.RecvCertificateVerify` | pqc_demo/network/secure_client.c:216-253 | Stage 3 to 4: goes on only if the signature verifies over the transcript before this message. |
| `SecureClient.RecvServerFinished` | pqc_demo/network/secure_client.c:255-294 | Stage 4 to 5: goes on only if the value is the one for the server's label over the transcript before it. |
| `SecureClient.SendClientFinished` | pqc_demo/network/secure_client.c:297-322 | Stage 5 to 6, with the value for the client's label over the transcript with the server's Finished. |
| `SecureClient.InitStates` | pqc_demo/network/secure_client.c:330-347 | The record states hold what HKDF derives for the labels: the client's key and IV to send, the server's to receive; they are the machine's, at number 0. |
| `SecureClient.ExchangeTexts` | pqc_demo/network/secure_client.c:349-369 | Stages 6 and 7: the record is sent, and the text read is the machine's. |
| `SecureClient.RunClient` | pqc_demo/network/secure_client.c:147-369 | The program succeeds exactly if no kernel or library call failed and the octets it received neither ended inside a message nor held one to refuse; then its machine is at the end, with socket, transcript and text its own; otherwise it stopped in a failed machine state with its cause. |
| `SecureClient.RunConnected` | pqc_demo/network/secure_client.c:139-369 | The same from the connected socket on, the set-up of the transcript included. |
| `SecureServer.RecvClientHello` | pqc_demo/network/secure_server.c:165-186 | Takes the program from the machine's stage 0 to stage 1, or to a failure with a flag set or octets received that justify it, as at every stage below. |
| `SecureServer.SendServerHello` | pqc_demo/network/secure_server.c:188-209 | Stage 1 to 2: sends the ciphertext encapsulated to the key received and keeps its secret. |
| `SecureServer.SendCertificate` | pqc_demo/network/secure_server.c:211-224 | Stage 2 to 3, with the signing public key as the body sent and hashed. |
| `SecureServer.SendCertificateVerify` | pqc_demo/network/secure_server.c:226-252 | Stage 3 to 4, with a signature over the transcript before this message. |
| `SecureServer.SendServerFinished` | pqc_demo/network/secure_server.c:254-279 | Stage 4 to 5, with the value for the server's label over the transcript with the CertificateVerify. |
| `SecureServer.RecvClientFinished` | pqc_demo/network/secure_server.c:282-321 | Stage 5 to 6: goes on only if the value is the one for the client's label over the transcript before it. |
| `SecureServer.InitStates` | pqc_demo/network/secure_server.c:329-346 | The record states hold what HKDF derives for the labels: the client's key and IV to receive, the server's to send; they are the machine's, at number 0. |
| `SecureServer.ExchangeTexts` | pqc_demo/network/secure_server.c:349-369 | Stages 6 and 7: the text read is the machine's, and the record is sent. |
| `SecureServer.RunServer` | pqc_demo/network/secure_server.c:165-369 | The same for the server as `SecureClient.RunClient` for the client. |
| `SecureServer.RunConnected` | pqc_demo/network/secure_server.c:157-369 | The same from the connected socket on, the set-up of the transcript included. |
| `Interleaving.Interleave` | pqc_demo/network/secure_client.c:147-369 | Two runs of which each receives nothing but what the other sends are the two sides of one execution. |
| `Deployment.UndisturbedSucceed` | pqc_demo/network/secure_client.c:147-369 | With working algorithms and texts that fit, two programs with no flag set on either side have refused no message and found no stream ended: both succeeded, each with the other's text. |
| `Deployment.BothSucceed` | pqc_demo/network/secure_server.c:165-369 | The two programs, run to their ends on a network that delivers what it is given with working algorithms, both succeed exactly if the texts fit and no kernel or library call failed on either side, and then each has read the other's text. |
| `Deployment.TranscriptsNested` | pqc_demo/network/secure_client.c:148-322 | However the two programs ended on such a network, what one digest context has absorbed is a prefix of what the other has. |
| `Deployment.TranscriptIsWire` | pqc_demo/network/secure_client.c:147-369 | Whatever its peer sent, what the digest context of a completed program has absorbed is the handshake octets of its two streams, in the order of the handshake. |
| `Deployment.KeysCross` | pqc_demo/network/secure_server.c:342-346 | If the KEM works on the key pair, two completed programs hold the same secret, and each's sending state is the other's receiving state. |

## Left out

- `NULL` arguments: references are never null here; each such check is one branch.
- Opening, connecting, binding and closing sockets, `malloc` and `free`, `OPENSSL_cleanse`, and printing: they move no octets of the protocol. An allocation that fails counts as a failing library call.
- OpenSSL and liboqs: hash, HKDF, HMAC, AES-GCM, ML-KEM and ML-DSA are parameters. Their outputs are cut or padded to the size of the buffer that the code gives them; randomness is an argument.
- `pqc_demo/src/kdf.c`, `pqc_demo/src/sig_utils.c`, `pqc_demo/tools` and `pqc_demo/demo`: not called by the secure programs, or file input and straight-line library calls.
- Server authentication and secrecy: the client accepts whatever key the Certificate carries, although the repository's own `README.md` (line 10) lists server authentication as a feature, so agreement is proved on honest channels or conditionally on a Finished value.
- Timing, memory wiping and the standard TLS 1.3 key schedule: not functional properties of this code, or declared different in the repository's own `README.md` (lines 285-286).
- `size_t` and `int` lengths are unbounded; no length in the modelled code exceeds 24 bits.
- Protocol.Enabled: a failing call is an `Abort` event that can come before any other event; the machine does the hashing and the computation at the end of a message in one event. `EndpointRuns.Hashing` and `Agreement.TranscriptPrefixBetween` cover the transcripts in between.
- Transport.Socket: all octets a program will be sent are given at the start, and each call moves any number of them; the time at which they arrive is in `Session`.
- Record.AesGcmDecrypt: on failure the front of the buffer may hold anything, as unauthenticated plaintext may be left there.
- RecordChannel.HonestChannel: the sender keeps going only after success, as the programs do; failing calls are in `RecordHistory`, `RecordAdversary` and `RecordExchange`.
- RecordCalls.MakeCallsUnderAttack: the adversary may also break the connection of a call to receive, so no such call is promised to succeed.
