# Verified model of the RIA-QKD artifact

The project models five parts of the RIA-QKD artifact and proves what they are for.

* **SHA-256, HMAC and HKDF.** `Fips180`, `Rfc2104` and `Rfc5869` state the public standards. `Sha256` and
  `FirmwareKdf` are the firmware's streaming code, with its in-place schedule, rotating round variables, two-case
  padding and fixed scratch block; `PythonKdf` is the Python HKDF. The first is proved to compute what the standards
  say however a message is cut, and the two languages are proved to agree. The statement of the standard is itself
  checked: `BitVectors` and `MachineHash` relate it to the operations of 32-bit machine words, `KnownAnswer` computes
  the digest of "abc" with them, and `KdfLaws` spells out the pads and the chaining of the output blocks.
* **The handshake.** `Message` is the self-delimiting codec, `MessageLaws` and `Utf8Laws` what it makes of arbitrary
  octets, `Handshake` the effect of every call on the two parties' state, `Parties` the client and server objects that
  perform those calls. `Agreement` proves that acceptance implies a shared session against any network, or else names
  two inputs on which SHA-256 or HMAC collides; `HonestRun` proves completion, `Counters` the octet counters of every
  run; `Spelled` states what every call computes in the primitives and literals, when the signature decides, and what
  each key binds, `Exits` every way out of a call; `Concrete` carries agreement down to collisions of SHA-256 itself,
  and `Overhead` runs the handshake on the objects.
* **The benchmark session.** `Framing`, `Wire` and `WireLaws` are the byte formats, `Session` the client and server
  loops as two processes over byte streams, `Verdicts` what their log says about the checks made, `Benchmark` the
  agreement of the two ends, `Concurrency` N such pairs behind their enrolment and the list they share, `Deaths` when
  their processes block and die, `Percentile` the statistics.
* **The microcontroller.** `Firmware` is the Cortex-M4 client with its buffers, `CrossRun` that client against the
  Python server, and `SignedTexts` the two texts under the server's signature.
* **The power trace.** `Ppk2` is the decoder's spike filter, proved equal to a window specification, and its edge
  detector, proved to be the decomposition into maximal runs with energy conserved; `Ppk2Laws` fixes the bits of a
  word, the currents and the columns in numbers.

Octets and words are unsigned integers within their width; wrap-around is written out. Randomness, verification
outcomes and the chunking of `recv` are parameters or arbitrary choices. To verify: `dafny verify dfyconfig.toml`.

Where code and documentation differ, the model follows the code: `decode_samples` returns two lists although its
documentation names three; the header `sha256.h` calls `hkdf_sha256` an expand, but it also extracts. The total of
6619 octets in the artifact's documentation is what `Overhead.MeasureRiaQkd` reports.

## Findings

Properties that a reader might expect and that do not hold, each with the exact condition under which they do.

* **The firmware and `run_server` sign different texts** (`m4/firmware/src/main_handshake.c:124-135`,
  `network/bench_network_1000.py:117`). The firmware's text lacks the length of the identity and the client's
  ephemeral key, so it is always shorter (`CrossRun.NeverTheSameInput`). Against the server of this repository the
  firmware goes on after m2 exactly when the two texts collide under SHA-256 or the signature is also good for another
  hash (`CrossRun.ContinuesIff`); otherwise it halts (`CrossRun.CrossHandshake`). The server it was measured with,
  `ria_server.py` (`m4/README.md:66`), is not in the repository.
* **`recv_frame` does not know the size of its buffer** (`m4/firmware/src/main_handshake.c:69`, `:169`, `:40`). It
  stays in bounds for every input exactly when the buffer has at least 8192 octets (`Firmware.InBoundsIff`): for `m2`
  it does, for the 64 octets of `m4` it does not, and a frame of 65 octets shows it (`Firmware.BuffersOfMain`).
* **The firmware ignores the length of m4** (`m4/firmware/src/main_handshake.c:168-178`). Its check and the one of
  `run_client` agree on all frames of a length exactly when that length is 32 (`Firmware.ChecksAgreeIff`).
* **The parts of the signed text are not delimited** (`common/protocol.py:118`, `:197`). For identities of the same
  total length equal signed hashes give one hello, and equal fields exactly when the lengths agree
  (`Agreement.SignatureBinds`). An octet shifted from the key to the ciphertext (`Agreement.SignatureShift`), or a
  hello taken into the identity (`Agreement.IdentityShift`), shows the other case. The benchmark's text has the length
  of the identity, but none of the keys and ciphertexts (`SignedTexts.ExchangeBinds`).
* **Identity and epoch are not delimited in the derived application key** (`common/protocol.py:19-20`). Equal keys
  give equal identities and epochs exactly when the lengths agree (`Spelled.ApplicationKeyBinds`);
  `Spelled.EpochShift` shows the other case.
* **`from_bytes` reads more than `to_bytes` writes** (`common/protocol.py:66-70`). A value that is cut short and a key
  that is repeated are read without an error, so octets that differ can give one message. They come back from
  `to_bytes` exactly when neither is the case (`MessageLaws.RestoresIff`); `MessageLaws.CutShortIsRead` shows an
  input.
* **Acceptance determines the application key only as HMAC sees it** (`common/protocol.py:126`). Keys that differ in
  trailing zeros within one block give the same tags (`Rfc2104.ZeroPaddedKey`); keys of one length up to 64 octets are
  determined outright (`Concrete.ServerAcceptanceSha256`).
* **The hello of a client that is not enrolled is sent but never counted as received** (`common/protocol.py:184-189`).
  It is the only message that unbalances the counters of a run whose messages are delivered
  (`Counters.CountersBalance`).

## Model

| member | source | states |
|---|---|---|
| Primes.FirstPrimes | m4/firmware/src/sha256.c:13-22 | the table of primes behind the constants holds the first sixty-four primes, in order and none missing |
| Fips180.RoundConstants | m4/firmware/src/sha256.c:13-22 | every entry of the round table is the first 32 fractional bits of the cube root of its prime, as section 4.2.2 of FIPS 180-4 defines them |
| Fips180.InitialConstants | m4/firmware/src/sha256.c:53-54 | the initial state is the fractional bits of the square roots of the first eight primes (section 5.3.3) |
| Fips180.BitOfDigits | m4/firmware/src/sha256.c:40-43 | and, or, exclusive or of the model act on every binary digit separately |
| Fips180.BitOfRotr | m4/firmware/src/sha256.c:24 | shift-and-or is the circular right shift: bit i of the result is bit i+n modulo 32 of the argument |
| Fips180.BitOfCh | m4/firmware/src/sha256.c:40 | bit i of Ch is the bit of the second argument where the first has a one, and of the third elsewhere |
| Fips180.BitOfMaj | m4/firmware/src/sha256.c:43 | bit i of Maj is the majority of the three bits |
| Fips180.BitOfSigmas | m4/firmware/src/sha256.c:32-42 | bit i of each of the four sigma functions is the parity of the three bits of the argument that the standard names; past the top a shifted bit is zero |
| BitVectors.GateValues | m4/firmware/src/sha256.c:40-43 | the digit-wise gates are the and and the exclusive or of a 32-bit machine word |
| BitVectors.AddValue | m4/firmware/src/sha256.c:33-46 | addition modulo 2^32 is the addition of machine words |
| BitVectors.TurnsValue | m4/firmware/src/sha256.c:24 | the circular shift is that many turns of a machine word by one place |
| BitVectors.HalvesValue | m4/firmware/src/sha256.c:32-34 | the right shift is that many halvings of a machine word |
| MachineHash.NextWord | m4/firmware/src/sha256.c:31-35 | word t of the schedule from words t-16, t-15, t-7 and t-2, in the rotations and sums of machine words |
| MachineHash.Step | m4/firmware/src/sha256.c:38-47 | one round on eight machine words: which variable moves where, and the two sums with their rotations |
| KnownAnswer.Abc | m4/firmware/src/sha256.c:26-100 | the digest of the three octets abc is ba7816bf 8f01cfea 414140de 5dae2223 b00361a3 96177a9c b410ff61 f20015ad |
| Fips180.PadLength | m4/firmware/src/sha256.c:72-79 | the number of zero octets completes the message, the mark and the length to whole blocks |
| Fips180.PadLeast | m4/firmware/src/sha256.c:72-79 | and it is the least such number |
| Fips180.PadInjective | m4/firmware/src/sha256.c:72-88 | for messages below 2^61 octets the padded message determines the message |
| Sha256.JoinIsSum | m4/firmware/src/sha256.c:28-30 | the disjunction of the four shifted octets is their big-endian value |
| Sha256.FillSchedule | m4/firmware/src/sha256.c:27-35 | the array filled in place is the recursive message schedule of section 6.2.2 |
| Sha256.RoundLoop | m4/firmware/src/sha256.c:36-47 | the loop over eight rotating variables is the sixty-fourth iterate of the round function, which Step pins bit by bit and Abc by value |
| Sha256.Transform | m4/firmware/src/sha256.c:26-50 | one call turns the state into the next intermediate hash value, for every state and block |
| Sha256.PadBlocks | m4/firmware/src/sha256.c:72-89 | the one-block and two-block cases of the firmware yield exactly the blocks of the padded message |
| Sha256.Context.Init | m4/firmware/src/sha256.c:52-56 | starts an empty message and establishes the streaming invariant |
| Sha256.Context.Absorb | m4/firmware/src/sha256.c:61-66 | one octet extends the absorbed message and keeps the invariant: chain over whole blocks, buffered tail, 64-bit counter |
| Sha256.Context.Update | m4/firmware/src/sha256.c:58-68 | appends its input to the absorbed message, whatever is buffered already |
| Sha256.Context.Final | m4/firmware/src/sha256.c:70-100 | writes the FIPS 180-4 digest of everything absorbed |
| Sha256.HashChunks | m4/firmware/src/sha256.c:52-100 | init, any list of updates, final: the digest of the concatenation, independent of the cutting |
| Rfc2104.ZeroPaddedKey | m4/firmware/src/sha256.c:117 | zeros appended to a key within one block do not change the HMAC |
| Rfc2104.TagBinds | common/crypto_primitives.py:101-104 | equal HMAC tags come from one block key and one text, or SHA-256 collides on the two outer inputs, or on the two inner ones |
| Rfc2104.LongKey | m4/firmware/src/sha256.c:109-115 | a key of more than 64 octets acts as its digest does |
| FirmwareKdf.HmacSha256 | m4/firmware/src/sha256.c:102-127 | is HMAC of section 2 of RFC 2104 for every key and message length |
| FirmwareKdf.HkdfSha256 | m4/firmware/src/sha256.c:129-150 | is extract-then-expand of RFC 5869 for every output length, with all writes to the 65-octet scratch block in bounds; the counter octet wraps after 255 blocks |
| Rfc5869.ExpandPrefix | common/crypto_primitives.py:86-94 | a shorter output is a prefix of every longer one under the same key and info |
| Rfc5869.OneBlock | network/bench_network_concurrency.py:106-107 | the inlined one-block form is Expand to 32 octets |
| KdfLaws.HmacIs | m4/firmware/src/sha256.c:102-127 | HMAC is the hash of the key block with the bits of 0x5c flipped, followed by the hash of the key block with the bits of 0x36 flipped and the text |
| KdfLaws.OutputBlock | common/crypto_primitives.py:86-94 | every block of an HKDF output is the tag of the block before it (none before the first), the info and its counter octet |
| PythonKdf.Expand | common/crypto_primitives.py:86-94 | is the same Expand up to 255 blocks and raises ValueError exactly beyond them |
| PythonKdf.ExtractAgrees | common/crypto_primitives.py:80-83 | replacing an empty salt by 32 zeros changes nothing: Python, C and RFC 5869 extract the same key |
| Message.ToBytes | common/protocol.py:33-51 | the loop yields the byte form, or the error of the first thing that does not fit |
| Message.EncodesIff | common/protocol.py:33-51 | exactly the messages that are accepted: name lengths, field count, value type and value length |
| Message.FromBytes | common/protocol.py:53-72 | the offset-walking loop computes the parse for every input, truncated, not UTF-8, or with repeated keys |
| Message.ParseEncoded | common/protocol.py:33-72 | a byte form is read back exactly and with its own length, whatever follows it |
| Message.RoundTrip | common/protocol.py:33-72 | from_bytes(to_bytes(m)) is m with every value as octets |
| Message.PrefixFree | common/protocol.py:33-51 | injective and prefix-free: equal concatenations have equal first messages and equal rests |
| Message.Reencode | common/protocol.py:33-72 | re-encoding a parsed message restores the octets |
| Message.TranscriptUnambiguous | common/protocol.py:125 | the undelimited transcript input determines both hellos and the ciphertext |
| Message.Size | common/protocol.py:74-75 | size() is 2 + type + 3 + key + value over all fields |
| Utf8Laws.Utf8Iff | common/protocol.py:58 | the octets that decode as UTF-8 are exactly the byte forms of lists of Unicode scalar values, by the table of section 3 of RFC 3629 |
| MessageLaws.PutInPlace | common/protocol.py:69 | a repeated key gets its new value where it stands, and a new one goes to the end; no other field changes |
| MessageLaws.ParsedIsGenuine | common/protocol.py:53-72 | whatever octets from_bytes accepts, the result could have been built: text as type and keys, every key once |
| MessageLaws.RestoresIff | common/protocol.py:33-72 | to_bytes after from_bytes gives back the octets exactly when none of the announced fields repeats a key and nothing is cut short or left over |
| MessageLaws.CutShortIsRead | common/protocol.py:53-72 | four octets with the length of a value missing are read as a message of six octets |
| MessageLaws.FieldExits | common/protocol.py:33-51 | ValueError for a long name or a value that is neither bytes nor text, OverflowError for a long value, exactly |
| MessageLaws.ParseExits | common/protocol.py:53-72 | IndexError where an octet is missing, ValueError where text is not UTF-8, and nothing else |
| Spelled.HelloBytes | common/protocol.py:33-51 | the octets of CLIENT_HELLO, length by length and name by name |
| Spelled.ServerHelloBytes | common/protocol.py:33-51 | the octets of SERVER_HELLO |
| Spelled.FinishedBytes | common/protocol.py:33-51 | the octets of CLIENT_FINISHED and SERVER_FINISHED |
| Parties.Client.constructor | common/protocol.py:79-97 | a fresh client, with the demo key when none is given |
| Parties.Client.Start | common/protocol.py:99-107 | whole new state of the client, success and error, equals the step function |
| Parties.Client.TakeServerHello | common/protocol.py:109-134 | the same, with every exit in the order the code reaches it; SignatureDecides says what the step does with the signature |
| Parties.Client.TakeServerFinished | common/protocol.py:136-144 | the same |
| Parties.Server.constructor | common/protocol.py:154-171 | a fresh server |
| Parties.Server.Enroll | common/protocol.py:173-174 | one entry of the enrolment table changes |
| Parties.Server.TakeClientHello | common/protocol.py:176-207 | whole new state of the server, success and error, equals the step function |
| Parties.Server.TakeClientFinished | common/protocol.py:209-229 | the same, including the rejected tag |
| Overhead.RunHandshake | benchmarks/measure_overhead.py:25-30 | the five calls on a client and a server object: both accept with equal keys when the objects are honest and fresh, and every run that raises nothing ends with balanced counters |
| Overhead.MeasureRiaQkd | benchmarks/measure_overhead.py:17-50 | two new objects and one enrolment: the handshake never fails, and with the nominal lengths the reported sizes are 904, 4825, 835 and 55, in all 6619 octets |
| Spelled.SignatureDecides | common/protocol.py:109-134 | the client goes on only if the signature verifies under the key of its caller over the prefix, the expected server, its identity, its hello, key and ciphertexts; otherwise ValueError, no key set, nothing accepted or sent |
| Spelled.ReplySigned | common/protocol.py:190-200 | the signature in a server's reply is the one over that text with its own identity, the hello it read and the fields it sends |
| Spelled.ServerAuthentication | common/protocol.py:109-134 | a client that goes on with a signature some server step made shares that server's hello, identities and fields, or the signature is good for a second hash too, or SHA-256 collides on the two named texts |
| Spelled.ClientKeys | common/protocol.py:122-134 | transcript hash, both keys, ciphertext and tag of the client, spelled out from the primitives, the received fields and the literals |
| Spelled.ServerKeys | common/protocol.py:209-229 | the same for the server, with the tag it accepts and the one it answers with |
| Spelled.ClientAccepts | common/protocol.py:136-144 | the client accepts exactly the tag over its own CLIENT_FINISHED and its accepted flag says so, also when the tag is wrong |
| Spelled.FinishedKeyBinds | common/protocol.py:127 | equal finished keys mean the same extraction and transcript hash, then the same hellos, ciphertext, application key and secrets, or the named pair of that layer collides |
| Spelled.SessionKeyBinds | common/protocol.py:128 | the same for session keys |
| Spelled.DemoKeyBinds | common/protocol.py:23-24 | equal demo application keys mean equal identities, or a collision of the two named texts |
| Spelled.ApplicationKeyBinds | common/protocol.py:19-20 | equal derived application keys mean the same master key and the same identity and epoch in a row, each of the two exactly when the lengths agree, or a named pair collides |
| Spelled.EpochShift | common/protocol.py:19-20 | an octet moved from the identity to the epoch leaves the derived key as it is |
| Exits.ServerHelloExits | common/protocol.py:109-134 | which exception process_server_hello raises, exactly when, for every state and message, and what the transcript and the rest of the state then are |
| Exits.ServerFinishedExits | common/protocol.py:136-144 | the same for process_server_finished, each exception with its exact condition |
| Exits.ClientHelloExits | common/protocol.py:176-207 | the same for process_client_hello, with the identity that is not UTF-8 and the client that is not enrolled |
| Exits.ClientFinishedExits | common/protocol.py:209-229 | the same for process_client_finished, and when accepted can become true |
| Exits.AcceptsInTheEnd | common/protocol.py:79-144 | for arbitrary messages, a new client has accepted after its three calls exactly when the third returned true, and before that it never has |
| Exits.ServerAcceptsInTheEnd | common/protocol.py:154-229 | the same for a new server and the answer to its second call |
| Agreement.ClientTagAgreement | common/protocol.py:125-129 | equal client tags mean the same hellos, ciphertext and keys, or a named pair under 32-octet keys collides; below that, the same application key and KEM secrets, or the pair that entered the extraction collides |
| Agreement.ServerTagAgreement | common/protocol.py:142-143 | the same for server tags, and equal CLIENT_FINISHED octets |
| Agreement.KeysSeparate | common/protocol.py:127-128 | finished and session key of a run differ, or a named pair of HMAC inputs collides |
| Agreement.NoReflection | common/protocol.py:225 | a client tag never serves as a server tag, of any run, or a named pair collides |
| Agreement.SignatureBinds | common/protocol.py:197 | for identities of the same total length, equal signed hashes mean the same identities in a row, the same hello, and the same key and ciphertexts in a row and field by field exactly when the lengths agree; or SHA-256 collides on a named pair |
| Agreement.SignatureShift | common/protocol.py:197 | an octet moved from the end of the key to the front of the ciphertext leaves the signed hash as it is |
| Agreement.IdentityShift | common/protocol.py:197 | and a hello taken into the identity, with the next hello taken for the start of the key, leaves it too: the identities need their lengths |
| Agreement.StartGives | common/protocol.py:99-107 | the hello carries the client's identity, epoch, nonce and new key, and its byte form is the whole transcript |
| Agreement.ServerHelloGives | common/protocol.py:176-207 | the transcript is the received hello and the returned one; the answer carries the new key, encapsulations to the enrolled and the received key whose secrets are kept, and a signature over that hello and these fields |
| Agreement.ClientFinishedGives | common/protocol.py:109-134 | what a client holds after CLIENT_FINISHED, as functions of its inputs |
| Agreement.ServerFinishedGives | common/protocol.py:209-229 | the server accepts exactly the tag of its own inputs, and what it then holds |
| Agreement.ServerAcceptance | common/protocol.py:209-229 | a server accepting a client-emitted tag agrees with that client on hellos, ciphertext and keys, against any network, or an explicit collision; on the secrets too, or their extraction collides |
| Agreement.ClientAcceptance | common/protocol.py:136-144 | a client accepting a server-emitted tag agrees with that server on the whole transcript and the keys, or an explicit collision; on the secrets too, or their extraction collides |
| HonestRun.DeliveredSame | common/protocol.py:33-72 | a message delivered through its byte form is indistinguishable for the receiver |
| HonestRun.HonestRunCompletes | common/protocol.py:99-229 | every honest run ends with both sides accepting and equal keys, each message direct or through bytes |
| HonestRun.HonestRunMeetsAcceptance | common/protocol.py:99-229 | every honest run meets the hypotheses of the acceptance results, under every delivery choice |
| Counters.MessageSizes | common/protocol.py:74-75 | sizes of the four messages in terms of their field lengths |
| Counters.ClientHelloCounts | common/protocol.py:185-206 | the server counts the hello of an enrolled client and its own answer; of a client that is not enrolled it counts nothing |
| Counters.ServerHelloCounts | common/protocol.py:116-132 | the client counts the answer, and what it returns, also when the signature is rejected |
| Counters.ClientFinishedCounts | common/protocol.py:214-227 | the server counts the message and what it returns, also when the tag is rejected |
| Counters.ServerFinishedCounts | common/protocol.py:138 | the client counts the message whatever it makes of it |
| Counters.CountersBalance | common/protocol.py:106-227 | after every call of every run, with any suite, keys and tags: octets sent by one side are those counted by the other plus the message in flight, except for the hello of a client that is not enrolled |
| Counters.NominalSizes | common/protocol.py:99-229 | with ML-KEM-512 and ML-DSA-44 lengths the four messages take 893 plus the identity, 4825, 835 and 55 octets |
| Counters.NominalTotal | common/protocol.py:106-227 | and the run takes 6608 octets plus the identity, as both sides count them |
| Concrete.SuiteIsHkdf | common/crypto_primitives.py:78-108 | with real SHA-256 and HMAC the suite's extract and expand are those of RFC 5869 |
| Concrete.ServerAcceptanceSha256 | common/protocol.py:209-229 | with the real hash and HMAC the server's acceptance binds the session and the secrets, the application keys as HMAC block keys, unless a named pair of inputs collides under SHA-256 itself |
| Concrete.ClientAcceptanceSha256 | common/protocol.py:136-144 | the same for the client's acceptance |
| Concrete.HonestRunsExist | common/protocol.py:79-171 | the hypotheses of the honest-run results are met by some suite with real SHA-256, for every identity and nonce |
| Framing.Socket.SendMsg | network/bench_network_1000.py:42-43 | appends one frame, or refuses a length of 2^32 |
| Framing.Socket.RecvExactly | network/bench_network_1000.py:47-59 | either loop takes exactly the wanted octets from any chunking, and terminates |
| Framing.Socket.RecvMsg | network/bench_network_1000.py:46-60 | returns the first frame and leaves everything behind it, or disconnects on a short stream |
| Framing.FramesRoundTrip | network/bench_network_1000.py:42-60 | the list sent is the list received, and what follows stays untouched |
| Framing.TakenWasFramed | network/bench_network_1000.py:46-60 | only framed data is ever taken as a frame |
| Framing.CutShort | network/bench_network_1000.py:46-60 | no strict prefix of a frame yields a message |
| Wire.M1RoundTrip | network/bench_network_1000.py:104-111 | the server reads back the m1 the client builds |
| Wire.M2RoundTrip | network/bench_network_1000.py:174-189 | the client reads back the m2 the server builds |
| Wire.M3RoundTrip | network/bench_network_1000.py:125-127 | the server reads back the m3 the client builds |
| Wire.NotFail | network/bench_network_1000.py:123 | neither an m3 with a 32-octet tag nor such a tag equals the failure marker |
| Wire.HellosUnambiguous | network/bench_network_1000.py:130 | the undelimited transcript of m1, m2 and ciphertext determines all their fields |
| Wire.EnrollmentRoundTrip | network/bench_network_concurrency.py:48-59 | parse_enrollment inverts the frame the client worker builds |
| Wire.CredentialRoundTrip | network/bench_network_kemtls_full_1000.py:95-139 | decode_server_credential inverts encode_server_credential |
| WireLaws.FieldRead | network/bench_network_1000.py:105-113 | a field is refused exactly when its length is not there, and one that is cut short is read as far as it goes |
| WireLaws.BuildsIff | network/bench_network_1000.py:104-189 | each message is built exactly when its fields fit their length octets, and otherwise struct raises |
| WireLaws.M1ReadIff | network/bench_network_1000.py:104-111 | an m1 is refused exactly when it ends before the length of its key does, in the lengths it announces itself |
| WireLaws.M2ReadIff | network/bench_network_1000.py:174-189 | an m2 is refused exactly when the length of its last field is not there, and the fields before it are those sent |
| WireLaws.EnrollmentErrors | network/bench_network_concurrency.py:48-59 | ValueError exactly for another prefix, and otherwise only the error of struct |
| WireLaws.CredentialBytes | network/bench_network_kemtls_full_1000.py:95-105 | the octets of the credential, the names and their lengths as literals |
| WireLaws.CredentialErrors | network/bench_network_kemtls_full_1000.py:111-139 | the same for the credential |
| Session.ClientKeeps | network/bench_network_1000.py:165-215 | every client step keeps the lockstep invariant |
| Session.ServerKeeps | network/bench_network_1000.py:103-138 | every server step keeps the lockstep invariant |
| Session.RunKeeps | network/bench_network_1000.py:103-215 | so does every interleaving, under every pattern of failures |
| Session.Queues | network/bench_network_1000.py:103-215 | the client-to-server stream is nothing, [m1], [m3], [FAIL] or [FAIL, m1] in every reachable state |
| Session.NothingMisread | network/bench_network_1000.py:103-215 | no exception, and every frame is read as what it was sent as: m1, m2 and m3 with the fields sent, m4 as the failure marker or the very tag the server computed |
| Session.NeverStuck | network/bench_network_1000.py:103-215 | until the client ends its rounds one side can always move |
| Session.ClientStepCounts | network/bench_network_1000.py:165-215 | every client step decreases a bound on the steps left |
| Session.ServerStepCounts | network/bench_network_1000.py:103-138 | so does every server step, hence no run goes on for ever |
| Session.Accounts | network/bench_network_1000.py:101-215 | errors, latencies and completed at every moment, from the round outcomes |
| Session.AtTheEnd | network/bench_network_1000.py:101-215 | when a run is over, the client has ended, and the server has finished its loop exactly when no failure marker crossed |
| Session.MeasuredIs | network/bench_network_1000.py:214-215 | latencies holds exactly the successful rounds from the warm-up on, in order |
| Verdicts.OutcomesTold | network/bench_network_1000.py:124-215 | in every run a round is in the log as each failure exactly when that very check failed and as a success exactly when all three were made and held; latencies and completed follow from the checks alone |
| Benchmark.ServerAgrees | network/bench_network_1000.py:125-137 | run_server answers FAIL exactly when the tag is not the one over its own transcript and key; if a client made that tag, both agree on m1, m2, ciphertext, key and secrets, or SHA-256 collides on the named pair |
| Benchmark.ClientAgrees | network/bench_network_1000.py:206-213 | a client that finds its expected m4 tag shares all that with the server, and the server read the very m3 the client sent |
| SignedTexts.PythonFields | network/bench_network_1000.py:117 | where each field of the exchange lies in the text run_server signs, octet by octet |
| SignedTexts.ExchangeBinds | network/bench_network_1000.py:191 | equal signed hashes mean the same identity, epoch and nonce and the same keys and ciphertexts in a row, field by field exactly when the lengths agree, or SHA-256 collides |
| Concurrency.ClientMoveKeeps | network/bench_network_concurrency.py:181-235 | every step of a client process, from the enrolment on, keeps its pair's invariant |
| Concurrency.WorkerMoveKeeps | network/bench_network_concurrency.py:62-118 | so does every step of a worker process, which appends exactly the latency it measured |
| Concurrency.NeverUnknown | network/bench_network_concurrency.py:83-86 | a worker in step with its client never takes the FAIL branch for an identity that is not enrolled |
| Concurrency.PairMoves | network/bench_network_concurrency.py:62-119 | while both processes live and the client has rounds left, one of them can move |
| Concurrency.PairEnds | network/bench_network_concurrency.py:72-119 | a stopped worker whose client has ended left its loop through the condition exactly when it did not die and no failure marker crossed |
| Deaths.NoOrphans | network/bench_network_concurrency.py:62-119 | in every interleaving: who waits for a dead process, or for a client that has ended, can move; and nobody dies in a step while both live |
| Deaths.NobodyDies | network/bench_network_concurrency.py:62-119 | in every interleaving without a death from outside nobody ever dies, and every pair runs its rounds and the five of the warm-up |
| Deaths.FirstFrame | network/bench_network_concurrency.py:62-71 | whatever the first frame is: the worker enrols exactly what it says and answers with its key, or the process ends exactly when it cannot be parsed |
| Deaths.Stranger | network/bench_network_concurrency.py:83-86 | an m1 with an identity that is not enrolled is answered with FAIL and starts no handshake |
| Concurrency.PairsInStep | network/bench_network_concurrency.py:62-118 | in every interleaving of N client and worker processes over their own streams, with deaths at any moment: each pair is in lockstep, each worker knows exactly its own client's key and finds it for the m1 it reads, none answers FAIL to an m1 |
| Concurrency.SharedList | network/bench_network_concurrency.py:114-142 | in every interleaving: each worker's part of the list is its measured latencies in order, all but the one in hand, one per handshake after the warm-up; once all have stopped the list is full exactly when every worker finished its loop |
| Ppk2.FieldsRecombine | m4/evidence/benchmark/ppk2_offline_decode.py:82-86 | the three bit fields do not overlap and, with seven unused bits, make up the raw word |
| Ppk2.ConvertMonotone | m4/evidence/benchmark/ppk2_offline_decode.py:88-90 | within a measuring range a higher reading converts to a higher current, never a negative one |
| Ppk2Laws.CurrentLaw | m4/evidence/benchmark/ppk2_offline_decode.py:88-90 | the current is r + r^2 for the one r with resistance times r equal to the reading times 1.8/163840, with the five resistances as numbers |
| Ppk2Laws.WordLaw | m4/evidence/benchmark/ppk2_offline_decode.py:82-86 | a word put together from adc, range, unused and logic is taken apart into the clamped range, the current of four times adc and the lowest logic bit |
| Ppk2Laws.SampleLaw | m4/evidence/benchmark/ppk2_offline_decode.py:75-86 | the i-th sample from its four little-endian octets |
| Ppk2Laws.FirstSwitch | m4/evidence/benchmark/ppk2_offline_decode.py:92-107 | a range switch after the first sample: the average with the weights 0.18 and 0.82 |
| Ppk2Laws.ThreeReplaced | m4/evidence/benchmark/ppk2_offline_decode.py:92-119 | the next two samples go on with that average, and the one behind them is its own again |
| Ppk2Laws.SwitchIntoFour | m4/evidence/benchmark/ppk2_offline_decode.py:92-119 | a switch into range 4: two samples repeat the average, the third has the weight 0.06, the fourth is its own |
| Ppk2.FilterStep | m4/evidence/benchmark/ppk2_offline_decode.py:92-119 | one turn of the five-variable state machine computes the window specification |
| Ppk2.DecodeSamples | m4/evidence/benchmark/ppk2_offline_decode.py:67-125 | every output sample is the window specification of the converted readings, every marker the logic bit |
| Ppk2.FilteredWithin | m4/evidence/benchmark/ppk2_offline_decode.py:92-119 | the filter never leaves the range of the samples seen so far |
| Ppk2.RunsAre | m4/evidence/benchmark/ppk2_offline_decode.py:130-138 | rises and falls pair up and are exactly the maximal runs of ones |
| Ppk2.RunsUnique | m4/evidence/benchmark/ppk2_offline_decode.py:130-138 | no other pair of lists is that decomposition |
| Ppk2.FindPulses | m4/evidence/benchmark/ppk2_offline_decode.py:128-149 | one row per maximal run, in order, and the energy column sums to the energy of all marked samples; IndexError on an empty trace |
| Ppk2.RowLaw | m4/evidence/benchmark/ppk2_offline_decode.py:141-146 | energy is voltage times average current times duration, and the average is at most the peak |
| Ppk2Laws.RowColumns | m4/evidence/benchmark/ppk2_offline_decode.py:141-148 | the columns of a row in the script's numbers: start, end, 3.3 volts, mean and largest sample |
| Ppk2.EnergyConserved | m4/evidence/benchmark/ppk2_offline_decode.py:130-146 | the pulses add up to the samples under the marker, none lost or counted twice |
| Percentile.NearestRank | network/bench_network_1000.py:63-67 | the least value with at least ceil(p n) values at or below it |
| Percentile.Monotone | network/bench_network_1000.py:63-67 | monotone in p |
| Percentile.IndicesAgreeIff | network/summarize_network_evidence.py:16 | the two index formulas agree exactly when p n is not less than 1e-10 above a positive whole number |
| Percentile.PercentilesAgree | network/summarize_network_evidence.py:12-17 | for every whole percentage both functions give the same value on the sorted samples |
| Percentile.SortFixpoint | network/summarize_network_evidence.py:13 | sorting sorted values changes nothing |
| Firmware.SendFrame | m4/firmware/src/main_handshake.c:56-60 | the firmware's header and payload are the Python frame |
| Firmware.Usart.RecvFrame | m4/firmware/src/main_handshake.c:62-75 | for every input and buffer: the frame received and the rest of the buffer and of the input unchanged, or which of the other ends is met: time-out, length above 8192, octet behind the buffer |
| Firmware.InBoundsIff | m4/firmware/src/main_handshake.c:69-72 | recv_frame stays inside its buffer for every input exactly when the buffer has at least 8192 octets |
| Firmware.OverrunsIff | m4/firmware/src/main_handshake.c:62-75 | which inputs leave a buffer of a given size, which are too long, and which are received |
| Firmware.BuffersOfMain | m4/firmware/src/main_handshake.c:38-40 | so it does for the m2 buffer, and for the 64-octet m4 buffer it does not: the input that leaves it |
| Firmware.ReceivesFrames | m4/firmware/src/main_handshake.c:62-75 | with such a buffer it receives what Python's recv_msg returns, up to 8192 octets |
| Firmware.FillM1 | m4/firmware/src/main_handshake.c:94-107 | the buffer filled through a running offset is the Python m1 for the label "default" |
| SignedTexts.FirmwareHello | m4/firmware/src/main_handshake.c:94-107 | the octets of that m1: label, epoch, the nonce i*7+3 and the key with its length |
| SignedTexts.FirmwareFields | m4/firmware/src/main_handshake.c:124-134 | the octets of the text the firmware hashes: prefix, server, label, epoch, nonce, and the fields of m2 |
| Firmware.WalkFindsFields | m4/firmware/src/main_handshake.c:114-122 | the pointer walk over the m2 buffer finds the four fields of every m2 that run_server builds, whatever lies behind them |
| Firmware.HashSigned | m4/firmware/src/main_handshake.c:124-134 | the eight updates hash the firmware's signature input |
| Firmware.FillM3 | m4/firmware/src/main_handshake.c:144-164 | transcript hash, key and CLIENT_FINISHED as functions of the inputs, over the in-place buffers |
| Firmware.CheckM4 | m4/firmware/src/main_handshake.c:170-178 | the loop compares the first 32 octets of the buffer with the tag over the firmware's own m3 |
| Firmware.FinishM4 | m4/firmware/src/main_handshake.c:167-179 | on a frame received into the zeroed buffer: accepted exactly when the frame, filled up with zeros, starts with the tag |
| Firmware.FrameLengthMatters | m4/firmware/src/main_handshake.c:168-178 | the firmware accepts whatever Python accepts, and more exactly for frames that are not 32 octets long |
| Firmware.ChecksAgreeIff | network/bench_network_1000.py:211 | the two m4 checks agree on all tags and frames of a length exactly when it is 32 |
| CrossRun.NeverTheSameInput | m4/firmware/src/main_handshake.c:124-134 | the firmware's signature input and run_server's differ for every exchange, in length already |
| CrossRun.ContinuesIff | network/bench_network_1000.py:117-119 | run_client's check of run_server's signature passes always; the firmware's passes exactly on a hash collision of the two named inputs or when the signature is good for another hash too |
| CrossRun.SameKey | network/bench_network_1000.py:131-132 | Python's extract and expand derive the key of the firmware's single HKDF call |
| CrossRun.TakeM2 | m4/firmware/src/main_handshake.c:111-164 | from the m2 frame to the m3 buffer: the firmware goes on exactly when its signature check passes, and then replies with the tag of its inputs |
| CrossRun.ReplyIsAccepted | network/bench_network_1000.py:125-137 | run_server accepts that reply and answers with the tag the firmware waits for |
| CrossRun.CrossHandshake | m4/firmware/src/main_handshake.c:94-179 | key confirmation over frames in both directions: if the firmware's signature check lets it go on, both implementations accept; otherwise it halts after m2 |

## Left out

- ML-KEM and ML-DSA: only the laws that decapsulation inverts encapsulation and that a signature verifies are used; both are taken without failure probability.
- Errors raised inside the primitives (keys or ciphertexts of the wrong length) are not part of this model.
- A payload value given as `str` is held as its UTF-8 octets and treated as those everywhere, although only `client_id` is ever given so; a `str` that has no UTF-8 form is not part of this model.
- Agreement.ServerAcceptance: stated for objects that have not been used before, since transcripts are never cleared.
- Sha256.Context.Update: `const` input pointers are values, so an input that overlaps the context is excluded.
- FirmwareKdf.HkdfSha256: requires the info lengths for which the writes to its scratch block stay in bounds; the code asks this of its callers silently.
- Firmware.Usart.RecvFrame: the time-outs are the end of the input, and what a write behind the buffer destroys is not part of this model; the run is followed up to it.
- CrossRun.CrossHandshake: for m2 frames of `run_server`; what the walk reads when a frame is shorter than its fields announce is not compared with Python.
- Session.RunKeeps: a step runs from one receive to the next, and a send never blocks; client and server have the same number of rounds.
- Concurrency.PairsInStep: the anchor file that is missing, and every other cause of an exception that is not a read frame, is a death of the process at that moment.
- The KEMTLS session loops and their m1 and m2 layouts, which have the shape of the layouts already covered.
- Ppk2.DecodeSamples: arithmetic is exact, and offsets and gains are the constants 0 and 1 of the script; `&` with a mask and `>>` are taken as division and remainder.
- Percentile.NearestRank: arithmetic is exact; floating-point rounding of p n is not modelled.
- Timing, JSON and CSV output, command lines, sockets, process creation, provisioning, registers and start-up code.
