# Verified model of the Pico MQTT/TLS signature benchmark

The repository is the firmware of a benchmark (MQTT over plain TCP or mutual TLS, on Raspberry Pi Pico
boards) and the host programs that evaluate what it prints. This project models the parts with the most
state and arithmetic and proves what they are for. `dafny verify dfyconfig.toml` checks everything.

| Files | What they model |
|---|---|
| `RxRing`, `PlainTransport` | the receive ring, the lwIP callbacks and the polling reader of the plain transport |
| `RemainingLength`, `ClientPackets`, `Stream`, `Connack`, `MqttClient`, `Session` | the MQTT 3.1.1 client over a transport that moves any part of what it is given |
| `BrokerParser` | a broker's parser, written from the standard, as the specification of the client's output |
| `ConnectionLifecycle` | who frees the connection object, the TCP control block, the TLS session and context |
| `HandshakeTiming` | how the TLS transport splits the handshake into waiting and computing |
| `DerTree`, `HawkPki`, `PkiProperties`, `Pem`, `KeyImport` | the certificate generator, a generic reader for DER and PEM, and the key readers on the device |
| `X509` | what the parts of a parsed certificate mean, written from RFC 5280, as the specification of the generator's output |
| `HeapMonitor`, `StackWatermark` | the memory monitor, over every allocator trace and every set of changed stack words |
| `Quantiles`, `MedianInterval`, `Moments`, `Correlation`, `Summary`, `RobustStats` | the statistics of the device and of the host programs, over exact reals |
| `Pareto`, `Matching` | Pareto marking, and the matching of captured streams to logged attempts |
| `Common` | bytes, options, lists and a few facts about sequences |

## How it is modelled

- An object or buffer that the program updates in place is a class with arrays; each method is proved
  against a function of the old state, and the lemmas are about those functions.
- The network, the clock, the allocator, lwIP and wolfSSL are arbitrary parameters: a schedule of events, a
  plan of how many bytes each call moves, a script of answers. Every result holds for all of them, and it
  says for which of them an operation succeeds. Callbacks and locked sections are atomic steps, in any order.
- `uint8_t`, `uint16_t` and `uint32_t` arithmetic is written out with `%`. Masks and shifts on bytes are
  `%` and `/`. Floating-point numbers are reals, and square roots are compared by their squares.
- A null pointer argument is `None`; error codes and exceptions are results.

## Main results

- Bytes returned by reads, followed by bytes in the ring, are the accepted bytes in order, for every
  interleaving of callbacks and polls (`RingRefinesQueue`), and nothing is lost if and only if the ring was
  never asked for more than its size (`LosslessIffNeverOverfull`).
- For any sequence of requests over any transport, the broker's parser has read exactly the completed
  requests and holds a strict prefix of at most one more packet (`RunSession`), up to the final DISCONNECT
  (`RunToDisconnect`); on a transport that does not fail, all of it goes out exactly when the broker accepts
  every CONNECT.
- On every path, with asynchronous errors at any time, nothing leaks and nothing is released twice
  (`RunBenchmark`), and an attempt succeeds exactly when every answer that it needs is good and comes in time
  (`RunAttempt`); the reported handshake times always add up, and when they are what they claim to be is
  known exactly (`GetTimings`).
- Every certificate and key file that fits its buffer is read back by a parser that knows nothing about the
  generator (`CertRoundTrip`, `Pkcs8RoundTrip`, `PemRoundTrip`), says what it was asked to say (`CertificateSays`), and the device imports the generated key
  (`ImportGenerated`). The unwrapping parser's accept set is exact (`UnwrapPrivateKeyData`).
- The median interval's coverage is the fraction of all patterns of observations for which its endpoints
  bracket the median (`CoverageIsFraction`, `EndpointsBracketIff`), and stopping the search early loses
  nothing (`MedianConfidenceInterval`). Pooling is exact (`PoolingIsExact`). The correlation satisfies
  Cauchy-Schwarz (`PearsonInRange`).
- The Pareto frontier is the least set of schemes that beats all the others (`FrontierIsLeastCover`); greedy
  matching recovers the truth in any order if and only if attempts are far enough apart (`MatchingIsTrue`,
  `RecoversIffApart`).

## Where the code does less than one might expect

Each of these is proved as an exact condition or with a concrete input.

- `uint16_t` casts cut strings of 65536 bytes or more, and `encode_remlen` has four bytes: a request
  survives if and only if it fits (`ConnectSurvivesIffFits`, `PublishSurvivesIffFits`, `RoundTrip`).
  A client id of 65536 bytes even passes the size test, and is read as empty (`LongIdPasses`).
- `recv_remlen` accepts a fourth length byte that announces a fifth, and nothing else that the standard
  refuses (`LenientIffStandard`, `FourContinuations`).
- The two CONNACK payload bytes are asked for once: an answer whose bytes come in two reads is
  rejected (`ConnackUnderstoodIffUnsplit`).
- `total_rx_bytes` counts bytes that the ring dropped (`LosslessIffNeverOverfull`, `OneByteTooMany`).
- A chain of buffers that comes with an error code is never freed (`PlainTransport.PlainConn.Callback`).
- The comment on `tls_net_wait_us` says that it is the time spent waiting for the peer. Only receive calls
  that return data are counted, so the figure is the time of all receive calls if and only if every call
  that brought no data returned at once (`HandshakeTiming.TlsConn.GetTimings`); a silent server turns more
  than 15 seconds of waiting into computing (`SilentServer`).
- `integer_small` keeps its `unsigned` argument if and only if it is below 2^16
  (`IntegerKeptIffBelow2To16`).
- BasicConstraints of an end-entity certificate is not in distinguished form: it writes out `cA` FALSE,
  which is the default (`BasicConstraintsDistinguishedIffCa`).
- When too little stack is left to paint, the reported depth is zero (`DepthZeroIffNotPainted`,
  `PaintRefusedIff`).
- A scheme that was never measured is marked "no" without being dominated (`MarkedNoIff`).
- An attempt with a valid start time is not matched if its TCP column exists but holds no positive number
  (`DroppedIff`).
- Matching always finds the truth if and only if all attempts are more than twice the jitter apart
  (`RecoversIffApart`, with an instance in `SeparationIsTight`).

## Model

| member | source | states |
|---|---|---|
| RxRing.Ring.Push | mqtt_client/plain_transport.c:30-36 | after a push the ring holds the old bytes and as much of the new ones as fits, in order |
| RxRing.Ring.Pop | mqtt_client/plain_transport.c:38-46 | a pop returns the oldest bytes, as many as are wanted and present, into the right place of the buffer |
| RxRing.WindowPush | mqtt_client/plain_transport.c:30-36 | storing at the head index appends to the circular window, across the wrap |
| RxRing.WindowPop | mqtt_client/plain_transport.c:38-46 | advancing the tail index drops the first byte of the window, across the wrap |
| PlainTransport.PlainConn.constructor | mqtt_client/plain_transport.c:172 | a zeroed connection is the start of every history |
| PlainTransport.PlainConn.Callback | mqtt_client/plain_transport.c:114-149 | the three lwIP callbacks do what the abstract event does, chains of buffers included: a FIN or a segment with an error closes, an error or a refusal fails, every data byte gives back receive credit, and every chain is freed except one that comes with an error |
| PlainTransport.DropChainIsTailDrop | mqtt_client/plain_transport.c:133-137 | pushing a chain buffer by buffer keeps exactly what pushing its concatenation would |
| PlainTransport.PlainConn.Turn | mqtt_client/plain_transport.c:317-325 | one locked section of a read and the callbacks after it: bytes popped, end-of-connection flag, new state |
| PlainTransport.PlainConn.Read | mqtt_client/plain_transport.c:310-332 | `tls_read` returns, and leaves behind, what the abstract read says, for every schedule of callbacks and clock readings; the buffer is untouched beyond the returned bytes; with the connection ended and the ring empty it fails at once and without a timeout |
| PlainTransport.PlainConn.Write | mqtt_client/plain_transport.c:296-308 | a write is sent whole and counted, or refused without effect |
| PlainTransport.RingRefinesQueue | mqtt_client/plain_transport.c:30-46 | for every interleaving, delivered bytes followed by pending bytes are the accepted bytes in order |
| PlainTransport.LosslessIffNeverOverfull | mqtt_client/plain_transport.c:30-36 | nothing is lost if and only if at no time more than 16384 sent bytes were unread |
| PlainTransport.OneByteTooMany | mqtt_client/plain_transport.c:31 | of 16385 unread bytes all are counted and the last is lost |
| PlainTransport.CountsEverythingArrived | mqtt_client/plain_transport.c:138 | the byte counter is what arrived, including what the ring dropped |
| PlainTransport.EndedIffReported | mqtt_client/plain_transport.c:114-149 | after any history the connection counts as closed exactly if a FIN or a segment with an error came, and as failed exactly if an error or a refusal was reported |
| PlainTransport.ReadIsHistory | mqtt_client/plain_transport.c:310-332 | a read is a history of polls and callbacks, so the results about histories cover reads |
| PlainTransport.ReadHistoryHasSchedule | mqtt_client/plain_transport.c:310-332 | the callbacks of that history are exactly those of the intervals the read went through |
| PlainTransport.ReadReturnsWhatItPops | mqtt_client/plain_transport.c:317-331 | every popped byte is returned, and nothing else |
| PlainTransport.ShortReadOnlyWhenEmpty | mqtt_client/plain_transport.c:323-329 | a read ends short only with the ring empty at its last poll; because of closing if and only if closed by then, otherwise past the deadline |
| PlainTransport.ReadEndsIff | mqtt_client/plain_transport.c:317-329 | a short read reports the end of the connection, and not a timeout, exactly if the end was reported before its last poll |
| PlainTransport.EndedReadDoesNotWait | mqtt_client/plain_transport.c:317-325 | after the end a read returns what is pending at its first poll |
| RemainingLength.EncodeInto | mqtt_client/mqtt.c:16-25 | the loop writes the specified bytes and no others before them |
| RemainingLength.RoundTrip | mqtt_client/mqtt.c:16-25 | decoding gives the value back and leaves what follows alone if and only if it is below 2^28 (section 2.2.3 of MQTT 3.1.1) |
| RemainingLength.StandardTable | mqtt_client/mqtt.c:16-25 | the bounds of each length are encoded as in the table of section 2.2.3 of MQTT 3.1.1 |
| RemainingLength.EncodeIsShortest | mqtt_client/mqtt.c:16-25 | no byte string that decodes to the same value is shorter |
| RemainingLength.PrefixIsIncomplete | mqtt_client/mqtt.c:16-25 | every strict prefix of an encoding makes the decoder wait |
| ClientPackets.TakeFieldOfField | mqtt_client/mqtt.c:27-30 | a length-prefixed string is read back as the part that its 16-bit length covers |
| ClientPackets.FlagsAreLegal | mqtt_client/mqtt.c:112-116 | the connect flags are legal and mean clean session, will and will retain as asked |
| ClientPackets.ConnectRoundTrip | mqtt_client/mqtt.c:88-126 | the broker reads a CONNECT with the cut strings and touches nothing behind it |
| ClientPackets.CutConnectMeans | mqtt_client/mqtt.c:88-91 | each string is cut to its length modulo 2^16, and there is a will exactly if both of its strings are given |
| ClientPackets.ConnectSurvivesIffFits | mqtt_client/mqtt.c:88-126 | the CONNECT that was asked for is read if and only if no string was cut |
| ClientPackets.PublishRoundTrip | mqtt_client/mqtt.c:211-231 | a PUBLISH that fits is read back with its topic, payload and retain flag |
| ClientPackets.PublishSurvivesIffFits | mqtt_client/mqtt.c:214-215 | a PUBLISH is read back if and only if topic and remaining length fit their fields |
| ClientPackets.DisconnectRoundTrip | mqtt_client/mqtt.c:246 | the two DISCONNECT bytes are read as DISCONNECT |
| ClientPackets.PrefixKeepsWaiting | mqtt_client/mqtt.c:34-42 | a strict prefix of a packet is neither accepted nor refused by the broker |
| ClientPackets.SessionRoundTrip | mqtt_client/mqtt.c:77-250 | any completed requests followed by part of one more are parsed into exactly those requests and that part |
| Stream.Conn.SendAll | mqtt_client/mqtt.c:34-42 | the send loop gets out exactly what the transport's answers allow, in order, and succeeds if and only if that is everything |
| Stream.SteadyDelivers | mqtt_client/mqtt.c:34-42 | a transport that always moves at least one byte delivers everything |
| Stream.DeliversUntilFailure | mqtt_client/mqtt.c:34-42 | a send loop gets out what it is given, or all that the transport moves before it fails |
| Stream.SteadyDeliversParts | mqtt_client/mqtt.c:226-229 | several send loops on a transport that does not fail get everything out |
| MqttClient.ReceiveByte | mqtt_client/mqtt.c:44-47 | takes one byte off the stream or fails |
| MqttClient.ReceiveRemLen | mqtt_client/mqtt.c:51-61 | the shifting loop computes the recursive length decoder, or the error value |
| MqttClient.DrainBytes | mqtt_client/mqtt.c:64-73 | discards exactly that many bytes, in chunks of at most 32, or fails |
| MqttClient.ReceiveConnack | mqtt_client/mqtt.c:142-171 | the answer's verdict, error code and consumption |
| MqttClient.BuildConnect | mqtt_client/mqtt.c:104-126 | the 256-byte buffer is never overrun and ends up holding the CONNECT packet |
| MqttClient.LongIdPasses | mqtt_client/mqtt.c:88-103 | a client id of 65536 bytes passes the size test, and the broker reads an empty id |
| MqttClient.Client.Connect | mqtt_client/mqtt.c:77-177 | too large: nothing is sent; otherwise exactly what the transport takes goes out, and if that is the whole packet the verdict is that of the next CONNACK |
| MqttClient.Client.Publish | mqtt_client/mqtt.c:211-231 | exactly what the transport takes in four pieces goes out; success if and only if that is the whole packet |
| MqttClient.SendPublish | mqtt_client/mqtt.c:226-229 | the four sends get out what several send loops get out, each tried only after the one before it succeeded |
| MqttClient.PartsAre | mqtt_client/mqtt.c:226-229 | the pieces of a packet are the whole packet |
| MqttClient.Client.Disconnect | mqtt_client/mqtt.c:245-250 | exactly what the transport takes of the two bytes goes out, and the connection is given up |
| Connack.LenientIffStandard | mqtt_client/mqtt.c:51-61 | the device's length decoder agrees with the standard except that it accepts the malformed fields, which are those whose first four bytes all announce another |
| Connack.FourContinuations | mqtt_client/mqtt.c:51-61 | the malformed field of four bytes 0x80 is read as 0 |
| Connack.LenientRecognisesConnack | mqtt_client/mqtt.c:142-152 | every CONNACK of the standard is recognised, and something else only behind a malformed length |
| Connack.SentinelIsNotALength | mqtt_client/mqtt.c:149-150 | no decoded length equals the error value |
| Connack.ConnackConsumesOnePacket | mqtt_client/mqtt.c:142-171 | an understood answer took exactly one packet of the declared length off the stream, extra payload included, and its second payload byte is the verdict |
| Connack.ConnackUnderstoodIffUnsplit | mqtt_client/mqtt.c:155-160 | on a stream that never fails, a CONNACK is understood if and only if its first two payload bytes come in one read |
| Session.RunSession | mqtt_client/mqtt.c:77-231 | requests until the first failure: the broker has read exactly the completed ones and holds a strict prefix of at most one packet; how many complete, whether all succeed, and how much of the next goes out are those of the abstract run |
| Session.RunToDisconnect | mqtt_client/mqtt.c:77-250 | a whole session: after success the broker has read all requests and the DISCONNECT, or all requests and a strict prefix of the DISCONNECT; on a transport that does not fail it has read all of it if and only if every CONNECT fits and is accepted |
| Session.SteadyRunSucceeds | mqtt_client/mqtt.c:77-231 | on a transport that does not fail, all requests succeed if and only if every CONNECT fits the buffer and is accepted |
| ConnectionLifecycle.Device.OnErr | mqtt_client/plain_transport.c:144-149 | lwIP released the control block, and the connection object it writes to is still allocated |
| ConnectionLifecycle.Device.Callbacks | mqtt_client/tls_transport.c:133-167 | each callback sets its flag, an error takes the control block, and pointers and outstanding resources stay in step; without callbacks armed nothing changes |
| ConnectionLifecycle.Device.WriteTcp | mqtt_client/tls_transport.c:198-211 | lwIP is never called on a control block it has freed; success if and only if there is one, without an error, and lwIP takes the data |
| ConnectionLifecycle.Device.Close | mqtt_client/tls_transport.c:524-542 | everything outstanding is given back once; the control block by lwIP if it took it, otherwise by `tcp_close` if that works and by `tcp_abort` if not; no callback can reach the freed object |
| ConnectionLifecycle.Device.OpenTcp | mqtt_client/plain_transport.c:184-263 | success if and only if the name resolves, lwIP makes a control block and starts, and the connection is reported up, without error and before anything else, within ten seconds |
| ConnectionLifecycle.Device.AwaitTcp | mqtt_client/plain_transport.c:237-263 | the polls find the connection up if and only if some wait within the time brings it, and no earlier wait reported anything |
| ConnectionLifecycle.Device.OpenTls | mqtt_client/tls_transport.c:330-451 | success if and only if every wolfSSL call succeeds and the first decisive handshake round does |
| ConnectionLifecycle.Device.ConnectPlain | mqtt_client/plain_transport.c:168-272 | a connection object exactly if memory and TCP are available, or null with nothing left behind |
| ConnectionLifecycle.Device.ConnectTls | mqtt_client/tls_transport.c:248-460 | a connection object with session and context exactly if memory, TCP and TLS are available, or null with nothing left behind |
| ConnectionLifecycle.Device.RunAttempt | mqtt_client/main.c:406-446 | an attempt succeeds if and only if every step does; afterwards nothing is outstanding, and a success used one connection object, one control block and, over TLS, one session and context |
| ConnectionLifecycle.RunBenchmark | mqtt_client/main.c:556-585 | any number of attempts end with a balanced ledger, and the successful ones are counted |
| HandshakeTiming.SpentFits | mqtt_client/tls_transport.c:171-196 | receive calls in sequence add up to no more than the time that holds them, and split into those with data and those without |
| HandshakeTiming.NothingMissedIff | mqtt_client/tls_transport.c:188-194 | the calls without data took no time if and only if each of them returned at once |
| HandshakeTiming.TlsConn.Await | mqtt_client/tls_transport.c:174-195 | polling ends at the first poll that finds data, an ended connection or the time over, in this order; data is delivered up to the size asked for even if the connection has ended; the timeout is neither early nor late |
| HandshakeTiming.TlsConn.Recv | mqtt_client/tls_transport.c:171-196 | a receive call of the handshake that returns data adds exactly its own duration and one call; one that does not changes no counter, and its whole duration, more than 15 seconds for a timeout, is missed; outside the handshake nothing changes |
| HandshakeTiming.TlsConn.Send | mqtt_client/tls_transport.c:198-211 | refused exactly when the connection is gone or lwIP does not take the data; sent bytes and, during the handshake, accepted sends are counted exactly |
| HandshakeTiming.TlsConn.Handshake | mqtt_client/tls_transport.c:414-451 | a timeout if and only if the time is over after a round, otherwise success if and only if the first round that wants no more has connected; the wall time is recorded with all receive calls inside it; if the peer stays silent, no waiting is reported |
| HandshakeTiming.TlsConn.GetTimings | mqtt_client/tls_transport.c:485-496 | computing plus waiting is the handshake time, so the clamp to zero never hides a deficit; waiting is the time of all receive calls if and only if every call without data returned at once, and the rest is reported as computing |
| HandshakeTiming.TlsConn.Transfer | mqtt_client/tls_transport.c:511-518 | application reads and writes leave every handshake counter as it was |
| HandshakeTiming.Attempt | mqtt_client/main.c:420-446 | the timings after any traffic are those captured when the handshake ended |
| HandshakeTiming.SilentServer | mqtt_client/tls_transport.c:171-196 | a handshake in which more than 15 seconds of waiting are reported as computing and none as waiting |
| DerTree.LenRoundTrip | tools/gen_hawk_pki.c:69-84 | a length is read back if and only if it is below 2^16 |
| DerTree.LenIsMinimal | tools/gen_hawk_pki.c:69-84 | no other length octets for the same length are fewer (section 10.1 of X.690) |
| DerTree.ParseOfEncode | tools/gen_hawk_pki.c:86-103 | a generic definite-length reader gives back every well-tagged tree below 2^16 octets and leaves what follows alone |
| HawkPki.DerBuf.Put | tools/gen_hawk_pki.c:57-62 | appends, or ends the program if the buffer would overflow |
| HawkPki.EncLenInto | tools/gen_hawk_pki.c:69-84 | the length octets in the buffer |
| HawkPki.PutTlv | tools/gen_hawk_pki.c:86-93 | the buffer holds one more value |
| HawkPki.PutNode | tools/gen_hawk_pki.c:95-103 | a constructed value around the values of another buffer |
| HawkPki.PutInteger | tools/gen_hawk_pki.c:116-135 | one more INTEGER, built in a five-byte buffer that is never overrun |
| HawkPki.PutBits | tools/gen_hawk_pki.c:148-162 | one more BIT STRING with its unused-bits octet |
| HawkPki.PutName | tools/gen_hawk_pki.c:172-180 | one more name with a single common name |
| HawkPki.PutSpki | tools/gen_hawk_pki.c:201-207 | one more public key info |
| HawkPki.PutExtension | tools/gen_hawk_pki.c:209-217 | one more extension around the encoded value |
| HawkPki.PutExtensions | tools/gen_hawk_pki.c:258-285 | the extensions that CA, server and client certificates need, in order |
| HawkPki.PutPkcs8 | tools/gen_hawk_pki.c:287-297 | the private key info with private and public bytes in one octet string |
| HawkPki.PutTbs | tools/gen_hawk_pki.c:299-315 | the eight parts of the certificate body, in order |
| HawkPki.PutCert | tools/gen_hawk_pki.c:338-352 | the buffer holds the encoding of the certificate tree, or the program has ended because it did not fit |
| PkiProperties.CertificateSays | tools/gen_hawk_pki.c:258-352 | a reader by RFC 5280 finds in the octets the issuer, subject, times, serial number, keys, algorithms, CA flag, key usages, purpose and alternative names that were asked for, and the signature over the body |
| PkiProperties.FoundExtensions | tools/gen_hawk_pki.c:258-285 | which extensions are found by their identifiers, with which values, and which are critical |
| PkiProperties.CertRoundTrip | tools/gen_hawk_pki.c:338-352 | a certificate that fits is read back completely, and its last part is the signature of exactly the octets of the input in which its first part was read |
| PkiProperties.Pkcs8RoundTrip | tools/gen_hawk_pki.c:287-297 | the key file always fits and carries the private bytes, then the public ones |
| PkiProperties.IntegerKeptIffBelow2To16 | tools/gen_hawk_pki.c:116-135 | the INTEGER has the value of the argument if and only if that is below 2^16, and is then minimal (section 8.3.2 of X.690) |
| PkiProperties.BasicConstraintsDistinguishedIffCa | tools/gen_hawk_pki.c:219-224 | BasicConstraints is in distinguished form if and only if the certificate is a CA's |
| Pem.EncodeGroup | tools/gen_hawk_pki.c:378-386 | the four characters for one to three bytes |
| Pem.PutGroup | tools/gen_hawk_pki.c:387-393 | writes them with a newline behind every 64th character |
| Pem.WritePem | tools/gen_hawk_pki.c:367-398 | the file is the two boundary lines around lines of base64 |
| Pem.Base64RoundTrip | tools/gen_hawk_pki.c:364-386 | decoding by section 4 of RFC 4648 gives back any bytes, padding included |
| Pem.LinesShape | tools/gen_hawk_pki.c:387-395 | every line but the last has 64 characters, none is empty, and none is lost |
| Pem.PemRoundTrip | tools/gen_hawk_pki.c:367-398 | reading a written file gives the bytes back |
| KeyImport.SchemeKey.ImportPublic | mqtt_client/hawk512_tls.c:35-48 | copies a key of the right size, and otherwise changes nothing |
| KeyImport.SchemeKey.ImportPrivateKey | mqtt_client/hawk512_tls.c:50-70 | copies both halves or changes nothing |
| KeyImport.SchemeKey.ImportPrivateKeyPair | mqtt_client/hawk512_tls.c:72-84 | splits the pair after the private bytes, or changes nothing |
| KeyImport.ImportGenerated | mqtt_client/hawk512_tls.c:72-84 | the device ends up with the key that the generator wrote |
| KeyImport.ReadLongLength | mqtt_client/mayo1_tls.c:102-109 | the shifting loop computes the big-endian length without overflow |
| KeyImport.ReadLength | mqtt_client/mayo1_tls.c:97-110 | short and long form lengths of at most four octets are read as X.690 says; anything else is refused |
| KeyImport.UnwrapPrivateKeyData | mqtt_client/mayo1_tls.c:74-119 | succeeds if and only if the input is a raw key pair or exactly one octet string of that size with at most four length octets; the result is always the last bytes of the input |
| KeyImport.UnwrapAndImport | mqtt_client/mayo1_tls.c:60-119 | a key pair, raw or wrapped, ends up in the key object split into private and public bytes; any other input changes nothing |
| KeyImport.FormsAreDisjoint | mqtt_client/snova2454_tls.c:75-119 | no input is both raw and wrapped, and a wrapped key pair is the end of the input |
| KeyImport.UnwrapsWhatEncoderWraps | mqtt_client/mayo1_tls.c:74-119 | what the generator's octet string constructor writes around a key pair is accepted |
| HeapMonitor.PeakIsMaximum | mqtt_client/runtime_memory.c:55-59 | the peak is the largest in-use value over all states of the window |
| HeapMonitor.CountsAreExact | mqtt_client/runtime_memory.c:196-225 | calls, frees and failed calls are counted exactly, modulo 2^32 |
| HeapMonitor.RequestAndStageAreExact | mqtt_client/runtime_memory.c:92-95 | the largest request and the current stage are those of the trace |
| HeapMonitor.FirstFailureIsKept | mqtt_client/runtime_memory.c:61-66 | the failure on record is the earliest, with its size and stage |
| HeapMonitor.QuietRecordsNothing | mqtt_client/runtime_memory.c:61-66 | a failure is on record if and only if one happened |
| HeapMonitor.FailuresAreLatched | mqtt_client/runtime_memory.c:202-205 | a positive failure counter comes with a record |
| HeapMonitor.Monitor.Open | mqtt_client/runtime_memory.c:130-142 | a new window starts from nothing but the current use |
| HeapMonitor.Monitor.MarkTlsStart | mqtt_client/runtime_memory.c:97-102 | the mark becomes part of the trace, and the free heap is taken from the use at the mark |
| HeapMonitor.Monitor.AllocationObserved | mqtt_client/runtime_memory.c:196-207 | an allocation moves the counters, the largest request, the failure record and the peak by one step of the trace, and does nothing outside a window |
| HeapMonitor.Monitor.AllocateR | mqtt_client/runtime_memory.c:209-219 | the hooks keep the variables equal to what the trace makes them |
| HeapMonitor.Monitor.FreeR | mqtt_client/runtime_memory.c:221-225 | likewise for free, null pointers included |
| HeapMonitor.Monitor.NoteAllocationFailure | mqtt_client/runtime_memory.c:61-66 | latches the first failure of an open window and its stage |
| HeapMonitor.Monitor.Close | mqtt_client/runtime_memory.c:144-192 | every reported figure is one of the trace, the free heap before TLS being that at the last mark, and the peak never lies below the start |
| StackWatermark.StackMonitor.Begin | mqtt_client/runtime_memory.c:104-128 | guard and paint are laid exactly between their bounds and nothing else is written |
| StackWatermark.PaintCovers | mqtt_client/runtime_memory.c:109-121 | which words are painted and which are guard words, in byte addresses |
| StackWatermark.StackMonitor.End | mqtt_client/runtime_memory.c:151-186 | the guard flag is set if and only if a guard word changed; the depth reaches to the lowest changed word; depth and unused add up to the capacity |
| StackWatermark.DepthIsMonotone | mqtt_client/runtime_memory.c:151-162 | changing more words never lowers the depth or clears the flag |
| StackWatermark.DepthCoversCaller | mqtt_client/runtime_memory.c:151-162 | the depth covers the frame the window was opened from and is at most the stack |
| StackWatermark.DepthZeroIffNotPainted | mqtt_client/runtime_memory.c:116-119 | a depth of zero means that painting was refused, and nothing else |
| StackWatermark.PaintRefusedIff | mqtt_client/runtime_memory.c:109-116 | painting is refused if and only if the frame is outside the stack or fewer than 128 bytes are left, in whole words |
| Quantiles.QuantilesAgree | mqtt_client/main.c:357-364 | the device's and the host's formulas are the same function |
| Quantiles.QuantileInRange | tools/analyze_hs_csv.py:65-73 | a quantile lies between the smallest and the largest observation |
| Quantiles.QuantileMonotone | tools/analyze_hs_csv.py:65-73 | a larger level never gives a smaller quantile |
| Quantiles.MediansAgree | bench.c:109-110 | at one half both give the odd/even median |
| Quantiles.QuantileIsPiecewiseLinear | mqtt_client/main.c:357-364 | the quantile is an observation at every knot i / (n - 1), and a straight line between neighbouring knots |
| MedianInterval.MedianConfidenceInterval | tools/analyze_hs_csv.py:76-100 | the loop with its early stop returns the order statistics and coverage of the rank found from above: the coverage meets the request unless the rank is 1, and no higher rank does |
| MedianInterval.LargestIsLargest | tools/analyze_hs_csv.py:88-95 | that rank is the largest that meets the confidence, or 1 if none does |
| MedianInterval.CoverageDecreases | tools/analyze_hs_csv.py:89-90 | coverage strictly decreases with the rank |
| MedianInterval.StopIsSafe | tools/analyze_hs_csv.py:94-95 | nothing above the first rank that fails succeeds |
| MedianInterval.CoverageIsFraction | tools/analyze_hs_csv.py:89-90 | the coverage is the fraction of all 2^n below/above patterns with between k and n-k observations below the median |
| MedianInterval.WithTruesCount | tools/analyze_hs_csv.py:89 | the binomial coefficient counts the patterns with that many observations below |
| MedianInterval.EndpointsBracketIff | tools/analyze_hs_csv.py:96-100 | the endpoints bracket the median if and only if the sample's pattern is one of those counted |
| RobustStats.RobustStats | tools/analyze_hs_csv.py:103-121 | every reported figure is that of the sorted sample; an empty sample is an error |
| RobustStats.SummaryIsOrdered | tools/analyze_hs_csv.py:103-121 | minimum, quartiles, median, 90th percentile and maximum are in order, and the interval contains the median |
| RobustStats.SummaryIgnoresOrder | tools/analyze_hs_csv.py:104 | the summary does not depend on the order of the observations |
| Moments.SumSqAboutMean | mqtt_client/main.c:382-387 | squared distances from any point are those from the mean plus n times the squared distance of the mean |
| Moments.PoolingIsExact | tools/summarize_mtls_runs.py:36-43 | pooling the printed means and deviations of equal-size runs gives the mean and sample variance of all observations |
| Correlation.PairsAreRows | tools/summarize_tls_capture_effects.py:30 | a pair is correlated if and only if some row has both values |
| Correlation.CauchySchwarz | tools/summarize_tls_capture_effects.py:35-38 | the squared numerator is at most the product of the sums, with equality if and only if some line through the mean holds all the points |
| Correlation.UndefinedIff | tools/summarize_tls_capture_effects.py:31-39 | no value is returned if and only if there are fewer than two pairs or a column is constant |
| Correlation.PearsonInRange | tools/summarize_tls_capture_effects.py:35-39 | a returned value lies between -1 and 1 |
| Correlation.ExtremeIffOnLine | tools/summarize_tls_capture_effects.py:35-39 | it is 1 if and only if some rising line holds all the points, and -1 if and only if some falling line does |
| Correlation.SquareIsShareExplained | tools/summarize_tls_capture_effects.py:35-39 | the squared value is the share of the variation of y that the best straight line explains |
| Summary.Accumulate | mqtt_client/main.c:375-387 | the two loops compute mean, sample variance, minimum and maximum |
| Summary.SortIsUnique | mqtt_client/main.c:389 | only one rearrangement is sorted, so any sort gives the same row |
| Summary.SummaryOfRearranged | mqtt_client/main.c:382-389 | mean and variance are the same before and after sorting |
| Summary.ExtremesAreEnds | mqtt_client/main.c:375-399 | the running extremes are the ends of the sorted samples |
| Summary.PrintStatRow | mqtt_client/main.c:369-404 | the printed row summarises the samples as they arrived; nothing is printed without samples |
| Summary.RowIsOrdered | mqtt_client/main.c:400-404 | minimum, median, 90th and 99th percentile and maximum are in order, and the mean lies between the extremes |
| Summary.BenchRun | bench.c:68-129 | the first failing call ends the run with its code; otherwise the statistics are those of the timed calls, at most 256, without the warm-up |
| Pareto.DominanceIsStrictOrder | tools/analyze_hs_csv.py:443-452 | dominance is irreflexive, asymmetric and transitive |
| Pareto.DominatesIff | tools/analyze_hs_csv.py:443-451 | lowering one cost and raising none dominates, and nothing else does |
| Pareto.BestIsOnFrontier | tools/analyze_hs_csv.py:440-453 | a scheme that is best on its board in any one cost is on the frontier |
| Pareto.FindFrontier | tools/analyze_hs_csv.py:439-453 | the loop collects exactly the candidates that no other dominates, in any order |
| Pareto.MarkRows | tools/analyze_hs_csv.py:438-458 | every row is marked by its own scheme and board, in any order of boards and rows |
| Pareto.OffFrontierIsCovered | tools/analyze_hs_csv.py:443-453 | every measured scheme off the frontier is dominated by one on it |
| Pareto.FrontierIsNotEmpty | tools/analyze_hs_csv.py:440-453 | a board with a measured scheme has one on the frontier |
| Pareto.FrontierIsAntichain | tools/analyze_hs_csv.py:443-453 | no measured scheme dominates one on the frontier |
| Pareto.MarkedNoIff | tools/analyze_hs_csv.py:454-458 | a row says "no" if and only if its scheme was not measured or a scheme on the frontier dominates it |
| Pareto.FrontierIsLeastCover | tools/analyze_hs_csv.py:438-458 | the frontier beats everything else on the board and is contained in every set that does |
| Matching.CandidateHasStart | tools/analyze_tls_pcaps.py:138-147 | every candidate has a start time, and the one compared is the one tested |
| Matching.DroppedIff | tools/analyze_tls_pcaps.py:138 | an attempt with a start time is dropped if and only if its TCP column exists without a positive number |
| Matching.CandidateIff | tools/analyze_tls_pcaps.py:133-139 | the candidates are the attempts with the scheme, board and campaign of the capture and a positive start |
| Matching.CandidatesAreSelected | tools/analyze_tls_pcaps.py:133-139 | they keep the order of the log, each as often as it was logged |
| Matching.FindCandidates | tools/analyze_tls_pcaps.py:133-139 | the filter finds exactly them |
| Matching.PickNearest | tools/analyze_tls_pcaps.py:154 | the nearest unused candidate, the first of equals |
| Matching.MatchAttemptRuns | tools/analyze_tls_pcaps.py:129-161 | the loop writes the greedy assignment into the rows; every matched row carries the run of an attempt of the same scheme, board and campaign whose own start is within the window |
| Matching.GreedyIsUnique | tools/analyze_tls_pcaps.py:141-161 | there is only one such assignment |
| Matching.MatchesAreDistinct | tools/analyze_tls_pcaps.py:161 | no attempt is given to two streams |
| Matching.MatchesAreClose | tools/analyze_tls_pcaps.py:154-160 | a match is within the window |
| Matching.MatchingIsMaximal | tools/analyze_tls_pcaps.py:150-158 | no unmatched stream is within the window of an attempt that stays unused |
| Matching.MatchingIsTrue | tools/analyze_tls_pcaps.py:129-161 | if streams are within the jitter of their attempts and attempts more than twice that apart, every stream gets its own attempt, in any order and with attempts that left no stream |
| Matching.RecoversIffApart | tools/analyze_tls_pcaps.py:129-161 | for a window not below the jitter, every stream gets its own attempt whatever the streams are if and only if all attempts are more than twice the jitter apart |
| Matching.HalfwayIsLost | tools/analyze_tls_pcaps.py:154 | for any two attempts closer than that, the stream halfway between them is lost if it belongs to the later one |
| Matching.SeparationIsTight | tools/analyze_tls_pcaps.py:154 | an instance at exactly twice the jitter, with the wrong attempt that the stream is given |

## Left out

- Cryptography and wolfSSL: signing, verifying and `wolfSSL_connect` are opaque; `hawk.h` is not part of this model, and its key sizes are constants.
- Wi-Fi, SNTP, DNS callbacks, sensors, serial printing, command lines, CSV files, tshark, CMake and shell scripts.
- SysTick cycle counting in `bench.c`: it depends on hardware wrap and interrupt timing; the harness is given its readings.
- Floating-point rounding; `sqrt` (squares are compared, or the root is a parameter).
- Interleavings finer than the lock: the test of `pcb` just before a locked section belongs to the section.
- The wrap of the 32-bit millisecond clock and of the 64-bit byte and time counters.
- The ring inside the TLS transport, which has the same code as the plain one: its contents are arbitrary in `HandshakeTiming`.
- Bytes sent after a failed request, such as the "offline" message that the sensor program still sends.
- ConnectionLifecycle.Device.RunAttempt: the MQTT exchange is any number of transport calls with an arbitrary outcome; its bytes are the subject of `MqttClient`.
- HandshakeTiming.TlsConn.Handshake: wolfSSL wants more for any finite number of rounds; endless rounds that take no time are left out.
- MqttClient.Client.Connect: does not model the measured connect time, a difference of two clock readings.
- KeyImport.UnwrapPrivateKeyData: only non-null input and output pointers besides the missing input; lengths below 2^32.
- HawkPki.PutValidity: the two times are given as the fifteen characters that `generalized_time` prints.
- BrokerParser: does not check that strings are UTF-8 or that topics are free of wildcards.
- Matching: cells that are not numbers, on which `float` raises.
- Summary.QSort: stands for the C library's `qsort`; any sort gives the same result.
- Summary.BenchRun: accumulates milliseconds and cycles one after the other instead of in one loop.
- StackWatermark: memory starts above address 0, so that a null pointer means refusal only.
- Host adapters, `randombytes`, header generators, row and column counting, and the campaign order tool.
