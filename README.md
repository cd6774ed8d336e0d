# A verified model of the FuseSource STOMP 1.0 client

This project models the client class `Stomp` of the PHP STOMP library
(`src/FuseSource/Stomp/Stomp.php`) in Dafny and proves what its operations do.
The class connects to one broker out of a failover list and sends frames:
CONNECT, SEND, SUBSCRIBE, UNSUBSCRIBE, BEGIN, COMMIT, ABORT, ACK and DISCONNECT.
It can ask for a receipt and wait for it, reads frames off the socket, and
renews its subscriptions after reconnecting.

The project is laid out as follows:

- `wrappers.dfy`:
  - `Wrappers`: `Option`, `Result` and `Outcome`. `Outcome` is the value of a PHP method that returns nothing or throws.
  - `Sequences`: small facts about concatenation and slicing.
  - `Errors`: one constructor per `StompException` message.
- `text.dfy` (`Text`): the PHP string functions the client uses, written out: `explode` with and without a limit, `trim`/`ltrim`/`rtrim`, `strtolower` and `stristr`.
- `ordered_maps.dfy` (`OrderedMaps`): PHP arrays with string keys, as ordered maps. A new key goes at the end; an existing key keeps its place.
- `frames.dfy` (`Frames`): frames, and the decoding `readFrame` applies to the text of one frame.
- `wire.dfy` (`Wire`): the readiness check, the chunk-reading loop and `readFrame`, as functions of a script of socket events.
- `receipts.dfy` (`Receipts`): `_prepareReceipt` and `_waitForReceipt`, with the pending-frame buffer `_waitbuf`.
- `commands.dfy` (`Commands`): the header maps built for every frame the client writes, and broker-vendor detection.
- `endpoints.dfy` (`Endpoints`): the broker-URI split in `_init` and the endpoint choice and bounded retry of `_makeConnection`.
- `sessions.dfy` (`Sessions`): the whole client state as one value (`Session`). Every public operation is a function from the state before to the state after plus the result.
- `session_laws.dfy` (`SessionLaws`): what the operations promise, stated over those functions. This covers the validity invariant, the subscription registry, receipts, connecting, round-robin failover and the replay of subscriptions in `_reconnect`.
- `stomp.dfy` (`Client`): the imperative client.
  - Class `Stomp` holds the client's fields. Each of its methods updates them in place and is proved to equal its `Sessions` function.
  - The loops of `readFrame`, `_makeConnection` and `_init` are methods with loop invariants, proved against their functions.
  - `Open` is `new Stomp($brokerUri)`: a URI that `_init` rejects yields no client.

The surroundings of the client become values:

- the socket is `open` plus a script of events the socket will deliver (silence, a failing `stream_select`, a chunk from `fgets`, the end of the stream);
- `fwrite` appends to a log of frames sent;
- each `fsockopen` consumes one boolean from a script of dial outcomes; an exhausted script means refused;
- `rand()` consumes one number from a script of draws;
- `md5(microtime())` becomes a ticket made from a counter.

The constants are those of the source: 10 connection attempts, default port 61613, and default broker vendor `AMQ`.

Where the code does something other than what it evidently sets out to do, the model follows the code.

- **Round robin.** `_makeConnection` starts its search from `_currentHost`, which suggests round-robin failover continuing after the host of the last connection. In the code, `_makeConnection` calls `disconnect()`, which sets `_currentHost` to -1, and only then reads `_currentHost` (Stomp.php lines 147-149 and 509). So every connect restarts at the first listed host. `SessionLaws.MakeConnectionRestartsAtFirstHost` states this.
- **Waiting for a receipt.** A wait that reads "no frame" before anything else keeps that `false` in its buffer. It gives up at the second "no frame" and leaves `[false]` pending (`Receipts.SilenceIsBuffered`).
- **Stored credentials.** `connect` never reuses stored credentials, because `disconnect` clears them first (`SessionLaws.ConnectCredentials`).

## Model

| member | source | states |
|---|---|---|
| Text.WhitespaceIsLow | src/FuseSource/Stomp/Stomp.php:212 | proof helper for TrimmedContains: trim()'s default set of stripped characters holds nothing above the space |
| Text.FindFrom | src/FuseSource/Stomp/Stomp.php:579 | the index returned is the first occurrence of the pattern at or after the start; None means it never occurs there |
| Text.SplitOnce | src/FuseSource/Stomp/Stomp.php:579 | explode with limit 2: the text is the part before, the separator, then the part after; nothing before it matches; None exactly when the separator never occurs |
| Text.Split | src/FuseSource/Stomp/Stomp.php:580 | explode on one character: one piece more than separators, no piece holds the separator, and joining the pieces gives the text back |
| Text.SplitWithoutSeparator | src/FuseSource/Stomp/Stomp.php:580 | a text without the separator explodes into itself alone |
| Text.SplitAfterPiece | src/FuseSource/Stomp/Stomp.php:580 | a separator-free piece followed by the separator explodes into that piece, then the pieces of the rest |
| Text.SplitJoin | src/FuseSource/Stomp/Stomp.php:580 | explode undoes implode when no piece holds the separator |
| Text.TrimLeft | src/FuseSource/Stomp/Stomp.php:574 | ltrim removes a prefix made only of stripped characters, and what is left does not start with one |
| Text.TrimRight | src/FuseSource/Stomp/Stomp.php:574 | rtrim removes a suffix made only of stripped characters, and what is left does not end with one |
| Text.Trim | src/FuseSource/Stomp/Stomp.php:574 | trim leaves the slice between a stripped prefix and a stripped suffix, made only of characters of the set, and neither starts nor ends with one |
| Text.TrimRightDropsLast | src/FuseSource/Stomp/Stomp.php:591 | a stripped character appended at the end does not change rtrim |
| Text.TrimLeftKeepsLast | src/FuseSource/Stomp/Stomp.php:591 | ltrim of a text that keeps something keeps any character appended to it |
| Text.TrimLeftAllStripped | src/FuseSource/Stomp/Stomp.php:591 | a text ltrim erases is still erased after appending a stripped character |
| Text.TrimIgnoresTrailing | src/FuseSource/Stomp/Stomp.php:591 | trim of a text with a stripped character appended (the NUL terminator) equals trim of the text |
| Text.Lower | src/FuseSource/Stomp/Stomp.php:212 | ASCII lower-casing keeps the length and lower-cases every character in place |
| Text.LowerSlice | src/FuseSource/Stomp/Stomp.php:212 | lower-casing commutes with taking a slice |
| Text.ContainsInSlice | src/FuseSource/Stomp/Stomp.php:212 | what stristr finds in a slice of a text it also finds in the whole text |
| Text.WindowContains | src/FuseSource/Stomp/Stomp.php:212 | a slice with only spaces and control characters around it contains a needle with printable ends, ignoring case, exactly when the whole text does |
| Text.TrimmedContains | src/FuseSource/Stomp/Stomp.php:212 | stristr finds such a needle in trim() of a text exactly when it finds it in the text |
| Text.Digits | src/FuseSource/Stomp/Stomp.php:340 | the decimal text of the prefetch size is one or more digits, and reading it back gives the number |
| Text.Decimal | src/FuseSource/Stomp/Stomp.php:340 | an integer prints as its digits, after a minus sign when negative, and the digits read back to its magnitude |
| Text.DecimalInjective | src/FuseSource/Stomp/Stomp.php:340 | different integers print as different texts |
| OrderedMaps.Keys | src/FuseSource/Stomp/Stomp.php:586 | the keys of an array, one per entry, in insertion order |
| OrderedMaps.Get | src/FuseSource/Stomp/Stomp.php:299 | a lookup is absent exactly when the key is not held, and otherwise gives that key's value |
| OrderedMaps.Put | src/FuseSource/Stomp/Stomp.php:586 | assignment sets the key, leaves every other key as it was, keeps an existing key in place and appends a new one |
| OrderedMaps.GetAppended | src/FuseSource/Stomp/Stomp.php:586 | appending a new key keeps keys unique and the lookup of every other key |
| OrderedMaps.Delete | src/FuseSource/Stomp/Stomp.php:396 | unset removes the key, keeps every other key's value, adds no key, and changes nothing when the key is absent |
| OrderedMaps.DeleteKeepsOrder | src/FuseSource/Stomp/Stomp.php:396 | unset of a held key removes exactly that key's entry and keeps the other entries in their order |
| OrderedMaps.PutAll | src/FuseSource/Stomp/Stomp.php:354-356 | a foreach of assignments: untouched keys keep their values, and each assigned key ends with its last assignment |
| OrderedMaps.PutAllOverrides | src/FuseSource/Stomp/Stomp.php:256 | merging a map overrides exactly the keys it holds, with its values |
| OrderedMaps.PutAllSnoc | src/FuseSource/Stomp/Stomp.php:583-590 | one more assignment at the end of the loop is one more Put after the others |
| OrderedMaps.ReplayRebuilds | src/FuseSource/Stomp/Stomp.php:635-637 | replaying every entry of a map into an empty one rebuilds it exactly, order included |
| OrderedMaps.DeleteThenPut | src/FuseSource/Stomp/Stomp.php:363 | unsubscribing then subscribing again leaves one entry for the destination, the last one, holding the new value |
| OrderedMaps.DeleteLength | src/FuseSource/Stomp/Stomp.php:396 | unset shrinks the array by one exactly when the key was held |
| Frames.DecodeHeaderLine | src/FuseSource/Stomp/Stomp.php:585 | a line with a colon splits into a colon-free name, the first colon and the value; a line without one is a name with an empty value |
| Frames.HeaderValueKeepsColons | src/FuseSource/Stomp/Stomp.php:585 | a header line splits on its first colon only, so a value may contain colons |
| Frames.HeaderPairs | src/FuseSource/Stomp/Stomp.php:583-590 | one name/value pair per header line, in order, each split on its first colon |
| Frames.HeaderPairsSnoc | src/FuseSource/Stomp/Stomp.php:583-590 | one more header line gives one more pair at the end |
| Frames.DecodeHeadersSnoc | src/FuseSource/Stomp/Stomp.php:583-590 | one more header line is one more assignment, made after the earlier ones |
| Frames.DecodeHeadersPrefix | src/FuseSource/Stomp/Stomp.php:583-590 | decoding the first k+1 header lines assigns line k after decoding the first k |
| Frames.HeaderBlockHasNoBlankLine | src/FuseSource/Stomp/Stomp.php:579-580 | a command line followed by non-empty header lines, joined by newlines, has no blank line, begins with the command and does not end in a newline |
| Frames.FirstBlankLineEndsHeaders | src/FuseSource/Stomp/Stomp.php:579 | in a frame's text the first blank line is the one after the header block, so the body may contain blank lines |
| Frames.DecodeFrameLayout | src/FuseSource/Stomp/Stomp.php:579-591 | decoding a command line, header lines, a blank line and a body gives that command, the header lines folded into an array and the trimmed body |
| Frames.TerminatorNotInBody | src/FuseSource/Stomp/Stomp.php:591 | the NUL terminator at the end of the text is trimmed off the body |
| Wire.Gather | src/FuseSource/Stomp/Stomp.php:565-577 | the read loop always consumes socket events, so it ends; what it assembles is stated by GatherChunks and GatherLost |
| Wire.Probe | src/FuseSource/Stomp/Stomp.php:605-623 | hasFrameToRead reports a frame exactly when the socket is open and has a chunk or its end to give, leaving those for fgets; it reports nothing on a timeout; it fails without a socket or when stream_select fails |
| Wire.TransportRead | src/FuseSource/Stomp/Stomp.php:557-591 | a read past the buffer leaves nothing pending and, when it succeeds, consumes socket events unless the socket has nothing left |
| Wire.ReadFrameSpec | src/FuseSource/Stomp/Stomp.php:553-559 | a successful readFrame consumes a pending frame or a socket event, unless both are exhausted and it returns false |
| Wire.GatherChunks | src/FuseSource/Stomp/Stomp.php:565-577 | a frame fgets delivers in several non-empty chunks, the NUL arriving with the last, completes the loop with all the chunks' text, newline-trimmed, and leaves the events after it |
| Wire.GatherStep | src/FuseSource/Stomp/Stomp.php:566-571 | a chunk without a NUL is appended and the loop goes on |
| Wire.ChunkedFrame | src/FuseSource/Stomp/Stomp.php:557-591 | with nothing pending, readFrame of a frame delivered in several chunks returns the decoding of the chunks' newline-trimmed text and leaves the events after it |
| Wire.GatherLost | src/FuseSource/Stomp/Stomp.php:566-570 | chunks without a NUL followed by a read that gives false or "" lose the connection, and the text read so far |
| Receipts.EffectiveSync | src/FuseSource/Stomp/Stomp.php:275-278 | the per-call sync, when given, overrides the client's sync setting |
| Receipts.PrepareReceipt | src/FuseSource/Stomp/Stomp.php:273-282 | with the effective sync on the frame carries the new receipt id; otherwise it is unchanged; no other header changes |
| Receipts.AwaitedReceipt | src/FuseSource/Stomp/Stomp.php:294-302 | a receipt id is awaited exactly when the effective sync is on and the frame has a non-empty receipt header, and it is that header's value |
| Receipts.ReceiptTagging | src/FuseSource/Stomp/Stomp.php:273-302 | a synchronous request is tagged with the fresh receipt id and waits for exactly that id; an asynchronous one is sent unchanged and not waited on; no other header changes |
| Receipts.PendingSuffix | src/FuseSource/Stomp/Stomp.php:554 | taking a frame off the pending buffer keeps its shape |
| Receipts.AwaitKeepsPending | src/FuseSource/Stomp/Stomp.php:304-323 | the buffer a wait leaves pending holds no RECEIPT, and "no frame" only at its head |
| Receipts.PendingNext | src/FuseSource/Stomp/Stomp.php:321 | the next pending entry is no RECEIPT, and is "no frame" only when nothing was collected before it |
| Receipts.PendingAppend | src/FuseSource/Stomp/Stomp.php:321 | collecting a non-RECEIPT entry keeps the buffer's shape |
| Receipts.AwaitStops | src/FuseSource/Stomp/Stomp.php:307-316 | when the wait ends without error it was reading the socket, and it leaves exactly the frames it collected pending |
| Receipts.AwaitCollects | src/FuseSource/Stomp/Stomp.php:320-322 | a collected frame extends the backlog, keeping the old backlog as its prefix |
| Receipts.StartsWithTransitive | src/FuseSource/Stomp/Stomp.php:304-323 | proof helper for AwaitKeepsBacklog: a prefix of a prefix is a prefix |
| Receipts.AwaitKeepsBacklog | src/FuseSource/Stomp/Stomp.php:304-323 | a wait that ends without error keeps the earlier pending frames first, in order, in the new pending buffer |
| Receipts.SilenceIsBuffered | src/FuseSource/Stomp/Stomp.php:305-322 | on a silent socket the first "no frame" is collected, the second gives up with false, and one "no frame" is left pending |
| Receipts.AwaitOutcome | src/FuseSource/Stomp/Stomp.php:305-322 | one turn of the wait, for every input: a failed read ends it with the read's error; "no frame" after something was collected ends it with false and the collected frames pending; a RECEIPT with the awaited id ends it with true and the collected frames pending; a RECEIPT with another id ends it with the unexpected-receipt error carrying that id and body, the collected frames dropped; anything else is collected |
| Receipts.AwaitResults | src/FuseSource/Stomp/Stomp.php:304-323 | a wait ends with false only with frames left pending, and fails only with a failed readiness check, a lost connection, or a receipt for another id than the awaited one |
| Receipts.WaitForReceiptSpec | src/FuseSource/Stomp/Stomp.php:291-326 | no wait and true when no receipt id is awaited; otherwise false only with frames left pending, and the only errors are a failed readiness check, a lost connection, or a receipt for another id |
| Receipts.ReceiptFirst | src/FuseSource/Stomp/Stomp.php:304-316 | the matching RECEIPT arriving first, in however many chunks, ends the wait with true and nothing pending |
| Receipts.WrongReceiptFirst | src/FuseSource/Stomp/Stomp.php:313-318 | a RECEIPT for another id arriving first, in however many chunks, ends the wait with the unexpected-receipt error carrying its receipt-id and body |
| Commands.PropertiesOrNone | src/FuseSource/Stomp/Stomp.php:353 | missing properties contribute no header |
| Commands.SubscribeBase | src/FuseSource/Stomp/Stomp.php:338-351 | ack is client; the vendor's prefetch header holds the prefetch size; the vendor's subscription-name header holds the client id when one is set; no other header |
| Commands.SubscribeHeaders | src/FuseSource/Stomp/Stomp.php:336-359 | the destination is the subscribed one; every other header comes from the properties when they hold it, otherwise from the base headers |
| Commands.SubscribePropertiesWin | src/FuseSource/Stomp/Stomp.php:353-357 | a caller's property beats the client's own prefetch or subscription id |
| Commands.UnsubscribeHeaders | src/FuseSource/Stomp/Stomp.php:380-392 | the destination is the argument; for RabbitMQ with a client id, id is the client id, even over the properties; every other header is the caller's |
| Commands.TransactionHeaders | src/FuseSource/Stomp/Stomp.php:410-456 | begin/commit/abort carry a transaction header exactly when an id is given, and nothing else |
| Commands.AckHeaders | src/FuseSource/Stomp/Stomp.php:466-490 | for a frame: its headers, the transaction when given, and no content-length for RabbitMQ; for an id: message-id and the transaction; never a receipt the acknowledged frame lacked |
| Commands.SendFrame | src/FuseSource/Stomp/Stomp.php:252-262 | a text becomes SEND with the argument as destination over the properties; a frame keeps command and body, gets the destination, and the properties are merged over it, winning even on the destination |
| Commands.ConnectHeaders | src/FuseSource/Stomp/Stomp.php:202-206 | CONNECT carries login and passcode, client-id exactly when a client id is set, and nothing else |
| Commands.DisconnectHeaders | src/FuseSource/Stomp/Stomp.php:497-501 | DISCONNECT carries client-id exactly when a client id is set, and nothing else |
| Commands.DetectVendor | src/FuseSource/Stomp/Stomp.php:212-214 | the vendor becomes RMQ or stays as it was, and changes only when the CONNECTED frame has a server header |
| Commands.RabbitMQLowered | src/FuseSource/Stomp/Stomp.php:212 | proof helper for the vendor lemmas: "RabbitMQ" and "rabbitmq" lower-case to the same text |
| Commands.RabbitMQRecognised | src/FuseSource/Stomp/Stomp.php:212-214 | a server header holding "RabbitMQ" in any case, at any position, gives RMQ |
| Commands.DetectVendorSearches | src/FuseSource/Stomp/Stomp.php:212-214 | the vendor becomes RMQ exactly when the server header contains "rabbitmq" ignoring case, anywhere; otherwise it stays as it was |
| Commands.OtherBrokerKept | src/FuseSource/Stomp/Stomp.php:212-214 | a server header without the letter r in either case, such as "ActiveMQ/5.15.0", keeps the vendor |
| Endpoints.UrlPieces | src/FuseSource/Stomp/Stomp.php:104-111 | a non-failover URI is one URL; a failover host list gives one comma-free piece per comma-separated URL, joining back to the list |
| Endpoints.FailoverPiecesInOrder | src/FuseSource/Stomp/Stomp.php:107 | the failover pieces are the listed URLs, in the order written |
| Endpoints.ParsedPrefix | src/FuseSource/Stomp/Stomp.php:108-133 | the hosts pushed are the parses of the leading URLs that parse, in order, stopping at the first that does not |
| Endpoints.InitSpec | src/FuseSource/Stomp/Stomp.php:97-134 | _init keeps the hosts held before first and only appends to them, and a rejected URI leaves the parameters alone |
| Endpoints.InitFailoverPrefix | src/FuseSource/Stomp/Stomp.php:97-134 | a failover URI pushes the parsed leading URLs and fails naming the first bad one, or passes |
| Endpoints.InitSplitsFailover | src/FuseSource/Stomp/Stomp.php:97-134 | a failover URI whose URLs all parse is accepted with one host per URL, in order |
| Endpoints.InitRejectsPiece | src/FuseSource/Stomp/Stomp.php:107-133 | the first failover URL that does not parse rejects the URI, naming that URL, after the URLs before it were pushed |
| Endpoints.EffectivePort | src/FuseSource/Stomp/Stomp.php:165-167 | a missing port or port 0 means 61613; any other port is kept |
| Endpoints.Following | src/FuseSource/Stomp/Stomp.php:159 | the next index round robin is one more, wrapping to the first host |
| Endpoints.NextIndex | src/FuseSource/Stomp/Stomp.php:156-160 | every attempt dials the index of a configured host |
| Endpoints.Dial | src/FuseSource/Stomp/Stomp.php:155-183 | the attempts loop dials at most as many times as attempts remain |
| Endpoints.DialOnDial | src/FuseSource/Stomp/Stomp.php:155-180 | the loop carrying its record of indexes tried agrees with Dial, the record being the earlier indexes then Dial's |
| Endpoints.DialedWithinPrepend | src/FuseSource/Stomp/Stomp.php:155-180 | one more in-range index dialed first keeps every index in range and a success on the last index dialed |
| Endpoints.DialInRange | src/FuseSource/Stomp/Stomp.php:155-180 | every index dialed names a configured host, and a connection is made to the last index dialed |
| Endpoints.FirstSuccess | src/FuseSource/Stomp/Stomp.php:172-179 | the first successful dial within the attempts left, with every dial before it refused; None when all are refused |
| Endpoints.RoundRobin | src/FuseSource/Stomp/Stomp.php:159 | the round-robin indexes after a start: in range, the first following the start, each following the one before |
| Endpoints.RoundRobinFromStart | src/FuseSource/Stomp/Stomp.php:149-159 | from index -1 round robin tries the hosts in listed order |
| Endpoints.DialStep | src/FuseSource/Stomp/Stomp.php:155-180 | one turn of the loop: fail naming the host after a refused last attempt on the last host, stop on success, otherwise go on |
| Endpoints.DialContinues | src/FuseSource/Stomp/Stomp.php:155-180 | a refused round-robin dial that does not end the loop leaves the rest to the next attempt |
| Endpoints.RoundRobinCons | src/FuseSource/Stomp/Stomp.php:159 | round robin visits the following index, then goes on from there |
| Endpoints.SucceededPrepend | src/FuseSource/Stomp/Stomp.php:175-178 | a refused dial before a successful dialing moves the success one try later |
| Endpoints.DialSucceeds | src/FuseSource/Stomp/Stomp.php:155-180 | without randomize, the loop dials the hosts round robin and connects at the first success, having dialed exactly the hosts up to it |
| Endpoints.ExhaustedPrepend | src/FuseSource/Stomp/Stomp.php:173-182 | a refused dial of another host before an exhausted dialing keeps its verdict |
| Endpoints.DialExhausted | src/FuseSource/Stomp/Stomp.php:155-183 | without randomize and with every dial refused, the loop dials once per attempt round robin and fails, naming the last host only when the last attempt was made on it |
| Endpoints.DialLastAttempt | src/FuseSource/Stomp/Stomp.php:173-174 | a refused last attempt on the last host fails with "Could not connect to" that host, port and 10/10 |
| Sessions.Ticket | src/FuseSource/Stomp/Stomp.php:280 | a receipt id is never empty, so a tagged request is always waited on |
| SessionLaws.DisconnectIdempotent | src/FuseSource/Stomp/Stomp.php:495-514 | disconnecting twice is disconnecting once |
| SessionLaws.DisconnectKeepsValid | src/FuseSource/Stomp/Stomp.php:495-514 | disconnect keeps the session valid and leaves it not connected |
| SessionLaws.AsyncRequest | src/FuseSource/Stomp/Stomp.php:291-302 | an asynchronous request on an open socket writes the frame unchanged, reads nothing and returns true |
| SessionLaws.SyncRequest | src/FuseSource/Stomp/Stomp.php:263-265 | a synchronous request writes the frame with a fresh receipt id, advances the clock and waits for exactly that id |
| SessionLaws.ReadKeepsPending | src/FuseSource/Stomp/Stomp.php:553-555 | readFrame keeps the shape of the pending buffer |
| SessionLaws.ReadChunkedFrame | src/FuseSource/Stomp/Stomp.php:551-591 | with nothing pending on an open socket, readFrame returns the frame the next chunks deliver, decoded from their newline-trimmed text, and the socket is left at the events after it |
| SessionLaws.BufferedReadsInOrder | src/FuseSource/Stomp/Stomp.php:553-555 | while entries are pending, k reads return the first k pending entries first in, first out, and change nothing but the pending buffer: the socket is neither checked nor read |
| SessionLaws.BacklogReadFirst | src/FuseSource/Stomp/Stomp.php:263-265 | after a request that did not fail, reading the whole pending buffer returns it in order, and the entries pending before the request come first, in their old order |
| SessionLaws.TransmitKeepsValid | src/FuseSource/Stomp/Stomp.php:263-265 | every request keeps the session valid, whatever the broker answers |
| SessionLaws.SubscribeRegistry | src/FuseSource/Stomp/Stomp.php:362-367 | subscribe registers the destination with its properties exactly when the request returned true, and touches no other destination |
| SessionLaws.UnsubscribeRegistry | src/FuseSource/Stomp/Stomp.php:395-400 | unsubscribe removes the destination exactly when the request returned true, and touches no other destination |
| SessionLaws.AckAlwaysTrue | src/FuseSource/Stomp/Stomp.php:466-490 | ack on an open socket writes one ACK frame, reads nothing and returns true |
| SessionLaws.ConnectWithoutHosts | src/FuseSource/Stomp/Stomp.php:142-144 | connect with no broker configured fails with "No broker defined" and changes nothing, so no DISCONNECT is written |
| SessionLaws.MakeConnectionRestartsAtFirstHost | src/FuseSource/Stomp/Stomp.php:147-149 | the host of the previous connection plays no part in the next one |
| SessionLaws.MakeConnectionDials | src/FuseSource/Stomp/Stomp.php:140-184 | outcome, socket, current host and dial log are those of the attempts loop started from index -1 |
| SessionLaws.MakeConnectionRoundRobin | src/FuseSource/Stomp/Stomp.php:140-184 | without randomize, connects to the host of the first successful dial in round-robin order from the first host, and otherwise fails with the socket closed |
| SessionLaws.RoundRobinPrefix | src/FuseSource/Stomp/Stomp.php:159 | the first c indexes of a longer round robin are the shorter round robin |
| SessionLaws.MakeConnectionKeepsValid | src/FuseSource/Stomp/Stomp.php:140-184 | _makeConnection keeps the session valid, leaves no session id and nothing pending, and opens the socket when it passes |
| SessionLaws.HandshakeKeeps | src/FuseSource/Stomp/Stomp.php:202-222 | the CONNECT exchange keeps the credentials, registry, settings, hosts, current host and socket, and passes only on an open socket |
| SessionLaws.HandshakeKeepsValid | src/FuseSource/Stomp/Stomp.php:207-215 | the CONNECT exchange keeps the session valid |
| SessionLaws.ConnectKeepsValid | src/FuseSource/Stomp/Stomp.php:193-222 | connect keeps the session valid whatever the broker answers, and a connect that returns leaves the socket open |
| SessionLaws.ConnectCredentials | src/FuseSource/Stomp/Stomp.php:195-201 | after a connect that returns, the stored credentials are exactly the ones given |
| SessionLaws.ReplayFrames | src/FuseSource/Stomp/Stomp.php:635-637 | an asynchronous replay writes one SUBSCRIBE per registry entry |
| SessionLaws.ReplayFrameAt | src/FuseSource/Stomp/Stomp.php:635-637 | the replay's i-th frame subscribes to the i-th entry's destination with its properties |
| SessionLaws.ReplayFramesDependOnSettings | src/FuseSource/Stomp/Stomp.php:338-351 | the replayed frames depend only on the vendor, prefetch size and client id |
| SessionLaws.SubscribeAsync | src/FuseSource/Stomp/Stomp.php:336-368 | an asynchronous subscribe on an open socket writes its frame, registers the destination and returns true |
| SessionLaws.ReplayAsyncStep | src/FuseSource/Stomp/Stomp.php:635-637 | an asynchronous replay subscribes to the first entry, then replays the rest |
| SessionLaws.ReplayAsync | src/FuseSource/Stomp/Stomp.php:635-637 | on an open asynchronous session the replay subscribes to every entry in order, and registers each |
| SessionLaws.ReconnectRestoresSubscriptions | src/FuseSource/Stomp/Stomp.php:630-638 | after a successful reconnect of an asynchronous session the registry is exactly the old one, order included, and one SUBSCRIBE per destination follows the connection frames (`ReconnectRenews` states the case of a session of either kind) |
| SessionLaws.Subscribes | src/FuseSource/Stomp/Stomp.php:635-637 | the replay loop's subscribe calls in registry order, stopping after the first that throws: at most one answer per entry |
| SessionLaws.SubscribeStep | src/FuseSource/Stomp/Stomp.php:336-368 | one subscribe with the session's own sync setting keeps the settings, draws one tick when synchronous, writes its SUBSCRIBE (tagged when synchronous) unless it throws, and registers the entry exactly when it returns true |
| SessionLaws.ReplayAnswers | src/FuseSource/Stomp/Stomp.php:635-637 | in a session of either kind, the replay ends in the state its subscribe calls leave; it passes exactly when every entry was tried and none threw, and otherwise fails with the error of the last call |
| SessionLaws.ReplayRegistry | src/FuseSource/Stomp/Stomp.php:362-363 | in a session of either kind, the registry after the replay is the old one with the entries whose subscribe returned true put in, in order; an entry whose wait returned false is not registered |
| SessionLaws.ReplayWrites | src/FuseSource/Stomp/Stomp.php:357-361 | in a session of either kind, the replay keeps the frames written before and then writes, in registry order, the i-th entry's SUBSCRIBE, with the receipt of the i-th tick when the session is synchronous |
| SessionLaws.ReplayWriteCount | src/FuseSource/Stomp/Stomp.php:635-637 | each subscribe call writes one frame, except a last call that threw, which may write none; fewer frames than entries means the replay failed |
| SessionLaws.ReconnectRenews | src/FuseSource/Stomp/Stomp.php:630-638 | after a connect that passes, in a session of either kind: the registry holds exactly the old entries whose renewed subscribe returned true, in order; one SUBSCRIBE per renewed entry follows the connection frames, in registry order; the reconnect passes exactly when every entry was renewed without an exception |
| SessionLaws.SubscribeKeepsValid | src/FuseSource/Stomp/Stomp.php:336-368 | subscribe keeps the session valid, however the broker answers |
| SessionLaws.ReplayKeepsValid | src/FuseSource/Stomp/Stomp.php:635-637 | renewing subscriptions keeps the session valid |
| SessionLaws.ReconnectKeepsValid | src/FuseSource/Stomp/Stomp.php:630-638 | _reconnect keeps the session valid whatever the broker answers |
| Client.ParseFrame | src/FuseSource/Stomp/Stomp.php:579-591 | readFrame's decoding computes exactly DecodeFrame |
| Client.ParseHeaderLines | src/FuseSource/Stomp/Stomp.php:581-590 | the header loop computes exactly the header lines folded into an array |
| Client.ReadChunks | src/FuseSource/Stomp/Stomp.php:561-577 | the chunk loop computes exactly Gather from an empty text, which GatherChunks and GatherLost characterise |
| Client.TryHosts | src/FuseSource/Stomp/Stomp.php:149-183 | the attempts loop computes exactly Dial from the current host |
| Client.Attempt | src/FuseSource/Stomp/Stomp.php:155-179 | one turn ends the loop with the dialing's result or leaves the rest of the loop to the next turn, one attempt later |
| Client.Init | src/FuseSource/Stomp/Stomp.php:97-134 | the URL loop computes exactly InitSpec from no hosts and no parameters |
| Client.Open | src/FuseSource/Stomp/Stomp.php:87-91 | construction fails exactly when _init rejects the URI, with its error; otherwise a fresh client holds the defaults and _init's hosts and parameters |
| Client.Stomp.constructor | src/FuseSource/Stomp/Stomp.php:44-79 | the private fields take their declared defaults (vendor AMQ, current host -1, empty credentials, registry and buffer, no socket); `sync`, `prefetchSize` and `clientId` are constructor parameters, standing for the public fields a caller sets |
| Client.Stomp.Disconnect | src/FuseSource/Stomp/Stomp.php:495-514 | the new state is DisconnectSpec of the old |
| Client.Stomp.WriteFrame | src/FuseSource/Stomp/Stomp.php:520-532 | the new state and result are WriteSpec of the old |
| Client.Stomp.HasFrameToRead | src/FuseSource/Stomp/Stomp.php:605-623 | the new state and result are HasFrameSpec of the old |
| Client.Stomp.ReadFrame | src/FuseSource/Stomp/Stomp.php:551-598 | the new state and result are ReadSpec of the old: the head of the pending buffer if any, otherwise the frame the socket delivers (ReadChunkedFrame) or the readiness or connection error |
| Client.Stomp.WaitForReceipt | src/FuseSource/Stomp/Stomp.php:291-326 | the wait loop leaves the pending buffer, the socket script and the result WaitForReceiptSpec gives, and nothing else changes |
| Client.Stomp.Transmit | src/FuseSource/Stomp/Stomp.php:263-265 | the new state and result are TransmitSpec of the old |
| Client.Stomp.Deliver | src/FuseSource/Stomp/Stomp.php:264-265 | writing a tagged frame and waiting for its receipt: the new state and result are DeliverSpec of the old |
| Client.Stomp.MakeConnection | src/FuseSource/Stomp/Stomp.php:140-184 | the new state and result are MakeConnectionSpec of the old |
| Client.Stomp.Connect | src/FuseSource/Stomp/Stomp.php:193-223 | the new state and result are ConnectSpec of the old |
| Client.Stomp.Handshake | src/FuseSource/Stomp/Stomp.php:202-222 | the new state and result are HandshakeSpec of the old |
| Client.Stomp.IsConnected | src/FuseSource/Stomp/Stomp.php:230-233 | true exactly when the session id is not empty in PHP's sense and the socket is open |
| Client.Stomp.Send | src/FuseSource/Stomp/Stomp.php:252-266 | the new state and result are SendSpec of the old |
| Client.Stomp.Subscribe | src/FuseSource/Stomp/Stomp.php:336-368 | the new state and result are SubscribeSpec of the old |
| Client.Stomp.Unsubscribe | src/FuseSource/Stomp/Stomp.php:378-401 | the new state and result are UnsubscribeSpec of the old |
| Client.Stomp.Begin | src/FuseSource/Stomp/Stomp.php:410-420 | the new state and result are TransactionSpec of the old for BEGIN |
| Client.Stomp.Commit | src/FuseSource/Stomp/Stomp.php:429-439 | the new state and result are TransactionSpec of the old for COMMIT |
| Client.Stomp.Abort | src/FuseSource/Stomp/Stomp.php:446-456 | the new state and result are TransactionSpec of the old for ABORT |
| Client.Stomp.Ack | src/FuseSource/Stomp/Stomp.php:466-490 | the new state and result are AckSpec of the old |
| Client.Stomp.Reconnect | src/FuseSource/Stomp/Stomp.php:630-638 | connect, then the replay loop over the registry held before; the new state and result are ReconnectSpec of the old |

## Left out

- Socket I/O: `fsockopen`, `fgets`, `fwrite`, `fclose` and `stream_select` become scripts (the event script, dial outcomes) and a log of frames written. `fgets` returns a chunk that ends after a newline or at the 1024-byte limit; that chunking is the script's, so a frame normally arrives as several chunks (`Wire.GatherChunks`).
- Timeouts: `setReadTimeout`, the read timeout fields and the connect timeout only shape what the scripts deliver; a timeout is the `Silence` event.
- `rand(0, n - 1)` is a script of draws, each taken modulo the host count; an exhausted script draws 0. Uniformity is not modelled.
- `md5(microtime())` is a ticket made from a counter; only its freshness and non-emptiness matter to the client.
- The broker-URI regular expression, `parse_url` and `parse_str` are parameters (`Endpoints.Parsers`); their grammars are not part of this model.
- `Frame.php` is not part of this model. A frame is its command, headers and body. `Frame::__toString`, the encoding `fwrite` sends, is not modelled, so the frames written are logged as values. There is therefore no encode/decode round trip; `Frames.DecodeFrameLayout` states decoding of the wire layout instead.
- The `jms-map-json` transformation (`Map`) in readFrame is not modelled: such frames are returned as plain frames.
- The reconnect-and-retry recursion on a failed `fgets` or `fwrite` is not modelled. A lost connection during a read is the error `ConnectionLost`, and writes to an open socket always succeed; `_reconnect` itself is modelled as a separate operation.
- `__destruct` is not modelled (it only calls `disconnect`).
- Headers are arrays with string keys. PHP's conversion of numeric-string keys to integer keys is not modelled.
- A header line without a colon yields a `null` value in PHP; the model uses the empty text, which every use in the core treats alike.
- Receipt ids are compared with `==`. When both ids look numeric (an md5 text can be all digits, or `0e` followed by digits), PHP compares them as numbers; the model compares texts, so that rare case is not modelled.
- `send` mutates the caller's Frame object: it sets the destination and merges the properties into `$msg->headers`, and `_prepareReceipt` adds the receipt to that same object. The model builds a new frame and does not model that aliasing. (`ack` copies the headers array and leaves the caller's frame alone.)
- `sync`, `prefetchSize` and `clientId` are public fields in PHP; the model fixes them when the client is made. `brokerVendor` changes only through connect.
- `_makeConnection`'s loop runs on local variables and stores the socket and current host at the end. This is the same observable behaviour, since nothing reads them during the loop.
- `getSessionId` is a plain field read, with no contract.
- `Endpoints.Dial`'s own contract only bounds the number of dials. What it computes is stated by `DialInRange`, `DialSucceeds` and `DialExhausted`, and only for round robin. Under randomize, only `DialInRange` applies.
- `SessionLaws.ReplayFrames` states only the number of frames in its own contract. `ReplayFrameAt` states each frame.
