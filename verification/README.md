# Verified model of a Zigbee and IEEE 802.15.4 host stack

This project models the parts of the stack that keep state or handle octets, and proves what they
promise. Each module follows one source file. An entity that the program updates in place is a class
whose methods are proved against functions on values; what holds over whole runs is proved about
those functions.

* `RawFraming` is the serial line to the radio stick. The receiving stream parses in place in a
  rotating buffer; it is proved equal to a reference decoder that reads the whole stream from left
  to right, for every way in which the port may split it. Sender, line and receiver are joined in
  `EndToEnd`.
* `MruSet` is the slot cache that is a doubly linked list in two hash maps. It is proved to be a
  recency list whose front part is on the device.
* `PendingTables` and `CombinedPendingTables` are the cache of pending destinations: a
  least-recently-used list, and a mirror of the hardware tables with one update under way.
* `DeviceQueues` and `DataServices`, with their `Runs`, `Attempts`, `Histories`, `Limits` and
  `Objects`, are the indirect transmission path of sections 6.7.3 and 6.7.4 of IEEE Std
  802.15.4-2015: send queues, handles and pending sets as a system of steps, with the object and its
  retry loop on top. The object keeps its calls as a run, so what holds over runs holds of it. Keys
  are fresh numbers, timers are arbitrary, and the order of a hash map is arbitrary.
* `Management` mirrors radio parameters into a radio that answers in order.
* `CbcMacs`, `CcmStars`, `MmoHashes` and `SecuredFrames` are the Zigbee security layer over an
  arbitrary block cipher.
* `FrameCodecs` packs and unpacks MAC frames, and `AirInterfaces` follows an indirect transmission
  through runs of the service and the codec.

`Prelude`, `Octets`, `BlockCiphers`, `Addresses`, `Frames` and `Pibs` hold what they share.
`dafny verify dfyconfig.toml` checks the whole project.

Where the code differs from what its comments or its design suggest, the model follows the code:

* `old_src/mru_set.rs` needs two slots to keep its promise. With one, `remove` frees the slot while
  an older item waits (`OneSlotIsTooFew`, `RemoveKeepsTidyIff`).
* `old_src/zigbee/security/mmohash.rs:142-145` ends the long padding with 8 zero bits where its
  comment at lines 128-131 asks for as many bits as the block has octets (`PaddingIsStandardIff`,
  `DigestIsStandardIff`).
* `old_src/zigbee/security/mod.rs:260-264` derives the key-load key from the transport key; the
  stored load key is never read (`LoadKeyIsIgnored`).
* `src/radio/raw.rs:204-205` keeps three bytes where two would do (`TwoBytesWouldDo`).
* An MSDU handle that is used again while it is open replaces the old pair
  (`HandleReuseBreaks`, `HandleReuseIsReachable`), and two destinations that differ in the PAN of an
  extended address share one pending entry (`ReportsReachTableIff`).
* `src/ieee802154/frame.rs:456-458` packs the capabilities of an association request to nothing
  (`UnpackUndoesPackIff`).

## Model

The main results come first, then what they rest on, module by module, and last the constructors.

| member | source | states |
|---|---|---|
| `RawFraming.RawRadioStream.PollNext` | src/radio/raw.rs:227-249 | for every way of splitting the stream into reads, the messages emitted are those that the reference decoder finds in the bytes received, and each way to stop is explained: waiting, full buffer, failed read or unknown command |
| `RawFraming.EndToEnd` | src/radio/raw.rs:128-249 | for every state of a sink and a stream joined by a line, the messages emitted are a prefix of those sent, all of them once everything is drained, and the stream never stops by itself |
| `RawFraming.DeliveredInOrder` | src/radio/raw.rs:227-249 | what is decoded from the received part of a noisy line is a prefix of the messages sent, and all of them once nothing is in transit |
| `RawFraming.DecodeInParts` | src/radio/raw.rs:196-222 | decoding a stream may be interrupted anywhere: what the decoder kept, followed by later bytes, decodes to what the whole stream decodes to |
| `MruSet.MRUSet.Insert` | old_src/mru_set.rs:131-149 | the recency list becomes the item followed by the others, and applying the returned action to the cells of the device gives exactly the new assignment |
| `MruSet.MRUSet.Remove` | old_src/mru_set.rs:173-184 | the recency list loses the item, and applying the returned action to the cells of the device gives exactly the new assignment |
| `MruSet.BoundShowsNewest` | old_src/mru_set.rs:1-9 | the device shows a front part of the recency list; with two or more slots the most recent min(N, len) items, and in general exactly if that many have slots |
| `MruSet.RemoveKeepsTidyIff` | old_src/mru_set.rs:157-184 | removal keeps the most recent items on the device unless there is a single slot, the item has it, and another item waits; exactly then it does not |
| `PendingTables.InsertedIsLru` | src/ieee802154/mac/pendingtable.rs:128-132 | insert acts on the cached values as insertion into a bounded least-recently-used list |
| `PendingTables.RemovedIsWithout` | src/ieee802154/mac/pendingtable.rs:134-147 | remove acts on the cached values as removal from that list; nothing refills the slot |
| `CombinedPendingTables.HandshakeComesFirst` | src/ieee802154/mac/combinedpendingtable.rs:58-80 | no update is sent before a handshake was accepted and no handshake is started afterwards |
| `CombinedPendingTables.IdleMeansEqual` | src/ieee802154/mac/combinedpendingtable.rs:58-80 | when nothing is to be sent and nothing is under way, both hardware tables equal the tables and show only wanted values |
| `DeviceQueueRuns.AlwaysBusyWithLastFrame` | src/ieee802154/mac/devicequeue.rs:216-276 | in every run, a queue that is not idle has as its front the entry whose frame was handed out last, in the state that the observations since then justify |
| `DeviceQueueRuns.OkIsEarned` | src/ieee802154/mac/devicequeue.rs:141-201 | a result Ok means that the last attempt was of that entry, was sent successfully and, if it asked for it, acknowledged with its sequence number after it was handed out, whichever came first |
| `DeviceQueueRuns.Conservation` | src/ieee802154/mac/devicequeue.rs:75-104 | the keys accepted are exactly those queued, removed and reported, each once |
| `DeviceQueueRuns.CompletedInOrder` | src/ieee802154/mac/devicequeue.rs:270-274 | results other than expiry come in insertion order |
| `DeviceQueueRuns.IndirectOutcomes` | src/ieee802154/mac/devicequeue.rs:246-260 | an indirect entry is only ever reported as delivered or expired |
| `DeviceQueueRuns.DirectSendsAreLimited` | src/ieee802154/mac/devicequeue.rs:165-172 | a direct entry is sent at most once more than the retries allowed when it was inserted (section 6.7.4.3 of IEEE Std 802.15.4-2015) |
| `DeviceQueueAttempts.QueueDelivers` | src/ieee802154/mac/devicequeue.rs:106-274 | in every run, an attempt that nothing makes fail ends in the report of its entry as delivered, with the payload of the first acknowledgement, or is under way exactly as far as radio and receiver have answered, in either order and with any other steps in between |
| `DataServiceRuns.HandleConservation` | src/ieee802154/mac/data.rs:196-228 | handles requested are exactly those open and those settled by a confirm or a successful purge, as often as requested |
| `DataServiceRuns.NothingFollowsSettlement` | src/ieee802154/mac/data.rs:104-228 | after a confirm or a successful purge of a request, no frame is handed out for it, and its handle is neither confirmed nor purged again unless it is requested again |
| `DataServiceRuns.PurgeSucceedsIffQueued` | src/ieee802154/mac/data.rs:215-228 | a purge succeeds if and only if the request is still queued |
| `DataServiceRuns.HandleReuseBreaks` | src/ieee802154/mac/data.rs:210-211 | submitting keeps handles and requests in step if and only if the handle is not in use: reusing an open handle drops the old pair |
| `DataServiceRuns.ReportsReachTableIff` | src/ieee802154/mac/combinedpendingtable.rs:51-53 | reports always reach the pending sets if and only if no two destinations in use share an entry |
| `DataServiceRuns.QuietMeansPendingExact` | src/ieee802154/mac/devicequeue.rs:208-215 | in a quiet service the pending set is exactly the destinations with an indirect request at the front of their queue |
| `DataServiceRuns.AtRestRadioTellsTruth` | src/ieee802154/mac/data.rs:84-130 | at rest the radio announces pending data only to devices with an indirect request at the front of their queue |
| `DataServiceHistories.ConfirmIsEarned` | src/ieee802154/mac/data.rs:104-119 | a positive confirm for a handle was earned by the last attempt for the request of that handle |
| `DataServiceLimits.RequestSendsAreLimited` | src/ieee802154/mac/devicequeue.rs:165-172 | over every run of the service, a direct request is handed to the radio at most once more often than the retries it was given (section 6.7.4.3 of IEEE Std 802.15.4-2015) |
| `DataServiceLimits.IndirectFrameWasAsked` | src/ieee802154/mac/devicequeue.rs:223-239 | over every run of the service, each frame of an indirect request answers a data request of its device that came after the previous frame to it |
| `DataServiceLimits.LateAnswerIsIgnored` | src/ieee802154/mac/devicequeue.rs:142-148 | over every run of the service, the answer to a frame that is not the last one to its destination changes nothing |
| `DataServiceObjects.DataService.PollAction` | src/ieee802154/mac/data.rs:84-130 | the retry loop ends for every order of the queues and every outcome of the timers; it puts out the result of a sequence of steps of the service, or leaves a quiet service with nothing to send; those steps continue the run of the object |
| `DataServiceObjects.RetryDecreases` | src/ieee802154/mac/data.rs:84-130 | whenever the loop starts over, entries, queues or disagreeing queues became fewer, in this order of weight |
| `DataServiceObjects.CallIsRun` | src/ieee802154/mac/data.rs:84-130 | a call that puts something out is a run whose last step puts it out, so all results about runs hold of the object |
| `AirInterfaces.RequestIsServed` | src/ieee802154/mac/data.rs:165-180 | a device whose data waits at the front of an idle queue and that asks for it gets its frame, or the queue still has it asked for, whatever else happens to the service, unless it is purged |
| `AirInterfaces.IndirectTransmission` | src/ieee802154/mac/data.rs:84-181 | after a frame was handed out in a run of the service, and with any other steps in between that do not fail it, its handle is confirmed as delivered with the payload of the first acknowledgement, or the attempt is under way exactly as far as radio and receiver have answered (section 6.7.3 of IEEE Std 802.15.4-2015) |
| `AirInterfaces.FramesArrive` | src/ieee802154/mac/data.rs:101-103 | a frame that a run of the service hands out can be packed if and only if its content is in range, and is then read back as it was sent if and only if that is no association request |
| `Management.RadioFollowsPib` | src/ieee802154/mac/management.rs:105-119 | in every reachable state each parameter requests its value from the information base, and the radio has that value if the parameter is neither dirty nor being updated |
| `CbcMacs.CbcMacState.Result` | old_src/zigbee/security/cbcmac.rs:57-65 | the code is the chain over the zero-padded concatenation of all inputs |
| `CcmStars.AuthenticatedCanBeRead` | old_src/zigbee/security/ccmstar.rs:88-138 | nonce, associated data and message can all be read back from the zero-padded blocks fed to CBC-MAC (section 2.2 of RFC 3610) |
| `CcmStars.AcceptsExactlyEncryptions` | old_src/zigbee/security/ccmstar.rs:209-222 | encryption makes a ciphertext of a message if and only if decryption accepts it with that message and the message fits the length fields; with a tag only fitting messages are accepted, without one everything is |
| `CcmStars.DecryptionUndoesEncryption` | old_src/zigbee/security/ccmstar.rs:167-224 | decryption undoes every successful encryption, for any cipher, keystream, tag size and length size up to 7 |
| `MmoHashes.MMOHash.FixedResult` | old_src/zigbee/security/mmohash.rs:117-155 | the hash of everything absorbed for every chunking, with no panic except for 2^32 bits and more; the final assertion holds |
| `MmoHashes.DigestIsStandardIff` | old_src/zigbee/security/mmohash.rs:117-155 | the hash is the one described in the comment for every cipher, if and only if the message is below 2^16 bits (or too long for either form) |
| `MmoHashes.PaddingIsInjective` | old_src/zigbee/security/mmohash.rs:117-155 | no two messages are padded to the same blocks, in either form |
| `SecuredFrames.NonceIsInjective` | old_src/zigbee/security/mod.rs:269-287 | equal nonces mean the same source, frame counter, security level, kind of key and extended flag |
| `SecuredFrames.DecryptsExactlyEncrypted` | old_src/zigbee/security/mod.rs:339-460 | a frame is what the sender makes of a plaintext if and only if it is accepted with that plaintext and the plaintext fits, at every security level; a frame that names its source is opened whatever source the receiver assumes |
| `SecuredFrames.DecryptionUndoesEncryption` | old_src/zigbee/security/mod.rs:339-460 | every encryption that succeeds can be serialised, read and decrypted to what it was made of |
| `FrameCodecs.UnpackUndoesPackIff` | src/ieee802154/frame.rs:187-278 | unpacking the octets of a frame gives the frame with nothing left over, if and only if it is no association request; that one fails for lack of data |
| `FrameCodecs.RepackingIsCanonical` | src/ieee802154/frame.rs:187-278 | any octets that unpack to a frame other than an association request are repacked to octets that unpack to the same frame and, with what is left over, are never longer; they are the same octets if and only if reserved and version bits are zero, PAN ids are compressed exactly when they can be, and the body is canonical (section 7.2.1 of IEEE Std 802.15.4-2015) |
| `FrameCodecs.PackOutcome` | src/ieee802154/frame.rs:232-367 | packing fails if and only if a beacon field is out of range or the target too small, with the error of whichever comes first; otherwise it appends the octets of the frame |
| `RawFraming.DecodedSoFarIsPrefix` | src/radio/raw.rs:196-222 | what was decoded from a part of a stream stays decoded, whatever follows |
| `RawFraming.KeptIsShortOrFrame` | src/radio/raw.rs:197-201 | undecided bytes are fewer than the magic or an unfinished frame that starts with it |
| `RawFraming.FindSubsequence` | src/radio/raw.rs:178-185 | the result is the first position at which the magic stands, or the magic stands nowhere |
| `RawFraming.DecodeSkips` | src/radio/raw.rs:202-212 | bytes in front of which no magic starts can be dropped without changing what is decoded |
| `RawFraming.RotateLeft` | src/radio/raw.rs:208 | the first bytes move to the end, everything behind the rotated part stays |
| `RawFraming.RotateRight` | src/radio/raw.rs:204-216 | the last bytes move to the front, everything behind the rotated part stays |
| `RawFraming.PopWithoutMagic` | src/radio/raw.rs:203-206 | when the magic is not found, the last three bytes stand for all of them |
| `RawFraming.PopAtMagic` | src/radio/raw.rs:207-221 | from the first magic on, parser and decoder agree on message, remaining bytes, incomplete input and unknown command; a parse error other than these cannot occur |
| `RawFraming.PopRawMessage` | src/radio/raw.rs:196-222 | popping in place splits off exactly the first message of the decoder, or settles that none is complete, and loses no byte that matters later |
| `RawFraming.RawRadioStream.Fill` | src/radio/raw.rs:240-242 | bytes read into the free space follow the bytes already there |
| `RawFraming.RawRadioStream.Read` | src/radio/raw.rs:235-247 | one read takes at most the free space and reorders nothing |
| `RawFraming.NothingLeft` | src/radio/raw.rs:230-238 | when nothing can be popped, all messages received have been emitted, and a full buffer holds the start of an oversized frame |
| `RawFraming.ReadKeepsFlow` | src/radio/raw.rs:239-242 | no byte is lost, made up or reordered between port and stream, and what is left to read gets less |
| `RawFraming.RawRadioSink.PollReady` | src/radio/raw.rs:128-143 | under any schedule of partial writes, wire and unsent tail together are the encodings of the messages sent; ready means all is on the wire |
| `RawFraming.RawRadioSink.StartSend` | src/radio/raw.rs:145-149 | a message is appended to what is to be sent and nothing reaches the wire yet |
| `RawFraming.EncodedFrame` | src/radio/raw.rs:63-78 | an encoded message of at most 65535 bytes is a frame that reads back as that message |
| `RawFraming.NoMagicBeforeFrame` | src/radio/raw.rs:11 | the magic cannot overlap itself: noise without the magic, in front of a frame, contains no earlier magic |
| `RawFraming.DecodeFindsFrame` | src/radio/raw.rs:88-105 | the decoder finds an encoded message behind any noise without magic and goes on right after it |
| `RawFraming.DecodeLine` | src/radio/raw.rs:63-105 | a line of noisy frames decodes to exactly its messages |
| `RawFraming.GoodLineNeverStops` | src/radio/raw.rs:88-105 | on a noisy line with frames that fit the buffer the receiver neither panics nor fills up |
| `RawFraming.OversizedShows` | src/radio/raw.rs:174 | an oversized frame at the start of the buffer blocks it until it turns out to be an oversized message |
| `RawFraming.KeptIsNotOversized` | src/radio/raw.rs:235-238 | when all messages fit, the bytes kept never fill the buffer |
| `RawFraming.TwoBytesWouldDo` | src/radio/raw.rs:204-205 | two kept bytes would stand for all of them as well as the three that are kept |
| `MruSet.UnlinkKeepsLinks` | old_src/mru_set.rs:73-94 | after unlinking, the link maps are the adjacent pairs of the list without the item; both assertions about the neighbours hold |
| `MruSet.LinkKeepsLinks` | old_src/mru_set.rs:96-113 | after linking as newest, the link maps are those of the list with the item in front; both assertions hold |
| `MruSet.InsertKeepsBound` | old_src/mru_set.rs:131-149 | one insert keeps the slot invariant, moves the item to the front, and its action reproduces the new assignment on the device |
| `MruSet.RemoveKeepsBound` | old_src/mru_set.rs:157-184 | one remove keeps the slot invariant, takes the item out, and its action reproduces the new assignment on the device |
| `MruSet.MRUSet.Unlink` | old_src/mru_set.rs:73-94 | the item leaves the links and the boundary pointer moves to its newer neighbour if it pointed at it |
| `MruSet.MRUSet.LinkAsNewest` | old_src/mru_set.rs:96-113 | the item becomes the head of the links |
| `MruSet.MRUSet.TakeOldestSlot` | old_src/mru_set.rs:115-125 | the first free slot, else that of the oldest item with a slot, else none |
| `MruSet.MRUSet.GrantSlot` | old_src/mru_set.rs:139-145 | the own slot of the item, else a free one, else that of the oldest; never none |
| `MruSet.MRUSet.ReassignSlot` | old_src/mru_set.rs:157-171 | the slot goes to the item behind the boundary or to the free list |
| `MruSet.MRUSet.ShowsNewest` | old_src/mru_set.rs:1-9 | in every valid state the device shows the most recent items, as many as it can if it has two or more slots |
| `MruSet.MRUSet.HasSlot` | old_src/mru_set.rs:127-129 | an item has a slot exactly if it is in the front part, and its cell shows it |
| `MruSet.MRUSet.Contains` | old_src/mru_set.rs:69-71 | membership is membership in the recency list |
| `MruSet.OneSlotIsTooFew` | old_src/mru_set.rs:91-93 | with one slot, after two inserts and the removal of the newer item, the older one waits although the slot is free |
| `PendingTables.IndexFromFinds` | src/ieee802154/mac/pendingtable.rs:67-76 | the search finds the first slot with the value, or no slot has it |
| `PendingTables.FirstDirty` | src/ieee802154/mac/pendingtable.rs:170-171 | the first dirty slot, or no slot is dirty |
| `PendingTables.SetIsSound` | src/ieee802154/mac/pendingtable.rs:117-123 | setting a value keeps soundness and changes the wanted values by exactly that value |
| `PendingTables.RecentIsWanted` | src/ieee802154/mac/pendingtable.rs:30-36 | the slots hold at most as many values as there are slots, all different and all wanted |
| `PendingTables.SetKeepsMirror` | src/ieee802154/mac/pendingtable.rs:117-147 | changing the values keeps every clean slot equal to the hardware or to the update under way |
| `PendingTables.PollKeepsMirror` | src/ieee802154/mac/pendingtable.rs:168-182 | an update carries the present value of its slot; if there is none to send and none under way, table and hardware are equal |
| `PendingTables.AnswerKeepsMirror` | src/ieee802154/mac/pendingtable.rs:157-167 | a success settles the slot at the value sent, a failure makes it dirty again |
| `PendingTables.ClearingKeepsMirror` | src/ieee802154/mac/pendingtable.rs:51-56 | clearing is right when the hardware is empty and no update is under way |
| `PendingTables.FlightMovesKeepMirror` | src/ieee802154/mac/pendingtable.rs:157-182 | the hardware may take an update over at any moment between sending and answer |
| `PendingTables.KeySource.New` | src/unique_key.rs:11-15 | every key differs from all keys before |
| `PendingTables.PendingTable.AssumeEmpty` | src/ieee802154/mac/pendingtable.rs:51-56 | exactly the slots with a value become dirty |
| `PendingTables.PendingTable.GetIndex` | src/ieee802154/mac/pendingtable.rs:67-76 | the first slot with the value |
| `PendingTables.PendingTable.Promote` | src/ieee802154/mac/pendingtable.rs:98-115 | promotes exactly a wanted value |
| `PendingTables.PendingTable.Insert` | src/ieee802154/mac/pendingtable.rs:128-132 | the cached values become those of the bounded least-recently-used list |
| `PendingTables.PendingTable.Remove` | src/ieee802154/mac/pendingtable.rs:134-147 | the cached values lose exactly the value |
| `PendingTables.PendingTable.Set` | src/ieee802154/mac/pendingtable.rs:117-123 | insert or remove |
| `PendingTables.PendingTable.ReportUpdateResult` | src/ieee802154/mac/pendingtable.rs:157-167 | only the answer to the update under way counts |
| `PendingTables.PendingTable.PollUpdate` | src/ieee802154/mac/pendingtable.rs:168-183 | at most one update is under way; it is for the first dirty slot and has a fresh key |
| `CombinedPendingTables.SetDecides` | src/ieee802154/mac/combinedpendingtable.rs:48-56 | setting a destination decides every destination that shares its entry and no other |
| `CombinedPendingTables.NextKeepsInv` | src/ieee802154/mac/combinedpendingtable.rs:35-86 | every step of tables and radio keeps the invariant: sound tables, mirrored slots, fresh keys, no update before the handshake |
| `CombinedPendingTables.RunKeepsInv` | src/ieee802154/mac/combinedpendingtable.rs:23-86 | the invariant holds in every state of every run |
| `CombinedPendingTables.InitialisedByHandshake` | src/ieee802154/mac/combinedpendingtable.rs:35-46 | the tables are initialised exactly if a handshake was accepted before |
| `CombinedPendingTables.ClearedWithoutFlight` | src/ieee802154/mac/combinedpendingtable.rs:39-43 | the tables are only cleared while no update is under way |
| `CombinedPendingTables.CombinedPendingTable.ReportInitResult` | src/ieee802154/mac/combinedpendingtable.rs:35-46 | only the answer to the running handshake counts; a success clears both tables |
| `CombinedPendingTables.CombinedPendingTable.SetPending` | src/ieee802154/mac/combinedpendingtable.rs:48-56 | the destination goes to the table of its kind |
| `CombinedPendingTables.CombinedPendingTable.PollAction` | src/ieee802154/mac/combinedpendingtable.rs:58-80 | handshake first, then short, then extended updates |
| `CombinedPendingTables.CombinedPendingTable.ReportUpdateResult` | src/ieee802154/mac/combinedpendingtable.rs:82-85 | both tables are told |
| `DeviceQueues.PositionOf` | src/ieee802154/mac/devicequeue.rs:278-280 | the first entry with one of the keys, or none has one |
| `DeviceQueues.DeviceQueue.HasKey` | src/ieee802154/mac/devicequeue.rs:66-73 | whether an entry has the key |
| `DeviceQueues.DeviceQueue.InsertEntry` | src/ieee802154/mac/devicequeue.rs:75-86 | an entry is appended with the retries of that moment, unless its key is there already |
| `DeviceQueues.DeviceQueue.RemoveEntry` | src/ieee802154/mac/devicequeue.rs:88-104 | the entry is dropped; dropping the front makes the queue idle |
| `DeviceQueues.DeviceQueue.ProcessDataRequest` | src/ieee802154/mac/devicequeue.rs:106-111 | a data request is noted by an idle queue only |
| `DeviceQueues.DeviceQueue.ProcessSendResult` | src/ieee802154/mac/devicequeue.rs:141-178 | only the answer to the frame being sent counts; it leads to waiting, a result, a retry or idleness |
| `DeviceQueues.DeviceQueue.ProcessAcknowledge` | src/ieee802154/mac/devicequeue.rs:180-201 | an acknowledgement counts before and after the send result, if its sequence number fits |
| `DeviceQueues.DeviceQueue.PollNextAction` | src/ieee802154/mac/devicequeue.rs:203-296 | one poll: report pending, send, report a result, expire, or discard, in this order, and the state afterwards |
| `DeviceQueues.DeviceQueue.ExpireTransaction` | src/ieee802154/mac/devicequeue.rs:278-289 | the first entry whose transaction has expired is dropped and reported |
| `DeviceQueueRuns.IndirectSendWasRequested` | src/ieee802154/mac/devicequeue.rs:223-239 | each frame of an indirect entry answers a data request that came after the previous frame |
| `DeviceQueueRuns.LateAnswerIsIgnored` | src/ieee802154/mac/devicequeue.rs:142-148 | the answer to any frame but the last one changes nothing |
| `DeviceQueueRuns.StepChange` | src/ieee802154/mac/devicequeue.rs:75-104 | every step appends at most the accepted key or drops at most the one removed or reported |
| `DeviceQueueRuns.FailureIsDirect` | src/ieee802154/mac/devicequeue.rs:162-172 | a failure other than expiry concerns a direct front entry |
| `DataServices.StepQueued` | src/ieee802154/mac/data.rs:64-228 | each step adds what is submitted and drops what is settled, and nothing else |
| `DataServices.StepHandles` | src/ieee802154/mac/data.rs:104-128 | each step keeps the handles exactly those of the MCPS requests still queued |
| `DataServices.ReportReaches` | src/ieee802154/mac/data.rs:97-100 | the report of a queue reaches the pending sets |
| `DataServices.StepPending` | src/ieee802154/mac/data.rs:84-130 | each step keeps that a pending destination has a queue that last reported so, and the converse when each extended address is used with one PAN only |
| `DataServiceRuns.RunKeepsInv` | src/ieee802154/mac/data.rs:55-233 | the invariants on queues, handles and pending sets hold after every run |
| `DataServiceRuns.StepOutcome` | src/ieee802154/mac/data.rs:104-119 | each step settles as many handles as leave the map |
| `DataServiceRuns.OneOutcome` | src/ieee802154/mac/data.rs:196-228 | a handle that is not reused has at most one terminal outcome |
| `DataServiceRuns.SettledForGood` | src/ieee802154/mac/data.rs:76-82 | a request that left its queue never comes back |
| `DataServiceRuns.OutputConcernsQueued` | src/ieee802154/mac/data.rs:101-119 | a frame is that of the front entry of the polled queue, and a confirm is for a request that is queued at that moment |
| `DataServiceRuns.DiscardedWhenEmpty` | src/ieee802154/mac/data.rs:92-96 | no queue is discarded while it holds an entry |
| `DataServiceRuns.ReportsReachTable` | src/ieee802154/mac/data.rs:97-100 | when each extended address is used with one PAN only, every report is in the pending sets |
| `DataServiceRuns.SharedEntryLosesReport` | src/ieee802154/mac/combinedpendingtable.rs:51-53 | two destinations that differ in their PAN only: a run in which the report of one undoes that of the other |
| `DataServiceRuns.WorldsFollow` | src/ieee802154/mac/data.rs:133-139 | a run of the service next to a radio is a run of the pending tables |
| `DataServiceRuns.HandleReuseIsReachable` | src/ieee802154/mac/data.rs:210-211 | a run of one request reaches a service at which using its handle again breaks the correspondence |
| `DataServiceObjects.DataService.Insert` | src/ieee802154/mac/data.rs:64-74 | the request goes to the queue of its destination; with a fresh key the call continues the run of the object |
| `DataServiceObjects.DataService.Remove` | src/ieee802154/mac/data.rs:76-82 | one queue that had the key has lost it, or none had it |
| `DataServiceObjects.DataService.ProcessSendResult` | src/ieee802154/mac/data.rs:140-144 | every queue is told; the call continues the run of the object |
| `DataServiceObjects.DataService.ProcessFrameAck` | src/ieee802154/mac/data.rs:159-163 | every queue is told |
| `DataServiceObjects.DataService.ProcessFrame` | src/ieee802154/mac/data.rs:148-181 | acknowledgements go to all queues, data requests for this device to the queue of their source; the call continues the run |
| `DataServiceObjects.DataService.ProcessMcpsDataRequest` | src/ieee802154/mac/data.rs:196-213 | the request is queued under a fresh key, which is tied to the handle; with a handle that is not in use the call continues the run |
| `DataServiceObjects.DataService.ProcessMcpsPurgeRequest` | src/ieee802154/mac/data.rs:215-228 | the request of the handle is removed, or the handle is refused; the call continues the run |
| `DataServiceObjects.DataService.ProcessInitPendingTableResult` | src/ieee802154/mac/data.rs:134-136 | passed on to the tables |
| `DataServiceObjects.DataService.ProcessSetPendingResult` | src/ieee802154/mac/data.rs:137-139 | passed on to the tables |
| `DataServiceObjects.DataService.PollQueue` | src/ieee802154/mac/data.rs:90-126 | one queue is polled and what it asks for is done; whether the loop starts over |
| `DataServiceObjects.DataService.PollQueues` | src/ieee802154/mac/data.rs:89-127 | one pass over the queues in any order: something to put out, a smaller measure, or a quiet service |
| `DataServiceObjects.SilentPathIsRun` | src/ieee802154/mac/data.rs:84-130 | the steps that a call takes in silence continue any run |
| `DataServiceObjects.RemovalIsFromAll` | src/ieee802154/mac/data.rs:76-82 | where every key is queued once, taking it from the first queue that has it is taking it from all |
| `DataServiceObjects.DataService.Enqueue` | src/ieee802154/mac/data.rs:64-74 | the request goes to the queue of its destination, which is created if need be |
| `DataServiceObjects.DataService.AnswerQueues` | src/ieee802154/mac/data.rs:140-144 | the loop tells every queue once, in any order |
| `DataServiceObjects.DataService.AcknowledgeQueues` | src/ieee802154/mac/data.rs:159-163 | the loop tells every queue once, in any order |
| `DataServiceObjects.DataService.RemoveFromQueues` | src/ieee802154/mac/data.rs:76-82 | the loop stops at the first queue that had the key, in any order, and leaves the others as they were |
| `DataServiceObjects.DataService.PurgeHandle` | src/ieee802154/mac/data.rs:215-228 | the request of the handle leaves a queue that has it, and all queues where keys are queued once |
| `DataServiceObjects.DataService.PollUntilDone` | src/ieee802154/mac/data.rs:84-130 | the retry loop ends for every order of the queues and every outcome of the timers |
| `DataServiceObjects.DataService.RecordedFacts` | src/ieee802154/mac/data.rs:55-233 | whenever the calls of an object make a run, its handles are those of the queued requests, and requests are those open and those settled |
| `DataServiceHistories.StepOfQueue` | src/ieee802154/mac/data.rs:140-181 | every step of the service is at most one step of each queue |
| `DataServiceHistories.HistoryIsRun` | src/ieee802154/mac/data.rs:49 | the history of each queue inside the service is a run of a queue of its own |
| `Management.ParamsAreUpdated` | src/ieee802154/mac/management.rs:105-119 | every radio parameter requests the value wanted by the information base, and becomes dirty exactly if that is new |
| `Management.StepKeepsParam` | src/ieee802154/mac/management.rs:42-119 | every step keeps the invariant of one parameter |
| `Management.RadioKeepsParam` | src/ieee802154/mac/management.rs:42-57 | the radio, which works its requests off in order, keeps it |
| `Management.AnswerKeepsParam` | src/ieee802154/mac/management.rs:59-73 | answers keep it, also those to updates that a reset has abandoned |
| `Management.RunKeepsInv` | src/ieee802154/mac/management.rs:31-227 | the invariant holds in every state of every run |
| `Management.UpdatesAreAnswered` | src/ieee802154/mac/management.rs:59-73 | an update that is being tracked is always still to be answered |
| `Management.ManagementService.UpdateRadioParameter` | src/ieee802154/mac/management.rs:85-103 | a new value makes the parameter dirty |
| `Management.ManagementService.UpdateRadioParameters` | src/ieee802154/mac/management.rs:105-119 | five parameters follow the information base |
| `Management.ManagementService.PollRadioParamUpdate` | src/ieee802154/mac/management.rs:42-57 | some parameter that is due is sent with its requested value, or none is due |
| `Management.ManagementService.ProcessSetParamResult` | src/ieee802154/mac/management.rs:59-73 | the parameter with that key is settled, or dirty again after a failure |
| `Management.ManagementService.PollAction` | src/ieee802154/mac/management.rs:75-83 | parameters go before frames, frames go in order |
| `Management.ManagementService.ProcessMlmeStartRequest` | src/ieee802154/mac/management.rs:203-227 | unsupported requests are refused and change nothing; others move channel, PAN and coordinator |
| `Management.ManagementService.ProcessMlmeSetRequest` | src/ieee802154/mac/management.rs:190-198 | the parameters follow the information base as it is after the setting, also when that failed |
| `Management.ManagementService.ProcessMlmeResetRequest` | src/ieee802154/mac/management.rs:161-173 | the service starts anew and forgets its updates, and the data service is replaced by a new one |
| `Management.ManagementService.ProcessMlmeBeaconRequest` | src/ieee802154/mac/management.rs:125-156 | a beacon is queued exactly for superframe order 15, the current channel and channel page 0 |
| `BlockCiphers.XorTwice` | old_src/zigbee/security/cbcmac.rs:43 | exclusive or with the same octet twice is nothing |
| `BlockCiphers.XorSeqTwice` | old_src/zigbee/security/ccmstar.rs:177-180 | applying the same keystream twice is nothing |
| `BlockCiphers.PadZero` | old_src/zigbee/security/ccmstar.rs:108-110 | the shortest extension by zeros to whole blocks |
| `CbcMacs.BufferAfterByte` | old_src/zigbee/security/cbcmac.rs:42-49 | one more byte is mixed into the buffer at the fill position, and a full buffer is encrypted |
| `CbcMacs.ResultFromBuffer` | old_src/zigbee/security/cbcmac.rs:57-65 | encrypting a partly filled buffer is the chain over the zero-padded input |
| `CbcMacs.CbcMacState.EncryptBuffer` | old_src/zigbee/security/cbcmac.rs:46 | the buffer is encrypted in place |
| `CbcMacs.CbcMacState.InputByte` | old_src/zigbee/security/cbcmac.rs:43-48 | one byte is absorbed |
| `CbcMacs.CbcMacState.Input` | old_src/zigbee/security/cbcmac.rs:41-50 | only the concatenation of all inputs matters, not how they were cut |
| `CbcMacs.CbcMacState.Reset` | old_src/zigbee/security/cbcmac.rs:51-56 | all is forgotten |
| `CcmStars.TagSize` | old_src/zigbee/security/ccmstar.rs:44-51 | no tag is longer than a block |
| `CcmStars.PrefixIsReadBack` | old_src/zigbee/security/ccmstar.rs:94-106 | the length of the associated data can be read back from its prefix |
| `CcmStars.FormattingIsInjective` | old_src/zigbee/security/ccmstar.rs:88-138 | two different inputs never present the same blocks to CBC-MAC |
| `CcmStars.EncryptionSucceedsIff` | old_src/zigbee/security/ccmstar.rs:121-125 | encryption fails if and only if the message does not fit the length field or the associated data 64 bits |
| `CcmStars.DecryptedWasEncrypted` | old_src/zigbee/security/ccmstar.rs:185-224 | what decrypts to a message that can be encrypted is the encryption of that message |
| `CcmStars.Ctr.ApplyKeystream` | old_src/zigbee/security/ccmstar.rs:177-180 | the data is mixed in place with the keystream from the current position on |
| `CcmStars.PushAuthData` | old_src/zigbee/security/ccmstar.rs:93-111 | length prefix, associated data, zeros and message, or an error for too long data |
| `CcmStars.PadToBlock` | old_src/zigbee/security/ccmstar.rs:108-110 | the padding loop adds the fewest zeros |
| `CcmStars.LengthField` | old_src/zigbee/security/ccmstar.rs:126-129 | the loop writes the message length, most significant octet first |
| `CcmStars.CalculateTag` | old_src/zigbee/security/ccmstar.rs:88-138 | the tag is CBC-MAC over the formatted input; both error branches included |
| `CcmStars.CreateCtr` | old_src/zigbee/security/ccmstar.rs:140-152 | the counter block is flags, nonce and zeros |
| `CcmStars.Encrypt` | old_src/zigbee/security/ccmstar.rs:167-184 | the result is the specified ciphertext or error |
| `CcmStars.Decrypt` | old_src/zigbee/security/ccmstar.rs:185-224 | the result is the specified plaintext or error |
| `MmoHashes.PaddingSize` | old_src/zigbee/security/mmohash.rs:137-141 | the least size that is at least the required one and completes a block |
| `MmoHashes.PaddingIsStandardIff` | old_src/zigbee/security/mmohash.rs:128-151 | the padding is the one described in the comment if and only if the message is below 2^16 bits (or too long for either): the long form ends in one zero octet instead of two |
| `MmoHashes.ShortDigestIsStandard` | old_src/zigbee/security/mmohash.rs:117-155 | below 2^16 bits the hash is the standard one (Annex B.6 of the Zigbee specification) |
| `MmoHashes.LengthCanBeRead` | old_src/zigbee/security/mmohash.rs:142-151 | the bit length can be read back from the padded message |
| `MmoHashes.FormsDiffer` | old_src/zigbee/security/mmohash.rs:132-136 | a message with the short and one with the long form are never padded to the same blocks |
| `MmoHashes.PaddingOctetsAre` | old_src/zigbee/security/mmohash.rs:142-151 | the octets built by the shift loop are the padding |
| `MmoHashes.PaddingOctets` | old_src/zigbee/security/mmohash.rs:119-151 | the shift loop fills each octet as specified, and does not leave the buffer |
| `MmoHashes.MMOHash.Reset` | old_src/zigbee/security/mmohash.rs:71-78 | all is forgotten |
| `MmoHashes.MMOHash.ProcessBlock` | old_src/zigbee/security/mmohash.rs:33-44 | hash and buffer become the next value and zeros |
| `MmoHashes.MMOHash.InputByte` | old_src/zigbee/security/mmohash.rs:89-95 | one byte is absorbed; the fill level is the length modulo the block size |
| `MmoHashes.MMOHash.Input` | old_src/zigbee/security/mmohash.rs:87-97 | only the concatenation of all inputs matters |
| `SecuredFrames.ControlTells` | old_src/zigbee/security/mod.rs:195-204 | level, kind of key and extended flag can be read back from the control octet |
| `SecuredFrames.DeserializeUndoesSerialize` | old_src/zigbee/security/mod.rs:206-246 | a secured frame is read back from its wire form |
| `SecuredFrames.SerializeUndoesDeserializeIff` | old_src/zigbee/security/mod.rs:224-246 | what was read is written back octet for octet if and only if the two reserved bits are zero |
| `SecuredFrames.OpensExactlySeals` | old_src/zigbee/security/mod.rs:355-384 | sealing makes a payload of a plaintext if and only if opening accepts it with that plaintext and the plaintext fits, both when hiding and when only authenticating; sealing fails exactly for too long input |
| `SecuredFrames.GenerateNonce` | old_src/zigbee/security/mod.rs:269-287 | source, counter and control octet, filled up with zeros |
| `SecuredFrames.GenerateAssociatedData` | old_src/zigbee/security/mod.rs:289-310 | the header with the security level is appended |
| `SecuredFrames.Encrypt` | old_src/zigbee/security/mod.rs:389-460 | the result is the specified frame, or none |
| `SecuredFrames.Decrypt` | old_src/zigbee/security/mod.rs:339-386 | the result is the specified plaintext, or none |
| `SecuredFrames.LoadKeyIsIgnored` | old_src/zigbee/security/mod.rs:260-264 | no key depends on the stored load key |
| `Octets.TakeLe` | src/pack/pack.rs:52-64 | a number is taken off the front, or there is not enough data |
| `Octets.TakesLe` | src/pack/pack.rs:49-75 | a number that was written is read back |
| `Octets.FromLeOfLe` | src/pack/pack.rs:65-72 | little-endian octets hold the number |
| `Octets.LeOfFromLe` | src/pack/pack.rs:57-62 | every sequence of octets is that of its number |
| `Octets.BeAt` | old_src/zigbee/security/ccmstar.rs:126-129 | each octet of a big-endian number is a shifted and masked one |
| `FrameCodecs.ControlFields` | src/ieee802154/frame.rs:152-167 | every field can be read back from the control field |
| `FrameCodecs.SuperframeFields` | src/ieee802154/frame.rs:304-315 | every field can be read back from the superframe specification |
| `FrameCodecs.UnpacksAddress` | src/ieee802154/frame.rs:170-184 | an address is read back, also when its PAN id was left out |
| `FrameCodecs.UnpacksResponse` | src/ieee802154/frame.rs:468-503 | an association response is read back |
| `FrameCodecs.UnpacksCommand` | src/ieee802154/frame.rs:390-402 | every command but an association request is read back |
| `FrameCodecs.UnpacksType` | src/ieee802154/frame.rs:369-388 | every frame type is read back |
| `FrameCodecs.UnpacksHeader` | src/ieee802154/frame.rs:188-231 | the header is read back and the body starts right behind it |
| `FrameCodecs.UnpacksFrame` | src/ieee802154/frame.rs:187-278 | a frame is read back; a command leaves alone what follows it |
| `FrameCodecs.ResponseUnpacked` | src/ieee802154/frame.rs:468-490 | an association response is packed to the octets it was read from, unless it failed and had another address than the invalid one |
| `FrameCodecs.BeaconUnpacked` | src/ieee802154/frame.rs:317-339 | a beacon is packed to the octets it was read from if and only if its reserved bit is zero |
| `FrameCodecs.TypeUnpacked` | src/ieee802154/frame.rs:369-388 | a body is packed to as many octets as it was read from, the same ones if and only if it was canonical |
| `FrameCodecs.RepackedParts` | src/ieee802154/frame.rs:232-278 | repacking is never longer, and the same if and only if control field and body are |
| `FrameCodecs.BuildControl` | src/ieee802154/frame.rs:233-258 | setting the fields one by one gives the control field |
| `FrameCodecs.BuildSuperframe` | src/ieee802154/frame.rs:342-363 | setting the fields one by one gives the superframe specification, or an error for a field above 15 |
| `AirInterfaces.OverTheAir` | src/ieee802154/frame.rs:187-278 | a frame other than an association request, with beacon fields in range, is received as it was sent |
| `DataServiceLimits.HistoryKeysAreFresh` | src/ieee802154/mac/data.rs:201-211 | in every run of the service, the entries of each queue have keys of their own, and so have its frames |
| `DataServiceLimits.FramesAreInHistory` | src/ieee802154/mac/data.rs:101-103 | while a request is queued, the frames handed out for it are those in the history of its queue |
| `DeviceQueueAttempts.AttemptStep` | src/ieee802154/mac/devicequeue.rs:88-296 | any step that does not fail an attempt or take its entry away delivers the entry or leaves the attempt exactly as far as radio and receiver have answered |
| `DeviceQueueAttempts.AttemptPoll` | src/ieee802154/mac/devicequeue.rs:208-274 | once an attempt has succeeded, the first poll after a true report delivers its entry |
| `DeviceQueueAttempts.AskedStep` | src/ieee802154/mac/devicequeue.rs:106-239 | any step but its removal sends an entry that was asked for, or leaves it asked for |
| `RawFraming.RawRadioStream.constructor` | src/radio/raw.rs:187-193 | a new stream has received and emitted nothing |
| `RawFraming.RawRadioSink.constructor` | src/radio/raw.rs:116-122 | a new sink has sent nothing |
| `MruSet.MRUSet.constructor` | old_src/mru_set.rs:56-67 | a new set is valid and empty for every non-zero number of slots |
| `PendingTables.PendingTable.constructor` | src/ieee802154/mac/pendingtable.rs:39-49 | a new table is the empty one |
| `CombinedPendingTables.CombinedPendingTable.constructor` | src/ieee802154/mac/combinedpendingtable.rs:24-33 | both tables have eight slots and no handshake has begun |
| `DeviceQueues.DeviceQueue.constructor` | src/ieee802154/mac/devicequeue.rs:57-64 | a new queue is idle and empty |
| `DataServiceObjects.DataService.constructor` | src/ieee802154/mac/data.rs:56-63 | a new service has no queues and no handles |
| `Management.ManagementService.constructor` | src/ieee802154/mac/management.rs:32-40 | a new service requests everything |
| `CbcMacs.CbcMacState.constructor` | old_src/zigbee/security/cbcmac.rs:21-27 | a new state has absorbed nothing |
| `CcmStars.Ctr.constructor` | old_src/zigbee/security/ccmstar.rs:151 | the keystream starts at its beginning |
| `MmoHashes.MMOHash.constructor` | old_src/zigbee/security/mmohash.rs:53-62 | a new hash has absorbed nothing |

## Left out

- Management.ManagementService.ProcessMlmeSetRequest: does not model how an attribute is converted and stored or which error that gives, because these conversions only compute a value; it takes the information base as it is afterwards.
- Wakers, and whether a poll is repeated: the results are about safety and quiet states. A queue that falls back to idle after an acknowledgement timed out may wait for the next poll.
- Timers: each poll is told which timers have run out; durations are not modelled.
- Executors, channels, the serial port, packet capture, `SyncRadio` and the asynchronous plumbing around the services: input, output and scheduling only. The line ends of the framing are lists of port answers.
- Zero-length reads as end of file: a read of no bytes is simply repeated, as in the code.
- `RawRadioSink` flushing and closing: they are `PollReady` followed by a call of the port.
- Panics: an unknown command id, promoting into a table without slots, and the length assertion of the hash are outcomes or preconditions of the model.
- `CcmStarLengthSize::Len64`: the shift at `old_src/zigbee/security/ccmstar.rs:123` is out of range for it.
- Overflow of machine-size counters, such as `length * 8` in the hash: numbers of octets are unbounded.
- AES, HMAC and the internals of counter mode: they are arbitrary functions of key and block.
- Timing of tag comparison: it is plain equality.
- The traits of `parse_serialize` are not part of this model; the little-endian order of addresses and counters is that of the test vectors in `old_src/zigbee/security/mod.rs:463-509`.
- `Securable` and `SecurableTagged`: they only choose between two serialisations.
- The derive macros for packing: the model does what the derived code does.
- MLME-GET, association handling and indications: they only compute a value or fill in a frame.
- Reading radio values back (`RadioRxMode` decoding): it does not round trip as written.
- Refilling a freed slot of the pending table from the wanted values: the code does not do it.
- Using a handle again while its request is open: runs use a handle again only after it was settled; `HandleReuseBreaks` says what happens otherwise.
- Superseded files of `old_src`, and stubs such as `src/ieee802154/mac/radio_backed_param.rs` and the APS and NWK codecs.
