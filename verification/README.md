# An RTMP engine, verified in Dafny

This project models the network engine of an Android live-streaming player and publisher and
proves properties of the model. The engine is the C library librtmp with its AMF0 codec; around it
stand a few pieces of the application's own media code. What is modelled:

- **The chunk stream.** `ChunkFormat` is what RTMP_SendPacket writes, `ChunkReceive` what
  RTMP_ReadPacket makes of a byte stream, `ChunkHeaders` reads off the wire what header compression
  chooses, `ChunkRoundTrip` proves that the two agree under any interleaving of channels, and
  `ChunkTimestamps` says exactly when timestamps survive.
- **The engine itself.** `Net` is a socket that fragments, delays and fails as it likes and an
  outgoing packet with its header room; `Engine` holds class `Rtmp`, whose methods send, read and
  acknowledge in place and are proved against the functions above; `SentBody` is what sending leaves
  of a body. `CallTable` is the growing array of remote calls that wait for an answer.
- **The session.** `SessionLog` defines the history of a session, its invariant, and what one
  operation adds to it; `SessionWire` says where the packets of a history stand among all the bytes
  sent; `InvokeArgs` and `Invokes` are the bodies of invokes, with their arguments, and what a receiver
  decodes them to; `Session` holds class `Client`, with RTMP_Connect, the senders of invokes, HandleInvoke and
  the receive loops, over `Rtmp`, and a whole run of them.
- **AMF0.** `Amf0` is the codec as functions, `AmfRoundTrip` has its laws for objects, `AmfGrammar`
  the grammar of single values and that the decoder reads exactly that, `AmfBuffer` the loops over
  buffers. `Numbers` is the double a transaction id is stored in.
- **The FLV bridge.** `FlvTags` and `FlvAggregate` (tags and the re-timing of aggregates), `FlvRead`
  and `FlvStream` (RTMP_Read and what its bytes are), `FlvMetadata` (the kinds of media that metadata
  announces), `FlvWrite` (RTMP_Write under any cutting of its input), `FlvBridge` (one after the
  other), `FlvUpstream` (what RTMP_Write sends, at the receiver).
- **Smaller parts.** `BlockTea` (the secure token), `Yuv` (frame rotation), `SafeQueue` (the queue
  between encoder and sender, as steps of a schedule), `Handshake` (placement of digest and key),
  `AvcConfig` (the AVC decoder configuration record).

`Bytes` and `Arith` hold byte fields and a few facts about division. Code that updates state in place
is a class or a method over an array, with a specification function beside it; the laws are lemmas
about the specification functions. Choices the network makes (how much a recv or send takes, when it
fails, which waiting thread a signal wakes) are nondeterministic, so results hold for all of them.

## How to verify

    dafny verify dfyconfig.toml --resource-limit 2000000 --verification-time-limit 0

Dafny 4.11.

## Where the code departs from its promise

- A message that starts with a MINIMUM header is given the timestamp difference of the message before
  it once more. RTMP_SendPacket compresses to such headers when the time does not change, so the
  receiver is right only if the last difference sent was zero: `ChunkTimestamps.TimestampsOverARun`
  states the exact condition, `ChunkTimestamps.RepeatedTimestampDoubles` a concrete case. Neither end
  repeats the extended timestamp on continuation chunks, which section 5.3.1.3 of RTMP 1.0 describes;
  the model does as the code does, and the two ends agree.
- AMF_EncodeString refuses a short string for which a long one's header would not fit, and AMF_Encode
  needs a byte more than it writes; `AmfRoundTrip.WholeObjectFits` has the exact room.
- AMFProp_Encode writes null without its name, AMFProp_Decode refuses null under the empty name
  (`AmfGrammar.PropertyWrites`, `AmfGrammar.NamedExactly`), and a number whose eight bytes begin
  00 09 is taken for the end marker (`AmfGrammar.ValuesDecode`).
- A channel that opens with a MEDIUM header gets stream id and kind of time from the packet its reader
  passes in (`ChunkRoundTrip.UnseenChannel`); the sender opens channel 2 like that with its
  acknowledgements.
- RTMP_Read loses the packets of a start-up phase that never completes
  (`FlvStream.StartsExactlyWhen`, `FlvStream.LoneAudioIsLost`). What completes it may be metadata alone,
  before any frame (`FlvStream.CodecIdsStart`).
- The re-timing loop overlooks an empty last tag without trailing size (`FlvTags.AggregateRetimed`,
  `FlvTags.EmptyLastTag`), and counts bytes it has not written when only part of the last trailing
  size is there (`FlvTags.RetimedLength`, `FlvTags.PartOfATrailer`).
- RTMP_Write forgets a tag header that ends a call, and asks for bytes again when a call ends inside
  a trailing size (`FlvWrite.CutExactly`, `FlvWrite.HeaderAlone`, `FlvWrite.TrailerCut`).
- HandleInvoke and HandleMetadata follow a null pointer when a body decodes to no property
  (`AmfRoundTrip.NothingDecodedExactlyWhen`, `AmfRoundTrip.NothingDecoded`).
- RTMP_SendPacket queues a call as it stands after the chunk loop: a name that reaches past the first
  chunk is queued changed (`Engine.LongName`). No invoke of the session has such a name.
- With more than one consumer, setWork(0) can leave a thread waiting (`SafeQueue.StopReachesAll`,
  `SafeQueue.TwoConsumers`). The application has one.
- An SPS that contains the bytes 00 00 00 01 68 is cut in the wrong place (`AvcConfig.CutExactly`,
  `AvcConfig.PpsInsideSps`).
- A handshake block that happens to verify in the layout tried first is read in that layout, whichever
  it was signed in (`Handshake.SignedIsAccepted`, `Handshake.BothLayouts`).

## Model

| member | source | states |
|---|---|---|
| ChunkRoundTrip.InterleavedRoundTrip | app/src/main/jni/cpp/rtmp/rtmp.c:2640-2785 | main result: for any set of channels 2..65599, any packets below 2^24 bytes that open with a LARGE header and keep their stream id, and any interleaving of the chunks RTMP_SendPacket emits on distinct channels, repeated RTMP_ReadPacket uses up the bytes and returns exactly those messages (channel, type, stream id, body), in order on each channel, in order of completion overall |
| ChunkRoundTrip.ReadsInterleaving | app/src/main/jni/cpp/rtmp/rtmp.c:2640-2785 | the same from any receiver state that follows the senders, in the middle of messages: the inductive form, with the timestamps the receiver computes |
| ChunkRoundTrip.MessageChunksAreEmission | app/src/main/jni/cpp/rtmp/rtmp.c:2966-3087 | the chunks that are interleaved are, joined, exactly the bytes one RTMP_SendPacket emits |
| ChunkRoundTrip.TakeFieldsOfHeader | app/src/main/jni/cpp/rtmp/rtmp.c:2691-2727 | the message header of every header type is read back to timestamp field, size, type and stream id, the extended timestamp included, whatever follows |
| ChunkRoundTrip.TakeBasicOfHeader | app/src/main/jni/cpp/rtmp/rtmp.c:2654-2677 | basic headers of one, two and three bytes are read back to header type and channel |
| ChunkTimestamps.TimestampsOverARun | app/src/main/jni/cpp/rtmp/rtmp.c:2768-2773 | on a whole channel every delivered timestamp equals the sender's mod 2^32 if and only if every MINIMUM header that starts a message repeats a timestamp field that is still right |
| ChunkTimestamps.TimestampExact | app/src/main/jni/cpp/rtmp/rtmp.c:2988-3026 | one message: LARGE, MEDIUM and SMALL headers always give the sender's timestamp, at and above 0xffffff too; MINIMUM exactly when the last field stands |
| ChunkTimestamps.CompressedMinimum | app/src/main/jni/cpp/rtmp/rtmp.c:2946-2957 | for the MINIMUM headers that RTMP_SendPacket compresses to by itself, the guard says that the last timestamp field sent on the channel was zero |
| ChunkTimestamps.RepeatedTimestampDoubles | app/src/main/jni/cpp/rtmp/rtmp.c:2953-2956 | the discrepancy, concretely: two equal packets at time 1000 arrive as 1000 and 2000 |
| ChunkFormat.EmissionFits | app/src/main/jni/cpp/rtmp/rtmp.c:3036-3042 | the size computed for a single HTTP request holds all chunks of a message |
| ChunkFormat.FollowingLength | app/src/main/jni/cpp/rtmp/rtmp.c:3045-3080 | exactly one more basic header for every chunk after the first |
| ChunkHeaders.HeaderTypeOnWire | app/src/main/jni/cpp/rtmp/rtmp.c:2946-3010 | main result: the header type read off the emitted bytes. A packet offered as MEDIUM goes out as SMALL if and only if size and type of the channel's last packet repeat and the time does not, as MINIMUM if and only if all three repeat; one offered as SMALL as MINIMUM if and only if the time repeats; all others as offered. One, two or three bytes announce it, by channel |
| ChunkHeaders.HeaderLength | app/src/main/jni/cpp/rtmp/rtmp.c:2964-3026 | 12, 8, 4 or 1 bytes by header type, up to two more for the channel, four more for a time of 0xffffff and above |
| ChunkHeaders.FieldsOnWire | app/src/main/jni/cpp/rtmp/rtmp.c:2993-3026 | the fields on the wire are read as the packet's time, or the time since the channel's last packet, and as size, type and stream id as far as the header type has them |
| ChunkHeaders.ByteOrder | app/src/main/jni/cpp/rtmp/rtmp.c:2993-3026 | the order of the bytes in all fields, by examples |
| ChunkRoundTrip.UnseenChannel | app/src/main/jni/cpp/rtmp/rtmp.c:2640-2785 | a channel that opens with a MEDIUM header, which the sender's acknowledgements do: what is delivered, and that its time depends on the packet the caller passes in |
| Engine.Rtmp.SendPacket | app/src/main/jni/cpp/rtmp/rtmp.c:2935-3109 | the in-place chunk loop hands over exactly the pure emission of the original body although it overwrites it; the channel's record is that of the original packet; the call queued is what name and id read back to in the overwritten body, for every body they are read back inside; a failure sends a prefix and leaves the connection alone or closed; a header type above 3 sends nothing |
| Engine.Rtmp.ChooseHeader | app/src/main/jni/cpp/rtmp/rtmp.c:2946-2957 | header compression is Compress, whose choice HeaderTypeOnWire reads off the wire, and the field written is the difference to the channel's last timestamp |
| Engine.PutHeader | app/src/main/jni/cpp/rtmp/rtmp.c:2993-3026 | the header written through the moving cursor is basic header, message header and extended timestamp, in the room counted for it before |
| Engine.Rtmp.SendChunks | app/src/main/jni/cpp/rtmp/rtmp.c:3045-3087 | the loop over chunks ends, sends every body byte before it is overwritten, and fills the single request within its bounds |
| Engine.Rtmp.SendChunkAt | app/src/main/jni/cpp/rtmp/rtmp.c:3048-3079 | one turn of the loop keeps: emitted so far plus still to send is the whole emission |
| Engine.ProgressStep | app/src/main/jni/cpp/rtmp/rtmp.c:3061-3079 | writing the next header over bytes already sent leaves all that is still to send intact |
| Engine.CollectedFits | app/src/main/jni/cpp/rtmp/rtmp.c:3035-3044 | every chunk of a collected message fits behind the ones before it |
| Engine.Rtmp.RecordSent | app/src/main/jni/cpp/rtmp/rtmp.c:3089-3107 | the call queued is read back from the body as the loop has left it |
| Engine.WornStep | app/src/main/jni/cpp/rtmp/rtmp.c:3065-3079 | writing the next header over the body in memory is one step of Worn, so that the body the loop leaves is known to the byte |
| SentBody.WornKeeps | app/src/main/jni/cpp/rtmp/rtmp.c:3065-3079 | whatever the number of chunks, a single chunk and otherwise the first one up to the room of a header are left as they were |
| Engine.ReadableIsLeft | app/src/main/jni/cpp/rtmp/rtmp.c:3089-3103 | a call whose name and id lie in that part is queued as it was sent; every invoke of the session is one |
| Engine.LongName | app/src/main/jni/cpp/rtmp/rtmp.c:3065-3103 | the discrepancy: of an invoke in two chunks byte 127 is replaced by a header; a name of 125 bytes or more is queued with its 125th byte changed, while one of 124 or of up to 115 bytes is queued as it was sent |
| Engine.Rtmp.ReadPacket | app/src/main/jni/cpp/rtmp/rtmp.c:2641-2785 | over any fragmentation of the socket one call does to the state, the caller's packet and the stream exactly what the pure ReadChunk does |
| ChunkReceive.CountStartsOver | app/src/main/jni/cpp/rtmp/rtmp.c:2706-2738 | the count of bytes read that the code keeps with a packet equals the bytes of its body whenever a body is read on, also when the body has been taken away or freed meanwhile (with LeftCounted) |
| Engine.Rtmp.ReadHeaders | app/src/main/jni/cpp/rtmp/rtmp.c:2649-2727 | both headers, read piecewise, are those at the front of the stream, applied to the saved packet of the channel |
| Engine.Rtmp.ReadBody | app/src/main/jni/cpp/rtmp/rtmp.c:2731-2761 | the body slice is the next min(chunk size, missing bytes) of the stream |
| Engine.Rtmp.FilePacket | app/src/main/jni/cpp/rtmp/rtmp.c:2763-2782 | filing and completing a packet is Finish: the saved packet loses its body and its absolute flag, the clock takes the timestamp |
| Engine.ReadChunkIs | app/src/main/jni/cpp/rtmp/rtmp.c:2641-2785 | the parts of a chunk read one after the other make up ReadChunk of the whole stream |
| Engine.Rtmp.ReadN | app/src/main/jni/cpp/rtmp/rtmp.c:1178-1260 | all of the next n bytes of the stream or none, for every fragmentation; the acknowledgement bound holds after every call that reads |
| Engine.Rtmp.ReadSome | app/src/main/jni/cpp/rtmp/rtmp.c:1215-1230 | one step: whatever was read before, bytesIn - bytesInSent is at most half the window afterwards (section 5.4.3 of RTMP 1.0) |
| Engine.Rtmp.WriteN | app/src/main/jni/cpp/rtmp/rtmp.c:1262-1315 | true means the whole buffer was handed over in order, false that a prefix was |
| Engine.Rtmp.Fill | app/src/main/jni/cpp/rtmp/rtmp.c:3208-3245 | the unread bytes followed by what the socket still holds stay the same stream, interruptions included; start plus size never exceeds the cache; -1 on a closed socket |
| Engine.Rtmp.SendBytesReceived | app/src/main/jni/cpp/rtmp/rtmp.c:1780-1800 | the acknowledgement counts all bytes received and resets the distance to zero |
| Engine.Rtmp.AcknowledgeWhenDue | app/src/main/jni/cpp/rtmp/rtmp.c:1229-1232 | an acknowledgement goes out if and only if more than half the window has come in since the last one (a window of zero or more) |
| Engine.AcknowledgementSays | app/src/main/jni/cpp/rtmp/rtmp.c:1780-1800 | message type 3 on channel 2 whose four bytes are the count mod 2^32 |
| Engine.Rtmp.Close | app/src/main/jni/cpp/rtmp/rtmp.c:3117-3175 | the state after closing, call table and channels empty |
| CallTable.Table.Queue | app/src/main/jni/cpp/rtmp/rtmp.c:2107-2118 | the growing array holds the waiting calls in order, the new one last; the block of 16 the count falls in is always allocated to its end |
| CallTable.Table.Erase | app/src/main/jni/cpp/rtmp/rtmp.c:2089-2100 | shifting removes exactly the given entry and keeps the order of the others |
| CallTable.Table.FindTxn | app/src/main/jni/cpp/rtmp/rtmp.c:2182-2188 | the first waiting call with this id, if there is one |
| CallTable.Table.Clear | app/src/main/jni/cpp/rtmp/rtmp.c:2120-2126 | an empty table |
| SessionLog.StreamSetUp | app/src/main/jni/cpp/rtmp/rtmp.c:2155-2238 | main result: in every history that keeps the order, publish or play is preceded by connect sent, connect answered, createStream sent, createStream answered, in this order, and its packet carries the stream id of that answer |
| SessionLog.OrderSetsUp | app/src/main/jni/cpp/rtmp/rtmp.c:2155-2238 | so every publish or play of such a history was set up |
| Session.RunSession | app/src/main/jni/cpp/rtmp/rtmp.c:917-1024 | main result: a run of RTMP_Init, RTMP_Connect, RTMP_ConnectStream and any number of RTMP_GetNextMediaPacket against any peer and any network keeps the invariant; every publish or play in it was set up in order, also one that is sent while media is read, and its receiver decodes it to the play path of the link; and every packet of the history stands whole among the bytes sent, behind those before it |
| SessionWire.InTurn | app/src/main/jni/cpp/rtmp/rtmp.c:2935-3109 | what standing on the wire means: of any two packets of the history both are there as RTMP_SendPacket emits them, the later one behind the end of the earlier one, and off the control channel with its header compressed against the packet before it on its channel |
| SessionWire.DeliveredNext | app/src/main/jni/cpp/rtmp/rtmp.c:2935-3109 | sending a packet keeps this, and the record of the last packet of every channel with it |
| SessionWire.DeliveredStill | app/src/main/jni/cpp/rtmp/rtmp.c:1780-1800 | bytes that belong to no packet of the history keep it: the handshake, what a failed send has got rid of, acknowledgements, which change the record of the control channel alone |
| SessionWire.DeliveredClosed | app/src/main/jni/cpp/rtmp/rtmp.c:3117-3163 | closing keeps it and forgets the records of all channels |
| Session.Client.GetNextMediaPacket | app/src/main/jni/cpp/rtmp/rtmp.c:986-1022 | the loop ends and keeps the invariant over any peer; media comes as a complete packet, never while a pause is being left, and marks the stream as playing |
| Session.Client.ClientPacket | app/src/main/jni/cpp/rtmp/rtmp.c:1024-1160 | which packets are media, that only control messages and invokes touch the history, and the time of the last media outside a pause |
| SessionLog.SendsMore | app/src/main/jni/cpp/rtmp/rtmp.c:2935-3109 | operations one after the other: their histories join, and so do the bytes on the wire, with headers compressed against the packets before |
| SessionLog.AfterSent | app/src/main/jni/cpp/rtmp/rtmp.c:3089-3103 | sending keeps the invariant: the table equals the unanswered queued calls in the order they were sent, nonzero ids grow strictly and stay within the number of invokes, the order is kept, and every packet in the history is an invoke of the call and stream noted with it |
| SessionLog.AfterMatched | app/src/main/jni/cpp/rtmp/rtmp.c:2179-2194 | an answer removes exactly its own entry and keeps the invariant |
| SessionLog.AfterErased | app/src/main/jni/cpp/rtmp/rtmp.c:2278-2295 | removing a call by name keeps the invariant |
| SessionLog.AfterClosed | app/src/main/jni/cpp/rtmp/rtmp.c:3156-3159 | closing empties the table and keeps the invariant |
| SessionLog.OneCallPerId | app/src/main/jni/cpp/rtmp/rtmp.c:2179-2194 | a nonzero transaction id belongs to at most one waiting call |
| SessionLog.WaitingWasSent | app/src/main/jni/cpp/rtmp/rtmp.c:2107-2118 | every waiting call was sent and queued |
| Session.Client.HandleInvoke | app/src/main/jni/cpp/rtmp/rtmp.c:2155-2311 | keeps the invariant and the history; a body that is no invoke or does not decode has no effect; a _result has exactly the effect of Answered, an onStatus that of StatusTaken, every other invoke that of OtherTaken |
| Session.Client.OnResult | app/src/main/jni/cpp/rtmp/rtmp.c:2179-2238 | without a waiting call of this id nothing changes; otherwise the call is matched and, if the sends succeed, exactly the invokes that belong to its name follow |
| Session.AnswerIsRead | app/src/main/jni/cpp/rtmp/rtmp.c:2163-2195 | an answer of name, id, null of any type and number is read as exactly these four values, so that OnResult gets its id and its number |
| Session.StatusIsRead | app/src/main/jni/cpp/rtmp/rtmp.c:2263-2272 | a status message with an object behind name, id and null is read to the string under code |
| Session.CodesSay | app/src/main/jni/cpp/rtmp/rtmp.c:2139-2152 | which codes close the connection, end the stream or do neither, by name |
| Session.Client.OnConnected | app/src/main/jni/cpp/rtmp/rtmp.c:2199-2222 | exactly these packets leave, in this order and as these bytes: the answer to a secure token if there was one; for a publisher releaseStream and FCPublish, for a player window and buffer time; createStream; for a player the subscription |
| Invokes.PublisherAnnounces | app/src/main/jni/cpp/rtmp/rtmp.c:2207-2214 | a receiver decodes what leaves a publisher then as releaseStream and FCPublish of the play path and as createStream, to the last byte |
| Invokes.PlayerAnnounces | app/src/main/jni/cpp/rtmp/rtmp.c:2211-2212 | the window and the two buffer times of a player, byte for byte |
| Invokes.PlayerSubscribes | app/src/main/jni/cpp/rtmp/rtmp.c:2216-2221 | FCSubscribe is read with the subscribe path or, for a live stream without one, the play path |
| Session.Client.OnStreamCreated | app/src/main/jni/cpp/rtmp/rtmp.c:2223-2233 | the stream id is that of the answer, and exactly publish, or the playlist, play and the buffer time, leave with it |
| Invokes.PublisherSays | app/src/main/jni/cpp/rtmp/rtmp.c:1616-1646 | main result: the one packet a publisher sends then is decoded to exactly publish, a number, null, the play path and live, and is on the stream of the answer |
| Invokes.PlayerSays | app/src/main/jni/cpp/rtmp/rtmp.c:1886-1950 | a player's play is decoded to the play path and its start: -1000 for a live stream, otherwise the seek time or zero |
| Invokes.PlaylistSays | app/src/main/jni/cpp/rtmp/rtmp.c:1955-1990 | the playlist, part by part |
| Session.Client.OnStatus | app/src/main/jni/cpp/rtmp/rtmp.c:2263-2311 | which codes close the connection, which end the stream (result 1), which start playing and drop their call, that a pause notice in a pause is answered by resuming, and that all others, a pause notice outside a pause included, change nothing |
| Session.Client.OnOther | app/src/main/jni/cpp/rtmp/rtmp.c:2239-2262 | effect of the remaining server invokes: exactly these replies, closing, dropped calls, nothing |
| Invokes.EchoSays | app/src/main/jni/cpp/rtmp/rtmp.c:1831-1884 | pong and the answer to _onbwcheck are decoded to the id they were asked with and, for the latter, the number of checks so far, at 22 ms for each |
| Invokes.TokenSays | app/src/main/jni/cpp/rtmp/rtmp.c:1993-2021 | the answer to a secure token is decoded to id zero and a string |
| Session.Client.TakeCall | app/src/main/jni/cpp/rtmp/rtmp.c:2179-2194 | finds a call exactly when one with this id waits and takes it out |
| Session.Client.HandleCtrl | app/src/main/jni/cpp/rtmp/rtmp.c:2474-2580 | a ping is answered by exactly one pong with its time; the pause state machine with exactly the pause or resume it sends |
| Session.PauseCycle | app/src/main/jni/cpp/rtmp/rtmp.c:2528-2566 | a full cycle: an empty buffer pauses, the end of the stream is noted, the next empty buffer resumes; nothing without the option; a ping is answered in any state |
| Invokes.PauseSays | app/src/main/jni/cpp/rtmp/rtmp.c:1685-1708 | a pause message is decoded with the flag it was sent with |
| Session.Client.SetSizes | app/src/main/jni/cpp/rtmp/rtmp.c:2457-2465 | the chunk size and the two windows a server sets |
| Session.Client.ConnectStream | app/src/main/jni/cpp/rtmp/rtmp.c:917-946 | the receive loop ends and keeps the invariant over any peer |
| Session.Client.Connect | app/src/main/jni/cpp/rtmp/rtmp.c:814-855 | counting of received bytes is switched on, hands are shaken as ShakeHands says, and exactly one connect is in the history; a failure closes the connection |
| Session.Client.ShakeHands | app/src/main/jni/cpp/rtmp/rtmp.c:2789-2843 | the exchange of a build without encryption keeps the invariant: version 3 and the client's bytes go out first, and behind them the server's bytes exactly as they came in; what comes back is never refused |
| Session.Client.Receive | app/src/main/jni/cpp/rtmp/rtmp.c:1178-1260 | ReadN in a session: closing on the way is noted in the history |
| Session.Client.SendInvoke | app/src/main/jni/cpp/rtmp/rtmp.c:1616-1646 | every invoke sender: on success the wire has got exactly the bytes RTMP_SendPacket emits for one invoke packet of this header type, channel, time and stream id, whose name and id are those logged and queued and whose body says exactly these arguments; invariant and history are kept, failed sends included |
| Session.Client.SendCall | app/src/main/jni/cpp/rtmp/rtmp.c:1645 | the same for the encoded packet: its header, its body and its stream id are those of the event in the history |
| Session.Client.SendConnect | app/src/main/jni/cpp/rtmp/rtmp.c:1336-1434 | exactly one connect packet leaves with the given arguments, and its call is queued; the invariant is kept |
| Session.ConnectSays | app/src/main/jni/cpp/rtmp/rtmp.c:1356-1434 | its body part by part: name, number, command object, credentials only if there are any, extra arguments |
| Session.Client.SendCreateStream | app/src/main/jni/cpp/rtmp/rtmp.c:1471-1492 | allowed only after an answered connect; exactly one createStream packet leaves, and its call is queued |
| Session.Client.SendPublish | app/src/main/jni/cpp/rtmp/rtmp.c:1616-1646 | allowed only with a stream id that an answer to createStream gave; exactly one publish packet of the play path, live, with that stream id leaves, and its call is queued |
| Session.Client.SendPlay | app/src/main/jni/cpp/rtmp/rtmp.c:1886-1950 | allowed only with a stream id that an answer to createStream gave; exactly one play packet of the play path, its start and its length with that stream id leaves, and its call is queued |
| Session.CallReadBack | app/src/main/jni/cpp/rtmp/rtmp.c:3093-3101 | name and id that were encoded are those RTMP_SendPacket reads back from the body |
| Session.QueuedId | app/src/main/jni/cpp/rtmp/rtmp.c:1625-1630 | the id that is queued is the number of the invoke, through its encoding as a double |
| Session.EncodeInvoke | app/src/main/jni/cpp/rtmp/rtmp.c:1616-1646 | an invoke body in a bounded buffer is name, number and the arguments one behind the other, or nothing is sent |
| InvokeArgs.InvokeDecodes | app/src/main/jni/cpp/rtmp/amf.c:1062-1106 | a body whose arguments are values is decoded to name and arguments, to the last byte |
| Numbers.IntRoundTrip | app/src/main/jni/cpp/rtmp/amf.c:80-128 | every non-negative int survives the trip through a double and the cast back |
| Numbers.NumberEquals | app/src/main/jni/cpp/rtmp/amf.c:198-256 | the double of an int is that int exactly |
| AmfRoundTrip.RoundTrip | app/src/main/jni/cpp/rtmp/amf.c:597-781 | main result: whatever room the encoder had and whatever bytes follow, decoding its output consumes exactly that output and gives the object cut to a prefix of properties at each level |
| AmfRoundTrip.KeptObjectIsCut | app/src/main/jni/cpp/rtmp/amf.c:862-893 | what AMF_Encode keeps is the object with every level cut to a prefix |
| AmfRoundTrip.LongestPrefix | app/src/main/jni/cpp/rtmp/amf.c:862-893 | and no shorter a prefix than it must be: the first missing property did not fit into what the others left |
| AmfRoundTrip.ObjectFits | app/src/main/jni/cpp/rtmp/amf.c:862-893 | a result other than NULL lies strictly inside the buffer |
| AmfRoundTrip.WholeObjectFits | app/src/main/jni/cpp/rtmp/amf.c:862-893 | nothing is cut if and only if the room exceeds the full encoding, for any room |
| AmfRoundTrip.FailsExactlyWhen | app/src/main/jni/cpp/rtmp/amf.c:1062-1106 | AMF_Decode returns -1 if and only if a property fails to decode behind properties that do and no 00 00 09 stands anywhere from there on |
| AmfRoundTrip.FailureOutcome | app/src/main/jni/cpp/rtmp/amf.c:1062-1106 | after a failing property the decoder keeps the ones before it and goes on behind the first end marker, or returns -1 when there is none |
| AmfRoundTrip.SkipsToMarker | app/src/main/jni/cpp/rtmp/amf.c:1075-1089 | in error the decoder skips to the first end marker |
| AmfRoundTrip.NothingDecodedExactlyWhen | app/src/main/jni/cpp/rtmp/amf.c:1062-1106 | for every input AMF_Decode succeeds without a property if and only if there are no bytes, the end marker comes first, or the first property fails and an end marker follows: then HandleInvoke and HandleMetadata follow a null pointer |
| AmfRoundTrip.NothingDecoded | app/src/main/jni/cpp/rtmp/amf.c:1062-1106 | the bytes 02 ff ff 00 00 09 are such a body |
| Amf0.DecodeProps | app/src/main/jni/cpp/rtmp/amf.c:1062-1106 | terminates by remaining bytes and error flag and never consumes more than it was given |
| Amf0.DecodeProp | app/src/main/jni/cpp/rtmp/amf.c:597-781 | each success consumes between 1 byte and all of them; which values it gives is the matter of AmfGrammar |
| AmfGrammar.ValueExactly | app/src/main/jni/cpp/rtmp/amf.c:597-781 | main result: AMFProp_Decode gives a number, boolean, string, null or date exactly when the bytes begin with an encoding of it in the AMF0 grammar, and consumes exactly that encoding; null is one byte of three types |
| AmfGrammar.NamedExactly | app/src/main/jni/cpp/rtmp/amf.c:619-647 | the same behind a name, with at least four bytes in all |
| AmfGrammar.ValuesDecode | app/src/main/jni/cpp/rtmp/amf.c:1062-1106 | unnamed values one behind the other are decoded to exactly those values if and only if no number among them begins like the end marker |
| AmfGrammar.EncoderWrites | app/src/main/jni/cpp/rtmp/amf.c:173-268 | the encoders write an encoding of the value, and refuse exactly when a short string lacks two bytes more than that, null one more, or any other value its bytes |
| AmfGrammar.PropertyWrites | app/src/main/jni/cpp/rtmp/amf.c:359-420 | a name stands in front of the value, except that null loses it |
| AmfBuffer.EncodeObject | app/src/main/jni/cpp/rtmp/amf.c:862-893 | the recursive encoder with its cursor writes exactly the bytes of FitObject, NULL exactly when that has none, and nothing outside its bounds |
| AmfBuffer.EncodeProps | app/src/main/jni/cpp/rtmp/amf.c:872-885 | the property loop, up to the first property that does not fit |
| AmfBuffer.EncodeProp | app/src/main/jni/cpp/rtmp/amf.c:358-405 | one property: name, type and value within the bounds |
| AmfBuffer.EncodeScalar | app/src/main/jni/cpp/rtmp/amf.c:197-268 | numbers, booleans, strings and null within the bounds |
| AmfBuffer.EncodeString | app/src/main/jni/cpp/rtmp/amf.c:172-195 | short and long strings; both need room for the long header |
| AmfBuffer.DecodeProperty | app/src/main/jni/cpp/rtmp/amf.c:597-781 | the imperative decoder of a property is DecodeProp, over every type this model has |
| AmfBuffer.DecodeObject | app/src/main/jni/cpp/rtmp/amf.c:1062-1106 | the loop over buffer, size and error flag is DecodeProps |
| FlvRead.Reader.Read | app/src/main/jni/cpp/rtmp/rtmp.c:3841-3940 | main result: bytes handed out so far plus bytes to come are always the same stream, for every sequence of sizes; never more than asked for, and 0 only at the end of the stream |
| FlvRead.Reader.constructor | app/src/main/jni/cpp/rtmp/rtmp.c:3841-3880 | that stream is the FLV header and the tags of all packets if the start-up phase completes, and empty if it does not; the header names the kinds of media seen or announced by then |
| FlvRead.Reader.ReadOne | app/src/main/jni/cpp/rtmp/rtmp.c:3414-3820 | one packet's bytes go to the caller or, behind what fits, to the leftover buffer; small frames are ignored; kinds announced, received and found in aggregates are noted; the end resets what closing resets |
| FlvRead.Reader.TakeOne | app/src/main/jni/cpp/rtmp/rtmp.c:3425-3829 | the part of it behind RTMP_GetNextMediaPacket |
| FlvRead.Reader.Prepare | app/src/main/jni/cpp/rtmp/rtmp.c:3845-3898 | the status decides whether anything follows; the first call collects the header; the stream stays the same |
| FlvRead.Reader.PutPacket | app/src/main/jni/cpp/rtmp/rtmp.c:3669-3815 | tag or re-timed aggregate, the timestamp kept for the start-up phase, the kinds of media seen |
| FlvRead.Reader.CollectHeader | app/src/main/jni/cpp/rtmp/rtmp.c:3857-3897 | the start-up phase keeps the stream: header and first tags become leftover bytes, in order |
| FlvRead.Reader.FirstPackets | app/src/main/jni/cpp/rtmp/rtmp.c:3870-3892 | the start-up loop is StartUp |
| FlvRead.Reader.TakeLeftover | app/src/main/jni/cpp/rtmp/rtmp.c:3908-3924 | leftover bytes are handed out from the front and kept otherwise |
| FlvRead.StartKeepsOrder | app/src/main/jni/cpp/rtmp/rtmp.c:3870-3892 | the start-up phase loses and repeats nothing |
| FlvStream.StartsExactlyWhen | app/src/main/jni/cpp/rtmp/rtmp.c:3870-3892 | start-up completes if and only if a packet sets a nonzero timestamp, or there is a packet and both audio and video turn up or are announced; otherwise what was read is lost |
| FlvStream.ContentSeen | app/src/main/jni/cpp/rtmp/rtmp.c:3431-3480 | what start-up makes of a packet, by its content: the time it sets and the kinds it brings |
| FlvStream.HeaderAnnounces | app/src/main/jni/cpp/rtmp/rtmp.c:3866-3910 | the header announces a kind if and only if a packet taken in start-up brought it or it was announced before; what is left are the last packets |
| FlvRead.FlvHeaderSays | app/src/main/jni/cpp/rtmp/rtmp.c:3833-3836 | the header by the FLV specification: signature, version, one bit each for audio and video, its length |
| FlvStream.LoneAudioIsLost | app/src/main/jni/cpp/rtmp/rtmp.c:3870-3892 | an audio frame at time zero alone is read and lost |
| FlvStream.CodecIdsStart | app/src/main/jni/cpp/rtmp/rtmp.c:3870-3892 | an onMetaData message at time zero with two codec ids starts the stream alone, with header flags 5 |
| FlvMetadata.HandleMetadata | app/src/main/jni/cpp/rtmp/rtmp.c:2419-2455 | the kinds announced are those with a property, at any depth, whose name goes on behind "audio" or "video", in a message that decodes to onMetaData; every other body that decodes announces nothing |
| FlvMetadata.FindPrefixProperty | app/src/main/jni/cpp/rtmp/rtmp.c:2349-2369 | the recursive search finds a property exactly when there is one |
| FlvMetadata.HandleAggregate | app/src/main/jni/cpp/rtmp/rtmp.c:1133-1157 | the metadata tags of an aggregate, and the time of its last audio or video tag, up to the first tag without its whole trailing size |
| FlvMetadata.EncodedIsAnnounced | app/src/main/jni/cpp/rtmp/rtmp.c:2419-2455 | a message written by the encoder announces a kind if and only if a property that fitted names it |
| FlvStream.StreamIsTags | app/src/main/jni/cpp/rtmp/rtmp.c:3431-3808 | packets, aggregates among them, give the bytes of their tags: a frame its own if and only if there is media behind its header (more than 5 bytes of video, more than 1 of audio, any metadata) |
| FlvStream.BundleTimes | app/src/main/jni/cpp/rtmp/rtmp.c:3739-3754 | the first tag of an aggregate gets the packet's timestamp, the others keep their distance to it mod 2^32 |
| FlvTags.AggregateRetimed | app/src/main/jni/cpp/rtmp/rtmp.c:3731-3802 | main result: kinds, stream ids and data stay, every timestamp moves by the same delta, every trailing size is data size plus 11, if and only if the last tag is not an empty one without trailing size |
| FlvTags.AggregateSeen | app/src/main/jni/cpp/rtmp/rtmp.c:3731-3802 | the kinds and the time the loop notes are those of the tags and of the last one |
| FlvTags.CutOffTag | app/src/main/jni/cpp/rtmp/rtmp.c:3731-3802 | a tag cut off inside its data is moved, keeps what there is and gets no trailing size |
| FlvTags.EmptyLastTag | app/src/main/jni/cpp/rtmp/rtmp.c:3744-3744 | an empty last tag without trailing size is left as it is |
| FlvTags.RetimedLength | app/src/main/jni/cpp/rtmp/rtmp.c:3764-3775 | the loop's count, with four bytes for an appended trailing size, is that of the bytes it has written if and only if the last trailing size is whole or wholly missing |
| FlvTags.PartOfATrailer | app/src/main/jni/cpp/rtmp/rtmp.c:3764-3778 | one byte of a trailing size: 17 bytes are counted and 16 written |
| FlvTags.HeaderFields | app/src/main/jni/cpp/rtmp/rtmp.c:3690-3727 | a tag header is read back to kind, size and 32-bit timestamp |
| FlvTags.TrailersLeadBack | app/src/main/jni/cpp/rtmp/rtmp.c:3804-3808 | any number of tags can be read backwards by their trailing sizes |
| FlvAggregate.PutAggregate | app/src/main/jni/cpp/rtmp/rtmp.c:3731-3802 | the rewrite loop in the buffer visits exactly the tag boundaries and is Retimed, for every body |
| FlvAggregate.PutRetimed | app/src/main/jni/cpp/rtmp/rtmp.c:3744-3801 | one turn re-times one tag where it lies and touches nothing else |
| FlvAggregate.PutTag | app/src/main/jni/cpp/rtmp/rtmp.c:3686-3808 | header, data and trailing size of a tag |
| FlvWrite.AnyCuts | app/src/main/jni/cpp/rtmp/rtmp.c:3944-4016 | main result: an optional FLV header and tags, cut between tags or strictly inside bodies in any way, become one packet a tag with its kind, 32-bit timestamp and body (metadata with the 16-byte @setDataFrame string), every call returns its full size, nothing is left over |
| FlvWrite.CutExactly | app/src/main/jni/cpp/rtmp/rtmp.c:3953-4014 | a single cut in a tag is accepted if and only if it is one of those; any other returns less or forgets the tag header |
| FlvWrite.HeaderAlone | app/src/main/jni/cpp/rtmp/rtmp.c:3953-4014 | an audio tag cut behind its header: the first call claims all 11 bytes, the second nothing, no packet is sent |
| FlvWrite.TrailerCut | app/src/main/jni/cpp/rtmp/rtmp.c:3996-4013 | a cut inside a trailing size: the packet is sent, and the call returns its size less the bytes that are missing |
| FlvWrite.OnePiece | app/src/main/jni/cpp/rtmp/rtmp.c:3944-4016 | a whole file in one call is cut well |
| FlvWrite.Piece | app/src/main/jni/cpp/rtmp/rtmp.c:3952-4014 | from any good cut to any later one: state, packets and count |
| FlvWrite.Writer.Write | app/src/main/jni/cpp/rtmp/rtmp.c:3944-4016 | RTMP_Write in place does what Feed says for every input it does not read beyond; after a failed send it returns -1 with a proper prefix sent |
| FlvWrite.Writer.Turn | app/src/main/jni/cpp/rtmp/rtmp.c:3955-4013 | one turn of the loop, between packets or inside one, does the first part of what Feed says and leaves the rest |
| FlvWrite.Writer.Begin | app/src/main/jni/cpp/rtmp/rtmp.c:3965-3992 | header fields, header type (see AbsoluteTime) and body buffer of a new tag, metadata with the string in front |
| FlvWrite.Writer.TakeBody | app/src/main/jni/cpp/rtmp/rtmp.c:3996-4013 | body bytes are appended; a full body is sent and its trailing size skipped |
| FlvBridge.ReadThenWritten | app/src/main/jni/cpp/rtmp/rtmp.c:3841-4016 | what RTMP_Read hands out, fed to RTMP_Write in pieces, is one packet for every tag with the same kind, timestamp and data |
| FlvBridge.ReadThenWrittenWhole | app/src/main/jni/cpp/rtmp/rtmp.c:3841-4016 | the same for one call with the whole stream |
| FlvUpstream.WrittenThenReceived | app/src/main/jni/cpp/rtmp/rtmp.c:2935-4016 | main result: the packets RTMP_Write makes of tags, sent in chunks of any size, reach a receiver as one message a tag with its kind, data and stream id, if the first tag is metadata or has time zero |
| FlvUpstream.TagsAreSendable | app/src/main/jni/cpp/rtmp/rtmp.c:3965-3992 | that is the exact condition for a receiver to follow the channel |
| FlvUpstream.AbsoluteTime | app/src/main/jni/cpp/rtmp/rtmp.c:3974-3984 | a packet goes out with an absolute time and its stream id if and only if its tag is metadata or has time zero |
| FlvUpstream.TimesOfTags | app/src/main/jni/cpp/rtmp/rtmp.c:2935-4016 | the times arrive too when no tag repeats kind, time and size of the one before |
| BlockTea.CipherUndone | app/src/main/jni/cpp/rtmp/rtmp.c:3326-3339 | main result: decryption undoes Block TEA encryption of two or more words, for every mixing function and number of rounds |
| BlockTea.RoundOfThree | app/src/main/jni/cpp/rtmp/rtmp.c:3326-3339 | the order in which a round of the cipher mixes the words, and from which neighbours, for every mixing function |
| BlockTea.RoundsOf | app/src/main/jni/cpp/rtmp/rtmp.c:3330 | the number of rounds is the largest that makes at most 52 steps beyond six rounds |
| BlockTea.BlendExample | app/src/main/jni/cpp/rtmp/rtmp.c:3327 | the mixing term, by examples |
| BlockTea.KeyOrder | app/src/main/jni/cpp/rtmp/rtmp.c:3327-3333 | which word of the key a step takes |
| BlockTea.DeltaMultiples | app/src/main/jni/cpp/rtmp/rtmp.c:3330-3339 | a multiple of DELTA vanishes mod 2^32 only with its multiplier, so the loop over the sum runs exactly the rounds it was started for |
| BlockTea.DecipherWords | app/src/main/jni/cpp/rtmp/rtmp.c:3328-3339 | the nested loops over the word array end and are Decipher with 6 + 52 / n rounds |
| BlockTea.RoundInPlace | app/src/main/jni/cpp/rtmp/rtmp.c:3333-3338 | one turn of the outer loop, in place |
| BlockTea.PackKey | app/src/main/jni/cpp/rtmp/rtmp.c:3291-3309 | at most 16 key bytes, four to a word, lowest first, zeros behind |
| BlockTea.HexRoundTrip | app/src/main/jni/cpp/rtmp/rtmp.c:3311-3323 | the hex text of words is read back to the words |
| BlockTea.HexExample | app/src/main/jni/cpp/rtmp/rtmp.c:3281-3323 | the order of the bytes in hex text and the value of its digits, by examples |
| BlockTea.KeyExample | app/src/main/jni/cpp/rtmp/rtmp.c:3291-3309 | the order of the bytes in the key, by an example |
| BlockTea.DecodeTEA | app/src/main/jni/cpp/rtmp/rtmp.c:3283-3344 | the whole of DecodeTEA on hex text of whole words |
| BlockTea.TokenRoundTrip | app/src/main/jni/cpp/rtmp/rtmp.c:3283-3344 | words enciphered with the same key and written as hex come back |
| Yuv.Rotate | app/src/main/java/com/zzm/play/utils/YUVUtil.java:21-70 | the loops give RotatedNv12 and RotatedPlanar for all even sizes; other layouts get their luma and zero chroma |
| Yuv.RotatedAt | app/src/main/java/com/zzm/play/utils/YUVUtil.java:27-33 | row i, column j of the result is row height-1-j, column i of the source |
| Yuv.Nv12At | app/src/main/java/com/zzm/play/utils/YUVUtil.java:34-50 | where every chroma byte of a rotated NV12 frame comes from |
| Yuv.PlanarAt | app/src/main/java/com/zzm/play/utils/YUVUtil.java:34-50 | the same for a planar frame |
| Yuv.EachOnce | app/src/main/java/com/zzm/play/utils/YUVUtil.java:27-33 | every source position arrives at exactly one place |
| Yuv.RotationCommutes | app/src/main/java/com/zzm/play/utils/YUVUtil.java:35-66 | rotating NV12 and separating chroma equals separating chroma and rotating as planar |
| Yuv.FourTimes | app/src/main/java/com/zzm/play/utils/YUVUtil.java:27-33 | four rotations of a plane with swapped sizes are none |
| Yuv.Nv12FourTimes | app/src/main/java/com/zzm/play/utils/YUVUtil.java:35-49 | the same for an NV12 frame |
| Yuv.PlanarFourTimes | app/src/main/java/com/zzm/play/utils/YUVUtil.java:50-66 | the same for a planar frame |
| SafeQueue.ScheduleKeeps | app/src/main/jni/head/x264/safe_queue.h:47-138 | main result: for any number of consumers and every schedule with spurious wake-ups, accepted items are those popped or cleared followed by those queued, in order; while a consumer waits every queued item has a signalled consumer coming; a single consumer waits only while the queue is empty and at work |
| SafeQueue.FromTheStart | app/src/main/jni/head/x264/safe_queue.h:47-138 | the invariant in every state reachable from an empty queue |
| SafeQueue.AcceptedOrRefused | app/src/main/jni/head/x264/safe_queue.h:47-63 | every item pushed at work is accepted and every other one released, each once and in order, over every schedule |
| SafeQueue.StopReachesAll | app/src/main/jni/head/x264/safe_queue.h:97-108 | the signal of setWork(0) leaves nobody waiting if and only if at most one consumer waits |
| SafeQueue.TwoConsumers | app/src/main/jni/head/x264/safe_queue.h:97-108 | a schedule of two consumers in which one waits on after setWork(0) |
| SafeQueue.Queue.Push | app/src/main/jni/head/x264/safe_queue.h:47-63 | accepts and signals while at work, otherwise releases |
| SafeQueue.Queue.TryPop | app/src/main/jni/head/x264/safe_queue.h:69-95 | waits exactly while at work and empty, otherwise takes the oldest item if there is one |
| SafeQueue.Queue.Clear | app/src/main/jni/head/x264/safe_queue.h:118-138 | the loop releases every queued item, oldest first |
| Handshake.PeerAgrees | app/src/main/jni/head/rtmp/handshake.h:143-300 | main result: the peer, from the finished block alone, finds key and digest where they were placed and accepts the digest, for every block, key and HMAC function, in both layouts |
| Handshake.AllApart | app/src/main/jni/head/rtmp/handshake.h:143-256 | key area, digest area and the bytes they are placed by are pairwise disjoint and inside the block |
| Handshake.SumCounts | app/src/main/jni/head/rtmp/handshake.h:143-256 | the sum behind a position counts each of its four bytes once and no other |
| Handshake.PositionExamples | app/src/main/jni/head/rtmp/handshake.h:143-256 | bases and moduli of the four positions, by examples |
| Handshake.MessageCovers | app/src/main/jni/head/rtmp/handshake.h:275-290 | no byte outside the digest is left out of what is signed |
| Handshake.GetDHOffset | app/src/main/jni/head/rtmp/handshake.h:143-226 | range of the key position in both layouts; the exit branch is dead |
| Handshake.GetDigestOffset | app/src/main/jni/head/rtmp/handshake.h:172-256 | range of the digest position in both layouts; the exit branch is dead |
| Handshake.PlaceKeyAndDigest | app/src/main/jni/head/rtmp/handshake.h:433-468 | key first, then digest over the block with the key, each where the peer looks for it |
| Handshake.CalculateDigest | app/src/main/jni/head/rtmp/handshake.h:275-290 | the digest of the block without the digest's own bytes |
| Handshake.FindDigest | app/src/main/jni/head/rtmp/handshake.h:508-532 | own layout first, then the other, else failure |
| Handshake.SignedIsAccepted | app/src/main/jni/head/rtmp/handshake.h:508-532 | a block signed in either layout is accepted; the peer reads it in the signer's layout if and only if it is its own or the block does not verify there |
| Handshake.BothLayouts | app/src/main/jni/head/rtmp/handshake.h:508-532 | a block and an HMAC that verify in both layouts: signed in one, read in the other |
| Handshake.BothGenuine | app/src/main/jni/head/rtmp/handshake.h:585-690 | both second blocks pass the other side's check |
| AvcConfig.BufferToDecoder | app/src/main/jni/cpp/rtmp/RtmpLive.cpp:176-259 | main result: SPS and PPS cut out of the encoder's buffer and built into a record are read back as they were (section 5.2.4.1 of ISO/IEC 14496-15) |
| AvcConfig.CutExactly | app/src/main/jni/cpp/rtmp/RtmpLive.cpp:176-205 | the cut recovers SPS and PPS if and only if no PPS begins inside the SPS |
| AvcConfig.PpsInsideSps | app/src/main/jni/cpp/rtmp/RtmpLive.cpp:176-205 | the SPS 67 00 00 00 01 68 is cut behind its first byte |
| AvcConfig.ConfigRoundTrip | app/src/main/jni/cpp/rtmp/RtmpLive.cpp:207-259 | the record parses to one SPS, one PPS, the profile bytes and four-byte lengths |
| AvcConfig.FrameRoundTrip | app/src/main/jni/cpp/rtmp/RtmpLive.cpp:261-307 | a frame is read as its one NAL unit behind a four-byte length, without composition time, and as a key frame if and only if it is an IDR slice |
| AvcConfig.VideoIsSendable | app/src/main/jni/cpp/rtmp/RtmpLive.cpp:207-307 | a receiver of the chunk stream can take every packet of the sender |
| AvcConfig.RtmpLive.SaveSpsAndPps | app/src/main/jni/cpp/rtmp/RtmpLive.cpp:176-205 | the scan stops at the first PPS and cuts there, or changes nothing |
| AvcConfig.RtmpLive.CreateConfig | app/src/main/jni/cpp/rtmp/RtmpLive.cpp:207-259 | fills its sps + pps + 16 bytes exactly |
| AvcConfig.RtmpLive.CreateFrame | app/src/main/jni/cpp/rtmp/RtmpLive.cpp:261-307 | the NAL unit behind its length, key frames marked |
| AvcConfig.RtmpLive.SendVideo | app/src/main/jni/cpp/rtmp/RtmpLive.cpp:151-173 | every key frame goes out directly behind the record; the first SPS and PPS stay |

## Left out

- HTTP tunnelling, TLS, RC4, SOCKS, DNS and the sockets themselves: a connection is a byte stream with arbitrary fragmentation. The single-request buffer of the HTTP path is modelled.
- Allocation failure and release of memory; interrupted system calls are repeated finitely often.
- The farewell messages of RTMP_Close: closing is the state it leaves.
- Calls by the application in the middle of a run: RTMP_ReconnectStream, RTMP_DeleteStream, RTMP_SendCreateStream, seeking and resuming, RTMP_Serve.
- Resume and seek modes of Read_1_Packet and RTMP_Read, and start-up phases that overflow HEADERBUF: `FlvRead.Reader` requires that they fit.
- FlvRead.Reader.ReadOne: an aggregate must hold at least the eight bytes the code reads first and all or none of its last trailing size; for others the code hands out bytes it has not written. What RTMP_GetNextMediaPacket delivers is a sequence of packets, each with the kinds of media announced by metadata since the one before; `FlvMetadata` says which those are for metadata without arrays, and with arrays any can be announced.
- FlvWrite.Writer.Write: requires input it does not read beyond, and metadata of two bytes or more; RTMP_SendPacket is there a success or a failure with its packet recorded. What it does to a packet is in `Engine`.
- AMF3, ECMA and strict arrays and typed objects: the decoder answers `Outside`, and `Session.Client.HandleInvoke` then goes on with arbitrary properties. Named null properties are not encoded with their names by the code and are no part of the round trip of objects; `AmfGrammar` has them.
- AmfRoundTrip.RoundTrip: properties have non-empty names below 65536 bytes, as an unnamed number can look like the end marker.
- Meaning of floating-point numbers beyond the ints: a number is eight bytes. The cast to int truncates and saturates.
- The command object and extra arguments of connect, the deciphered token in its answer, the time of a pause and the doubles of negative ints (a stop time before the seek time): arbitrary where the session sends them.
- Session.Client.ConnectStream, Session.Client.GetNextMediaPacket: at most 2^31 - 1 invokes are numbered; beyond that the loops end.
- Session.Client.ClientPacket: what the code reads beyond an empty or short body is arbitrary.
- Session.Client.SetSizes: a chunk size or window beyond the positive ints becomes arbitrary.
- Session.Client.HandleInvoke: where the code follows a null pointer, and for a value that is no string where a name is expected, the model goes on with an arbitrary name.
- FlvMetadata.HandleMetadata: for a body that decodes to no property the code follows the same null pointer, and the model announces any kinds.
- Session.Client.ShakeHands: the exchange of a build without encryption; `Handshake` has the digests of the other.
- Session.RunSession: between the packets of the history the bytes sent hold the handshake, acknowledgements and what failed sends have got rid of; which of these a byte is, is not stated. On the control channel a header may be compressed against an acknowledgement.
- Engine.Rtmp.SendPacket: queueing an invoke requires that name and id are read back inside the body the chunk loop has left; beyond it the code reads other memory. The outgoing chunk size is fixed, as no code changes it.
- Engine.Rtmp.ReadN: the bytes are returned as a value instead of written through the caller's pointer; the count of received bytes does not overflow.
- ChunkReceive: a body is a sequence, so sharing of one allocation between the saved and the caller's packet is not modelled.
- BlockTea.DecodeTEA: the text is hex digits in whole words; other characters and lengths make the code read beyond the text.
- Handshake: random bytes, the public key and HMAC-SHA256 are parameters; Diffie-Hellman and the RTMPE signatures of type 8 are not modelled.
- SafeQueue: a condition variable may wake one waiting thread per signal and any at any time; the sync callback and the C++11 branch are left out.
- AvcConfig.RtmpLive.SendVideo: a key frame before the first SPS makes the code follow a null pointer and is excluded; SPS and PPS have less than 2^15 bytes. Whether a packet was really sent is ignored, as in the code.
- URL parsing, options, logging, SWF hashing, x264, FAAC, cameras, views and databases: foreign libraries, text handling and user interface.
