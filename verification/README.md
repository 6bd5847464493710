# joy5, verified

A Dafny model of the protocol core of joy5, a Go library and tool for live
streaming: the RTMP chunk layer and command dialogue, the publish/subscribe relay
of `avtool`, AMF0, H.264 framing and parameter sets, FLV files, bit I/O and the
AAC configuration. The command for all of it is `dafny verify dfyconfig.toml`.

The Go code updates objects in place; the model does the same. `RtmpConn.Conn`,
`Gops.GopCache`, `SeqHdr.MergeSeqhdr` and `SplitSeqhdr`, `DecoderConfig.Codec`,
`Golomb.GolombBitReader`, `BitIO.Reader` and `Writer`, `Flv.Muxer` and `Demuxer`
are classes with the fields of the original. Their methods are proved against
functions on values, and the theorems are lemmas about those functions. What is
concurrent (the relay) or spans two programs (the dialogue) is a state machine
whose runs are all the interleavings of its steps.

| module | file | what it is about |
|---|---|---|
| Bytes, Wrappers, Pio, BitSeq | Bytes, Pio, BitSeq | fixed-width integers and their codecs, cursor writers, numbers as bits |
| ChunkReader, ChunkWriter | the same | reading and writing chunks as functions; reassembly of any interleaving |
| Events, Acks, LockStep, Aggregates | the same | the message loop, acknowledgements, chunk-size changes, aggregate messages |
| RtmpConn, Buffers | the same | the connection object; who writes a payload buffer |
| Dialogue | Dialogue | client and server from handshake to publish or play |
| Packets, SeqHdr, Gops, Fanout | Packets, SeqHdr, GopCache, Fanout | the relay: headers in and out, the GOP cache, publishers and subscribers |
| Amf0, Amf0Codec | the same | AMF0 on values, and the printer and parser that run |
| Nalu, AnnexB, Golomb, DecoderConfig | the same | AVCC and Annex B, emulation prevention, Exp-Golomb, parameter sets |
| FlvTag, Flv | the same | tags, packets and whole files |
| BitIO, AacConfig | the same | the 64-bit register reader and writer, the audio configuration |

Integers are mathematical; every wrap-around of the Go code is written out. Go's
`int` is taken to have 64 bits. Times are in nanoseconds. AMF numbers are their
64-bit patterns. Streams are lossless FIFOs. SPS and PPS parsing, the AMF3 parser
and the sorting routine behind `sort.Slice` are parameters or stand-ins.

Where the code does not do what its documentation or the standard says, the code
is modelled and the difference is stated:

- `writeMsg2` switches to a new chunk size before it announces it. Reader and
  writer stay in step if and only if the size is at least 4
  (`LockStep.SizeChangeInStep`).
- Acknowledgements are right on every run if and only if the window is below
  2^32 - 4 MiB - 18 (`Acks.AcksRightExactly`); with a larger one some stream is
  read to 2^32 unacknowledged bytes without any (`Acks.AckMissed`).
- The messages of an aggregate reach the caller as they are if and only if none
  is an event that `handleEvent` takes for itself (`Aggregates.AggregateExpansion`,
  `Aggregates.EventTag`).
- `JoinNALUsAnnexb` is undone by `splitAnnexb` if and only if no unit is empty,
  contains a start code, or (the last one apart) ends in a zero byte
  (`AnnexB.AnnexbRoundTrip`).
- An Annex B stream of 260 bytes can be taken for AVCC; a shorter one cannot
  (`AnnexB.Annexb260IsAVCC`, `AnnexB.SmallAnnexbIsNotAVCC`). Exactly when a longer
  one is not is `AnnexB.AnnexbIsTaken`.
- `WriteBits64` over a full register shifts by the wrong amount. It is right for
  all values of k bits if and only if k is twice the room left
  (`BitIO.OverflowRight`).
- `ReadBits64` returns every number of k bits at every position if and only if k
  is at most 57 (`BitIO.SafeWidth`), and `Read` every n bytes if and only if it
  starts at a byte boundary or n is at most 7 (`BitIO.ReadRight`).
- `AOT_ESCAPE` is 46, so an audio configuration survives writing and parsing if
  and only if its object type is below 32 (`AacConfig.WriteThenParse`).
- The server reports a refusal with level "status", so a client does not notice
  it and completes the dialogue (`Dialogue.Agreement`).
- `ReadExponentialGolombCode` follows section 9.1 of ITU-T H.264 exactly on codes
  of at most 32 leading zeros (`Golomb.ReadUEIsUE`). The loop over scaling lists
  reads eight lists, so it ends where section 7.3.2.1.1 does if and only if
  chroma_format_idc is not 3, which calls for twelve (`Golomb.MatrixInStep`,
  `Golomb.TwelveFlags`).
- A type-3 chunk that opens a message after a type-0 header leaves the time as it
  was, and the three-byte basic header is read big-endian. No conformance to the
  RTMP 1.0 specification is claimed at these two points.

## Model

| member | source | states |
|---|---|---|
| `ChunkReader.ReadChunk` | format/rtmp/msg.go:292-525 | on arbitrary input and state: a successful read consumes 1 to 4 MiB + 18 bytes that are there, keeps every buffer within its announced length and 4 MiB, never has more than 16 streams, touches only the chunk's own stream, and returns a message exactly when it is complete |
| `ChunkReader.ReadHeader` | format/rtmp/msg.go:333-499 | every header type leaves a consistent stream state and takes at most 15 bytes of the input |
| `ChunkReader.ReadChunkStable` | format/rtmp/msg.go:292-525 | a chunk that parses is read the same way whatever follows it, although the reader peeks |
| `ChunkWriter.MessageIsSend` | format/rtmp/msg.go:678-739 | what writeMsg2 writes is the form-0 case of a general sender |
| `ChunkWriter.OpeningReads` | format/rtmp/msg.go:333-499 | each of the four opening headers is read back as the header state its sender computed |
| `ChunkWriter.SendRun` | format/rtmp/msg.go:678-739 | the chunks of one message, of any length and chunk size, make exactly that message on their stream and leave it idle |
| `ChunkWriter.StreamRun` | format/rtmp/msg.go:678-739 | any list of messages on one stream comes back as that list |
| `ChunkWriter.ReaderIsProduct` | format/rtmp/msg.go:319-330 | the reader is the product of its chunk streams: an interleaving delivers to each what it would get alone, and uses up the input |
| `ChunkWriter.InterleavedReassembly` | format/rtmp/msg.go:161-200 | for any messages on at most 16 streams 2 to 63, every interleaving at chunk boundaries is consumed entirely and delivers to every stream exactly its messages in order |
| `ChunkWriter.Type0Messages` | format/rtmp/msg.go:161-192 | with the headers writeMsg2 uses, the delivered messages have the sent time, stream id, type and bytes |
| `ChunkWriter.DeltaTimes` | format/rtmp/msg.go:396-487 | with delta headers the i-th message is at the sum of the deltas so far, modulo 2^32 |
| `Events.NextAggPart` | format/rtmp/msg.go:32-75 | every part takes at least 15 bytes off the aggregate |
| `Events.Pull` | format/rtmp/msg.go:252-273 | every message pulled consumes input or shortens the aggregate in hand |
| `Events.PingEchoed` | format/rtmp/msg.go:865-916 | a ping request is answered with the four bytes it carried |
| `Events.SurfacedIsQuiet` | format/rtmp/msg.go:252-290 | no message returned is an event that handleEvent acts on |
| `Events.RunIsCalls` | format/rtmp/msg.go:252-290 | a run hands out exactly what repeated calls of readMsgHandleEvent return |
| `Acks.AcksExact` | format/rtmp/msg.go:218-238 | over any chunk sizes, with a non-zero window below 2^32 - 4 MiB - 18 every acknowledgement carries the true count, none is missed or extra, and at most the window is unacknowledged between chunks |
| `Acks.AckMissed` | format/rtmp/msg.go:224 | with any larger window a given stream, empty messages and then one of 4 MiB, is read without an acknowledgement although it leaves 2^32 bytes unacknowledged |
| `Acks.ReadMsgAcks` | format/rtmp/msg.go:218-238 | one readMsg acknowledges as that loop does over its chunks, and ackn advances by exactly the bytes consumed |
| `Acks.ReadMsgsAcks` | format/rtmp/msg.go:218-238 | so do repeated calls until the input is used up, over all its chunks |
| `Acks.RunExact` | format/rtmp/msg.go:218-238 | over a whole run of readMsg what is written back is what an acknowledger counting without wrapping would send for the bytes received |
| `Acks.AcksRightExactly` | format/rtmp/msg.go:218-238 | that holds for every input if and only if the window is below 2^32 - 4 MiB - 18 |
| `LockStep.ReadsMessage` | format/rtmp/msg.go:218-238 | readMsg returns a written message, having consumed exactly its chunks, and is idle again |
| `LockStep.ChunkSizeLockStep` | format/rtmp/msg.go:605-614 | over every run of messages, aggregates and size changes of at least 4 the reader has the writer's chunk size at the end of what was written, and the caller has seen exactly the messages, aggregates tag by tag, that are not control events |
| `LockStep.SizeChangeInStep` | format/rtmp/msg.go:605-608 | one size change keeps both sides in step if and only if the size is at least 4 |
| `Aggregates.PartIsTag` | format/rtmp/msg.go:32-75 | the next part of an aggregate laid out as tags is its next tag, at the aggregate's time plus the difference to the first tag |
| `Aggregates.PartsThenWire` | format/rtmp/msg.go:252-273 | nothing is read from the wire while the aggregate has parts, and then reading goes on as if there were none |
| `Aggregates.AggregateIsPulled` | format/rtmp/msg.go:252-273 | the inner loop hands on exactly the tags of an aggregate, once and in order, consuming exactly its bytes |
| `Aggregates.AggregateExpansion` | format/rtmp/msg.go:252-290 | as many calls of readMsgHandleEvent return exactly the tags of an aggregate, having consumed exactly its bytes, if and only if no tag is an event handleEvent takes; the next call then reads on from the wire |
| `Aggregates.EventTag` | format/rtmp/msg.go:865-916 | a tag that is such an event never surfaces: cut short it is an error, else it sets the chunk size or the window or is answered, and the call goes on |
| `RtmpConn.Conn.constructor` | format/rtmp/conn.go:58-71 | initial chunk sizes 128, window 2500000, no streams |
| `RtmpConn.Conn.ValidIsOk` | format/rtmp/msg.go:319-330 | the object's invariant gives the reader invariant of ChunkReader, so callers owe no more than Valid |
| `RtmpConn.Message.Start` | format/rtmp/msg.go:84-104 | a fresh empty payload of the announced length, or an error above 4 MiB |
| `RtmpConn.Conn.ReadFull` | format/rtmp/wraprw.go:18-30 | all n bytes or none, counted in ackn modulo 2^32 |
| `RtmpConn.Conn.ReadBasic` | format/rtmp/msg.go:293-317 | the basic header, against ChunkReader.ReadBasic |
| `RtmpConn.Conn.ReadTime` | format/rtmp/msg.go:354-368 | the time field and its extension, against ChunkReader.ReadTime |
| `RtmpConn.Conn.ReadHeader` | format/rtmp/msg.go:333-499 | the four header types on the object's fields, against ChunkReader.ReadHeader |
| `RtmpConn.Conn.ReadPayload` | format/rtmp/msg.go:501-513 | at most one chunk of payload, appended to what the stream holds |
| `RtmpConn.Conn.OpenStream` | format/rtmp/msg.go:319-330 | the stream of a csid, created on first use, refused when it is the seventeenth |
| `RtmpConn.Conn.ReadChunk` | format/rtmp/msg.go:292-525 | the method that updates maps, buffers and counters does exactly what ChunkReader.ReadChunk says, its errors included |
| `RtmpConn.Conn.WriteMsg2` | format/rtmp/msg.go:678-739 | the output grows by exactly the chunks of the message, the tag header inside the first |
| `RtmpConn.Conn.WriteEvent` | format/rtmp/msg.go:854-863 | an event is one message on chunk stream 2 |
| `RtmpConn.Conn.SetAndWriteChunkSize` | format/rtmp/msg.go:605-614 | the new size is in force for the message that announces it |
| `RtmpConn.Conn.ReadMsg` | format/rtmp/msg.go:218-238 | chunks, counters and acknowledgements written, against Events.ReadMsg |
| `RtmpConn.Conn.NextAggPart` | format/rtmp/msg.go:32-75 | against Events.NextAggPart |
| `RtmpConn.Conn.Pull` | format/rtmp/msg.go:252-273 | the inner loop, against Events.Pull |
| `RtmpConn.Conn.HandleEvent` | format/rtmp/msg.go:865-916 | chunk size, window and ping replies, against Events.HandleEvent |
| `RtmpConn.Conn.ReadMsgHandleEvent` | format/rtmp/msg.go:252-290 | the whole loop: same message, state, input left, replies written and errors as Events.ReadMsgHandleEvent |
| `RtmpConn.ChunksSplit` | format/rtmp/msg.go:695-703 | the first chunk may be written in two pieces, tag header and data |
| `Buffers.Payloads.Start` | format/rtmp/msg.go:84-104 | a new message gets a buffer that was never handed out |
| `Buffers.Payloads.Fill` | format/rtmp/msg.go:501-524 | a payload is written in place behind what is there, and no message handed out before changes |
| `Buffers.Payloads.ReadChunk` | format/rtmp/msg.go:292-525 | over a chunk the buffers keep holding what ChunkReader's streams hold, the message handed out is the one it returns, and no earlier one changes |
| `Dialogue.StepKeeps` | format/rtmp/cmd.go:172-492 | every step of either side keeps both programs on their scripts, with exactly the unread, in-flight and buffered items between them |
| `Dialogue.NothingHeldBack` | format/rtmp/handshake.go:95-139 | no side stops to read with bytes of its own unflushed, the client's C2 included, and no reachable state has failed |
| `Dialogue.NoDeadlock` | format/rtmp/cmd.go:172-492 | until both sides are done, one of them can take a step of its own |
| `Dialogue.RunWorks` | format/rtmp/cmd.go:535-591 | every run is finite, spontaneous flushes included |
| `Dialogue.Agreement` | format/rtmp/cmd.go:359-492 | a run that cannot go on has both sides at StageCommandDone, agreeing on Publishing and on stream id 1, whether or not the server was told to refuse |
| `Dialogue.StageRises` | format/rtmp/cmd.go:535-591 | Stage never goes back and every iteration of Prepare raises it |
| `SeqHdr.MergeSeqhdr.Do` | cmd/avtool/pubsub.go:64-83 | the merger's state is the last header of each kind, and its output grows as Merged says |
| `SeqHdr.MergedFrom` | cmd/avtool/pubsub.go:64-83 | every packet put carries exactly the headers in force where it was read |
| `SeqHdr.SplitSeqhdr.SendMeta` | cmd/avtool/pubsub.go:90-101 | metadata goes out only when it changed, or as far as the writer takes it |
| `SeqHdr.SplitSeqhdr.Do` | cmd/avtool/pubsub.go:103-137 | headers that changed, then the packet; when the writer fails, a prefix of that; the output stays well headed |
| `SeqHdr.LateJoin` | cmd/avtool/pubsub.go:103-137 | for any packets handed over, every packet finds its headers in force, no header is repeated unchanged, and without headers the output is the packets |
| `Gops.GopCache.Append` | cmd/avtool/pubsub.go:32 | in place while there is capacity, else into a copy; nothing before the end moves |
| `Gops.GopCache.Put` | cmd/avtool/pubsub.go:28-39 | the cache is the history from its last key frame, and no snapshot ever published changes although later packets go into the same array |
| `Gops.GopCacheReadCursor.Advance` | cmd/avtool/pubsub.go:49-57 | the batch of a snapshot slice, and the cursor at its index |
| `Gops.BatchIs` | cmd/avtool/pubsub.go:49-57 | the batch is exactly the history from the cursor or the last key frame, whichever is later |
| `Gops.AdvanceFaithful` | cmd/avtool/pubsub.go:49-57 | advancing keeps a delivery free of duplicates, reordering and gaps, except to skip to a key frame |
| `Gops.WholeGroup` | cmd/avtool/pubsub.go:49-57 | a cursor that is not behind has been handed all of the last group |
| `Fanout.ReadKeepsPub` | cmd/avtool/pubsub.go:221-256 | reading a packet keeps the cache and snapshot equal to the history, and media makes the publisher owe an announcement |
| `Fanout.GetSnapOk` | cmd/avtool/pubsub.go:180-191 | looking at a snapshot keeps the delivery faithful, and who goes to sleep has seen all of it |
| `Fanout.StepKeeps` | cmd/avtool/pubsub.go:162-256 | every atomic step of any publisher or subscriber keeps the invariant |
| `Fanout.NeverMissed` | cmd/avtool/pubsub.go:162-219 | in every reachable state, publisher swaps included, a subscriber asleep with packets of the current publisher unseen has a token or is about to get one |
| `Fanout.CaughtUp` | cmd/avtool/pubsub.go:162-219 | when all is quiet a sleeping subscriber has been handed the whole current group of the current publisher |
| `Fanout.InOrder` | cmd/avtool/pubsub.go:162-208 | in every run each subscriber's delivery is faithful to what its publisher put, and no slice expression panics |
| `Fanout.HeadersInForce` | cmd/avtool/pubsub.go:162-208 | in every run a subscriber's output is well headed and without headers is what it was handed, each packet with the headers in force where its publisher read it |
| `Amf0.SetGet` | format/flv/flvio/amf0.go:103-110 | Set changes exactly one key and keeps keys distinct |
| `Amf0.DelGet` | format/flv/flvio/amf0.go:93-101 | Del removes exactly one key |
| `Amf0.Parse` | format/flv/flvio/amf0.go:362-534 | a value that parses takes at least one byte and no more than there are |
| `Amf0.RoundTrip` | format/flv/flvio/amf0.go:241-328 | for every nested value with distinct non-empty keys under 65536 bytes the parser returns the value and consumes exactly its bytes |
| `Amf0.EcmaArrayIsMap` | format/flv/flvio/amf0.go:439-474 | an ECMA array as the AMF 0 specification lays it out is read as a map |
| `Amf0.ParsedShape` | format/flv/flvio/amf0.go:362-534 | what was parsed from any bytes can be printed in no more bytes |
| `Amf0.NormalForm` | format/flv/flvio/amf0.go:241-328 | printing a parsed value and parsing it again gives the same value |
| `Amf0.WholeBuffer` | format/flv/flvio/amf0.go:335-360 | ParseAMFVals inverts FillAMF0Vals, and its results are normal forms |
| `Amf0Codec.FillVal` | format/flv/flvio/amf0.go:241-328 | the encoding is written at the cursor and nothing else changes; without a buffer the cursor moves by the same length |
| `Amf0Codec.FillVals` | format/flv/flvio/amf0.go:203-212 | the same for a list |
| `Amf0Codec.FillValsMalloc` | format/flv/flvio/amf0.go:196-201 | the counting pass sizes the buffer that the second pass fills exactly |
| `Amf0Codec.ParseVal` | format/flv/flvio/amf0.go:362-534 | the cursor parser, against Amf0.Parse, errors included |
| `Amf0Codec.ParseEntries` | format/flv/flvio/amf0.go:400-432 | the entry loop consumes and returns what ParseKvs says, later entries of a key replacing earlier ones |
| `Amf0Codec.ParseElements` | format/flv/flvio/amf0.go:482-500 | the element loop consumes and returns what ParseVals says |
| `Amf0Codec.ParseValsLoop` | format/flv/flvio/amf0.go:335-360 | values until the buffer is used up, or the first error |
| `Pio.Write` | utils/bits/pio/writer.go:99-184 | bytes go in at the cursor and nothing else changes; a nil buffer only counts |
| `Nalu.SplitAVCCLoop` | codec/h264/h264.go:294-322 | the loop computes SplitAVCC, and its ranges are in bounds, ordered and disjoint |
| `Nalu.AVCCExact` | codec/h264/h264.go:294-322 | below 4 GiB splitAVCC accepts exactly the joins of non-empty lists and returns exactly the list |
| `Nalu.SplitAnnexbLoop` | codec/h264/h264.go:324-395 | the scanning loop computes the units between start codes, with ranges in bounds, ordered and disjoint |
| `AnnexB.AnnexbRebuilds` | codec/h264/h264.go:353-394 | units alternated with the removed start codes rebuild the stream, and no unit contains a start code |
| `AnnexB.AnnexbRoundTrip` | codec/h264/h264.go:1028-1040 | splitting a join returns the list if and only if it is clean |
| `AnnexB.RemoveEmulationBytes` | codec/h264/h264.go:577-594 | the loop computes Remove, and the write index never passes the read index |
| `AnnexB.Unescape` | codec/h264/h264.go:577-594 | removal undoes emulation prevention for every byte string |
| `AnnexB.EscapedRoundTrip` | codec/h264/h264.go:577-594 | escaped units ending in a non-zero byte survive join and split, and unescaping gives the originals |
| `AnnexB.SplitNALUsRetInfo` | codec/h264/h264.go:397-406 | AVCC, else Annex B, else the whole; ranges in bounds |
| `AnnexB.SmallAnnexbIsNotAVCC` | codec/h264/h264.go:397-406 | a joined Annex B stream under 260 bytes is never taken for AVCC |
| `AnnexB.Annexb260IsAVCC` | codec/h264/h264.go:397-406 | one of 260 bytes can be |
| `AnnexB.AnnexbIsTaken` | codec/h264/h264.go:397-406 | below 4 GiB a join is split as what it is if and only if it is clean and not the AVCC form of any list |
| `AnnexB.JoinNALUsAnnexb` | codec/h264/h264.go:1028-1040 | the two passes fill the buffer with exactly the join |
| `AnnexB.JoinNALUsAVCC` | codec/h264/h264.go:1042-1054 | the same for AVCC |
| `Golomb.UERoundTrip` | utils/bits/golomb_reader.go:36-53 | ue(v) of any value reads back with exactly its bits consumed |
| `Golomb.ReadUEIsUE` | utils/bits/golomb_reader.go:36-53 | the reader agrees with the standard if and only if a code has at most 32 leading zeros |
| `Golomb.WrappedSEIsSE` | utils/bits/golomb_reader.go:55-65 | ReadSE on uint64 is se(v) modulo 256 |
| `Golomb.GolombBitReader.ReadBit` | utils/bits/golomb_reader.go:13-23 | the next bit, most significant first, or the end of input |
| `Golomb.GolombBitReader.ReadBits` | utils/bits/golomb_reader.go:25-34 | the value of the next n bits |
| `Golomb.GolombBitReader.ReadExponentialGolombCode` | utils/bits/golomb_reader.go:36-53 | the loop computes ReadUE and consumes exactly its bits |
| `Golomb.GolombBitReader.ReadSE` | utils/bits/golomb_reader.go:55-65 | the wrapped value, and exactly the code consumed |
| `Golomb.GolombBitReader.SkipScalingList` | codec/h264/h264.go:716-738 | for any deltas in codes of at most 32 leading zeros the loop ends exactly where the syntax of section 7.3.2.1.1.1 ends |
| `Golomb.GolombBitReader.SkipScalingMatrix` | codec/h264/h264.go:709-740 | the loop over eight lists ends where the scaling matrix of section 7.3.2.1.1 does if and only if chroma_format_idc is not 3 |
| `Golomb.MatrixInStep` | codec/h264/h264.go:709-740 | of any bits that parse as a scaling matrix, eight lists end with it if and only if chroma_format_idc is not 3 |
| `Golomb.TwelveFlags` | codec/h264/h264.go:709-740 | twelve zero flags are a matrix for chroma_format_idc 3 of which eight are skipped |
| `DecoderConfig.Map2arrLoop` | codec/h264/h264.go:445-461 | the values by increasing id, whatever order the map is walked in |
| `DecoderConfig.AddAllKeyed` | codec/h264/h264.go:992-1015 | every set is stored under its own parsed id |
| `DecoderConfig.FromConfigKeyed` | codec/h264/h264.go:520-568 | so are the sets of any record that parses |
| `DecoderConfig.ConfigRoundTrip` | codec/h264/h264.go:474-568 | for at most 31 SPS and 255 PPS under 65536 bytes the record rebuilds both maps, whichever SPS came first |
| `DecoderConfig.Codec.AddSPSPPS` | codec/h264/h264.go:992-1015 | one set added under its id, and the hash input recomputed |
| `DecoderConfig.Codec.ToConfig` | codec/h264/h264.go:474-518 | the record is written at the cursor, or counted, for some first SPS |
| `DecoderConfig.FromDecoderConfig` | codec/h264/h264.go:520-568 | a fresh codec with the maps of FromConfig, or nothing |
| `FlvTag.TagRoundTrip` | format/flv/flvio/flvio.go:354-420 | ReadTag undoes WriteTag for data that fits 24 bits, whatever follows |
| `FlvTag.BodyRoundTrip` | format/flv/flvio/flvio.go:222-328 | the audio and video sub-headers, the signed composition time included |
| `FlvTag.FileHeaderRoundTrip` | format/flv/flvio/flvio.go:424-454 | the file header parses to its flags and nothing to skip |
| `Flv.PacketRoundTrip` | format/flv/flv.go:110-173 | a packet that fits makes a well-formed tag that gives back its type, key flag, times and data |
| `Flv.MetaRoundTrip` | format/flv/flv.go:15-43 | metadata with a value comes back in AMF0 normal form |
| `Flv.EmptyMetadata` | format/flv/flv.go:35-37 | metadata without a value comes back as an empty map |
| `Flv.KeptTwice` | format/flv/flv.go:231-293 | what came back comes back again unchanged |
| `Flv.BodyRoundTripAll` | format/flv/flv.go:110-293 | any list of packets that fit is read back in order until the input is used up |
| `Flv.Muxer.WriteFileHeader` | format/flv/flv.go:62-81 | the header is written once |
| `Flv.Muxer.WriteTag` | format/flv/flv.go:83-88 | the pending header, then the tag |
| `Flv.Muxer.WritePacket` | format/flv/flv.go:175-177 | the packet's tag, if it has one |
| `Flv.Demuxer.ReadFileHeader` | format/flv/flv.go:199-219 | the header is read once, with what it says to skip |
| `Flv.Demuxer.ReadTag` | format/flv/flv.go:221-229 | the next tag behind the header |
| `Flv.Demuxer.ReadPacket` | format/flv/flv.go:231-297 | tags until one holds a packet |
| `Flv.MuxThenDemux` | format/flv/flv.go:62-297 | a muxer and a demuxer back to back: one file header in front of the tags, and the packets in order |
| `BitIO.Writer.FlushBits` | utils/bits/bits.go:102-119 | the pending bits go out zero-padded to whole bytes, whatever the register held before |
| `BitIO.Writer.WriteBits64` | utils/bits/bits.go:71-86 | a value that fits is appended while at most 64 bits are pending, also after earlier flushes; with none pending, the low bits of any value |
| `BitIO.OverflowRight` | utils/bits/bits.go:72-82 | beyond that, all values of k bits come out right if and only if k is twice the room left |
| `BitIO.Reader.ReadBits64` | utils/bits/bits.go:14-36 | exactly k bits are consumed with fewer than eight left over; the result is their value as far as the register holds it beside those |
| `BitIO.RoomIsRight` | utils/bits/bits.go:14-36 | every number of k bits is returned as it is if and only if there is room for the bytes taken in |
| `BitIO.SafeWidth` | utils/bits/bits.go:14-36 | every number of k bits is returned at every position if and only if k is at most 57, and at a byte boundary up to 64 |
| `BitIO.Reader.Read` | utils/bits/bits.go:47-63 | exactly that many bits are consumed, eight bytes of register at a time, and the bytes are what ReadBits64 makes of each |
| `BitIO.ReadRight` | utils/bits/bits.go:47-63 | the bytes are those of the stream for every stream if and only if it starts at a byte boundary or there are at most seven |
| `AacConfig.Parse` | codec/aac/aac.go:277-294 | against ParseBits |
| `AacConfig.ParseBits` | codec/aac/aac.go:201-241 | a parsed object type is below 32 |
| `AacConfig.Write` | codec/aac/aac.go:296-328 | the three fields, after the table searches, escaped where they are too large, zero-padded |
| `AacConfig.CompletedResolved` | codec/aac/aac.go:302-321 | the searches do not disturb a completed configuration |
| `AacConfig.BitsRoundTrip` | codec/aac/aac.go:201-294 | for an object type below 32 what was written parses to its completion, and an explicit sample rate is refused |
| `AacConfig.WriteThenParse` | codec/aac/aac.go:277-328 | a completed configuration comes back if and only if its object type is below 32 |

## Left out

- Sockets, TLS, dialing, deadlines, logging, statistics, rate limiting and URL handling: plumbing over libraries that are not part of this model.
- The contents of the handshake (HMAC, SHA-256) and of the codec hash (SHA-1): only order, flushing and hash input are modelled.
- AMF3: decoder only; its outcome is a parameter where FLV metadata needs it.
- Dates and floating point: a date is the bit pattern it was read from, and the round trips exclude dates.
- AMFECMAArray values: never produced by the parser, and printed without key lengths.
- VUI parsing, cropping and the other straight-line field reads of ParseSPS: ids are abstract parse functions.
- ADTS headers, channel layout counting and the string tables: small or finite.
- writeDataStart and the reading loop behind a finished dialogue: one more write and one more stage.
- The state of a connection or reader after a read error: the caller gives up on it.
- The optional HandleEvent, progress, log and malloc callbacks: taken as unset, or as succeeding.
- The Go memory model below sequential consistency: atomics and channel operations are single steps, and Range visits every key present when it starts.
- Dialogue.StepKeeps: the two programs are step machines on values, because what matters is how they interleave; so are the publishers and subscribers of Fanout, whose parts (cache, cursor, merger, splitter) are also classes.
- RtmpConn.Conn.ReadPayload: the payload is kept as the part received, a value; that the buffer written in place and handed out holds just that is `Buffers.Payloads.ReadChunk`.
- LockStep.ChunkSizeLockStep: an aggregate in a run has at least one tag, and none that is a SetChunkSize; what such a tag does is `Aggregates.EventTag`.
- Nalu.SplitAnnexbLoop: NALUStart, which for Annex B is wherever the last run of zeros began.
- RtmpConn.Conn.ReadMsg: a write that fails ends the connection and is not modelled.
- Amf0.SetGet: Set on values; that Go updates the entry in the caller's backing array is not captured.
- Gops.GopCacheReadCursor.Advance: the batch is returned as a value; that its backing array does not change afterwards is Gops.GopCache.Put.
- DecoderConfig.Codec.AddSPSPPS: width and height of the last SPS are not kept.
- Golomb.GolombBitReader.SkipScalingList: codes of more than 32 leading zeros, far outside what the standard allows for a delta, are not followed.
