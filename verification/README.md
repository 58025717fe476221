# p2pshare: a verified model of the transfer protocol

p2pshare moves a file between two peers, over a direct QUIC connection or over a TCP relay. This
project models the parts of it whose correctness depends on several pieces of code at once, and
proves what the program relies on:

- the **chunked transfer protocol**: the sender's send and control loops, two channels, a network
  that rewrites payloads, both receivers, background writes, batched acknowledgements, throttled
  saves, crashes and resumed transfers;
- the **chunk codec** and the direct receiver's streaming form of its decoder, on byte streams;
- the **nonces** of a whole session;
- the **relay's pairing server**, with its separately locked look-up and registration;
- the **STUN** request and response parser.

## How it is built

The transfer is one state machine (`Protocol`), used for both paths; its events say where the paths
differ. An event is what one task does between two points where others can interfere: write a frame,
look into the NACK channel, read a control message, take a frame, finish a background write, save,
and so on. `After(job, es)` is the state after the events `es`, so a statement about every `es` is a
statement about every interleaving. `Conservation` proves the invariant everything else rests on: as
multisets, the chunks not yet sent, in flight, NACKed, queued or held for retransmission, and accepted
are together the chunks there were to send. `Delivery`, `Termination`, `Recovery`, `TornSave`,
`StaleState` and `Agreement` draw the consequences; `Completion` puts them together for a file and its
manifest. `Independence` proves that the two ends meet only in the channels: what one can do, the other
cannot prevent, and their events commute.

The network may replace a payload by any bytes of the same length, provided that whatever the receiver
cuts out of it and opens was sealed by this sender under the nonce it is opened with (`Source.Unforged`):
sub-messages cut off, repeated, swapped, taken from other chunks or from control messages are all allowed.
That such a payload yields its own chunk or is rejected is proved, not assumed (`Wire.UnforgedTrusted`), and
so is which are accepted: the sender's own, with or without bytes behind it (`Wire.AcceptedExactlyIf`);
for every lawful cipher the sender's own payloads meet the condition, and so does a blank payload, which is
rejected (`Wire.HonestUnforged`, `Wire.BlankRejected`). On the direct path lengths and headers may be
corrupted, too: from then on the receiver is `astray` and may read any unforged frame at any time (event
`Stray`). All safety results include such runs; only the results on termination, on conservation and on
reading back whole frames are about receivers in step, which they are exactly as long as the lengths
inside payloads fill them (`Streaming.InStepExactlyWhenFramed`). That `Stray` leaves nothing out is proved
on byte streams: `Streaming.ReadIsFrame` says what the decoder makes of any bytes, and `AnyStream` repeats
delivery for the loop on a stream of any bytes of which nothing opened is forged. The stream the sender
writes is one, and completes (`AnyStream.HonestStreamCompletes`).

The loops themselves are methods on mutable objects: `ReceiveLoop.DirectReceiver`,
`ReceiveLoop.RelayReceiver`, `SendLoop`, `ControlLoop.DirectControl`, `Seals.Session`, `Pairing.Relay`,
the codec loops, and the STUN routines. They read and write byte streams and are proved against the
functions the machine uses; `LoopRefinement` and `SendRefinement` prove that a loop, run by itself on the
frames (or NACKs) of a run of the machine, ends where the machine's receiver (or sender) is.

The cipher is a pair of functions that satisfies `Aead.Lawful`; `Codec.LawfulAeadExists` shows that the
assumption can be met.

## What does not hold, and when it does

Each of these is the code's behaviour. Each comes with a lemma that shows it and, where there is one,
the exact condition.

- A direct transfer with no chunk to send never finishes: the receiver waits for the data stream
  (receiver.rs:105-109) before it looks at `pending`, and the sender writes nothing that would announce
  it. The same goes for resuming with every chunk done. It finishes exactly if a chunk is to be sent
  (`Termination.CompletesExactlyIf`).
- Two things can make a resumed transfer deliver a wrong file. Both need a sender that announces the same
  manifest, with the same session id, a second time. `send_file` does not: every call draws a new id
  (manifest.rs:94, called from sender.rs:23 and relay_sender.rs:21), so its receivers start afresh.
  - On the direct path the saved state can list a chunk whose bytes are not on disk
    (receiver.rs:246-281). A crash is harmless in a given state exactly if the chunk being written is not
    in the saved state (`Recovery.DirectCrashSafeExactlyIf`), and all crashes of a connection are harmless
    exactly if fewer than sixteen chunks are to be sent (`TornSave.AllDirectCrashesSafeExactlyIf`). A
    crash spoils at most one chunk (`Recovery.RoundsSpoil`). The relay path has no such case.
  - On both paths, if the output file is deleted but the state file is not, the transfer starts afresh and
    leaves the state file where it is (resume.rs:71-78). Interrupted before its first save, it hands the
    next connection a state that lists chunks it never received (`StaleState.StaleChunks`,
    `StaleState.StaleStateRevived`).
  - Together: starting from a disk is safe, whatever the file, exactly if the guard of `find_resumable`
    does not meet a state file without its output file and, on the direct path, fewer than sixteen chunks
    are to be sent (`StaleState.SafeToStartExactlyIf`).
- The relay receiver counts a frame for a chunk it already has a second time (relay_receiver.rs:103-138).
  It agrees with the direct receiver exactly on frames of pending chunks
  (`Agreement.AgreeExactlyIfPending`), and conservation makes every frame of a run one
  (`Agreement.DirectAgreesOnRelayRun`).
- The chunk count is cast to 32 bits (manifest.rs:85): the manifest covers the file exactly up to
  (2^32 - 1) * 8 MiB (`Manifest.BuildLayoutCovers`). The sub-message count is cast to 16 bits
  (coordinator.rs:106): a chunk survives exactly up to 65535 * 65519 bytes (`Codec.RoundTrip`).
- The control counter has no bound in the code. It meets the chunk nonces exactly from 2^32 on
  (`Nonce.CounterAvoidsChunks`, `Seals.NextCounterCollides`).
- Two peers one of whose look-ups comes between the other's look-up and its registration are never paired
  with each other, whatever happens afterwards (`OrderlyPairing.CrossedStayApart`), and can both be turned
  away without any timeout or third party (`PairingOrder.CrossingPeersAreNotPaired`). In every run in which
  that does not happen under a token and none of its handlers times out, the token's peers are paired in
  the order of their look-ups and none is turned away (`OrderlyPairing.OrderlyRunsPair`, `OrderlyPairing.NoOneTurnedAway`).

Where comments or documents and code disagree, the model follows the code:

- receiver.rs:140-142 bounds the codec's overhead by a 3000th of the chunk. A 512 KiB chunk has 182
  bytes of overhead, which is more (174). The check in the code allows a 2048th plus 4096, which is
  enough (`Codec.EncodedChunkFits`).
- main.rs:45 of the relay says "check atomically"; the look-up and the registration take the lock
  separately (46, 58).
- stun.rs:165 and 175 call one attribute preferred and the other a fallback; the code returns whichever
  comes first (`Stun.ParseFindsFirst`).
- README.md:321 of the repository gives chunk sizes of 64 KB, 256 KB and 1 MB; the code uses 512 KiB
  and 8 MiB.
- session/mod.rs:13-14 says that control and chunk nonces can never collide; see above.

## Model

| member | source | states |
|---|---|---|
| `Manifest.ChunkInside` | p2pshare-core/src/transfer/manifest.rs:69-74 | for an index below the chunk count the size subtraction never underflows, the chunk is not empty and lies in the file; all but the last are full, the last ends with the file |
| `Manifest.ChunksPartition` | p2pshare-core/src/transfer/manifest.rs:69-74 | each byte of the file lies in exactly one chunk, the one numbered position / chunk size |
| `Manifest.BuildLayoutCovers` | p2pshare-core/src/transfer/manifest.rs:83-85 | the manifest covers the file if and only if the file has at most (2^32 - 1) * 8 MiB |
| `Manifest.ChunkCountWraps` | p2pshare-core/src/transfer/manifest.rs:85 | beyond that, files that differ by 2^32 * 8 MiB in size get the same chunk count |
| `Manifest.ChunkSizes` | p2pshare-core/src/transfer/manifest.rs:59-67 | every chunk but the last has 524,288 bytes if the file has at most 5,000,000 bytes, and 8,388,608 otherwise |
| `Manifest.SmallFileChunks` | p2pshare-core/src/transfer/manifest.rs:59-85 | a file of at most 5,000,000 bytes has at most ten chunks, and two or more exactly if it has more than 524,288 bytes |
| `Manifest.DoneBytesTotal` | p2pshare-core/src/transfer/receiver.rs:112-116 | the sum of chunk sizes over a set of chunks is at most the file size and equals it if and only if the set has every chunk |
| `Manifest.WriteAtRegions` | p2pshare-core/src/transfer/relay_receiver.rs:127-132 | writing a chunk at its offset changes that chunk's bytes and no other chunk's |
| `Nonce.ChunkNonceFits` | p2pshare-core/src/session/mod.rs:23-25 | shift and additions stay within 64 bits for all 32-bit arguments |
| `Nonce.ChunkNonceInjective` | p2pshare-core/src/session/mod.rs:17-25 | with fewer than 65536 sub-messages per chunk, two nonces are equal if and only if they are of the same chunk and the same sub-message |
| `Nonce.CounterAvoidsChunks` | p2pshare-core/src/session/mod.rs:13-15 | a counter value is no chunk's nonce if and only if it is below 2^32, or beyond the last nonce any chunk can have |
| `Nonce.ChunkNonceSpacing` | p2pshare-core/src/session/mod.rs:17-25 | chunk nonces begin at 2^32, 65536 for each chunk, one for each sub-message |
| `Bytes.BigEndian32` | p2pshare-core/src/transfer/sender.rs:184-185 | 32-bit integers go out most significant byte first |
| `Codec.EncryptChunk` | p2pshare-core/src/session/coordinator.rs:103-118 | the encoding loop computes `Encode`, including the 16-bit cast of the count, and seals exactly the sub-messages of the chunk under their nonces |
| `Codec.DecryptChunk` | p2pshare-core/src/session/coordinator.rs:120-147 | the decoding loop computes `Decode` on arbitrary bytes, in bounds, with its four errors |
| `Codec.DecodeEncode` | p2pshare-core/src/session/relay_session.rs:175-219 | decoding an encoded chunk of any length gives its first (count mod 2^16) sub-messages, and ignores what follows the payload |
| `Codec.RoundTrip` | p2pshare-core/src/session/coordinator.rs:103-147 | decoding undoes encoding if and only if the chunk has at most 65535 * 65519 bytes |
| `Codec.DecodeParses` | p2pshare-core/src/session/coordinator.rs:120-147 | on any bytes: they are a count, then length-prefixed sub-messages that open in their places, then a rest; the result is what those open to if they are as many as the count says, and otherwise the error that the rest is: a length cut off, a body cut off, or a sub-message that does not open |
| `Codec.JoinedDecodes` | p2pshare-core/src/session/coordinator.rs:120-147 | conversely, a count and that many sub-messages that open in their places decode to what they open to, whatever follows |
| `Codec.EncodedChunkFits` | p2pshare-core/src/transfer/receiver.rs:140-159 | exact length of an encoded chunk; it is within the receiver's limit for every chunk size, and that limit within 32 bits for the manifest's chunk sizes |
| `Codec.DecodedChunkGenuine` | p2pshare-core/src/session/coordinator.rs:120-147 | if only this chunk's own sub-messages open, whatever decodes is a prefix of the chunk, and the chunk itself if the length is right |
| `Wire.UnforgedTrusted` | p2pshare-core/src/transfer/relay_receiver.rs:107-125 | any unforged payload is rejected or yields exactly its chunk: nonces keep sub-messages of other chunks, other positions and control messages from passing |
| `Wire.HonestUnforged` | p2pshare-core/src/transfer/sender.rs:181-188 | for every lawful cipher, of the sender's own payload the decoder opens only what the sender sealed |
| `Wire.BlankRejected` | p2pshare-core/src/transfer/relay_receiver.rs:107-125 | a payload of zeros is unforged and rejected |
| `Wire.AcceptedExactlyIf` | p2pshare-core/src/transfer/relay_receiver.rs:107-125 | of all unforged payloads exactly the sender's own, with or without bytes after it, is accepted |
| `Streaming.SubsAgree` | p2pshare-core/src/transfer/receiver.rs:174-203 | sub-message by sub-message the streaming decoder reads what the whole-buffer decoder reads and stops at the same place, also after a failure and when it only drains |
| `Streaming.FrameAgrees` | p2pshare-core/src/transfer/receiver.rs:145-214 | on a frame whose sub-message lengths fill its payload the streaming decoder consumes exactly the frame and has the outcome `decrypt_chunk` has on the payload |
| `Streaming.InStepExactlyWhenFramed` | p2pshare-core/src/transfer/receiver.rs:145-203 | the streaming decoder ends at the end of the frame if and only if the sub-message lengths fill the payload |
| `Streaming.ReadIsFrame` | p2pshare-core/src/transfer/receiver.rs:145-214 | on any bytes, from any position: what the streaming decoder takes for a frame has the index and a length within the limit in its header, and the outcome `decrypt_chunk` has on the bytes read after it |
| `Streaming.ReadStops` | p2pshare-core/src/transfer/receiver.rs:145-184 | reading stops only if the stream ends within a frame, the header announces more than the limit, or a sub-message more than 65535 bytes; which of them is said of any bytes |
| `Streaming.HonestFrameFits` | p2pshare-core/src/transfer/sender.rs:181-188 | every frame the sender builds passes the payload and sub-message limits and keeps the receiver in step |
| `Streaming.ReceiveSubs` | p2pshare-core/src/transfer/receiver.rs:169-203 | the inner loop computes `ReadSubs`; the progress counter ends up advanced by the whole plaintext or not at all, so retracting never saturates |
| `Streaming.ReceiveFrame` | p2pshare-core/src/transfer/receiver.rs:145-214 | reading one frame computes `ReadFrame`, with the position and the progress counter moved accordingly |
| `Protocol.Missing` | p2pshare-core/src/transfer/resume.rs:28-32 | the missing chunks are the indices below the count that are not done, each once |
| `Protocol.MissingAscending` | p2pshare-core/src/transfer/sender.rs:88-90 | they are sent in ascending order |
| `Conservation.ExactlyOnePlace` | p2pshare-core/src/transfer/sender.rs:106-169 | while the receiver is in step, every chunk to send is in exactly one place, once: unsent, in flight, NACKed, queued, held for retransmission, or accepted; a skipped chunk is in none |
| `Conservation.FirstIsPending` | p2pshare-core/src/transfer/relay_receiver.rs:103-138 | from conservation: the next frame is for a pending chunk, so the relay's unguarded count never counts twice |
| `Conservation.ReplyCases` | p2pshare-core/src/transfer/receiver.rs:205-282 | a frame of a chunk that is not pending changes nothing; of a pending one, it is NACKed and nothing else changes, or the source's chunk is accepted |
| `Conservation.ConservedKept` | p2pshare-core/src/transfer/relay_sender.rs:86-114 | every event of a receiver in step conserves the multiset of chunks |
| `Conservation.ReceiverKept` | p2pshare-core/src/transfer/receiver.rs:234-301 | every event, frames read out of step included, keeps `pending` and `chunks_done` a partition, `confirmed` their byte count, received chunks in the file once writes land, and every other chunk as it was |
| `Conservation.InvAlways` | p2pshare-core/src/transfer/receiver.rs:128-303 | all of it holds in every state of every run, on both paths |
| `Delivery.DeliveredExactlyIf` | p2pshare-core/src/transfer/receiver.rs:284-302 | over every interleaving, any corruption of payloads and, on the direct path, of lengths and headers: once the loop is left the output is the source if and only if the skipped chunks were right at the start; `confirmed` is the file size |
| `Delivery.ConfirmedCount` | p2pshare-core/src/transfer/receiver.rs:128-139 | `confirmed` is always the size of the chunks done, at most the file size, and equal to it exactly when nothing is pending |
| `Delivery.ReportsAlways` | p2pshare-core/src/transfer/receiver.rs:256-265 | reports in flight are rising and bounded by `confirmed`, and Complete is the last message |
| `Delivery.BarRises` | p2pshare-core/src/transfer/sender.rs:108-118 | no event lowers the sender's progress, which never passes `confirmed` |
| `Delivery.LastReportIsTotal` | p2pshare-core/src/transfer/receiver.rs:256-265 | once nothing is pending, the Progress messages already sent bring the sender's progress to the file size |
| `Delivery.ProgressMessages` | p2pshare-core/src/transfer/receiver.rs:256-265 | for m chunks to receive the direct receiver sends m/4, rounded up, Progress messages; the relay receiver sends m |
| `Delivery.CheckpointLag` | p2pshare-core/src/transfer/receiver.rs:273-281 | at every head of either loop fewer than 16 received chunks are missing from the saved state |
| `Delivery.SavedExactlyAtMultiples` | p2pshare-core/src/transfer/relay_receiver.rs:142-148 | in every run on both paths: while chunks are received, the state file is the one found at the start, or was saved at a multiple of sixteen chunks (received in this connection on the direct path, done on the relay path) |
| `AnyStream.AnyStreamDelivers` | p2pshare-core/src/transfer/receiver.rs:145-282 | the direct loop on any bytes of which nothing it opens is forged: wherever it stops, the chunks it counts are the source's once writes land, all others are untouched and the byte count is right; with nothing pending, the output is the source if and only if the skipped chunks were right |
| `AnyStream.HonestStreamCompletes` | p2pshare-core/src/transfer/receiver.rs:145-282 | for every lawful cipher and every direct transfer: on the stream of the sender's frames nothing is forged and the loop completes |
| `AnyStream.ReceiveFile` | p2pshare-core/src/transfer/receiver.rs:96-303 | the receiver from stream to output file, on any bytes of which nothing it opens is forged: if it completes, its output is the source if and only if the skipped chunks were right, and progress shows the file size |
| `Termination.MeasureFalls` | p2pshare-core/src/transfer/sender.rs:106-169 | every event of a receiver in step but a corruption lowers the measure; a corruption adds at most four |
| `Termination.RunsAreBounded` | p2pshare-core/src/transfer/sender.rs:99-171 | a run in step with n chunks to send and K corruptions has at most 6n + 7 + 5K events |
| `Termination.NoDeadlock` | p2pshare-core/src/transfer/receiver.rs:145-303 | with a chunk to send (or on the relay path) every state in step that is not the end has an event that is not a corruption |
| `Termination.CanFinish` | p2pshare-core/src/transfer/sender.rs:163-173 | then every run in step can be completed without further corruption, to both sides done and both channels empty |
| `Termination.EmptyDirectStuck` | p2pshare-core/src/transfer/receiver.rs:102-109 | a direct transfer with no chunk to send stays before its loop in every run |
| `Termination.CompletesExactlyIf` | p2pshare-core/src/transfer/receiver.rs:102-109 | a transfer can complete if and only if it is a relay transfer or has a chunk to send |
| `Termination.FramesSent` | p2pshare-core/src/transfer/sender.rs:139-167 | a finished transfer in step has sent one frame for each chunk to send and one for each rejected frame, of which there are at most as many as corruptions |
| `Completion.FreshTransferValid` | p2pshare-core/src/transfer/manifest.rs:78-109 | a file's fresh transfer satisfies everything the other results assume of a transfer if and only if it has at most (2^32 - 1) * 8 MiB |
| `Completion.FreshTransferDelivers` | p2pshare-core/src/transfer/receiver.rs:83-303 | in every run of a fresh transfer, on either path, a receiver that has left its loop has the file |
| `Completion.FreshTransferCompletes` | p2pshare-core/src/transfer/receiver.rs:83-303 | from every state in step of a fresh transfer of a file that is not empty, both sides can finish, with the file delivered |
| `Independence.EndsCommute` | p2pshare-core/src/transfer/receiver.rs:128-303 | in any state, whatever the sender can do and whatever the receiver can do: neither keeps the other from doing it, and both orders lead to the same state |
| `Independence.LoopsCommute` | p2pshare-core/src/transfer/sender.rs:101-171 | the same of the sender's two loops, one writing a frame and the other reading a message |
| `Independence.SenderGoesOn` | p2pshare-core/src/transfer/sender.rs:106-169 | in every run the sender's loops go on whatever the receiver does: no frame waits for an acknowledgement, every chunk asked for exists and can be resent |
| `Independence.ReceiverGoesOn` | p2pshare-core/src/transfer/receiver.rs:130-282 | in every run in step the receiver can read the next frame while the last chunk is still being written |
| `Independence.ReceiverFinishes` | p2pshare-core/src/transfer/receiver.rs:273-302 | in every run writes can land and saves happen at any time, and the loop can be left once nothing is left to receive, write or save |
| `Independence.CorruptedTaken` | p2pshare-core/src/transfer/receiver.rs:205-232 | at any moment of any run in step the next frame may get any unforged payload; if it is rejected, the receiver changes nothing and asks for its chunk |
| `Independence.RejectedDelivers` | p2pshare-core/src/transfer/sender.rs:157-169 | from then on the transfer can still be completed, with the source delivered if and only if the skipped chunks were right |
| `Independence.SomeRunRejects` | p2pshare-core/src/transfer/relay_sender.rs:94-118 | for every cipher and every relay transfer with a chunk to send there is such a run |
| `Independence.StrayTaken` | p2pshare-core/src/transfer/receiver.rs:145-232 | on the direct path the receiver may at any time be made to read any unforged frame, and does with it what it does with any frame |
| `Recovery.StartsAfresh` | p2pshare-core/src/transfer/relay_receiver.rs:66-74 | a transfer that is not resumed starts from an output of zeros, with nothing done and every chunk to come, in order; the state file stays as it was |
| `Recovery.CrashWrong` | p2pshare-core/src/transfer/resume.rs:71-78 | a crash adds to the wrong saved chunks at most the chunk whose write it interrupted, and only if that was saved |
| `Recovery.RelayCrashSafe` | p2pshare-core/src/transfer/relay_receiver.rs:127-148 | every crash of every run of a relay connection leaves every saved chunk right |
| `Recovery.RelayMayTear` | p2pshare-core/src/transfer/relay_receiver.rs:127-132 | although a crash while a frame is on its way may leave any bytes in that frame's chunk |
| `Recovery.DirectCrashSafeExactlyIf` | p2pshare-core/src/transfer/receiver.rs:239-281 | in any state of a direct connection, every crash leaves every saved chunk right if and only if the chunk being written is not in the saved state |
| `Recovery.RoundsSpoil` | p2pshare-core/src/transfer/resume.rs:28-78 | after any number of crashed connections, each over either path, no more saved chunks are wrong than connections were direct; none if all were relayed |
| `Recovery.ResumedDelivers` | p2pshare-core/src/transfer/resume.rs:28-78 | a connection that completes, from any disk, delivers the source if and only if no chunk it skipped was wrong |
| `Recovery.DeliversAfterRelayCrashes` | p2pshare-core/src/transfer/relay_receiver.rs:52-75 | however often relay connections were interrupted, a connection that completes, over either path, has delivered the source |
| `TornSave.SavedWhileWriting` | p2pshare-core/src/transfer/receiver.rs:246-281 | every direct connection with sixteen chunks or more to send, fresh or resumed, has a run without corruption in which the sixteenth is saved while it is being written |
| `TornSave.AllDirectCrashesSafeExactlyIf` | p2pshare-core/src/transfer/receiver.rs:273-281 | for every disk to start from, all crashes of all runs of a direct connection leave every saved chunk right if and only if fewer than sixteen chunks are to be sent |
| `TornSave.UnstartedWrite` | p2pshare-core/src/transfer/receiver.rs:246-281 | with sixteen or more, a crash before the sixteenth write reaches the disk makes exactly that chunk wrong, unless the output happened to hold its bytes |
| `TornSave.TornSaveDeliversWrongFile` | p2pshare-core/src/transfer/receiver.rs:66-94 | resumed after a crash that was not harmless, every completed transfer has a wrong file |
| `StaleState.StaleChunks` | p2pshare-core/src/transfer/resume.rs:71-78 | a connection begun beside a state file without output file, interrupted anywhere before its first save: of the chunks that state lists and no write was touching, those not received are wrong, unless they are all zeros, and no others |
| `StaleState.StaleStateRevived` | p2pshare-core/src/transfer/resume.rs:71-78 | the next connection skips what that state lists, and if it completes its output is wrong |
| `StaleState.SafeToStartExactlyIf` | p2pshare-core/src/transfer/resume.rs:71-78 | for every disk: starting from it is safe under all crashes, for all files, if and only if it has no state file without output file and, on the direct path, fewer than sixteen chunks are to be sent |
| `Agreement.AgreeExactlyIfPending` | p2pshare-core/src/transfer/relay_receiver.rs:103-141 | one frame leaves the two receivers agreeing if and only if its chunk is pending |
| `Agreement.ReceiversAgree` | p2pshare-core/src/transfer/relay_receiver.rs:103-164 | fed the same frames, none after its chunk's acceptance, both reach the same chunks, file and byte count with the same sequence of NACKs |
| `Agreement.DirectAgreesOnRelayRun` | p2pshare-core/src/transfer/relay_receiver.rs:103-164 | the frames of every relay run are such frames |
| `RelayWire.RecvMsg` | p2pshare-core/src/session/relay_session.rs:110-161 | the reader computes `ReadMsg`, for both message types and every failure |
| `RelayWire.ReadBack` | p2pshare-core/src/session/relay_session.rs:110-161 | any mix of messages that open again and fit their length fields is read back in order, message by message, whatever the chunk payloads are |
| `RelayWire.FittingReadBack` | p2pshare-core/src/session/relay_session.rs:73-161 | for every lawful cipher that is any mix of control messages of at most 65519 bytes and chunk messages within 32 bits |
| `RelayWire.ReadMsgOnly` | p2pshare-core/src/session/relay_session.rs:110-161 | on any bytes: a control message comes only from bytes that open to it under the nonce in front of them, a chunk message only from its type, index, length and payload |
| `RelayWire.CtrlReadIsWritten` | p2pshare-core/src/session/relay_session.rs:117-140 | for every lawful cipher a control message read off any bytes is, byte for byte, one written under some nonce |
| `RelayWire.ChunkReadIsWritten` | p2pshare-core/src/session/relay_session.rs:142-155 | and a chunk message is written back as it was read |
| `RelayWire.ReadMsgFails` | p2pshare-core/src/session/relay_session.rs:110-161 | reading fails only if the type byte is neither 0 nor 1, a whole control message does not open, or the stream ends within the message |
| `ReceiveLoop.DirectReceiver.constructor` | p2pshare-core/src/transfer/receiver.rs:111-139 | the loop's variables start from the chunks done, with the progress counter at their size |
| `ReceiveLoop.DirectReceiver.Run` | p2pshare-core/src/transfer/receiver.rs:145-282 | on any bytes the loop ends with the variables and messages of `OnStream`, and where nothing is left pending, with the progress counter at `confirmed` |
| `ReceiveLoop.StreamOfFrames` | p2pshare-core/src/transfer/receiver.rs:145-282 | on the bytes of frames in step, that is what the machine's receiver does with the frames, of which exactly those used are consumed |
| `ReceiveLoop.DirectReceiver.Conclude` | p2pshare-core/src/transfer/receiver.rs:284-302 | the last write, the final save, Complete and the deletion, in this order, are the machine's phases |
| `ReceiveLoop.RelayReceiver.constructor` | p2pshare-core/src/transfer/relay_receiver.rs:85-101 | the loop's variables start from the chunks done, with the progress counter at their size |
| `ReceiveLoop.RelayReceiver.OnChunk` | p2pshare-core/src/transfer/relay_receiver.rs:105-155 | the loop body does what the machine's relay receiver does, and moves the progress counter with `confirmed` |
| `ReceiveLoop.RelayReceiver.Run` | p2pshare-core/src/transfer/relay_receiver.rs:103-164 | on the bytes of any chunk messages the loop ends with the variables and messages of the machine's receiver and has consumed exactly the messages it used |
| `ReceiveLoop.RelayReceiver.Conclude` | p2pshare-core/src/transfer/relay_receiver.rs:166-176 | the final save, Complete and the deletion, in this order, are the machine's phases |
| `LoopRefinement.LoopFollowsRun` | p2pshare-core/src/transfer/receiver.rs:128-282 | in every run, on both paths, the loop on the frames read so far has the machine's pending and done chunks, counters and saved state, and its file once writes land |
| `LoopRefinement.TakenInStep` | p2pshare-core/src/transfer/receiver.rs:145-203 | the frames of every run in step are such that either loop can read their bytes back |
| `LoopRefinement.BytesFollowRun` | p2pshare-core/src/transfer/receiver.rs:128-282 | so the direct loop on the bytes of a run's frames is where the machine's receiver is, with all bytes read |
| `SendLoop.SendLoop` | p2pshare-core/src/transfer/sender.rs:131-169 | the read-ahead loop writes, in order, exactly the frames a loop without read-ahead writes, seals exactly their chunks on its session, and its buffer is never empty when taken |
| `SendLoop.SendOneChunk` | p2pshare-core/src/transfer/relay_sender.rs:120-145 | the relay sender writes exactly the chunk message of the chunk and seals exactly that chunk |
| `SendLoop.SentIsStream` | p2pshare-core/src/transfer/sender.rs:139-167 | the written frames, one after the other, are the byte stream the receive loop is proved on |
| `SendRefinement.SendLoopFollowsRun` | p2pshare-core/src/transfer/sender.rs:131-169 | in every direct run whose send loop has returned, the frames and bytes put on the data stream are those the read-ahead loop writes, and the NACKs it served are those the control loop read, all of them and in order; when they were served is said by the next two |
| `SendRefinement.NacksServedFirst` | p2pshare-core/src/transfer/sender.rs:157-161 | in every direct run, when the send loop goes on after a frame, it has resent every chunk whose NACK has been read by then, in order: the frames sent are those of the turns so far and one for each NACK read |
| `SendRefinement.EveryTurnServes` | p2pshare-core/src/transfer/sender.rs:139-161 | and after every frame of the first pass, before the next, there is such a moment |
| `SendRefinement.SentHonest` | p2pshare-core/src/transfer/relay_sender.rs:86-130 | in every run, on both paths, each frame sent is the sender's frame of its chunk, first time or again |
| `SendRefinement.RunSeals` | p2pshare-core/src/transfer/sender.rs:131-202 | the sealing operations for the frames of such a run are those the read-ahead loop performs |
| `ControlLoop.DirectControl.Run` | p2pshare-core/src/transfer/sender.rs:106-125 | over any messages, the NACKs passed on, the progress shown and whether the loop has returned are what the machine's control loop makes of them |
| `ControlLoop.HeardExactly` | p2pshare-core/src/transfer/sender.rs:106-125 | which is: every NACK before the first Complete is passed on in order, and nothing after it; the progress shown is the last reported, or the file size once Complete has been read |
| `Seals.Session.SendCtrl` | p2pshare-core/src/session/coordinator.rs:51-70 | the message's bytes under the next counter nonce, or a refusal of more than 65519 bytes; the nonce is used up either way, and what was sealed remains what the session's operations call for |
| `Seals.Session.SealChunk` | p2pshare-core/src/session/coordinator.rs:103-118 | the chunk's payload; what was sealed remains what the session's operations call for |
| `Seals.NonceDeterminesPlaintext` | p2pshare-core/src/transfer/sender.rs:190-202 | with at most 2^32 control messages no sequence of operations uses a nonce for two plaintexts, however often chunks are resent |
| `Seals.SessionNonces` | p2pshare-core/src/session/coordinator.rs:51-118 | nor, therefore, does any session |
| `Seals.NextCounterCollides` | p2pshare-core/src/session/coordinator.rs:56 | one more control message is sealed under the nonce of the first sub-message of chunk 0 |
| `Pairing.InvAlways` | p2pshare-relay/src/main.rs:37-91 | the ownership of streams and one-shot senders is kept by every step of every handler |
| `Pairing.PipesAreSound` | p2pshare-relay/src/main.rs:61-79 | every pipe joins two different open streams with the same token; no stream is in two pipes |
| `Pairing.ExactlyOnePlace` | p2pshare-relay/src/main.rs:37-91 | every stream is in exactly one place: with its handler, given to one other handler, or closed |
| `Pairing.EntriesAreLive` | p2pshare-relay/src/main.rs:46-86 | a map entry refers to a handler of that token that has neither a peer nor finished, despite clean-ups that remove by token |
| `Pairing.HandlersGoOn` | p2pshare-relay/src/main.rs:45-88 | in every run every unfinished handler can take its next step; one that waits can time out, wakes as soon as its peer's stream is there, and learns that its sender is lost if and only if neither the map nor a handler has it |
| `Pairing.HandlersEnd` | p2pshare-relay/src/main.rs:37-91 | and no handler takes more than five steps, so all of them end |
| `Pairing.Relay.LookUp` | p2pshare-relay/src/main.rs:46-48 | the machine's first locked step |
| `Pairing.Relay.HandOver` | p2pshare-relay/src/main.rs:49-53 | the stream goes to the waiting handler or is dropped |
| `Pairing.Relay.CleanUp` | p2pshare-relay/src/main.rs:86-87 | the token's entry is removed, whoever made it |
| `OrderlyPairing.OrderlyRunsPair` | p2pshare-relay/src/main.rs:45-82 | for every token and every run in which no handler of it times out and no look-up of it comes between another one and its registration: its look-ups number 2k and 2k+1 belong together, from the promise to the pipe and its end, and a last one is next |
| `OrderlyPairing.PipesAreNeighbours` | p2pshare-relay/src/main.rs:61-79 | in such a run two streams are piped only if they are neighbours 2k and 2k+1 |
| `OrderlyPairing.NoOneTurnedAway` | p2pshare-relay/src/main.rs:83-87 | in such a run no handler of the token gives up and none of its one-shot senders is lost |
| `OrderlyPairing.PromiseStands` | p2pshare-relay/src/main.rs:49-79 | in any run, a stream that was promised to a waiting peer stays so until it is piped and the pipe ends, unless that peer times out |
| `OrderlyPairing.PromiseAdvances` | p2pshare-relay/src/main.rs:49-75 | and its next step towards the pipe can always be taken |
| `OrderlyPairing.CrossedStayApart` | p2pshare-relay/src/main.rs:46-58 | a look-up between another handler's look-up and registration keeps the two apart in every continuation |
| `OrderlyPairing.ScheduleOrderly` | p2pshare-relay/src/main.rs:45-82 | arrivals served one after the other make such a run, for every token |
| `PairingOrder.PairedInOrder` | p2pshare-relay/src/main.rs:45-82 | in that run, for any mix of tokens, two arrivals are piped if and only if they are numbers 2k and 2k+1 of the same token |
| `PairingOrder.CrossingPeersAreNotPaired` | p2pshare-relay/src/main.rs:46-58 | two peers of one token that both look before either registers can both be turned away |
| `PairingOrder.PairedOnlyIfFound` | p2pshare-relay/src/main.rs:46-53 | in any run a stream reaches a peer only if its look-up found that peer's registration |
| `Stun.RoundUp4Rounds` | p2pshare-core/src/nat/stun.rs:187 | the mask expression, bit by bit on 64-bit words, rounds up to the next multiple of four |
| `Stun.BitsOfXor` | p2pshare-core/src/nat/stun.rs:166-172 | the exclusive or is what it is bit by bit |
| `Stun.BitsOfAnd` | p2pshare-core/src/nat/stun.rs:187 | and so is the mask |
| `Stun.BuildRequest` | p2pshare-core/src/nat/stun.rs:133-140 | the 20 bytes of a binding request |
| `Stun.ParseResponse` | p2pshare-core/src/nat/stun.rs:142-190 | the attribute loop terminates in bounds on arbitrary bytes and computes `Parse` |
| `Stun.WalkFindsFirst` | p2pshare-core/src/nat/stun.rs:158-189 | over any attributes padded per section 15 of RFC 5389, whatever the padding bytes are, the walk returns the first IPv4 address attribute, or none, also if the list then breaks off in the middle of an attribute |
| `Stun.LastUnpadded` | p2pshare-core/src/nat/stun.rs:158-189 | so it does if the last attribute lacks some or all of its padding |
| `Stun.AddressOfExactly` | p2pshare-core/src/nat/stun.rs:164-184 | an attribute is taken for an address if and only if its type is 0x0001 or 0x0020, it has at least 8 bytes and its family is 1, and then for the address the standard gives it |
| `Stun.OthersRefused` | p2pshare-core/src/nat/stun.rs:142-157 | a response of another type, of another transaction, or shorter than it says yields nothing |
| `Stun.ParseFindsFirst` | p2pshare-core/src/nat/stun.rs:142-190 | the same for whole responses with any cookie and anything trailing them, if the transaction is the expected one; none otherwise |
| `Stun.ReportedAddressParsed` | p2pshare-core/src/nat/stun.rs:142-190 | a server's first reported address, of either kind, is what parsing returns, after any attributes with any padding that are of other types, too short or of other families |

## Left out

- Conservation.ConservedKept: once a length or header on the direct data stream is corrupted the receiver may ask for chunks that are not lost, and a chunk may be in two places; conservation is stated for receivers in step.
- Termination.NoDeadlock: a receiver out of step may wait for bytes that do not come, or end with an error; progress is stated for receivers in step.
- Recovery.ResumedDelivers: connections that announce another session id, or a manifest other than the saved one, start their own transfer and are not resumed ones.
- PairingOrder.PairedInOrder: the one schedule in which every arrival is served before the next; `OrderlyPairing` has all runs.
- The relay's signal bytes: a failure to write them, after the pairing, is not distinguished from a pipe that ends at once.
- Seals.Session.SendCtrl: the counter's wrap at 2^64 is excluded.
- Resume requests over 65519 bytes: the cipher refuses a ResumeRequest that lists some 22,000 chunks or more, and the connection fails (coordinator.rs:59-65); here the receiver's list always reaches the sender.
- Cipher, Noise handshake, QUIC, TLS, TCP and UDP: the cipher is a lawful pair of functions, the channels are ordered, lossless and unbounded, and a data stream is announced to its receiver with its first bytes.
- Corruption of frame headers on the relay's stream: it would shift message boundaries for control messages, too.
- MessagePack and JSON: control messages are their plaintext, the state file is the set of chunks it holds.
- Disk details: an awaited write and a save are atomic, a crash leaves a write in progress with any bytes; partial state files, I/O errors and directory creation are not modelled.
- Error messages between the peers and the loops' early returns on a broken connection: a run simply stops there and is resumed as after a crash.
- The 64-bit progress counters are unbounded here; the sums they hold stay within the file size.
- `is_complete`, MIME types, timestamps and file names: they do not take part in the protocol.
- Connection set-up, hole punching, discovery, contacts, identity, fingerprints, command line and user interface: network plumbing and wrappers.
- Streaming mode: the receivers reject it at once.
- Dishonest peers: the sender is honest, its indices are below the chunk count; tokens are not guessed.
- Timeouts are events that may happen at any time while a handler waits; durations are not modelled, nor is a connection that fails before its token is read.
