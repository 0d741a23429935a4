# Line 6 CoreAudio driver: a verified model of the audio path

The driver is two processes. The daemon takes isochronous USB packets, decodes them
and writes frames into a shared-memory ring; the CoreAudio plugin copies frames out
of the ring into the buffers of its clients. They share no lock. One free-running
counter, `write_frames`, is all that tells the reader what is there, the writer never
waits, and the daemon may restart, or come back for another device with another
channel count, at any moment. This project models that path and proves what arrives
at the far end, together with the small state machines that keep it alive.

Files, in the order of the audio path:

| file | models |
|---|---|
| `Bits.dfy`, `S24.dfy` | counter masking; the S24_3LE sample decoder |
| `Ring.dfy` | slots of the ring, and what it means for the ring to hold a history |
| `Framing.dfy` | the bytes of a packet as frames |
| `SharedMemory.dfy` | the segment and the daemon's push methods (daemon/src/shm.rs) |
| `UsbCapture.dfy` | transfer callbacks, start and stop of the engine (daemon/src/usb.rs) |
| `Daemon.dfy` | the main loop, driving the engine and the segment (daemon/src/main.rs) |
| `ReadCursor.dfy`, `Continuity.dfy` | the plugin's read cursor: one decision, and whole sessions of them |
| `Interleaving.dfy`, `AudioPath.dfy` | both processes as interleaved steps, with the inductive invariant |
| `Guarantees.dfy` | the theorems over every run of the two processes |
| `Arrivals.dfy` | over every run: every frame pushed arrives, calls keep and read what they should, sessions start at the counter |
| `Restarts.dfy`, `SwapRun.dfy` | calls that header rewrites overlap, and the smallest run in which one goes wrong |
| `Refinement.dfy` | the interleaved steps, run without interruption, are the methods |
| `Plugin.dfy`, `Timeline.dfy`, `Presence.dfy` | the plugin's entry points, its host-clock timeline and presence monitor (plugin/Line6HAL.c) |

How to read it:

- `AudioPath.World` is both processes. A step writes one sample, publishes the counter,
  begins or ends a header rewrite, or is one shared access of one DoIO call: reading the
  channel count, loading the counter, the mutex section, copying one sample, returning.
  Any number of DoIO calls of any clients run at the same time. `Init` allows any ring
  contents and any old counter value, as a persistent segment has.
- History variables record what the code does not keep: the frames begun since the
  header was last written (`frames`), the packets taken (`inputs`), the same of every header
  before it (`past`) and which of them the counter counts (`counted`), the calls that opened
  an IO cycle since StartIO (`openers`). No step's effect on real state depends on them.
- What lands where is said from bytes, lengths and offsets alone (`Framing.PacketLies`,
  `UsbCapture.TransferLies`, `Arrivals.PushLies`), and what was pushed and published from the
  steps of the run (`Arrivals.PushedSince`, `PublishedSince`), not through the functions that
  frame, filter or record.
- A call is *lapped* when the writer had stored a sample one ring (or more) newer in a slot
  before the call copied it; samples written but not yet published count. Sample by sample that
  is exactly when the copy reads a frame other than its own (`Guarantees.CopyReadsExactly`). A
  returned call is *current* when no header rewrite overlapped it or came since, and *intact*
  when it is also not lapped. Two conditions rule lapping out (`Guarantees.BudgetSuffices`): no
  frame more than a ring past the call's first frame was begun before it returned, and, stricter
  but checkable from what a call loads, the writer began at most one buffer of frames past the
  counter value its cycle was anchored with, for buffers of at most 21760 frames.
- Float32 samples are the exact integers `v` of `v / 2^23`. Counters are natural numbers;
  the unsigned 32-bit subtraction of the overrun test wraps as in C. Host time is a natural
  number of ticks and the tick length a positive real. The mutex section is one step, and
  acquire/release accesses are sequentially consistent.
- Device answers, completed transfers, times, scan results and packet contents are parameters of
  the operations.

Where the code and what is said of it differ, the model follows the code.
"The cursor re-anchors on the first DoIO" (plugin/Line6HAL.c:635) holds only as
`ReadCursor.FirstCallAfterStart` says. "The cursor trails the write head by
max(latency_frames, 2*buffer + safety)" (docs/ARCHITECTURE.md:87-88) is not true of every cycle
(`ReadCursor.GapNeedNotBeDepth`). A resync leaves that distance exactly if that much was written,
and all there is otherwise (`ReadCursor.GapExactly`). From a resync that leaves it until the next
resync the distance is that plus the frames produced and less the frames consumed since, so it
holds at a cycle if and only if the two are equal (`Continuity.TrailingDistance`,
`Guarantees.TrailingInRun`). The cursor is "advanced exactly once per IO cycle (keyed on
mIOCycleCounter)" (plugin/Line6HAL.c:74-75) only if the host never goes back to a number it left:
the code compares with the last number alone, so calls of the cycles 5, 6, 5 move the cursor three
times and the two calls of cycle 5 start apart (`ReadCursor.ReturningCallMovesOn`); the exact
conditions are in `Guarantees.CycleSharesStart` and `Guarantees.CursorMovesOncePerCycle`. The header is not "written once
at startup" (shared/line6_shm.h:35-36): every change of device rewrites it, which is why the
theorems speak of the current header. And the first `StartIO` does not attach a segment that was
missing so far (plugin/Line6HAL.c:630-631): `AttachShm` takes the mutex that `StartIO` already
holds, so the call returns exactly under the condition `Plugin.Hal.StartIO` states.

## Model

| member | source | states |
|---|---|---|
| `Guarantees.NoTornOrStaleFrame` | plugin/Line6HAL.c:701-730 | over every run, each frame of an intact call is one whole captured frame of the current header, in place, or silence past a counter no older than the call; the reading stride is the writing stride |
| `Guarantees.BudgetSuffices` | plugin/Line6HAL.c:704-730 | over every run, a call is not lapped if no frame more than a ring past its first was begun, and so not within the writer's budget of one buffer past the cycle's anchor |
| `Guarantees.CopyReadsExactly` | plugin/Line6HAL.c:722-726 | in every reachable state the next sample copied is its own frame's if and only if the writer has not stored that channel of the frame one ring later; from then on it is the latest frame stored in the slot |
| `Guarantees.LappedReadsNewer` | plugin/Line6HAL.c:722-729 | over every run, each sample even of a lapped call is the same channel of its own frame or of a captured frame whole rings newer, or silence past the counter |
| `Guarantees.ChannelsNeverRotate` | daemon/src/usb.rs:88-102 | over every run, every non-silent output sample of channel c, lapped or not, is the two's-complement value of bytes 3c..3c+2 of one whole frame inside one packet the daemon was given (or a test-tone value) |
| `Guarantees.HotSwapSafety` | daemon/src/shm.rs:64-71 | after a header rewrite, whatever the plugin's cursor and running calls were, current calls deliver only samples of frames pushed since, with the new channel count, and intact ones whole frames |
| `Guarantees.CycleSharesStart` | plugin/Line6HAL.c:74-75 | over every run, two calls of one mIOCycleCounter value, still copying or returned, share their cycle's opener if and only if no call of another number opened a cycle between them; then they read from the same frame, and with no resync between and nonempty buffers only then |
| `Guarantees.GroupedCyclesShareStart` | plugin/Line6HAL.c:703-720 | over every run, if no cycle number left is gone back to, any two calls of one number read from the same frame, in every interleaving |
| `Guarantees.ClientsAgree` | plugin/Line6HAL.c:701-729 | over every run, intact calls with one start frame deliver the same frame i, except past the counter one of them loaded and before the other's, where one gets silence and the other the captured frame |
| `Guarantees.CursorMovesOncePerCycle` | plugin/Line6HAL.c:703-720 | over every run and any stretch of cycles with one buffer size, none but the first of which resyncs, the cursor has moved one buffer per cycle opened; that is one buffer per distinct mIOCycleCounter value if and only if no number left is gone back to, and more otherwise |
| `Guarantees.TrailingInRun` | docs/ARCHITECTURE.md:87-88 | over every run, from the last resync on a cycle is as far behind the head as the resync left it plus what was produced and less what was consumed; after a full-depth resync that is the documented distance if and only if the two are equal |
| `Guarantees.SilenceInRun` | plugin/Line6HAL.c:711-729 | what a cycle's first client receives is silence exactly past the head in a resync before a full depth was written, and the captured frame everywhere else |
| `Guarantees.GaplessInRun` | plugin/Line6HAL.c:703-730 | over every run, from a resync at full depth on and while the drift fits, the buffers of any number of consecutive cycles concatenate to one slice of the captured sequence |
| `Guarantees.DiscontinuityInRun` | plugin/Line6HAL.c:706-718 | over every run, each resync but the first of a stretch of cycles is paid for by at least the slack in accumulated drift |
| `Guarantees.ReachableInv` | plugin/Line6HAL.c:686-732 | the invariant of both processes holds in every reachable state |
| `Guarantees.Source` | daemon/src/usb.rs:79-103 | every frame of the history is a definite frame of a definite input |
| `Arrivals.EveryFrameArrives` | daemon/src/shm.rs:86-104 | over every run, of every push published since the last header every frame lies in the history, in full and in order, at the place the pushes before it fill: sample (f, c) of a packet by the value of bytes 3(f * channels + c) on, every tone value on every channel; and the counter is past it |
| `Arrivals.CounterCounts` | daemon/src/shm.rs:102-104 | over every run, the counter is the number of frames, by packet length, of the pushes published since the last header |
| `Arrivals.FirstCycleOfSession` | plugin/Line6HAL.c:629-637 | over every run, from a StartIO without running clients on, the first cycle of the session plays on from the counter of that StartIO if and only if at least a buffer and at most a ring less a buffer was written since; otherwise it starts a depth behind the head or at frame 0 |
| `Arrivals.EveryCycleHasItsOpener` | plugin/Line6HAL.c:703-720 | over every run, each cycle on record was opened by exactly one call of the session |
| `Arrivals.CallOverRun` | plugin/Line6HAL.c:686-698 | over every run, a call keeps the cycle number, buffer size and channel count it came with; no header rewrite overlaps it exactly if none was under way when it came and none is begun after; then its counter is no older than the call |
| `Arrivals.CallReads` | plugin/Line6HAL.c:701-720 | whatever happens between its steps, a call uses the counter at its load, the cursor and latency at its mutex section, and the start frame decided there |
| `Arrivals.AnySegmentCanBegin` | daemon/src/shm.rs:40-72 | the initial states leave out no segment: any samples, any counter, any header |
| `Restarts.ChannelsSurviveRestarts` | daemon/src/shm.rs:64-71 | over every run, even of a call that header rewrites overlap, each non-silent sample of channel c is channel c of one whole frame inside one packet (or a tone value), if frames were captured under the call's own channel count only since the header whose counter it loaded |
| `Restarts.CurrentIsKnown` | plugin/Line6HAL.c:686-732 | over every run, a call no rewrite overlaps meets that condition |
| `Restarts.SameDeviceRestarts` | daemon/src/main.rs:144-148 | over every run whose headers all carry one channel count, it holds of every call that loads its counter after the first header was completed, whatever restarts overlap it |
| `Restarts.SlotStaysKept` | daemon/src/shm.rs:64-104 | across restarts a slot the counter once counted is only overwritten by the same channel of a captured frame of its place in the ring, while the channel count stays |
| `Restarts.RestartStep` | daemon/src/shm.rs:64-104 | each step of either process keeps this, for the ring and for every call |
| `Restarts.ForeignStride` | plugin/Line6HAL.c:722-726 | in every reachable state, a copy whose call read another channel count than the header's reads the sample that lies at its slot by the header's count |
| `Ring.StrideExactly` | shared/line6_shm.h:51 | that sample is of the channel and place meant if and only if the two counts agree, or in the first place of the ring if the device has such a channel |
| `SwapRun.SwapRotates` | plugin/Line6HAL.c:694-726 | a concrete run: a call that read the count 1 while a device of two channels took over delivers channel 1 of frame 0 as channel 0 of frame 1 |
| `AudioPath.RunInv` | plugin/Line6HAL.c:686-732 | every step sequence from a state satisfying the invariant ends in one |
| `AudioPath.StepInv` | plugin/Line6HAL.c:686-732 | each step of either process keeps the joint invariant (where StartIO puts the cursor is in `Refinement.StartAndStop`) |
| `AudioPath.SlotHoldsLatest` | plugin/Line6HAL.c:722-726 | channel by channel, and even in the middle of a frame being written, a published frame's slot holds the latest frame stored in it, and that is a captured frame |
| `AudioPath.CopyReads` | plugin/Line6HAL.c:722-730 | a copy step appends exactly the next sample of that frame and marks the call if it is not the wanted one |
| `AudioPath.CopyKeepsClient` | plugin/Line6HAL.c:722-730 | a copy step keeps what is promised of the call's output |
| `AudioPath.DecideKeepsCursor` | plugin/Line6HAL.c:703-720 | a mutex section keeps the cursor equal to the replay of the cycle openers and at least a buffer of room before the writer laps it |
| `AudioPath.HistoryGrows` | daemon/src/shm.rs:92-103 | between header rewrites the daemon only extends the history and never lowers the counter |
| `AudioPath.ProducerKeepsClient` | daemon/src/shm.rs:86-104 | no daemon step, restart included, spoils what is promised of a call |
| `Interleaving.SegmentStep` | daemon/src/shm.rs:64-104 | every daemon step keeps the ring holding the last RING samples stored of each channel and the history a prefix of the framed inputs |
| `Interleaving.WriteSampleInv` | daemon/src/shm.rs:94-102 | so does a single sample write in the middle of a frame |
| `Refinement.UninterruptedPush` | daemon/src/shm.rs:86-104 | the push steps without interruption end in the state the push methods are proved to reach: ring, history, counter and inputs |
| `Refinement.PacketPushed` | daemon/src/shm.rs:86-104 | from any idle segment, the uninterrupted push of a packet raises the counter by the packet length over three times the channel count, appends that many frames, each sample the value of its own three bytes, and stores them all |
| `Refinement.TonePushed` | daemon/src/shm.rs:108-125 | the uninterrupted push of a tone appends one frame per value, the value on every channel, and counts them all |
| `Refinement.UninterruptedCreate` | daemon/src/shm.rs:64-71 | an uninterrupted header rewrite, from any state of the daemon and to any device, does what the Create method does |
| `Refinement.StartAndStop` | plugin/Line6HAL.c:625-652 | the StartIO step with no client running leaves the cursor at the counter with no cycle seen; with clients running StartIO and StopIO leave the cursor alone and count, never below zero |
| `Refinement.UninterruptedCall` | plugin/Line6HAL.c:686-732 | a call of any size can be made at any time, and made without interruption it decides, opens its cycle and returns, sample by sample, as the DoIO method |
| `Refinement.UninterruptedCopy` | plugin/Line6HAL.c:722-730 | the copy steps without interruption produce the frames of the copy loop, in order |
| `Refinement.ReadFramesAt` | plugin/Line6HAL.c:722-729 | the i-th of them is the frame read at rf + i |
| `Refinement.BufferSample` | plugin/Line6HAL.c:725-726 | sample i * channels + ch of the buffer is channel ch of the i-th frame copied |
| `Refinement.UninterruptedCopyIsDoIO` | plugin/Line6HAL.c:722-730 | the output of an uninterrupted call is, sample by sample, the flat buffer the DoIO method is proved to fill |
| `ReadCursor.CycleStart` | plugin/Line6HAL.c:706-718 | a cycle continues at the cursor if and only if it is one buffer to a ring less one buffer behind; otherwise it re-enters within the depth; either way a further buffer must be written to lap it |
| `ReadCursor.HugeBuffer` | plugin/Line6HAL.c:711-713 | with a buffer wider than the ring the room is computed in 32 unsigned bits and wraps: when such a cycle resyncs |
| `ReadCursor.BufferLimit` | plugin/Line6HAL.c:708-714 | a resync leaves room for one more buffer under every daemon latency exactly for buffers up to 21760 frames |
| `ReadCursor.DepthIsLarger` | plugin/Line6HAL.c:708-710 | the resync depth is the larger of two buffers plus 256 and the requested latency, or 3072 where none is requested |
| `ReadCursor.ClampRange` | daemon/src/main.rs:86 | the published latency is 240 frames up to 5 ms, 24000 from 500 ms, and 48 per ms between |
| `ReadCursor.FirstCallAfterStart` | plugin/Line6HAL.c:634-637 | the first call re-anchors if and only if less than a buffer was written since StartIO (or the counter restarted), or more than the ring allows |
| `ReadCursor.GapExactly` | docs/ARCHITECTURE.md:87-88 | a resync starts the documented distance behind the head if and only if that much was written, else at the first frame; any other cycle is that far behind if and only if the cursor was |
| `ReadCursor.GapNeedNotBeDepth` | docs/ARCHITECTURE.md:87-88 | the documented constant trailing distance fails for a concrete cycle |
| `ReadCursor.SilenceExactly` | plugin/Line6HAL.c:711-729 | frame i of a first call is underrun silence if and only if its cycle resynced with at most a depth written and i is past the head |
| `ReadCursor.DeliversSlice` | plugin/Line6HAL.c:722-729 | every other first call is given one full slice of the history |
| `ReadCursor.OnlyOpenersMove` | plugin/Line6HAL.c:704-718 | any sequence of calls leaves the cursor where its cycle openers alone would |
| `ReadCursor.SameCycleSameStart` | plugin/Line6HAL.c:704-719 | all calls of one cycle start at the same frame |
| `ReadCursor.AdvancesOncePerCycle` | plugin/Line6HAL.c:716-717 | without resyncs the cursor advances by exactly one buffer per opened cycle, by at least one per cycle number, and by one per number if and only if no number left is gone back to |
| `ReadCursor.OpenersPerNumber` | plugin/Line6HAL.c:704-705 | each cycle number is opened at least once, and each just once if and only if the calls of every number come together |
| `ReadCursor.SameStartExactly` | plugin/Line6HAL.c:704-719 | with no resync between and nonempty buffers, two calls start at one frame if and only if every call between carries one cycle number |
| `ReadCursor.ReturningCallMovesOn` | plugin/Line6HAL.c:74-75 | concrete calls of the cycles 5, 6, 5 move the cursor three buffers and start cycle 5 at two frames |
| `Continuity.NextCycle` | plugin/Line6HAL.c:711-715 | a cycle in a steady run resyncs if and only if the drift has left its window |
| `Continuity.SteadyPositions` | plugin/Line6HAL.c:703-718 | while the drift fits, cycle n starts exactly n buffers after the resync |
| `Continuity.TrailingDistance` | docs/ARCHITECTURE.md:87-88 | whatever the drift, cycle n trails the head by what the last resync left plus production less consumption since; after a full-depth resync by the documented distance if and only if these are equal |
| `Continuity.GaplessExactly` | plugin/Line6HAL.c:706-718 | after a resync at full depth no later cycle resyncs if and only if every drift fits |
| `Continuity.CycleSlice` | plugin/Line6HAL.c:719-729 | cycle n is given the n-th buffer of the captured sequence after the resync point |
| `Continuity.GaplessOutput` | plugin/Line6HAL.c:703-730 | nothing is skipped, repeated or silenced across any number of such cycles |
| `Continuity.ConsecutiveResyncs` | plugin/Line6HAL.c:711-715 | two consecutive resyncs k cycles apart need a net drift of at least the slack |
| `Continuity.DiscontinuityBudget` | README.md:138-139 | the number of resyncs, less one, times the slack is at most the sum of the cycles' absolute drifts |
| `Bits.MaskIsModulo` | daemon/src/shm.rs:96 | and-ing with one less than a power of two is reduction modulo that power, for all 64-bit words |
| `Ring.SlotMask` | daemon/src/shm.rs:17 | the ring mask is reduction modulo the ring length |
| `Ring.Layout` | shared/line6_shm.h:51 | 65536 places, the samples of a frame side by side from channel 0 on, frames one after the other around the ring, room for 8 channels |
| `Ring.SlotInBounds` | daemon/src/shm.rs:96-99 | every index written or read lies inside the ring for 1 to 8 channels |
| `Ring.SlotInjective` | shared/line6_shm.h:51 | two samples share a slot only for the same channel of frames a multiple of the ring length apart |
| `Ring.LatestExactly` | shared/line6_shm.h:51 | of the last RING frames exactly one shares the slots of a given frame, and it is that frame until the one a ring later is stored |
| `Ring.WriteSampleHolds` | daemon/src/shm.rs:97-100 | writing the next sample of the newest frame replaces only the sample one ring older |
| `Ring.StoreFramesHolds` | daemon/src/shm.rs:94-103 | a push of any length, wrapping any number of times, leaves the last RING frames at their slots |
| `Ring.RingRefinesHistory` | daemon/src/shm.rs:86-125 | so does any sequence of pushes of any sizes |
| `SharedMemory.Shm.constructor` | daemon/src/shm.rs:40-72 | a new segment holds the empty history for the device and zero samples |
| `SharedMemory.Shm.Create` | daemon/src/shm.rs:64-72 | re-creation over any contents restarts the history, keeps the samples, describes the device |
| `SharedMemory.Shm.WriteCaptured` | daemon/src/shm.rs:95-100 | one decoded frame lands in its slots and nothing else changes |
| `SharedMemory.Shm.PushFrames` | daemon/src/shm.rs:86-104 | the history grows by the packet's whole frames, each sample of it the value of its own three bytes, the counter by their number, and the ring keeps holding the history |
| `SharedMemory.Shm.WriteTone` | daemon/src/shm.rs:118-121 | one tone value lands on every channel of its frame and nothing else changes |
| `SharedMemory.Shm.PushSine` | daemon/src/shm.rs:108-125 | the history grows by as many frames as asked for, frame j carrying the wave at the phase j steps on, on every channel; counter and ring follow, and the phase ends where the tone does |
| `SharedMemory.ToneContinues` | daemon/src/shm.rs:108-117 | a tone pushed in two pieces is the tone pushed in one |
| `SharedMemory.PhaseIsWrapped` | daemon/src/shm.rs:114-117 | the phase stays within one turn and is n steps of 440 / 48000 of a turn on, less whole turns |
| `S24.DecodeIsTwosComplement` | daemon/src/shm.rs:129-133 | the shift-left, arithmetic-shift-right form is b0 + 256 b1 + 65536 b2, less 2^24 from 2^23 on, and so in [-2^23, 2^23) |
| `S24.DecodeInvertsEncode` | daemon/src/shm.rs:129-133 | every value of that range is the decoding of its encoding |
| `S24.EncodeInvertsDecode` | daemon/src/shm.rs:129-133 | every byte triple is the encoding of its decoding, so decoding is a bijection |
| `S24.ScaledRange` | daemon/src/shm.rs:127-133 | the Float32 value lies in [-1, 1) |
| `Bits.OrOfDisjointBytes` | daemon/src/shm.rs:130 | or-ing the shifted bytes is adding them |
| `Framing.SampleInBounds` | daemon/src/shm.rs:94-99 | every byte read for a frame lies inside that frame and the packet |
| `Framing.DecodedLies` | daemon/src/shm.rs:88-100 | decoding a packet loses nothing: by its length alone as many frames as whole ones fit, and sample (f, c) of them is the value of the bytes at 3(f * channels + c) |
| `Framing.WholePartKeepsFrames` | daemon/src/usb.rs:94-96 | cutting the partial tail loses no whole frame |
| `Framing.StreamFramingExactly` | docs/PROTOCOL.md:54-58 | framing the byte stream equals framing packet by packet for all packets of given lengths if and only if behind the first unaligned one too little follows to complete its tail to a frame |
| `Framing.StreamFramingAgrees` | docs/PROTOCOL.md:54-58 | while that is so the two framings agree |
| `Framing.AlignedButLast` | docs/PROTOCOL.md:54-58 | it is so while all packets but the last are aligned |
| `Framing.StreamFramingRotates` | docs/PROTOCOL.md:54-58 | with an unaligned packet in front the stream reading mixes channels: concrete packets |
| `UsbCapture.WholeFramesCounts` | daemon/src/usb.rs:94-100 | the frames of a transfer number the sum of its packets' whole-frame counts |
| `UsbCapture.PacketsIndex` | daemon/src/usb.rs:88-97 | packet i of a transfer is the bytes of its buffer from i slots on, as many as its actual length |
| `UsbCapture.SlotOffset` | daemon/src/usb.rs:64 | a slot is 8 frames of 3 bytes a channel: slot i begins at byte 8 * 3 * channels * i |
| `UsbCapture.TransferLands` | daemon/src/usb.rs:79-103 | frame f of packet i of a transfer lands behind the whole frames of the packets before it, each sample the value of its three bytes in slot i of the transfer buffer |
| `UsbCapture.EventsLand` | daemon/src/usb.rs:79-103 | so does every packet of every IN transfer of a batch, behind the transfers before it |
| `UsbCapture.CallbacksAll` | daemon/src/usb.rs:227-233 | of completions libusb can deliver every one is called back: the filter of Daemon.dfy passes them all |
| `UsbCapture.FailedCounts` | daemon/src/usb.rs:82-84 | the error counter grows by the number of packets whose status is not completed |
| `UsbCapture.UnalignedCounts` | daemon/src/usb.rs:92-94 | the unaligned counter grows by the number of packets whose length is no multiple of 3 bytes a channel |
| `UsbCapture.StreamState.constructor` | daemon/src/usb.rs:57-71 | a fresh stream owns no transfer |
| `UsbCapture.StreamState.OnPacket` | daemon/src/usb.rs:79-102 | one packet adds its whole frames, and the error counters move exactly when it failed or has a tail |
| `UsbCapture.StreamState.PushWhole` | daemon/src/usb.rs:95-101 | the whole part of a packet reaches the ring as frames, or as as many frames of the tone from the stream's phase on |
| `UsbCapture.StreamState.OnPackets` | daemon/src/usb.rs:79-103 | the frames of a transfer land in the history slot by slot: frame f of packet i at its place with the bytes of slot i (or one unbroken tone of that many frames), nothing before them changed and nothing after; failed and unaligned packets are counted |
| `UsbCapture.StreamState.OnIn` | daemon/src/usb.rs:74-108 | that, and the count of submitted transfers stays equal to the transfers libusb owns |
| `UsbCapture.StreamState.OnOut` | daemon/src/usb.rs:110-119 | the OUT callback keeps the same count and touches no audio |
| `UsbCapture.StreamState.Resubmit` | daemon/src/usb.rs:104-106 | libusb owns the called-back transfer again exactly if the stream runs and the submission succeeds, and the count becomes what it owns |
| `UsbCapture.StreamState.ServiceNext` | daemon/src/usb.rs:227-233 | one callback of a batch keeps the batch's account of transfers and captured packets |
| `UsbCapture.StreamState.HandleEvents` | daemon/src/usb.rs:227-233 | over any batch of callbacks the count equals the owned transfers and falls by the number given up, and every frame of every packet of every IN transfer lands at its place with the bytes of its slot, in order, and no other |
| `UsbCapture.StreamState.Start` | daemon/src/usb.rs:208-221 | the engine starts if and only if some transfer was accepted, owning exactly the accepted ones |
| `UsbCapture.StreamState.Drain` | daemon/src/usb.rs:236-243 | the drain services callbacks until the count is zero or none comes, each taking one transfer off and landing its frames |
| `UsbCapture.StreamState.Stop` | daemon/src/usb.rs:236-247 | each drained callback takes one transfer off; what is freed is idle if and only if as many came as were in flight |
| `UsbCapture.DrainTakesEach` | daemon/src/usb.rs:104-106 | once the stream is stopped no transfer is called back twice |
| `Plugin.Hal.AttachShm` | plugin/Line6HAL.c:88-112 | an attached segment is never replaced, and attaching one needs a mutex the caller must not hold |
| `Plugin.Hal.DevChannels` | plugin/Line6HAL.c:115-120 | the channel count is always 1 to 8, the header's when that is valid, and 8 otherwise or without a segment |
| `Plugin.Hal.StartIO` | plugin/Line6HAL.c:625-642 | only the first client anchors timeline and cursor; the call returns if and only if a client is running already or the segment was attached before |
| `Plugin.Hal.StopIO` | plugin/Line6HAL.c:644-652 | the client count never goes below zero |
| `Plugin.Hal.GetZeroTimeStamp` | plugin/Line6HAL.c:654-670 | the pair lies on the line through the anchor with the slope of the host clock (ticks per frame), truncated; sample times are multiples of 8192 and move on by 8192 exactly when the host time of the next one is reached; the host time is not in the future if the last one was not |
| `Plugin.Hal.AdvanceCursor` | plugin/Line6HAL.c:703-720 | the in-place cursor code takes the decision step the session theorems are about |
| `Plugin.Hal.CopyFrame` | plugin/Line6HAL.c:722-730 | one frame of the buffer is filled, the rest untouched |
| `Plugin.Hal.CopyOut` | plugin/Line6HAL.c:722-730 | the loop fills the whole buffer and nothing past it |
| `Plugin.Hal.DoIO` | plugin/Line6HAL.c:686-732 | one cursor step and a buffer read from where it settled, as many samples as the channel count of now asks for, if they have room; silence without a segment; nothing for other operations |
| `Plugin.RoomExactly` | plugin/Line6HAL.c:694-698 | a buffer sized by an earlier channel count has room if and only if the count has not grown (or no frames are asked for), and is short by that many samples otherwise |
| `Plugin.IntactRingDelivers` | plugin/Line6HAL.c:722-729 | a buffer read from a ring that holds the history is the history's slice, sample by sample |
| `Plugin.QuietCallDelivers` | plugin/Line6HAL.c:701-730 | a cycle's first call with the daemon standing still needs no further condition for that |
| `Timeline.PeriodLength` | plugin/Line6HAL.c:663-666 | truncation keeps every period between the truncated length and one tick more |
| `Timeline.BoundaryOnLine` | plugin/Line6HAL.c:660-667 | boundary n is the host time of sample 8192 n on that line |
| `Timeline.ReachedIsCurrent` | plugin/Line6HAL.c:660-667 | the last boundary not in the future exists and has a closed form |
| `Timeline.TickSafety` | plugin/Line6HAL.c:661-667 | a call never goes back, never reports the future, and closes the distance to now by exactly one period |
| `Timeline.SessionSafety` | plugin/Line6HAL.c:654-670 | over a session with any call gaps, sample and host times never decrease and stay in the past |
| `Timeline.CatchesUp` | plugin/Line6HAL.c:663-664 | with the clock frozen, k calls recover min(k, distance) periods |
| `Timeline.CounterExactly` | plugin/Line6HAL.c:661-664 | over any session the counter is the least, over all calls, of the boundary that call found plus one for every call after it |
| `Timeline.ExactAfter` | plugin/Line6HAL.c:661-664 | the counter is exact after a call if and only if since no earlier call more boundaries were passed than calls made |
| `Timeline.UpToDateIsCurrent` | plugin/Line6HAL.c:660-667 | exact means that the reported boundary is the last one not in the future |
| `Timeline.KeepsUpExactly` | plugin/Line6HAL.c:661-664 | the counter is exact after every call of a session if and only if no call finds two new boundaries at once |
| `Timeline.SessionExact` | plugin/Line6HAL.c:629-641 | if no two calls are more than a truncated period apart the reported boundary is the latest one after every call, if and only if a period is at least half a tick |
| `Timeline.LateCallLags` | plugin/Line6HAL.c:663-664 | concrete times: one call more than a period after the last lags, another does not |
| `Presence.StillExactly` | plugin/Line6HAL.c:187-191 | the stall count reaches n exactly if the last n samples equal their predecessors |
| `Presence.ListedSinceAttach` | plugin/Line6HAL.c:182-192 | listed, once attached, means fewer than four polls since the first sample or a change among the last four |
| `Presence.Monitor.PresenceMonitor` | plugin/Line6HAL.c:173-201 | presence after every poll is that function of the samples, and notifications count its flips |
| `Daemon.LastChange` | daemon/src/main.rs:111-117 | the reference for progress: the last poll whose counter differs from the one before |
| `Daemon.EmptyRun` | daemon/src/main.rs:170-177 | the reference for absence: the maximal trailing run of empty scans |
| `Daemon.FirstStall` | daemon/src/main.rs:107-126 | a capture is torn down exactly at its first poll more than half a second after its last progress |
| `Daemon.PollTakes` | daemon/src/main.rs:102-126 | a poll whose completions libusb can deliver lands every frame of every packet of them, and the counter it reads is the old one plus their number |
| `Daemon.EndTakes` | daemon/src/main.rs:187-193 | so does what completes while an engine drains |
| `Daemon.ChangeIsFrames` | daemon/src/main.rs:102-117 | over every run, the counter a poll reads is the previous one plus the whole frames, by packet length, of all transfers completed at the poll |
| `Daemon.WatchdogExactly` | daemon/src/main.rs:102-126 | over every run, a poll tears the capture down if and only if it comes more than 0.5 s after the last one at which a whole frame was completed, or the start |
| `Daemon.RoundsGrow` | daemon/src/main.rs:101-185 | the explanation of a trace does not depend on what is observed after it |
| `Daemon.RunState.StopEngine` | daemon/src/main.rs:187-193 | a running engine is stopped exactly once, and every frame that arrives while it drains lands in the history |
| `Daemon.RunState.Service` | daemon/src/main.rs:102-111 | every frame of every packet completed lands in the history of the segment, and nothing else does, and the counter read is its length |
| `Daemon.RunState.Poll` | daemon/src/main.rs:102-140 | the progress time moves exactly on a counter change, and the engine is stopped exactly when it is too old |
| `Daemon.RunState.EnsureSegment` | daemon/src/main.rs:144-148 | the segment is re-created, emptying the history, exactly for another device than its header's |
| `Daemon.RunState.StartCapture` | daemon/src/main.rs:199-208 | a capture starts if and only if the device opens and some transfer is accepted, on a fresh stream state of that segment |
| `Daemon.RunState.Scan` | daemon/src/main.rs:142-184 | a scan re-creates the segment only for another device, and starts, retries or counts an absence |
| `Daemon.RunState.Iterate` | daemon/src/main.rs:101-185 | each iteration is what the trace before it explains, and does to the segment what its kind says |
| `Daemon.RunState.Run` | daemon/src/main.rs:78-196 | over every sequence of answers of the world: starts less stops is 1 while capturing and 0 otherwise and at every return, the header is the capturing device's, every poll extends the segment's history by exactly the frames of the packets it serviced and only a re-creation empties it, the loop exits exactly at the third empty scan in a row or a failed create, and what the last drain brings is in the history at the return |

## Left out

- CoreAudio property tables, CFPlugIn and IUnknown glue, logging, CFString names: flat case matching and foreign calls.
- shm_open, mmap and ftruncate, thread creation, QoS, signals: only their effects appear (attached or not, counter reset, stop requested). The magic and version test appears as whether a segment can be attached; the device name is not modelled.
- libusb, claiming interfaces, device enumeration: their answers are parameters. It is assumed that a packet's actual length fits its buffer slot and that callbacks come only for submitted transfers; completions that break this are skipped in Daemon.dfy, and of a batch without such none is (`UsbCapture.CallbacksAll`).
- The two-second drain timeout: the drain ends with whatever callbacks arrived, and freeing is shown idle only when the count reached zero.
- Memory orderings weaker than sequential consistency, overflow of 64-bit counters, Float64 rounding (the phase of the tone included), and the shape of the sine: an arbitrary function from phase to sample.
- In AudioPath.dfy the segment is attached from the start, and the ring is a value updated one sample a step; writing in place is in SharedMemory.dfy.
- Sleeping, printing and argument parsing of the daemon; plugin/haltest.c, scripts and packaging.
- Guarantees.NoTornOrStaleFrame: speaks of calls no header rewrite overlaps; of the others Restarts.dfy says which channel, not which frame, they deliver.
- Restarts.ForeignStride: places of the ring not published under the current header are not described; there the ring holds what an earlier device left.
- Interleaving.SegmentStep: one daemon writes at a time. A header rewrite ends the push it interrupts; that an instance still running could go on to publish its old counter is not modelled.
- Plugin.Hal.DoIO: what the code writes when the host's buffer is too short for the channel count of now is not modelled, only when that is so.
