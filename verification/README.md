# Two-camera streaming: a verified model

The repository is a two-camera streaming system. A C server captures frames in one thread and sends them from another;
a Java client re-frames the byte stream, buffers the pictures of both cameras, decides whether the two cameras are
"synchronous", shows a rolling delay, and sends the camera mode back.

The project models that path from the camera to `getPicture` and back, and proves what holds in every run of it.
`dafny verify dfyconfig.toml` checks the whole project.

| module | models |
|---|---|
| `Bytes`, `Options` | little-endian numbers, Java's `int` and its truncating division; optional values |
| `PacketCodec` | `setup_packet` and the decoders of `PicturePack` |
| `Sending` | the partial-send loops `send_all` and `write_n` on a socket that may accept any part of what it is given, or nothing |
| `CameraMonitor` | the shared slot of `camera_monitor.c`, `client_save_frame` and `client_send_frame` on it, their local buffers in a memory that goes on behind them |
| `HandOff`, `HandOffTheorems` | `take_picture_task` and `send_picture_task` as a step machine over program counters, two locks, a condition variable with spurious wake-ups and a broadcast after the unlock; and what every run of it guarantees, on a first or a later connection |
| `Framing`, `FramingLimits`, `PictureReceiver` | the read loops of `PictureReciever.run`: as functions of an arbitrarily fragmented stream, exactly which fragmentations they survive, and as methods on the buffer that are proved equal to those functions |
| `MonitorSpec`, `ClientMonitor` | `ClientMonitor.java`: the effect of each synchronized method on a value, and the class with its fields and two stamp queues on the heap, proved equal to it |
| `SyncTheorems`, `MonitorTheorems` | synchronization, buffers, time stamps and mode over whole runs of the monitor |
| `ModePropagation` | `ModeSender`, `ModePack`, `ClientConnectionThread` and `update_mode_task` as a chain of connections under any run of the monitor, with writes and reads that fail |
| `DisplayMonitor` | the rolling average of `checkDelay`, and what both cameras are shown over whole runs |
| `MotionText` | the motion report printed by `motion_server.c` and parsed by `MotionPack` |
| `EndToEnd` | all of the above from the capture to `getPicture` |

How the parts meet: the methods of `ClientMonitor`, `DisplayMonitor` and `PictureReceiver` are proved equal to
specification functions, which for the two monitors are the steps of state machines; the single sections of
`CameraMonitor`, `ModeSender.Turn` and `UpdateModeTurn` state in their contracts which step of `HandOff` or
`ModePropagation` they take. The theorems are about all runs of those machines and about all streams. The reference
definitions the theorems compare with (`SyncTheorems.InSync`, `MonitorTheorems.PutSince` and `FixedAt`,
`Framing.Complete`, `HandOffTheorems.Channel`, `ModePropagation.ReadSinceAccept`, `DisplayMonitor.Since` and
`RefreshAt`) look at the run alone and use none of the code's data structures.

Where the code and its documentation or its intent differ, the model follows the code:

* `write_n` is documented to write its buffer, but sends the start of the buffer again after a partial send. It delivers
  every buffer unchanged exactly when it needs at most one accepting call (`Sending.WriteNFaithfulIff`).
* The header loop stores each chunk at the length of the chunk before it, which is right for every header exactly when
  at most two reads are needed (`Framing.HeaderExactIff`, `FramingLimits.AllSurviveIff`).
* `setup_packet` is documented to return -1 for a frame that is too large. It does not look at the size of the buffer: it
  stays inside exactly for frames of at most 49990 bytes (`PacketCodec.OverrunIff`), and its result is the packet size
  for every frame below 2^31 - 10 bytes (`PacketCodec.SetupResultIff`, `PacketCodec.FirstOverrun`).
* An interrupted wait in `getPicture` takes a picture without clearing the availability flag, so a later call that is not
  interrupted can fail in `remove` (`MonitorTheorems.RemoveFailsIff`, `MonitorTheorems.UninterruptedFailure`).
* Choosing the mode AUTO does not reset `mode`, so motion decides the mode again exactly when no other mode was ever
  chosen (`MonitorTheorems.AutoRestoresIff`).
* `ModeSender` remembers a mode before it is written and across connections, so after losses the camera has the right
  mode exactly when an even number of modes was emitted since the one it applied last (`ModePropagation.CameraFollowsIff`).
* `update_mode_task` sets the mode also when its read finds the end of the stream, so a connection that ends before it
  delivers a byte takes the camera back to mode 0 (`ModePropagation.CameraOfRun`, `ModePropagation.EmptyConnection`).
* A thread that has entered its turn looks at the connection only after the turn. When the other one leaves first, it
  sleeps for ever, and the server accepts no further connection (`HandOffTheorems.HowItEnds`,
  `HandOffTheorems.StrandedSender`).
* The two cameras share one average, so a camera can be shown the other's delay (`DisplayMonitor.OtherCamerasAverage`).
* `getTimeSize` reads a length of two or three digits only (`MotionText.ContentLengthIff`).

## Model

| member | source | states |
|---|---|---|
| EndToEnd.PicturesAreFrames | C/source/production/server.c:112-203 | in every run of both server threads, the connection, the receiver and the monitor, on a first or a later connection: the pictures that getPicture returned show a prefix of the frames, same bytes, millisecond stamps off by one constant |
| EndToEnd.WireOfRun | C/source/production/server.c:258-323 | the bytes written in any run of the two threads, by full or by advancing sends, are a prefix of the encoded frames, in order |
| EndToEnd.ReceivedOfWire | edaf55_project_java/src/networking/PictureReciever.java:48-91 | whatever part of those bytes has arrived, the receiver puts the pictures of a prefix of the frames |
| HandOffTheorems.OkRun | C/source/production/server.c:258-323 | the control and data invariant (lock ownership, flag, sleepers, slot, copies, history) holds in every reachable state, whatever flag and slot the connection starts with |
| HandOffTheorems.NextConnection | C/source/production/server.c:258-323 | when both threads have left their loops they hold no lock and leave a flag of 0 or 1 and one whole packet, the last one saved, to the next connection |
| HandOffTheorems.HeadEndsIff | C/source/production/server.c:258-323 | at the head of its loop a thread ends iff the client is disconnected |
| HandOffTheorems.AfterDisconnect | C/source/production/server.c:258-323 | after a disconnect, however long the run goes on, each thread completes at most the turn it is in, none if it is at the head of its loop or past its flip, and leaves its loop only after that turn; at most two turns in all |
| HandOffTheorems.BoundedEnding | C/source/production/server.c:258-323 | after a disconnect the two threads take at most 110 more steps, plus eight per wake-up from outside, under any schedule |
| HandOffTheorems.HowItEnds | C/source/production/server.c:258-323 | where they can take no more, with no lock held by others, each has left its loop or sleeps, waiting for a flag that only the other one, who has left, could set |
| HandOffTheorems.StrandedForGood | C/source/production/server.c:432-434 | such a thread never leaves its loop, whatever happens later, so that the joins before the next connection do not return |
| HandOffTheorems.StrandedSender | C/source/production/server.c:296-323 | a run in which that happens to the sender |
| HandOffTheorems.FirstSend | C/source/production/server.c:296-323 | what a connection sends first, also when takes fail: the packet left in the slot, unless the flag is at taking and the first take succeeds |
| HandOffTheorems.NoLostWakeup | C/source/production/server.c:262-290 | a thread asleep although it is its turn implies that the other one is between its flip and its broadcast |
| HandOffTheorems.Progress | C/source/production/server.c:299-320 | while the client is connected and no other thread holds a lock, one of the two threads can step |
| HandOffTheorems.BoundedProgress | C/source/production/server.c:258-323 | no livelock: the two threads take at most 37 steps per completed turn, plus eight per wake-up from outside, under any schedule |
| HandOffTheorems.TakesMinusSends | C/source/production/server.c:258-323 | completed takes minus completed sends is the flag less the flag at the start, and takes and sends strictly alternate |
| HandOffTheorems.NoTearing | C/source/production/server.c:137-139 | size and bytes loaded by the sender, and every completed send, come from one and the same successful save, the most recent one |
| HandOffTheorems.Fifo | C/source/production/server.c:258-323 | when every take succeeds, the packets handed to write_n are a prefix of the packets taken, at most one behind, after the packet left in the slot if the connection starts at sending |
| HandOffTheorems.RefinesChannel | C/source/production/server.c:258-323 | every event of such a run is a put or a get of a FIFO channel of capacity one, or invisible to it |
| HandOff.ControlStep | C/source/production/server.c:262-290 | every enabled event, also of other threads, keeps the invariant on locks, flag and sleepers |
| HandOff.TakerData | C/source/production/server.c:185-187 | the taker's steps keep the slot, the history and the sender's copies consistent |
| HandOff.SenderData | C/source/production/server.c:137-143 | the sender's steps do, and each flip logs what was loaded |
| CameraMonitor.Monitor.constructor | C/source/production/camera_monitor.c:14-20 | the flag starts at taking, the mode at idle |
| CameraMonitor.Monitor.FlipPicTakeSend | C/source/production/camera_monitor.c:29-36 | the flag toggles |
| CameraMonitor.Monitor.SetMode | C/source/production/camera_monitor.c:38-42 | the mode is the value given |
| CameraMonitor.Monitor.SavePacket | C/source/production/camera_monitor.c:64-68 | the slot's bytes become the argument's, its size stays: the hand-off's step SaveBytesIn |
| CameraMonitor.Monitor.GetPacket | C/source/production/camera_monitor.c:58-62 | the copy is the slot's bytes, the memory around it unchanged: the step LoadBytesIn |
| CameraMonitor.Monitor.SavePacketSize | C/source/production/camera_monitor.c:91-95 | the slot's size changes, its bytes stay: the step SaveSizeIn |
| CameraMonitor.Monitor.GetPacketSize | C/source/production/camera_monitor.c:97-102 | the size is the slot's: the step LoadSizeIn |
| CameraMonitor.SaveFrame | C/source/production/server.c:154-203 | for every frame size: what the slot and the memory behind the local buffer become, the result, which is 1 only for a size that overflows, and that the slot carries the frame's encoding if it fits |
| CameraMonitor.ClientWriteN | C/source/production/server.c:250-253 | what write_n did with the bytes, and its count as an int |
| CameraMonitor.SendFrame | C/source/production/server.c:123-152 | for every saved or unsaved size: the local copy, what goes on the wire for any partial sends, and the result: with rc the first error before all bytes are accepted and their number otherwise, 0 iff rc is that number or the size itself, 3 otherwise |
| CameraMonitor.SaveAndSend | C/source/production/server.c:123-203 | a frame saved and sent in one accepting call puts exactly its encoding on the wire, and two flips restore the flag |
| PacketCodec.SetupPacket | C/source/production/server.c:112-121 | for every frame size: the memory is overwritten by the encoding of the frame, whatever the buffer's size, and nothing else changes; the result is the packet size as a 32-bit ssize_t |
| PacketCodec.SetupResultIff | C/source/production/server.c:104-121 | the result is the packet size iff the frame is below 2^31 - 10 bytes, negative iff it overflows, and the documented -1 for one size only |
| PacketCodec.OverrunIff | C/source/production/server.c:112-121 | for every frame of a size no byte outside the 50000-byte buffer changes iff that is at most 49990 bytes |
| PacketCodec.FirstOverrun | C/source/production/server.c:104-121 | a frame of 49991 bytes is not refused: the result is 50001 and the byte behind the buffer changes |
| PacketCodec.GetTimeStamp | edaf55_project_java/src/networking/PicturePack.java:18-30 | the low four bytes read as a signed int |
| PacketCodec.GetPictureSize | edaf55_project_java/src/networking/PicturePack.java:32-40 | bytes 8 and 9 as an unsigned number |
| PacketCodec.StampRoundTrip | edaf55_project_java/src/networking/PicturePack.java:18-30 | the stamp that arrives is the signed 32-bit residue of the milliseconds, exact iff they are below 2^31 |
| PacketCodec.SizeRoundTrip | edaf55_project_java/src/networking/PicturePack.java:32-40 | the size that arrives is the residue modulo 2^16, exact iff the frame is shorter than that |
| PacketCodec.StampMonotone | edaf55_project_java/src/networking/PicturePack.java:18-30 | below 2^31 ms the received stamps keep the order of capture |
| PacketCodec.DecodeEncode | C/source/production/server.c:112-121 | decoding the first packet of any byte string recovers size, stamp and payload of the frame |
| Sending.SendAll | C/source/BasicServer.c:63-76 | -1 iff some call accepts nothing before all bytes are accepted, and then a proper prefix of the buffer is on the wire; otherwise 0 and the whole buffer; which calls are made |
| Sending.SendAllResult | C/source/BasicServer.c:63-76 | the loop, from any point of it, gives up iff some call accepts nothing before the rest is accepted, and otherwise its chunks are all the bytes |
| Sending.WriteN | C/source/production/server_common.c:9-34 | the result is the first error if it comes before n bytes are accepted and n otherwise; which calls are made; the wire as a function of the accepted chunks; the buffer itself when the first call takes everything |
| Sending.WriteResult | C/source/production/server_common.c:9-34 | from any point of the loop: the first error before the rest is accepted, otherwise n, which comes iff the chunks are all the bytes |
| Sending.LoopIsCalls | C/source/production/server_common.c:9-34 | the loop's result is that of the sequence of its calls, to which the next two rows refer |
| Sending.StillRunningIff | C/source/production/server_common.c:9-34 | the loop is still running iff no call has failed and together they accepted less than n bytes, so it runs for ever iff that stays so |
| Sending.EndsWithin | C/source/production/server_common.c:9-34 | when every call that does not fail accepts at least one byte, n calls are enough |
| Sending.WriteNFaithfulIff | C/source/production/server_common.h:15-23 | write_n delivers every buffer of its size unchanged iff it needs at most one accepting call |
| Sending.WriteNSafeBufferIff | C/source/production/server_common.h:15-23 | a buffer survives every way of cutting it into calls iff all its bytes are the same |
| Sending.FaithfulIff | C/source/BasicServer.c:63-76 | a transfer delivers every buffer of its size unchanged iff its loop advances or needs at most one accepting call |
| PictureReceiver.InputStream.Read | edaf55_project_java/src/networking/PictureReciever.java:57-57 | a read delivers a count the stream decides on, stored at the offset given, -1 at the end, an exception for a range outside the buffer |
| PictureReceiver.Receiver.Refill | edaf55_project_java/src/networking/PictureReciever.java:50-52 | every byte of the buffer is the filler |
| PictureReceiver.Receiver.FillHeader | edaf55_project_java/src/networking/PictureReciever.java:54-61 | the in-place header loop computes the header function |
| PictureReceiver.Receiver.FillPayload | edaf55_project_java/src/networking/PictureReciever.java:68-84 | the in-place payload loop computes the payload function; the exception comes exactly for oversized packets |
| PictureReceiver.Receiver.Turn | edaf55_project_java/src/networking/PictureReciever.java:48-91 | one turn of the loop consumes input and yields the first picture of what the receive function yields, or its ending |
| PictureReceiver.Receiver.Run | edaf55_project_java/src/networking/PictureReciever.java:48-91 | the loop of one connection terminates and puts exactly the pictures of the receive function |
| Framing.PayloadStored | edaf55_project_java/src/networking/PictureReciever.java:68-84 | however the payload is cut, it ends up contiguous, and nothing else changes |
| Framing.HeaderExactIff | edaf55_project_java/src/networking/PictureReciever.java:54-61 | the header loop is right for every header iff the fragmentation needs at most two reads |
| Framing.ThirdReadLosesSize | edaf55_project_java/src/networking/PictureReciever.java:54-61 | with three or more reads the high byte of the size keeps the filler |
| Framing.ReceivePrefix | edaf55_project_java/src/networking/PictureReciever.java:48-91 | on any prefix of the encoded frames the loop yields exactly the frames that are complete, and consumes every byte |
| Framing.ReceiveAll | edaf55_project_java/src/networking/PictureReciever.java:48-91 | fragmentation-independent framing: all frames come out unchanged and every byte is consumed |
| Framing.CompleteIsGreatest | edaf55_project_java/src/networking/PictureReciever.java:48-91 | the number of complete frames is the largest whose encodings fit in the bytes that arrived |
| FramingLimits.OutOfBoundsIff | edaf55_project_java/src/networking/PictureReciever.java:68-84 | the receiver ends in an exception at a packet whose header comes in two reads iff the frame's size modulo 2^16 exceeds 49990, so not for every frame that is too large |
| FramingLimits.PacketSurvivesIff | edaf55_project_java/src/networking/PictureReciever.java:54-84 | a packet whose size does not have the filler as high byte survives its fragmentation iff its header needs at most two reads |
| FramingLimits.AllSurviveIff | edaf55_project_java/src/networking/PictureReciever.java:50-84 | for every high byte of the size: all packets with it survive a fragmentation iff the header comes in two reads or, for the filler, nine bytes of it do and the second read has four to seven |
| FramingLimits.StreamSurvivesIff | edaf55_project_java/src/networking/PictureReciever.java:48-91 | all frames of a stream come out unchanged iff every header comes in at most two reads |
| ClientMonitor.Monitor.constructor | edaf55_project_java/src/client/ClientMonitor.java:29-44 | two different, empty stamp queues and the initial state |
| ClientMonitor.Monitor.SetMode | edaf55_project_java/src/client/ClientMonitor.java:46-55 | AUTO only sets its flag; another mode is set and sent less one |
| ClientMonitor.Monitor.SetForcedSync | edaf55_project_java/src/client/ClientMonitor.java:57-63 | forcing is only ever switched on |
| ClientMonitor.Monitor.PutPicture | edaf55_project_java/src/client/ClientMonitor.java:70-95 | baseline, shifted picture, buffer, flag and synchronization of the camera; everything else unchanged |
| ClientMonitor.Monitor.SetBaseLine | edaf55_project_java/src/client/ClientMonitor.java:97-103 | only a zero baseline of camera 1 or 2 is replaced, by clock minus stamp |
| ClientMonitor.Monitor.SyncReqCheck | edaf55_project_java/src/client/ClientMonitor.java:113-125 | the pair of queues and the flag after checking a picture of either camera |
| ClientMonitor.Monitor.AsyncCheck | edaf55_project_java/src/client/ClientMonitor.java:127-145 | the same for the synchronous case, although the parameter is one of the two fields it clears |
| ClientMonitor.Monitor.Trim | edaf55_project_java/src/client/ClientMonitor.java:134-137 | the loop terminates, never looks at an empty queue, and pops the front while it is within the tolerance |
| ClientMonitor.Monitor.SyncCheck | edaf55_project_java/src/client/ClientMonitor.java:170-178 | true iff forced or conforming, and then synchronous with empty queues |
| ClientMonitor.Monitor.GetPicture | edaf55_project_java/src/client/ClientMonitor.java:147-168 | waits, returns the oldest picture, or fails in remove; a call that is not interrupted clears the flag, an interrupted one leaves it as it is |
| ClientMonitor.Monitor.SetMotionDetected | edaf55_project_java/src/client/ClientMonitor.java:200-216 | the camera's motion flag, and the OR of both as mode to send while the mode is AUTO |
| ClientMonitor.Monitor.GetNewMode | edaf55_project_java/src/client/ClientMonitor.java:218-230 | over any sequence of wake-ups and interrupts: returns iff one of the modes it sees differs from the caller's, and then the first such mode |
| SyncTheorems.SyncedIff | edaf55_project_java/src/client/ClientMonitor.java:113-145 | on every run with nondecreasing stamps the code is synchronous iff the reference definition on the run alone says so |
| SyncTheorems.QueueIsRecomputation | edaf55_project_java/src/client/ClientMonitor.java:127-138 | the queue trimmed from the front is the filter over all late stamps of the camera since the last clear |
| SyncTheorems.LosesSyncIff | edaf55_project_java/src/client/ClientMonitor.java:127-145 | synchronization is lost iff the delivery is late and makes exactly ten late stamps past the other camera's latest |
| SyncTheorems.WindowOfTen | edaf55_project_java/src/client/ClientMonitor.java:113-145 | those ten are the camera's last ten checked deliveries, and since the oldest of them no delivery of either camera was conforming or behind |
| SyncTheorems.MonotonicityNeeded | edaf55_project_java/src/client/ClientMonitor.java:134-137 | a run with a decreasing stamp in which the queue is not that filter |
| SyncTheorems.TrimIsFilterIff | edaf55_project_java/src/client/ClientMonitor.java:134-137 | popping from the front filters a queue iff every stamp behind a late one is late |
| SyncTheorems.ForcedSyncAbsorbs | edaf55_project_java/src/client/ClientMonitor.java:113-145 | when forced, a run ends synchronous iff it began so or some delivery found the other camera's stamp nonzero |
| SyncTheorems.SyncOkAlways | edaf55_project_java/src/client/ClientMonitor.java:118-144 | not synchronous implies both queues empty, and no queue rests with ten stamps, after any deliveries |
| MonitorTheorems.ForcedForGood | edaf55_project_java/src/client/ClientMonitor.java:57-63 | after a call of setForcedSync(true), whatever is called, the monitor is synchronous iff it was so already or a later picture was put when the other camera's last stamp was not 0 |
| MonitorTheorems.ForcedIff | edaf55_project_java/src/client/ClientMonitor.java:57-63 | in every run synchronization is forced iff setForcedSync(true) was called |
| MonitorTheorems.SyncOkOfRun | edaf55_project_java/src/client/ClientMonitor.java:118-144 | the resting invariant of the queues in every run of all the monitor's methods |
| MonitorTheorems.SyncOfRun | edaf55_project_java/src/client/ClientMonitor.java:70-95 | the monitor's synchronization state depends on the stored pictures alone, whatever else is called in between |
| MonitorTheorems.SyncModeOfRun | edaf55_project_java/src/client/ClientMonitor.java:113-145 | so the monitor is synchronous iff the reference definition says so of the pictures stored |
| MonitorTheorems.RawOrderIsKept | edaf55_project_java/src/client/ClientMonitor.java:70-79 | when the cameras' own stamps never decrease, each first offset is not zero and the clock not negative, the stored stamps never decrease either |
| MonitorTheorems.SyncModeOfCameras | edaf55_project_java/src/client/ClientMonitor.java:113-145 | for such cameras the monitor is synchronous iff the reference definition says so |
| MonitorTheorems.CamerasApart | edaf55_project_java/src/client/ClientMonitor.java:70-95 | a call with camera number 1 changes nothing of the second camera, and one with any other number nothing of the first |
| MonitorTheorems.Conservation | edaf55_project_java/src/client/ClientMonitor.java:81-94 | per camera, in every run and whatever the interrupts: pictures returned followed by those buffered are the pictures stored; the buffer length is the flag plus the surplus |
| MonitorTheorems.FlagImpliesPicture | edaf55_project_java/src/client/ClientMonitor.java:147-168 | without interrupts the flag implies a picture in the buffer, and the buffer holds one for the flag and one for every put that found the flag set |
| MonitorTheorems.FlagOfRun | edaf55_project_java/src/client/ClientMonitor.java:147-168 | the flag is set iff a picture was put since the last call that was not interrupted |
| MonitorTheorems.UninterruptedFailure | edaf55_project_java/src/client/ClientMonitor.java:147-168 | a run in which a call that nobody interrupts fails in remove, after an interrupted one took the picture |
| MonitorTheorems.RemoveFailsIff | edaf55_project_java/src/client/ClientMonitor.java:147-168 | remove fails iff every picture stored has been returned and the call was interrupted or a picture was put since the last call that was not |
| MonitorTheorems.Rebasing | edaf55_project_java/src/client/ClientMonitor.java:97-103 | the baseline is zero until the first nonzero offset and that offset ever after, and every picture is stored accordingly |
| MonitorTheorems.RebasedByOneConstantIff | edaf55_project_java/src/client/ClientMonitor.java:70-77 | all stored stamps are off by one constant iff the first offset is nonzero or all are zero |
| MonitorTheorems.DifferencesKeptIff | edaf55_project_java/src/client/Picture.java:13-15 | a difference of stored stamps is that of the raw ones iff both pictures came before the one that fixed the baseline, or neither did |
| MonitorTheorems.ModeOfRun | edaf55_project_java/src/client/ClientMonitor.java:46-55 | the mode to send as a function of the run: the OR of the last motion reports until a mode other than AUTO is set, then the last such mode less one |
| MonitorTheorems.AutoRestoresIff | edaf55_project_java/src/client/ClientMonitor.java:46-55 | choosing AUTO hands the mode back to the motion reports iff no other mode was ever chosen |
| ModePropagation.ModeSender.Pack | edaf55_project_java/src/networking/ModePack.java:7-11 | one byte, 1 for mode 1 and 0 for every other |
| ModePropagation.ModeSender.Turn | edaf55_project_java/src/networking/ModeSender.java:38-55 | one turn of the loop writes the packed mode exactly when it changed, keeps the new mode when the write throws, and takes the machine's step |
| ModePropagation.UpdateModeTurn | C/source/production/server.c:328-353 | connection, exit, buffer and mode after a read that delivers a byte, ends or fails: also at the end of stream the mode becomes the buffer's byte; and the machine's step |
| ModePropagation.EmissionRun | edaf55_project_java/src/networking/ModeSender.java:38-49 | in every run the sender emits a stutter-free subsequence of the history of the mode to send |
| ModePropagation.EmissionAlternates | edaf55_project_java/src/networking/ModeSender.java:38-49 | with the three modes of the interface that is strictly 1, 0, 1, 0, … |
| ModePropagation.FateOfRun | C/source/production/server.c:328-351 | over any number of connections the camera reads emitted modes in the order of emission, and every mode emitted is read, on its way, about to be written, or lost |
| ModePropagation.ConnsOfRun | edaf55_project_java/src/networking/ClientConnectionThread.java:29-77 | in every run a pending byte can be written or fail, and a serving camera has a connection |
| ModePropagation.UnreadAreLost | C/source/production/server.c:328-351 | once settled, every mode emitted after the last one the camera read is lost |
| ModePropagation.CameraFollows | C/source/production/server.c:328-351 | while nothing is lost, when the sender waits and the stream is drained the camera has the mode to send |
| ModePropagation.NothingLost | edaf55_project_java/src/networking/ClientConnectionThread.java:29-77 | a run in which no write and no read fails loses nothing and keeps to one connection |
| ModePropagation.CanSettle | edaf55_project_java/src/networking/ModeSender.java:38-55 | from every state of such a run the two sides can go on, without further calls of the monitor, until the camera has the mode to send |
| ModePropagation.CameraOfRun | C/source/production/server.c:328-353 | in every run the camera's mode is the last one read, or 0 when the last connection that ended had delivered no byte and none was read since, as the events say it |
| ModePropagation.EmptyConnection | C/source/production/server.c:328-353 | a run in which that resets a camera that had been given mode 1 |
| ModePropagation.ReadFailureIsFinal | C/source/production/server.c:341-344 | after a failed read the camera reads nothing more and keeps its mode for good |
| ModePropagation.CameraFollowsIff | edaf55_project_java/src/networking/ModeSender.java:38-55 | whatever is lost by failed writes, failed reads and reconnections, it has that mode iff an even number of modes was emitted since the one it applied last, as the events say it; all count after a connection that ended without a byte |
| ModePropagation.LostUpdate | edaf55_project_java/src/networking/ModeSender.java:38-55 | a run with one failed write that settles on the next connection with the camera in the old mode |
| DisplayMonitor.Monitor.CheckDelay | edaf55_project_java/src/client/DisplayMonitor.java:38-67 | the delay shown, the list, the clock start and the stored average, in IDLE and outside, with and without a refresh |
| DisplayMonitor.Monitor.UpdatePicture1 | edaf55_project_java/src/client/DisplayMonitor.java:25-36 | the whole new state and the delay shown, the other camera's list untouched |
| DisplayMonitor.Monitor.UpdatePicture2 | edaf55_project_java/src/client/DisplayMonitor.java:69-78 | the same for the second camera |
| DisplayMonitor.AverageError | edaf55_project_java/src/client/DisplayMonitor.java:38-67 | n times the shown value is within n * (n - 1) of the sum of any n samples |
| DisplayMonitor.ErrorIsReached | edaf55_project_java/src/client/DisplayMonitor.java:38-67 | the bound is attained for every n |
| DisplayMonitor.WindowOfRun | edaf55_project_java/src/client/DisplayMonitor.java:38-67 | in every run each list is the camera's last 179 samples since it was cleared |
| DisplayMonitor.StartOfRun | edaf55_project_java/src/client/DisplayMonitor.java:42-51 | in every run the interval started with the first picture since the last refresh, and the code refreshes exactly at the pictures outside IDLE that come two seconds or more past that start |
| DisplayMonitor.AverageOfRun | edaf55_project_java/src/client/DisplayMonitor.java:49-59 | in every run the stored average is that of the last refresh of either camera, as the run alone determines it, within n - 1 of the mean of its n samples, and 0 before the first |
| DisplayMonitor.ShownOfRun | edaf55_project_java/src/client/DisplayMonitor.java:25-67 | what is shown with each picture of a run: its own delay in IDLE, otherwise the average of the last refresh up to and including that picture |
| DisplayMonitor.OtherCamerasAverage | edaf55_project_java/src/client/DisplayMonitor.java:49-59 | a run in which camera 1, one second late, is shown the 10 ms of camera 2 |
| MotionText.TimeData | edaf55_project_java/src/networking/MotionPack.java:23-31 | the characters from byte 64 on, followed by up to six NULs, for a buffer of any length |
| MotionText.ParseTokens | edaf55_project_java/src/networking/MotionPack.java:32-42 | the three ints of the tokens, zero where there are fewer, the exception for a token that is no int or for a fourth |
| MotionText.TimesIff | edaf55_project_java/src/networking/MotionPack.java:32-42 | for any tokens: a result iff there are at most three and all are ints, and then those ints in order, followed by zeros |
| MotionText.GetTimes | edaf55_project_java/src/networking/MotionPack.java:23-43 | the whole parse of a buffer of any length |
| MotionText.GetTimeSize | edaf55_project_java/src/networking/MotionPack.java:45-52 | the int in the three characters from 31 on, or one of the two exceptions |
| MotionText.ParsePrint | C/source/production/motion_server.c:161-164 | printing and parsing a number are inverse exactly on the 32-bit range |
| MotionText.MessageFits | C/source/production/motion_server.c:161-164 | a report of three ints has at most 35 characters |
| MotionText.ParseMessage | C/source/production/motion_server.c:161-164 | for all a, l, r: the printed report with any number of NULs after it is parsed to [a, l, r] iff all three are ints |
| MotionText.BlanksAndColons | edaf55_project_java/src/networking/MotionPack.java:32-42 | blanks anywhere and colons that repeat, begin or end a report do not change what is parsed |
| MotionText.MotionRoundTrip | edaf55_project_java/src/networking/MotionPack.java:23-43 | placed at byte 64 of the 100-byte buffer, three ints come back unchanged |
| MotionText.ContentLengthIff | edaf55_project_java/src/networking/MotionPack.java:45-52 | getTimeSize recovers the printed Content-Length iff the body has 10 to 999 characters |
| Bytes.ValueOfLittleEndian | C/source/production/server.c:116-117 | writing n little-endian bytes and reading them back keeps the value modulo 256^n |
| Bytes.Int32IsCongruent | edaf55_project_java/src/networking/PicturePack.java:18-30 | the stamp's int is the one signed 32-bit value congruent to the number written |

## Left out

- PacketCodec.SetupPacket: writing behind the buffer is undefined in C; the model says which addresses are written, and asks only that they exist.
- CameraMonitor.SendFrame: the size check on `sizeof(size_t)` is not modelled; sizes are 32-bit, and the addresses that a size makes it read are asked to exist.
- Sending.WriteN: the socket's oracle holds finitely many outcomes, so that the method ends; calls that accept nothing for ever are covered by `StillRunningIff`, through `LoopIsCalls`.
- FramingLimits.StreamSurvivesIff: leaves out payloads of 65 * 256 to 65 * 256 + 255 bytes, whose high size byte equals the filler, so that losing it can go unnoticed; `AllSurviveIff` has the condition for them, over all packets of such a size.
- HandOffTheorems.Progress: only while the client is connected and no third thread keeps a lock; after a disconnect a thread can stay asleep, which `HowItEnds` and `StrandedForGood` make precise.
- HandOffTheorems.NextConnection: only when both threads have left their loops; when one is stranded there is no next connection.
- HandOffTheorems.Fifo: needs every take to succeed; with failing takes `NoTearing` and `FirstSend` say what is sent instead.
- EndToEnd.PicturesAreFrames: one camera and one connection; the hypotheses, collected in `ServerSide`, `Connection` and `ClientSide`, are the ones under which the code works: no failed capture, frames and stamps that fit the format, packets accepted whole, headers in two reads, a first clock offset other than zero.
- MonitorTheorems.RawOrderIsKept: with a first offset of zero the baseline is fixed later and can move the stored stamps back.
- MotionText.MotionRoundTrip: the numbers are 32-bit; longer ones need not fit the buffer. `ParseMessage` covers all numbers without the buffer.
- MotionText.ContentLengthIff: truncation of the response by the size of `sendBuff` is not modelled.
- Clocks are parameters, and sums and differences of Java's `long` and `int` values do not wrap around in `ClientMonitor` and `DisplayMonitor`.
- A picture is a value: that the buffer and `lastPic1` share one object is not captured, nor is it observable, since the object is shifted before it is stored and never changed again.
- The client's linked lists are sequences; only the two stamp queues, which are passed around by reference, are objects.
- Each `camera_mutex` section is one step of the hand-off; other threads of the server appear only as holders of either lock and as broadcasters.
- `get_mode` and the idle sleep in `take_picture_task`, and the missing-camera branch: they delay or fail a take and are covered by a take that fails.
- `getModeUpdate`, `modeIsSetToAuto` as a value anyone reads, and the unused counters of `ClientMonitor`.
- `parse_http_request`, `parse_motion_request` and the loop of `MotionDataReceiver`: comparisons of fixed strings and a flag that never changes.
- The offset of the body in the whole motion response, on which `motion_server.c` and `MotionPack` disagree; the report and the length are modelled separately.
- Sockets, thread creation and joins, shutdown of the client, reconnection of the picture stream, the user interface and `syncDelayThread`.
- The foreign libraries behind the camera and JPEG code.
