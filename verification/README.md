# Verification of RyuLib's self-contained cores

RyuLib is a header-only C++ library around media codecs, sockets and threads. This project models
the parts whose logic is its own, in Dafny 4.11, and proves what they promise. `dafny verify
dfyconfig.toml` checks everything.

- **Pixel kernels** (`YuvEncoder`, `YuvDecoder`, `GreyRoundTrip`). The BGR to I420 encoder and the
  I420 to BGRA decoder are array methods with the loops of the source. Each is proved against a
  description of the whole output buffer, and that description is then read off pixel by pixel. The
  encoder uses a full-range formula, the decoder fixed-point coefficients for the studio range in the
  manner of ITU-R BT.601-7 (section 2.5); both are taken from the code. They are not inverse to each
  other, and what is proved about the pair is what happens to grey.
- **Packets** (`SocketUtils`, `SocketServer`). The length-prefixed wire format, the packet reader
  that works in place on a fixed buffer, and the server's connections, which read a header and then
  a body. Sizes are 16 bits wide and little-endian.
- **Byte queues** (`MemoryBuffer`, `FlatReader`, `ByteFifo`, `VideoCreater`). A queue of chunks and
  a flat shifting array, shown to be the same byte queue, and the audio reframing on top of the former.
- **Threads** (`SuspensionQueue`, `Worker`, `AudioDecoder`, `Scheduler`, on `Runs` and `TakenTasks`).
  Each is a transition system over all interleavings, whose steps are the regions no other thread can
  come between. Beside it stands a class whose methods are those regions, and on top of them the
  source's own loops (`push`, `pop`, `add`, the threads' loops), each proved to be a run of the system;
  except in `AudioDecoder`, they take what other threads do in between as a parameter. `Timer` is the
  polling timer the scheduler drives.
- **Linked list** (`WaitFreeList`). The doubly linked list, sequentially.

Where the code does less than it seems to promise, the model keeps the code and states the exact
condition:

- `I420ToARGB` puts its rows `stride` bytes apart only if the stride is `4 * width` or there are at
  most two rows (`YuvDecoder.StrideMustBePacked`).
- A packet's size field is right exactly up to 65532 payload bytes (`SocketUtils.SizeFieldExact`).
- `MemoryBuffer::read(0)` drops every chunk but keeps `size_` (`MemoryBuffer.MemoryBuffer.Read`,
  `ByteFifo.ReadNothing`).
- `AudioDecoder::add` can block for ever on a queue that only it fills, under some pace of the decoding
  thread, exactly if more than four packets are waiting when it is called
  (`AudioDecoder.AddBlocksIffFull`, `AudioDecoder.ProducerCanGetStuck`).
- `SuspensionQueue::terminate` does not release every consumer. A later `pop` never returns exactly if
  it finds the queue empty, which a caller can see from `is_terminated()` and `is_empty()`
  (`SuspensionQueue.PopAfterTerminate`); of the consumers already in `pop`, exactly the one that has
  seen the queue empty and does not wait yet is lost (`SuspensionQueue.TerminateReleases`). Both happen
  (`SuspensionQueue.TerminateCanStrandAConsumer`, `SuspensionQueue.TerminateCanMissAConsumer`).
- `Scheduler` and `Worker` delete a task that they take while no task handler is set, and their threads
  start before one can be set. Either loses none, whatever its thread's pace, exactly if its callers keep
  a handler set from the first `add` on (`Scheduler.NeverLostIffAlwaysSet`,
  `Worker.NeverLostIffAlwaysSet`); both can lose one (`Scheduler.TaskCanBeLost`, `Worker.TaskCanBeLost`).
- `Timer` adds up exactly unless its 32-bit count overflows (`Timer.Conservation`). Polled within every
  interval, it fires as often as it should, on every list of polls, exactly if twice the interval given
  to `start` is still an int, which is up to about 17.9 minutes (`Timer.FiresExactlyIffShort`); beyond,
  two polls suffice to miss a fire (`Timer.LongIntervalMisses`).
- Against the clock, `Timer` is never late, on any list of polls, exactly if the clock ticks in
  microseconds (`Timer.NoDriftIffMicroseconds`), and on a given list exactly if all gaps are whole
  microseconds (`Timer.Drift`).

## Model

| member | source | states |
|---|---|---|
| `YuvEncoder.Bgr.Luma` | include/ryulib/yuv_tools.hpp:5-6 | the luma byte is the weighted sum divided by 100 and rounded down; the cast to a byte loses nothing |
| `YuvEncoder.Bgr.U` | include/ryulib/yuv_tools.hpp:8-10 | likewise for U: the offset keeps the quotient within a byte for every colour |
| `YuvEncoder.Bgr.V` | include/ryulib/yuv_tools.hpp:8-11 | likewise for V |
| `YuvEncoder.RgbToYuv` | include/ryulib/yuv_tools.hpp:8-11 | the macro stores luma, U and V of one pixel at three places and touches nothing else |
| `YuvEncoder.EncodePair` | include/ryulib/yuv_tools.hpp:211-220 | two neighbouring pixels: two luma entries, and one entry of either chroma plane, where the second pixel wins |
| `YuvEncoder.EncodeRow` | include/ryulib/yuv_tools.hpp:206-221 | a row completes its luma, and completes its chroma entries exactly when it is an odd row |
| `YuvEncoder.RGBtoYUV420` | include/ryulib/yuv_tools.hpp:181-223 | for even sizes: the three planes of the image, side by side, and nothing behind them changed |
| `YuvEncoder.EncodedPlanes` | include/ryulib/yuv_tools.hpp:197-222 | by row and column: luma of every pixel, U and V of every two-by-two block from its bottom right pixel, 3/2 bytes per pixel in all |
| `YuvEncoder.EncodedLumaBytes` | include/ryulib/yuv_tools.hpp:5-11 | on the raw bytes: luma entry r*w+c is (30*R + 59*G + 11*B)/100, rounded down, of the three bytes at (r*w+c)*pixelSize, blue first |
| `YuvEncoder.EncodedChromaBytes` | include/ryulib/yuv_tools.hpp:8-222 | on the raw bytes: the two chroma entries of block (i, j) are the weighted sums of the three bytes of pixel (2i+1, 2j+1), each in its plane |
| `YuvEncoder.EncodedTail` | include/ryulib/yuv_tools.hpp:197-222 | bytes behind the three planes, 3/2 per pixel, are unchanged |
| `YuvEncoder.QuarterPlane` | include/ryulib/yuv_tools.hpp:197-202 | the shift by two gives the size of a chroma plane |
| `YuvDecoder.NearestByte` | include/ryulib/yuv_tools.hpp:225-233 | adding 128, shifting by 8 and clipping give the byte nearest to the weighted sum |
| `YuvDecoder.ColourIsRounded` | include/ryulib/yuv_tools.hpp:13-263 | blue is 298(Y-16)+516(U-128), green 298(Y-16)-100(U-128)-208(V-128), red 298(Y-16)+409(V-128), in 256ths, rounded and clipped to a byte |
| `YuvDecoder.ColourIsNearest` | include/ryulib/yuv_tools.hpp:13-263 | so no byte is nearer to any of these sums than the channel |
| `YuvDecoder.StorePixel` | include/ryulib/yuv_tools.hpp:258-263 | the four bytes of one pixel become what is wanted: B, G, R, and alpha as before |
| `YuvDecoder.StoreBlock` | include/ryulib/yuv_tools.hpp:258-284 | the four pixels of a block, two in either row, and nothing else |
| `YuvDecoder.DecodeBand` | include/ryulib/yuv_tools.hpp:256-292 | two rows, by the moving pointers: exactly these rows become what is wanted |
| `YuvDecoder.DecodePlanes` | include/ryulib/yuv_tools.hpp:250-299 | the whole destination, byte by byte, for any source strides that stay in bounds and any destination stride of at least a row |
| `YuvDecoder.I420ToARGB` | include/ryulib/yuv_tools.hpp:235-301 | false exactly on a null pointer; otherwise the destination as above |
| `YuvDecoder.DecodedPixel` | include/ryulib/yuv_tools.hpp:254-299 | pixel (r, c) shows the colour of Y[r][c], U[r/2][c/2], V[r/2][c/2]; its alpha byte is unchanged |
| `YuvDecoder.DecodedBytes` | include/ryulib/yuv_tools.hpp:250-299 | on the raw bytes: the four bytes of row r, column c, by their offset, from the luma byte at (r, c) and the chroma bytes at (r/2, c/2) of the strided planes; alpha stays |
| `YuvDecoder.GapUntouched` | include/ryulib/yuv_tools.hpp:250-299 | bytes between the two rows of a pair are unchanged |
| `YuvDecoder.TailUntouched` | include/ryulib/yuv_tools.hpp:250-299 | bytes behind the last pair of rows are unchanged |
| `YuvDecoder.StrideMustBePacked` | include/ryulib/yuv_tools.hpp:293-298 | the rows are a stride apart if and only if the stride is four times the width or there are at most two rows |
| `GreyRoundTrip.LevelOrder` | include/ryulib/yuv_tools.hpp:13-263 | grey levels are never reversed, and are told apart exactly between 16 and 235 |
| `GreyRoundTrip.GreyPixel` | include/ryulib/yuv_tools.hpp:8-11 | a grey pixel encodes to its level and neutral chroma |
| `GreyRoundTrip.GreyBytes` | include/ryulib/yuv_tools.hpp:181-301 | every pixel of an encoded and decoded grey image is grey, at the level the formula gives |
| `GreyRoundTrip.Transcode` | include/ryulib/yuv_tools.hpp:181-301 | both kernels run on a grey image with packed planes: grey comes out, brightness order kept |
| `Bytes.ShiftDown` | include/ryulib/SocketUtils.hpp:109-110 | the overlapping copy to the front of the buffer, byte by byte upwards, moves the tail intact |
| `SocketUtils.SizeFieldExact` | include/ryulib/SocketUtils.hpp:46-56 | the size field is the packet's length if and only if the payload has at most 65532 bytes |
| `SocketUtils.UnframeFrame` | include/ryulib/SocketUtils.hpp:26-56 | the receiver sees the message that was packed, if and only if the same holds |
| `SocketUtils.CreatePacket` | include/ryulib/SocketUtils.hpp:46-56 | fills fresh bytes with the frame of the message: the size modulo 256, the size divided by 256, the type, the payload |
| `SocketUtils.FrameBytes` | include/ryulib/SocketUtils.hpp:18-56 | byte by byte: low byte of the size, high byte, type, payload |
| `SocketUtils.LimitExact` | include/ryulib/SocketUtils.hpp:10-56 | among packets with a right size field, those within the limit are exactly those of at most 32765 payload bytes |
| `SocketUtils.DrainConserves` | include/ryulib/SocketUtils.hpp:99-114 | packets and rest, put together, are the bytes that came in |
| `SocketUtils.DrainAppend` | include/ryulib/SocketUtils.hpp:89-123 | draining before more bytes arrive gives what draining afterwards gives |
| `SocketUtils.ChunkingIrrelevant` | include/ryulib/SocketUtils.hpp:89-123 | however any byte stream is cut into chunks, writing and draining yields the same packets and rest |
| `SocketUtils.RoundTrip` | include/ryulib/SocketUtils.hpp:46-123 | any chunks of any prefix of the encoded messages: exactly the messages that arrived whole, in order, and a strict prefix of the next; all of them and nothing left when everything has arrived |
| `SocketUtils.RestIsShort` | include/ryulib/SocketUtils.hpp:116-123 | what draining leaves is no packet and is shorter than the limit |
| `SocketUtils.EncodedIsWellFormed` | include/ryulib/SocketUtils.hpp:46-56 | every prefix of encoded messages within the limit is well-formed |
| `SocketUtils.PacketReader.Write` | include/ryulib/SocketUtils.hpp:89-97 | appends the bytes, or nothing for a size that is not positive |
| `SocketUtils.PacketReader.CanRead` | include/ryulib/SocketUtils.hpp:116-123 | true exactly if a whole packet is there |
| `SocketUtils.PacketReader.Read` | include/ryulib/SocketUtils.hpp:99-114 | null and no change without a whole packet; otherwise that packet in the data buffer, and the rest shifted to the front |
| `SocketUtils.PacketReader.Receive` | include/ryulib/SocketUtils.hpp:72-114 | one arrival of up to the limit, drained: neither buffer is overrun, and less than the limit stays |
| `SocketUtils.DeliverStream` | include/ryulib/SocketUtils.hpp:70-130 | a whole session on one reader delivers the frames that arrived whole |
| `SocketServer.SocketServer.HandleAccept` | include/ryulib/SocketServer.hpp:83-92 | an accepted connection is announced, listed last and reads a header; a failed accept changes nothing |
| `SocketServer.SocketServer.FireConnected` | include/ryulib/SocketServer.hpp:221-226 | the next id, the flag, the end of the list; the id counter wraps at 32 bits |
| `SocketServer.SocketServer.FireDisconnected` | include/ryulib/SocketServer.hpp:228-233 | the flag is cleared and the connection leaves the list, also when it has left before |
| `SocketServer.SocketServer.HandleReadHeader` | include/ryulib/SocketServer.hpp:94-108 | an oversized header disconnects and still asks for the body; an error disconnects and asks for nothing |
| `SocketServer.SocketServer.HandleReadBody` | include/ryulib/SocketServer.hpp:110-121 | hands on the packet and asks for the next header, or disconnects |
| `SocketServer.SocketServer.CompleteRead` | include/ryulib/SocketServer.hpp:94-121 | a completed read keeps the server's invariant and leaves exactly one read in flight |
| `SocketServer.SocketServer.FailRead` | include/ryulib/SocketServer.hpp:105-120 | a failed read keeps the invariant, unlists the connection and leaves no read in flight |
| `SocketServer.SocketServer.HandleWrite` | include/ryulib/SocketServer.hpp:123-127 | a failed write unlists the connection and keeps the invariant |
| `SocketServer.SocketServer.SendToAll` | include/ryulib/SocketServer.hpp:181-186 | one write for every listed connection, nothing else |
| `SocketServer.ListInvariant` | include/ryulib/SocketServer.hpp:221-255 | in every state: no duplicates, exactly the flagged connections, one read in flight each so that no listed pointer dangles, ids strictly increasing until the counter wraps |
| `SocketServer.StarvedAgreesWithReader` | include/ryulib/SocketServer.hpp:94-121 | while the bytes that have come do not complete the read in flight, the packets handed on are those of a drained packet reader |
| `SocketServer.ServeStream` | include/ryulib/SocketServer.hpp:83-121 | on any stream without a size below 3: the packets of a drained reader, and still connected if and only if no size exceeds the limit |
| `SocketServer.ServeMessages` | include/ryulib/SocketServer.hpp:83-121 | on any prefix of encoded messages within the limit, a connection hands on exactly those that have arrived whole, and stays announced |
| `MemoryBuffer.Buffer.Read` | include/ryulib/MemoryBuffer.hpp:34-46 | as many of the chunk's next bytes as are there, stored in place |
| `MemoryBuffer.MemoryBuffer.Write` | include/ryulib/MemoryBuffer.hpp:71-75 | the unread bytes grow by the new ones, and the size with them |
| `MemoryBuffer.MemoryBuffer.Read` | include/ryulib/MemoryBuffer.hpp:77-103 | null if and only if too few bytes are unread; otherwise the next ones across chunks; the size stays right if and only if the request was not for zero bytes of a non-empty buffer |
| `MemoryBuffer.MemoryBuffer.CopyOut` | include/ryulib/MemoryBuffer.hpp:83-100 | the loop ends, and moves bytes without loss although drained chunks stay at the front |
| `MemoryBuffer.MemoryBuffer.Clear` | include/ryulib/MemoryBuffer.hpp:61-69 | nothing is left |
| `FlatReader.PacketReader.Write` | include/ryulib/PacketReader.hpp:24-29 | appends the bytes |
| `FlatReader.PacketReader.Read` | include/ryulib/PacketReader.hpp:31-44 | null exactly if too few bytes are there; otherwise the next ones, and the rest shifted to the front |
| `ByteFifo.Compare` | include/ryulib/PacketReader.hpp:24-49 | on every sequence of writes and non-empty reads that fits, both buffers answer alike, as a plain byte queue does |
| `ByteFifo.FitsMeans` | include/ryulib/PacketReader.hpp:9-29 | what fits is what never leaves more than a megabyte unread |
| `ByteFifo.Conservation` | include/ryulib/MemoryBuffer.hpp:71-103 | bytes written are bytes delivered followed by bytes left, over every sequence of calls |
| `ByteFifo.ReadNothing` | include/ryulib/MemoryBuffer.hpp:87-94 | after a read of zero bytes the chunks are gone and the size is not, while the flat buffer is unchanged |
| `VideoCreater.VideoCreater.DoWriteAudioPacket` | include/ryulib/VideoCreater.hpp:195-244 | one attempt: time stamps advance by a frame whatever happens, the sample count only if resampling worked |
| `VideoCreater.VideoCreater.WriteFrame` | include/ryulib/VideoCreater.hpp:179-189 | one turn: a frame attempted if a whole one is there |
| `VideoCreater.VideoCreater.WriteAudioPacket` | include/ryulib/VideoCreater.hpp:172-192 | frames attempted followed by bytes kept are all bytes written; true with less than a frame left if all attempts succeeded, false right after the first failure |
| `VideoCreater.FramesOfInput` | include/ryulib/VideoCreater.hpp:172-206 | frame k is the k-th piece of the input; there are as many as whole frames in the input exactly when less than one is kept |
| `VideoCreater.FrameBytes` | include/ryulib/VideoCreater.hpp:177 | a frame is four bytes for each sample of each channel |
| `VideoCreater.Bookkeeping` | include/ryulib/VideoCreater.hpp:195-228 | after any calls frame k bears the time stamp k*nb_samples, and samples_count has grown by a frame for exactly the attempts whose frame was writable and converted |
| `WaitFreeList.WaitFreeList.Add` | include/ryulib/WaitFreeList.hpp:34-46 | the node becomes the last one; no other item changes; all links stay right |
| `WaitFreeList.WaitFreeList.Remove` | include/ryulib/WaitFreeList.hpp:48-66 | exactly that node leaves; it keeps its own links; all links of the list stay right |
| `WaitFreeList.WaitFreeList.LinksInverse` | include/ryulib/WaitFreeList.hpp:48-63 | left and right are mutually inverse inside the list, and only the header has no right neighbour |
| `WaitFreeList.WaitFreeList.Traverse` | include/ryulib/WaitFreeList.hpp:68-76 | going from the first node by get_next visits the surviving items once each, newest first |
| `WaitFreeList.WaitFreeList.Sweep` | include/ryulib/WaitFreeList.hpp:48-76 | the same when any of the nodes stood on are removed just before stepping on, each chosen by its place and item; what is left is what was not removed, in order |
| `WaitFreeList.KeptAreNotDoomed` | include/ryulib/WaitFreeList.hpp:48-76 | the nodes left by such a traversal are exactly those not chosen |
| `WaitFreeList.KeptInOrder` | include/ryulib/WaitFreeList.hpp:48-76 | and they stand in their old order |
| `SuspensionQueue.StepKeepsInv` | include/ryulib/SuspensionQueue.hpp:25-66 | every step of any thread keeps conservation, the wake-up property and the mutex discipline |
| `SuspensionQueue.Safety` | include/ryulib/SuspensionQueue.hpp:25-66 | in every reachable state pushed items are delivered items followed by the queue, a pop without an item means termination, and an un-notified waiter on a non-empty queue means a push that is still to notify |
| `SuspensionQueue.NobodySleepsOnItems` | include/ryulib/SuspensionQueue.hpp:25-46 | with no push under way nobody waits on a non-empty queue |
| `SuspensionQueue.ProducerOrder` | include/ryulib/SuspensionQueue.hpp:25-60 | the items of one producer are delivered in the order it pushed them |
| `SuspensionQueue.StepReturns` | include/ryulib/SuspensionQueue.hpp:25-66 | a pop that returns an item takes it from the front; one that returns none takes nothing; a push appends one item; no other step touches the queue |
| `SuspensionQueue.ReturnedIsDelivered` | include/ryulib/SuspensionQueue.hpp:34-60 | over every run the items delivered are exactly those that pops have returned, in that order, and as many pops returned none as are counted |
| `SuspensionQueue.OnlyTheMutexBlocks` | include/ryulib/SuspensionQueue.hpp:25-66 | in every reachable state each thread that does not wait can step, or the mutex is held by one that can release it at once |
| `SuspensionQueue.PopCanReturn` | include/ryulib/SuspensionQueue.hpp:34-60 | with an item there and a thread inside pop, two regular steps suffice for a pop to return |
| `SuspensionQueue.SleepersSleepOn` | include/ryulib/SuspensionQueue.hpp:34-66 | once no notification is under way, a thread asleep in pop, or about to be, stays so over every run without a push, a terminate or a spurious wake-up |
| `SuspensionQueue.PopAfterTerminate` | include/ryulib/SuspensionQueue.hpp:34-41 | on a terminated queue with nobody left to notify, a call of pop never returns, over all such runs, if and only if the queue is empty at the call |
| `SuspensionQueue.TerminateReleases` | include/ryulib/SuspensionQueue.hpp:34-66 | of the threads inside pop, the last notification of terminate leaves stranded exactly the one that has seen the queue empty and does not wait yet; all others can return |
| `SuspensionQueue.TerminateCanStrandAConsumer` | include/ryulib/SuspensionQueue.hpp:34-41 | a run in which pop is called after terminate, and waits with no notification under way |
| `SuspensionQueue.TerminateCanMissAConsumer` | include/ryulib/SuspensionQueue.hpp:34-66 | a run in which pop was called before terminate, which does not take the mutex, and waits after its notification |
| `SuspensionQueue.SuspensionQueue.PushLocked` | include/ryulib/SuspensionQueue.hpp:27-29 | the code under the mutex is the push step |
| `SuspensionQueue.SuspensionQueue.Push` | include/ryulib/SuspensionQueue.hpp:25-32 | push as a whole, with steps of others before its notification, is a run of the system after which nobody waits |
| `SuspensionQueue.SuspensionQueue.PopLocked` | include/ryulib/SuspensionQueue.hpp:48-60 | the code from the lock to the wait, or to the end, is the step that enters pop |
| `SuspensionQueue.SuspensionQueue.PopWoken` | include/ryulib/SuspensionQueue.hpp:38-60 | the code from the return of the wait on: on a terminated queue no item, and queue and deliveries unchanged; otherwise the first item, or another wait |
| `SuspensionQueue.SuspensionQueue.Pop` | include/ryulib/SuspensionQueue.hpp:34-60 | pop with its loop, and steps of others during each wait, is a run of the system in which this thread is given exactly the result returned: an item, or none and that only from a terminated queue; or it still waits, and has been given nothing |
| `SuspensionQueue.SuspensionQueue.Terminate` | include/ryulib/SuspensionQueue.hpp:62-66 | terminate, with steps of others before its notification, is a run of the system after which nobody waits |
| `Worker.RunsInOrder` | include/ryulib/Worker.hpp:55-101 | in every run the tasks taken, the one in hand and those waiting are all tasks added, in order |
| `Worker.NoneLostIffHandlerSet` | include/ryulib/Worker.hpp:92-101 | after any run all tasks taken have been executed, in order, if and only if they had been before and a handler was set at each task the run took |
| `Worker.NothingLostWhileSet` | include/ryulib/Worker.hpp:55-101 | over any run in which the handler stays set, adds included, the tasks executed, the one in hand and those waiting are all tasks added, in order |
| `Worker.NeverLostIffAlwaysSet` | include/ryulib/Worker.hpp:55-101 | for any legal sequence of steps of other threads on a new worker: in every interleaving with the worker's thread, up to any point, no task is lost, if and only if a handler is set at each moment from the first push on |
| `Worker.CanLoseIffUnset` | include/ryulib/Worker.hpp:92-101 | from a state in which the callers do nothing more, the worker can lose a task if and only if no handler is set while a task waits or is in hand |
| `Worker.TaskCanBeLost` | include/ryulib/Worker.hpp:31-101 | a run in which a task added before the handler is set is not executed |
| `Worker.NotAsleepOverTasks` | include/ryulib/Worker.hpp:92-101 | with no add under way the worker does not sleep over a waiting task |
| `Worker.Worker.AddTask` | include/ryulib/Worker.hpp:55-78 | an undisturbed add is a run of the system that appends the task and leaves nobody waiting |
| `Worker.Worker.ThreadTurn` | include/ryulib/Worker.hpp:92-101 | a turn of the thread's loop, with steps of others during its waits and before its look at the handler, is a run of the system that takes exactly one task, unless it still waits |
| `AudioDecoder.StepKeepsInv` | include/ryulib/AudioDecoder.hpp:30-65 | every step keeps the order of packets and the bound |
| `AudioDecoder.Safety` | include/ryulib/AudioDecoder.hpp:30-65 | in every reachable state the backlog is a suffix of what was added, at most five packets long, and what was decoded is a subsequence of the rest |
| `AudioDecoder.LongestBacklog` | include/ryulib/AudioZipUtils.hpp:13 | five packets is the longest backlog: it is reached, and never exceeded |
| `AudioDecoder.StuckIffNoProducerStep` | include/ryulib/AudioDecoder.hpp:32-37 | the producer has no step exactly while it pops an empty queue |
| `AudioDecoder.StuckForever` | include/ryulib/AudioDecoder.hpp:32-37 | from then on the decoder can finish the packet in hand and nothing else ever happens |
| `AudioDecoder.BlocksIffFull` | include/ryulib/AudioDecoder.hpp:32-37 | at the look at the size, the call can block for ever if and only if more than MAX_DELAY_LIMIT_COUNT packets are waiting; over all runs until the next call |
| `AudioDecoder.AddBlocksIffFull` | include/ryulib/AudioDecoder.hpp:30-41 | the same before the call, with any steps of the decoding thread in between |
| `AudioDecoder.ProducerCanGetStuck` | include/ryulib/AudioDecoder.hpp:30-41 | a run in which it happens |
| `AudioDecoder.AudioDecoder.Add` | include/ryulib/AudioDecoder.hpp:30-41 | undisturbed, add cuts a backlog of more than four to its last two packets and appends the new one, by producer steps only |
| `AudioDecoder.AudioDecoder.DecodeOldest` | include/ryulib/AudioDecoder.hpp:55-65 | a turn of the decoding thread that need not wait moves the oldest packet from the backlog to what was decoded, by steps that are not the producer's |
| `Scheduler.ThreadQueue.Push` | include/ryulib/ThreadQueue.hpp:14-18 | appends |
| `Scheduler.ThreadQueue.Pop` | include/ryulib/ThreadQueue.hpp:20-42 | takes the first item, or nothing from an empty queue |
| `Scheduler.TakenInOrder` | include/ryulib/Scheduler.hpp:66-126 | in every run the tasks are taken once each, in the order of the pushes |
| `Scheduler.RepeatSeesAllTasks` | include/ryulib/Scheduler.hpp:109-126 | whenever the repeat handler ran, the tasks taken until then were exactly those pushed before the preceding empty pop |
| `Scheduler.NoRepeatWhileStill` | include/ryulib/Scheduler.hpp:58-125 | over every run in which the scheduler stays stopped, or no repeat handler is set, none is called |
| `Scheduler.RepeatEachRound` | include/ryulib/Scheduler.hpp:58-125 | over every run in which it stays started with a handler, each round of the thread calls it exactly once |
| `Scheduler.NoneLostIffHandlerSet` | include/ryulib/Scheduler.hpp:109-126 | after any run all tasks taken have been executed, in order, if and only if they had been before and a handler was set at each task the run took |
| `Scheduler.NothingLostWhileSet` | include/ryulib/Scheduler.hpp:66-126 | over any run in which the handler stays set, the tasks executed, the one in hand and those waiting are all tasks added, in order |
| `Scheduler.NeverLostIffAlwaysSet` | include/ryulib/Scheduler.hpp:66-126 | for any sequence of calls by other threads: in every interleaving with the scheduler's thread no task is lost, if and only if a handler is set at each moment from the first add on |
| `Scheduler.TaskCanBeLost` | include/ryulib/Scheduler.hpp:112-116 | a run in which a task is taken and not executed |
| `Scheduler.Scheduler.AddTask` | include/ryulib/Scheduler.hpp:66-88 | adding is the add step |
| `Scheduler.Scheduler.SetStarted` | include/ryulib/Scheduler.hpp:58-64 | start and stop are one step each |
| `Scheduler.Scheduler.ThreadCheck` | include/ryulib/Scheduler.hpp:110 | the thread ends at its check if and only if it is terminated |
| `Scheduler.Scheduler.ThreadPop` | include/ryulib/Scheduler.hpp:111-118 | the thread's pop is the pop step |
| `Scheduler.Scheduler.ThreadRun` | include/ryulib/Scheduler.hpp:112-116 | the body of the inner loop records whether the task was executed |
| `Scheduler.Scheduler.ThreadRepeat` | include/ryulib/Scheduler.hpp:121-125 | the repeat handler is called if and only if the scheduler is started and one is set; otherwise nothing happens |
| `Scheduler.Scheduler.ThreadTurn` | include/ryulib/Scheduler.hpp:110-126 | a turn of the thread's loop, with any calls of others before each of its steps, is a run of the system: a check that ends the thread, or a check, pops with one run between any two, and the repeat; then it has taken every task that was pushed before it |
| `Scheduler.Scheduler.ThreadExecute` | include/ryulib/Scheduler.hpp:109-127 | so is the whole loop, turn after turn; it stops only at a turn that finds the thread terminated |
| `Timer.Int32` | include/ryulib/Timer.hpp:20-26 | conversion to 32 bits: congruent, and the same exactly if it fits |
| `Timer.PollExact` | include/ryulib/Timer.hpp:16-30 | one poll adds up exactly if and only if the count does not overflow, and otherwise loses time |
| `Timer.PollFires` | include/ryulib/Timer.hpp:18-26 | a poll without overflow fires if and only if more than an interval has been counted, and then takes off one interval, however much is left |
| `Timer.FiresWhenDue` | include/ryulib/Timer.hpp:16-57 | on every list of polls, however late, the next poll fires if and only if the time counted up to it exceeds one interval more than there have been fires |
| `Timer.Conservation` | include/ryulib/Timer.hpp:16-30 | over every list of polls, fires times interval plus count is the time counted since the start if and only if the count never overflows, and never more |
| `Timer.ConservationModulo` | include/ryulib/Timer.hpp:16-30 | with overflow the same holds modulo 2^32 |
| `Timer.OverflowLoss` | include/ryulib/Timer.hpp:16-30 | once the count has overflowed, at least 2^32 microseconds are missing for good |
| `Timer.FiresExactly` | include/ryulib/Timer.hpp:16-57 | with any positive interval, polled within every interval, a started timer has fired exactly (T-1)/interval times after T counted microseconds, if and only if its count never overflowed |
| `Timer.FiresExactlyIfShort` | include/ryulib/Timer.hpp:16-57 | with an interval of at most half the range of an int, that is always so |
| `Timer.LongIntervalMisses` | include/ryulib/Timer.hpp:16-57 | with a longer interval, two polls one interval apart each overflow the count, and the fire that is due does not come |
| `Timer.FiresExactlyIffShort` | include/ryulib/Timer.hpp:16-57 | the interval alone decides: the count of fires is (T-1)/interval on every list of polls within every interval, if and only if twice the interval is at most INT_MAX |
| `Timer.NeverEarly` | include/ryulib/Timer.hpp:16-57 | however late the polls, and with or without overflow, it has fired n times only after more than n intervals |
| `Timer.Drift` | include/ryulib/Timer.hpp:18-22 | against the clock it can only run late, by less than a microsecond per poll, and not at all if and only if all gaps are whole microseconds |
| `Timer.NoDriftIffMicroseconds` | include/ryulib/Timer.hpp:18-22 | no list of polls makes it late if and only if the clock ticks once per microsecond |
| `Timer.Timer.Start` | include/ryulib/Timer.hpp:51-57 | starts counting from zero at the given time |
| `Timer.Timer.OnRepeat` | include/ryulib/Timer.hpp:16-30 | the handler is one poll: it fires if and only if the count with the new gap exceeds the interval, and keeps what is left |

## Left out

- ffmpeg, opus, vpx, SDL, asio and Win32 calls: what the encoder does with a frame and when a read completes are inputs; the rest is not modelled.
- `VideoZip::encode` and `VideoUnZip::decode` framing, and `AudioSDL::play`: the same length-prefix and reframing arguments as above, on simpler loops.
- `create_packet` from a string: it does what the overload from a pointer does.
- Byte order other than little-endian, and addresses: pointers are a buffer and an offset.
- Int overflow in the pixel kernels' sizes: width times height times pixel size is taken to fit an int.
- Odd image sizes: both kernels need even ones and do not check.
- Overflow of the 64-bit `next_pts` and the 32-bit `samples_count`.
- malloc failure and ownership: packets and chunks are never freed in the model; that listed connections are alive is proved from the operations in flight.
- Packet sizes below 3: the reader returns a packet of size 0 for ever, and consumes one or two bytes at sizes 1 and 2; a precondition.
- The bytes an `async_write` sends, and how long they stay valid.
- User callbacks: they may add, send, start or stop at any step, but their own effects are not modelled.
- Shutdown: `terminate` and `terminateAndWait` end the thread only between two turns of its loop, and `terminateNow` cancels it at once, in the middle of a step if need be, which is not modelled; `sleep` returns at once while the thread runs. No liveness after any of the three is claimed.
- `WaitFreeList::count_`, which does not count the first element, and use of the list by several threads: the code has no atomics.
- `MemoryBuffer.Buffer`: a chunk's bytes are an immutable sequence, since nothing writes to them after the copy; releasing chunks is not modelled.
- `SuspensionQueue.SuspensionQueue`: reads and writes of `is_terminated_` outside the mutex are single steps; the source's flag is a plain bool.
- `Timer.Timer`: `start` from another thread during a poll is not modelled, and a fire is counted whether or not `on_timer_` is set; intervals of zero or less are not covered by the results on how often it fires.
- `SocketServer.SocketServer.HandleReadHeader`, `SocketServer.SocketServer.CompleteRead` and `SocketServer.ServeStream`: a size field below 3 makes `getDataSize` negative, and what `async_read` then does with the length is not modelled.
- `AudioDecoder.AudioDecoder.Add`: the method is add without the decoding thread in between; every interleaving is covered by the transition system only.
- `Worker`: the end of its thread after `terminate` is not modelled; runs that stop early are.
- `ThreadQueue::front`, `back`, `size` and `is_empty`, `SuspensionQueue::size`: easy members.
- `Worker.CanLoseIffUnset`: only runs in which nobody adds or sets the handler any more, and its condition reads the thread's hand; `Worker.NeverLostIffAlwaysSet` is the condition on the callers.
- `Timer.FiresExactly`: its condition is on the whole list of polls; `Timer.FiresExactlyIffShort` is the condition on the interval.
