# Verification model of the optic tracking stack

The system watches the sky with cameras: `datapro1` cuts each frame into tiles, finds objects in them with a pool
of threads, and sends the results to `datapro2`, which follows the objects over time and steers a turret. This
project models the parts of it whose correctness is decided by code, and proves what they promise.

* **Turret link** - `Slip.dfy` (byte stuffing as in the section "PROTOCOL" of RFC 1055), `Commands.dfy`
  (big-endian serializer and the five commands). On an invalid escape the code drops the byte and counts an
  error, where the sample receiver of RFC 1055 keeps it; the model follows the code.
* **Result link** - `MemStore.dfy` (the doubling buffer), `Marshalling.dfy` (the result record), `RpcFraming.dfy`
  (numbered messages over a stream cut anywhere), `ResultLink.dfy` (all of it together). `WireFormats.dfy` gives the
  bytes of both links in numbers.
* **Tiles** - `Tiling.dfy` (how a frame is cut), `Binning.dfy` (sum binning), `SnailPath.dfy` (the spiral of
  priorities), `TileLimit.dfy` (which tiles are processed under load), `WorkerPool.dfy` (the threads, as
  interleaved steps of the main loop and the workers).
* **Tracker** - `LeastSquares.dfy` (the fits, over the reals), `TrackFit.dfy` (the loops that compute them),
  `NoiseFilter.dfy` (the grid filter), `Nearest.dfy` (greedy choice), `TrackTypes.dfy` and `TrackSpec.dfy` (one
  frame as functions), `TrackTheorems.dfy` (what a frame does to measurements, tracks and identities),
  `Tracker.dfy` (the loops and the class), `TrackRuns.dfy` (whole runs), `TrackReports.dfy` (unseen tracks,
  notifications, what is kept and shown), `TrackPoints.dfy` (where the measurements go), `TrackChoices.dfy` (who takes
  which), `TrackMerges.dfy` (lost tracks), `TrackLives.dfy` (a track as the record of what happened to it),
  `TrackCameras.dfy` (several cameras), `CameraMatch.dfy` (two-camera pairs).
* `Bytes.dfy`, `Naturals.dfy`, `Options.dfy` and `Sequences.dfy` hold what several of them share.

Code that updates state is a class or a method with loops, proved against a specification function; what the
system promises is then proved about that function. A vector field is a sequence, a raw buffer an array, a double
a real number, a time a count of nanoseconds. Callbacks are modelled by the list of what was passed to them.

Three promises hold only under a condition, which is proved to be exact. Tiles cover the frame if and only if the
division leaves fewer pixels than a tile is wide and high. A matrix reads back if and only if it has one channel
or is empty: the writer multiplies the element size by the channels a second time. A quadratic refit divides by
zero if and only if windows are limited to two points; in every other configuration every run is free of it.
Smaller ones: the check of the remaining message size is right if and only if its product fits 32 bits; a record
that is cut short is refused if and only if it is cut before the end of its measurements; the store can grow if and
only if its content stays within 2^31 bytes; and the number of tiles is left unset for odd factors below 28.

The tracker's invariant asks of its callers what the system gives: the frames of a camera come in the order of
their times, and measurements carry the time of their frame.

## Model

| member | source | states |
|---|---|---|
| Slip.Decoder.DecodeByte | common/turret/slip.cpp:16-46 | One received byte moves the decoder exactly as the abstract step does: END reports a non-empty frame and ends an escape, a wrong byte after ESC is dropped and counted. |
| Slip.Decoder.Decode | common/turret/slip.cpp:48-59 | Decoding a block is the fold of the step over its bytes. |
| Slip.Decoder.ProcessFrame | common/turret/slip.cpp:16-21 | Reports and clears a non-empty frame, and nothing else. |
| Slip.Decoder.Reset | common/turret/slip.cpp:61-65 | Empties the frame, the escape and the error count; what was reported stays. |
| Slip.Encode | common/turret/slip.cpp:67-90 | Appends the stuffed bytes of the frame and one END to the output. |
| Slip.RoundTrip | common/turret/slip.cpp:23-46 | Between frames, decoding any list of encoded frames reports exactly the non-empty ones in order, leaves a clean decoder and counts no error. |
| Slip.SelfSynchronises | common/turret/slip.cpp:23-46 | Whatever the decoder held and whatever noise came before the first END, every non-empty frame after it is reported exactly, nothing else is, and no error is added. |
| Slip.DecoderMeaning | common/turret/slip.cpp:16-46 | On every byte stream: the reported frames are the non-empty unstuffed END-terminated segments, the unfinished segment is kept unstuffed, and the errors are exactly the invalid escapes. |
| WireFormats.SlipBytes | common/turret/slip.cpp:67-90 | In numbers: every byte of a frame is sent as itself, but 192 as 219 220 and 219 as 219 221, and 192 ends the frame. |
| Commands.Serializer.WriteInt32 | common/turret/serializer.cpp:12-17 | Appends the four big-endian bytes of the two's complement value. |
| Commands.Serializer.WriteInt64 | common/turret/serializer.cpp:19-28 | Appends the eight big-endian bytes of the two's complement value. |
| Commands.Serializer.WriteDouble | common/turret/serializer.cpp:30-47 | Appends the eight bytes of the double, most significant first whatever the byte order of the host. |
| Commands.Deserializer.ReadInt32 | common/turret/serializer.cpp:126-132 | Reads back the signed value and moves four bytes on, or fails at the end of the data. |
| Commands.Deserializer.ReadInt64 | common/turret/serializer.cpp:134-144 | Reads back the signed value and moves eight bytes on, or fails at the end of the data. |
| Commands.Deserializer.ReadDouble | common/turret/serializer.cpp:85-98 | Reads the eight bytes back into the order of the host, or fails at the end of the data. |
| Commands.SignedOfBE | common/turret/serializer.cpp:12-28 | The big-endian bytes of a signed number of any width decode to that number. |
| Commands.BEOfSigned | common/turret/serializer.cpp:126-144 | Every byte string is the encoding of the signed number that it decodes to. |
| Commands.Serializer.SerializeBody | common/turret/turretCommands.cpp:44-106 | Appends the fields of the command, in the order of its kind. |
| Commands.Serializer.Serialize | common/turret/turretCommands.cpp:6-9 | Appends the code of the command and its body. |
| Commands.Deserializer.ReadTrack | common/turret/turretCommands.cpp:85-93 | Reads a time and six doubles, in their order, from any position, or fails. |
| Commands.Deserializer.Deserialize | common/turret/turretCommands.cpp:11-39 | Returns the command that the rest of the data starts with, or nothing for an unknown code or data that are too short; the caller's deserializer does not move. |
| Commands.ParseIffPrefix | common/turret/turretCommands.cpp:11-39 | A frame is read as a command if and only if it starts with the serialization of that command. |
| Commands.SerializeRoundTrip | common/turret/turretCommands.cpp:6-39 | For all five kinds: a serialized command reads back as itself, and every strict prefix of it reads as nothing. |
| Commands.CrossHost | common/turret/serializer.cpp:30-43 | Whatever the byte orders of sender and receiver, the receiver reads the command that was sent, with the bytes of each double in its own order. |
| Commands.CommandsOverSlip | common/turret/turretCommands.cpp:6-39 | Any list of commands, serialized and framed, comes out of the decoder and the factory as the same list, also after noise that ended with an END. |
| WireFormats.CommandLayout | common/turret/turretCommands.cpp:44-106 | In numbers: the code 0 to 4 of the kind, the eight bytes of a track's time, and the doubles in their order, each with its most significant byte first. |
| RpcFraming.RpcSink.FillField | common/model/m_rpc_sink.cpp:21-26 | Fills the four bytes of a field from the data, and says how many it used. |
| RpcFraming.RpcSink.ReadStageMsgIndex | common/model/m_rpc_sink.cpp:19-39 | Consumes bytes of the index as the byte-at-a-time reader would; a wrong index asks to break. |
| RpcFraming.RpcSink.ReadStageMsgType | common/model/m_rpc_sink.cpp:41-50 | One type byte: a heart-beat ends the message, anything else starts the length. |
| RpcFraming.RpcSink.ReadStageMsgLen | common/model/m_rpc_sink.cpp:52-79 | Consumes bytes of the length; over 100 MiB asks to break, zero delivers an empty message, anything else makes room in the scratch buffer. |
| RpcFraming.RpcSink.ReadStageMsgBody | common/model/m_rpc_sink.cpp:81-93 | A block copied into the body moves the reader as its bytes would one by one. |
| RpcFraming.RpcSink.ReadNextStage | common/model/m_rpc_sink.cpp:95-112 | One stage consumes a non-empty part of the data exactly as the byte-at-a-time reader does. |
| RpcFraming.RpcSink.OnNextRawRead | common/model/m_rpc_sink.cpp:7-17 | A raw read delivers what the byte-at-a-time reader delivers for its bytes, breaks exactly when that does, and keeps the scratch buffer large enough for every stage. |
| RpcFraming.FeedBody | common/model/m_rpc_sink.cpp:81-93 | The effect of any block of body bytes on the byte-at-a-time reader, in one step. |
| RpcFraming.FeedFrame | common/model/m_rpc_sink.cpp:19-93 | The outcome of one whole message for every index and payload: delivered, or a break after the index field, or a break after the length field. |
| RpcFraming.ChunkingIsInvisible | common/model/m_rpc_sink.cpp:7-17 | Any split of the stream into reads gives the outcome of one read of the whole. |
| RpcFraming.StreamDelivered | common/model/m_rpc_sink.cpp:7-112 | What a former sends is delivered exactly, in order, across the wrap of the 32-bit index, up to the first payload over 100 MiB, where the reader asks to break. |
| RpcFraming.SessionDelivers | common/model/m_rpc_sink.cpp:7-112 | For payloads of at most 100 MiB and any chunking, exactly the sent list arrives and the sink never asks to break. |
| RpcFraming.OnlyCommonPrefixDelivered | common/model/m_rpc_sink.cpp:27-36 | Of fewer than 2^32 messages lost, repeated or reordered in any way, a fresh sink delivers exactly the longest common prefix with what was sent, and breaks right after the index field of the first message that differs, if there is one. |
| RpcFraming.OtherTypesAreData | common/model/m_rpc_sink.cpp:41-50 | A message with any type byte but 0 is read as one with a payload. |
| WireFormats.MessageLayout | common/model/m_rpc_d_former.cpp:11-47 | In numbers: four bytes of index, the type 0 or 1, four bytes of length and the payload; the limit is 104,857,600 bytes. |
| RpcFraming.RpcDataFormer.FormNextMsg | common/model/m_rpc_d_former.cpp:11-28 | The returned prefix of the reused buffer is the message with the next index, its type, its length and its payload. |
| RpcFraming.RpcDataFormer.CheckHeartBeat | common/model/m_rpc_d_former.cpp:30-47 | Not forced and less than 30,000 ms after the last one: nothing is formed and no index is used; else a heart-beat with the next index. |
| RpcFraming.RpcDataFormer.Reset | common/model/m_rpc_d_former.cpp:49-52 | Restarts the index and the heart-beat clock. |
| MemStore.CMemStore.Write | common/model/mem_store.cpp:30-61 | What was written is followed by the new bytes; only a store over foreign memory without room refuses, and then nothing changes. An owner's block stays within max(1024, twice the furthest write), and all growth together moved fewer bytes than it holds. |
| MemStore.CMemStore.NewSize | common/model/mem_store.cpp:42-48 | The doubled 32-bit size never wraps, is the first that leaves room, and is one of the block sizes 1024 * 2^k up to 2^31. |
| MemStore.CMemStore.Grow | common/model/mem_store.cpp:38-56 | The larger block keeps the content and the position, has room for the write, and the moved bytes stay below its size. |
| MemStore.GrowsIff | common/model/mem_store.cpp:44-48 | Doubling in 32 bits stops at a size that leaves room if and only if position and write together are at most 2^31; beyond, it can only stop where the size has become 0. |
| MemStore.CMemStore.Read | common/model/mem_store.cpp:64-79 | Within the block the next bytes are returned and the cursor passes them; beyond it the cursor goes to the end and the code is 1. |
| MemStore.CMemStore.SetPosition | common/model/mem_store.cpp:82-92 | Moves the cursor, or puts it at the end with code 1; the block keeps its bytes. |
| MemStore.CMemStore.constructor | common/model/mem_store.cpp:4-10 | A store that owns its memory and has none yet. |
| MemStore.CMemStore.Over | common/model/mem_store.cpp:12-19 | A store that reads existing memory from its start. |
| Marshalling.SerializeMat | datapro1/src/dp1_rpc_data_mrsh.cpp:8-25 | Writes the four header fields and then, row by row or in one piece, column count times element size times channels bytes from the start of each row. |
| Marshalling.DeserializeMat | datapro1/src/dp1_rpc_data_mrsh.cpp:27-37 | Reads a matrix as the parser does whenever its sizes fit what is left. |
| Marshalling.DataLength | datapro1/src/dp1_rpc_data_mrsh.cpp:14-24 | The number of bytes written: the header, and the pixel bytes once for each channel. |
| WireFormats.MatLayout | datapro1/src/dp1_rpc_data_mrsh.cpp:9-12 | In numbers: a matrix starts with four bytes each of columns, rows, element size and type. |
| WireFormats.RecordLayout | datapro1/src/dp1_rpc_data_mrsh.cpp:89-106 | In numbers: 32 and the camera, 64 and the frame, 112, the number of measurements and the measurements, four matrices, and two counted lists, in this order. |
| Marshalling.MatRoundTrip | datapro1/src/dp1_rpc_data_mrsh.cpp:8-37 | Reading what was written leaves nothing over if and only if the matrix has one channel or is empty; then, and for every contiguous matrix, it is the matrix that was written, also from row-strided memory. |
| Marshalling.SerializeFrameCalibrationData | datapro1/src/dp1_rpc_data_mrsh.cpp:59-70 | Writes four matrices and two counted lists. |
| Marshalling.DeserializeFrameCalibrationData | datapro1/src/dp1_rpc_data_mrsh.cpp:72-87 | Reads them as the parser does whenever they are all there. |
| Marshalling.CalibrationRoundTrip | datapro1/src/dp1_rpc_data_mrsh.cpp:59-87 | Calibration data with single-channel matrices reads back as itself and leaves what follows untouched. |
| Marshalling.SerializeDp1Res | datapro1/src/dp1_rpc_data_mrsh.cpp:89-106 | Writes the sized structures, the counted measurements one by one, and the calibration data. |
| Marshalling.DeserializeDp1Res | datapro1/src/dp1_rpc_data_mrsh.cpp:108-156 | Refuses exactly the messages that fail a check. Of an accepted message the structures and the number of measurements are always read, the measurements when they are all there, and the whole record when it is. |
| Marshalling.SizeCheckIsRightIff | datapro1/src/dp1_rpc_data_mrsh.cpp:139-145 | The check of the remaining size agrees with the unbounded product, for every remainder, if and only if the product fits 32 bits. |
| Marshalling.SizeCheckWrong | datapro1/src/dp1_rpc_data_mrsh.cpp:139-145 | A count of 2^28 records passes the check with nothing left to read. |
| Marshalling.TwoChannelsLeaveBytes | datapro1/src/dp1_rpc_data_mrsh.cpp:20-35 | A concrete two-channel matrix that leaves two of its bytes unread. |
| Marshalling.ResRoundTrip | datapro1/src/dp1_rpc_data_mrsh.cpp:89-156 | A record reads back equal and every byte of it, and none of what follows, is consumed. |
| Marshalling.CutShort | datapro1/src/dp1_rpc_data_mrsh.cpp:108-156 | A record that is cut short is refused if and only if it is cut before the end of its measurements; it is read as it should be if and only if it is whole; in between it is accepted and read beyond its end. |
| Marshalling.HeadAloneIsAccepted | datapro1/src/dp1_rpc_data_mrsh.cpp:109-155 | A concrete message of 112 bytes, a head without calibration data, that passes every check and is read beyond its end. |
| Marshalling.ResExtends | datapro1/src/dp1_rpc_data_mrsh.cpp:108-156 | More bytes behind a record that is read do not change what is read. |
| Marshalling.SendRes | datapro1/src/dp1_tr_res2dp2.cpp:93-97 | A store reused from its start holds exactly the kind and the record. |
| Marshalling.ReceiveRes | datapro2/src/dp2_rpc_cl.cpp:235-240 | The kind is read first, then the record. |
| Marshalling.Transfer | gtests/src/t_rpc.cpp:207-236 | Written into a fresh or reused store and read from a second store over it, kind and record arrive. |
| ResultLink.RecordsArrive | datapro1/src/dp1_tr_res2dp2.cpp:58-97 | Marshalling and framing together: any list of records and heart-beats, sent over a connection that cuts the bytes anywhere, is received as the same list of records. |
| SnailPath.Snail.constructor | datapro1/src/dp1_snail_path.cpp:13-19 | No row and no column is marked: the unmarked ones form the whole rectangle. |
| SnailPath.Snail.Advance | datapro1/src/dp1_snail_path.cpp:31-72 | One turn of the loop: a step along the side, or a mark, a turn and the decision to go on; the unmarked rows and columns stay one rectangle and a lexicographic measure falls. |
| SnailPath.Snail.GetPath | datapro1/src/dp1_snail_path.cpp:21-76 | The loop terminates for every size and returns the reversed walk. |
| SnailPath.Snail.CanMove | datapro1/src/dp1_snail_path.h:17-43 | The guards stop the walk exactly at the end of the side of the unmarked rectangle. |
| SnailPath.Snail.CanGoOn | datapro1/src/dp1_snail_path.h:17-43 | After a mark, the guard of the next direction is true exactly when the rectangle is not used up. |
| SnailPath.PathVisitsAll | datapro1/src/dp1_snail_path.cpp:24-74 | The path has rows * cols cells, visits each cell, and none twice. |
| SnailPath.PathSteps | datapro1/src/dp1_snail_path.cpp:24-74 | Consecutive cells are neighbours, and the last one is in the last row and column. |
| SnailPath.PathTurns | datapro1/src/dp1_snail_path.cpp:24-53 | Seen from its end, the path runs along the last row to the left and then up the first column. |
| SnailPath.PathByRings | datapro1/src/dp1_snail_path.cpp:24-74 | Cells come by non-increasing ring depth: no cell follows one of a ring further out. |
| TileLimit.CalcNeedFrProcStatuses | datapro1/src/dp1_calc_limit.cpp:20-47 | Exactly a prefix of the priority list is enabled, of max(1, min(n, ceil(limit * n) - 1)) tiles for the limit that the load selects. |
| TileLimit.LimitFor | datapro1/src/dp1_calc_limit.cpp:24-29 | The limit of the greatest configured load below the given one, and 1.01 when there is none. |
| TileLimit.EnabledShare | datapro1/src/dp1_calc_limit.cpp:30-43 | Behind the first tile, exactly those are enabled up to which the accumulated share stays below the limit of the load. |
| TileLimit.CalcTileLimit.constructor | datapro1/src/dp1_calc_limit.cpp:72-94 | The priorities are the spiral path, and the statuses those of an unloaded system. |
| TileLimit.CalcTileLimit.SetLastFrameProcTime | datapro1/src/dp1_calc_limit.cpp:105-108 | The new smoothed time is 0.4 times the frame time plus 0.6 times the old one, and the statuses are those of the new load. |
| TileLimit.CalcTileLimit.UpdateTileStatuses | datapro1/src/dp1_calc_limit.cpp:59-69 | The statuses become those of the current load; nothing else changes. |
| TileLimit.PrioritiesPermute | datapro1/src/dp1_calc_limit.cpp:78-87 | The priority list is a permutation of all tile indices, as the debug build asserts. |
| TileLimit.OuterRingsShedFirst | datapro1/src/dp1_calc_limit.cpp:20-47 | Under any load, a tile of greater ring depth than an enabled tile is enabled. |
| TileLimit.MoreLoadFewerTiles | datapro1/src/dp1_calc_limit.cpp:25-42 | With limits that fall as load rises, a higher load never enables more tiles. |
| TileLimit.LowLoadEnablesAll | datapro1/src/dp1_calc_limit.cpp:24-29 | Up to the first configured load every tile is enabled. |
| TileLimit.DecaysExactly | datapro1/src/dp1_calc_limit.cpp:105-107 | After n frames of a constant time exactly 0.6^n of the distance to it is left, for accumulated times above and below it. |
| TileLimit.Recovers | datapro1/src/dp1_calc_limit.cpp:105-107 | A constant frame time below a goal brings the smoothed time to the goal within a computed number of frames, and keeps it there, from any accumulated time. |
| TileLimit.AllTilesComeBack | datapro1/src/dp1_calc_limit.cpp:57-61 | Once frames take a constant time below the first threshold, all tiles are enabled from a computed frame on, whatever the load was before. |
| WorkerPool.MergeResults | datapro1/src/datapro1.cpp:328-339 | The output has as many elements as the lists together; element i of tile k stands behind all elements of the tiles before k, in the order of its tile, and is numbered by its place. |
| WorkerPool.StepKeeps | datapro1/src/datapro1.cpp:193-326 | Every step of every thread keeps the invariant of flags, counter, queue, custody of tiles and results. |
| WorkerPool.RunKeeps | datapro1/src/datapro1.cpp:193-326 | The invariant holds after every schedule of every length. |
| WorkerPool.BarrierIsSafe | datapro1/src/datapro1.cpp:313-326 | In every interleaving: when the main thread leaves the wait, each scheduled tile was processed exactly once and no other was, the queue is empty, all worker flags are clear, every worker waits, and results and tile states are the sequential ones. |
| WorkerPool.OutputsAreSequential | datapro1/src/datapro1.cpp:283-339 | In every interleaving of any number of calls, each call returned the elements that processing its tiles in index order gives, those of tile k behind all of the tiles before it, numbered by their places, and nothing else. |
| WorkerPool.UnlockedAccessIsAlone | datapro1/src/datapro1.cpp:298-316 | While the main thread fills the queue without the lock, resets the counter, or merges, no worker is active or started. |
| WorkerPool.SomeThreadMoves | datapro1/src/datapro1.cpp:193-326 | No reachable state is stuck: some thread can always make a step. |
| WorkerPool.StepsUseUpWork | datapro1/src/datapro1.cpp:193-326 | Every step that changes anything, up to the merge, uses up some of a bounded amount of work. |
| WorkerPool.RoundCompletes | datapro1/src/datapro1.cpp:193-326 | From every reachable state, every schedule with more effective steps than there is work left passes a state in which the main thread has left the wait. |
| WorkerPool.RoundCanComplete | datapro1/src/datapro1.cpp:193-326 | From every reachable state some schedule completes the round. |
| LeastSquares.LinearNormalEquations | datapro2/src/datapro2.cpp:567-573 | With a non-zero denominator the linear coefficients satisfy both normal equations. |
| LeastSquares.QuadraticNormalEquations | datapro2/src/datapro2.cpp:575-590 | With a non-zero denominator the hand-expanded quadratic coefficients satisfy all three normal equations. |
| LeastSquares.LinearDenominatorPositive | datapro2/src/calculationTrajectory.cpp:46 | On strictly increasing times the linear denominator is positive from two points on, and zero below. |
| LeastSquares.QuadraticDenominatorNegative | datapro2/src/calculationTrajectory.cpp:74-75 | On strictly increasing times the quadratic denominator is negative from three points on, and zero below. |
| LeastSquares.LinearModelIsBest | datapro2/src/datapro2.cpp:567-573 | The linear model has the least squared error of all lines, and is the only one that has it. |
| LeastSquares.QuadraticModelIsBest | datapro2/src/datapro2.cpp:575-590 | The quadratic model has the least squared error of all parabolas, and is the only one that has it. |
| LeastSquares.LineRecovered | datapro2/src/datapro2.cpp:567-573 | Data on a line give back exactly that line. |
| LeastSquares.ParabolaRecovered | datapro2/src/datapro2.cpp:575-590 | Data on a parabola give back exactly that parabola. |
| TrackFit.CalculationParametersLinearLeastSquares | datapro2/src/calculationTrajectory.cpp:28-47 | The loop accumulates the moments and projections of the window, and the determinant. |
| TrackFit.CalculationParametersQuadraticLeastSquares | datapro2/src/calculationTrajectory.cpp:49-76 | The loop accumulates all moments and projections of the window, and the determinant. |
| TrackFit.CalcParametersLinearModel | datapro2/src/datapro2.cpp:567-573 | The two quotients are the linear model of the sums. |
| TrackFit.SecondsAdd | datapro2/src/calculationTrajectory.cpp:8-11 | Durations add up, and 10^9 nanoseconds are a second. |
| TrackFit.Solvable | datapro2/src/calculationTrajectory.cpp:28-76 | On a window of at least two points with increasing times the linear determinant is not zero, and the quadratic one is not zero if and only if there are at least three points. |
| TrackFit.UpdateTrajectoryParameters | datapro2/src/datapro2.cpp:592-615 | `time0` becomes the first time of the window, the coefficients those of the linear fit with no acceleration. |
| TrackFit.UpdateTrajectoryParametersQm | datapro2/src/datapro2.cpp:617-642 | `time0` becomes the first time of the window, the coefficients those of the quadratic fit. |
| TrackFit.LinearFitIsBest | datapro2/src/datapro2.cpp:592-615 | All three coordinates of a linear refit are the best lines through the window. |
| TrackFit.QuadraticFitIsBest | datapro2/src/datapro2.cpp:617-642 | All three coordinates of a quadratic refit are the best parabolas through the window. |
| TrackFit.UniformMotionPredicted | datapro2/src/calculationTrajectory.cpp:165-172 | An object in uniform motion is extrapolated to exactly where it will be. |
| TrackFit.AcceleratedMotionPredicted | datapro2/src/calculationTrajectory.cpp:174-181 | An object in uniformly accelerated motion is extrapolated to exactly where it will be. |
| NoiseFilter.FilterBox | datapro2/src/datapro2.cpp:30-51 | One box adds its objects, in order, unless they are more than the limit. |
| NoiseFilter.FilterNoisyRegions | datapro2/src/datapro2.cpp:24-55 | The nested loops over the grid return the filter's list, in its order. |
| NoiseFilter.OneCell | datapro2/src/datapro2.cpp:20-34 | Grid cells of one direction are disjoint and leave no gap: a coordinate lies in the cell of its number and no other. |
| NoiseFilter.FilterMeaning | datapro2/src/datapro2.cpp:24-55 | With multiplicity, the output is exactly the measurements inside the image rounded up to whole cells whose cell holds at most the limit. |
| NoiseFilter.FilterOrder | datapro2/src/datapro2.cpp:28-51 | The output comes column by column of the grid and down each column; of every cell it holds all measurements, in their order, when they are within the limit, else none. |
| Nearest.NearestOf | datapro2/src/datapro2.cpp:163-187 | The scan with a strict comparison finds the earliest of the nearest candidates, and none exactly when all are too far. |
| Tracker.FindTrackMatch | datapro2/src/datapro2.cpp:163-187 | The free measurement inside the strobe that is nearest to the prediction. |
| Tracker.FindPttMatch | datapro2/src/datapro2.cpp:213-232 | The free measurement reachable at a permitted speed that is nearest to the pending point. |
| Tracker.UpdateTrack | datapro2/src/datapro2.cpp:189-204 | Below the limit the window is the old one followed by the measurement, at the limit the old one without its oldest point followed by it; the track is refitted on it. |
| Tracker.MatchTrack | datapro2/src/datapro2.cpp:147-208 | One track in one frame: prediction, strobe, nearest free measurement, absorption or one more unconfirmed frame. |
| Tracker.MatchTrajectories | datapro2/src/datapro2.cpp:145-208 | The loop over the tracks is the matching function of the frame. |
| Tracker.TryMergeTrajectories | datapro2/src/datapro2.cpp:776-797 | Merges if and only if the track was not updated and the gap to the new one is at most k_dist times what the new one's speed covers in the time between; the merged track has the new points, refitted, under the old identity. |
| Tracker.PlaceTrack | datapro2/src/datapro2.cpp:243-254 | The new track goes into the first track that takes it, or to the end. |
| Tracker.PromotePtts | datapro2/src/datapro2.cpp:210-264 | The loop over the pending points is the promotion function of the frame. |
| Tracker.AddRemaining | datapro2/src/datapro2.cpp:266-272 | Exactly the measurements that are still free become pending points, in order. |
| Tracker.DropTrajectories | datapro2/src/datapro2.cpp:530-541 | Keeps the tracks that meet the requirements, in order, and reports the identities of the others. |
| Tracker.ResolveTracksMutation | datapro2/src/datapro2.cpp:697-709 | Splits the updated tracks into those with two points and the others. |
| Tracker.RunFrame | datapro2/src/datapro2.cpp:145-276 | The stages on the lists of one camera together are the outcome of the frame, about which the rows on choices, points, lives, merges and reports below speak. |
| Tracker.StrobeMethod.constructor | datapro2/src/datapro2.cpp:57-121 | A tracker without tracks meets the invariant if and only if its settings never divide by zero and its boxes have a size. |
| Tracker.StrobeMethod.ProcessFrame | datapro2/src/datapro2.cpp:123-296 | The state after the call is the next state of the frame, the invariant holds again, and the reported and returned tracks are those of its outcome; `TrackPoints.FrameConserves` says what that is for the points. |
| TrackSpec.AbsorbedLive | datapro2/src/datapro2.cpp:189-204 | A track that absorbs a later measurement keeps increasing times, `time0`, the window limit and a best fit. |
| TrackSpec.MatchAllLive | datapro2/src/datapro2.cpp:145-208 | The matching keeps the invariant of every track, and marks a track updated exactly when it took a measurement. |
| TrackSpec.PlacedLive | datapro2/src/datapro2.cpp:243-254 | Promotion and merge keep the invariant of every track. |
| TrackSpec.PromoteAllLive | datapro2/src/datapro2.cpp:210-264 | The whole second stage keeps the invariant of every track, and only earlier points stay pending. |
| TrackTheorems.OneFatePerMeasurement | datapro2/src/datapro2.cpp:138-272 | In the outcome of a frame no measurement goes to two tracks; its pending points are the old ones that only aged, one frame older and in order, followed by the measurements that no track holds, in order. |
| TrackPoints.PointsConserved | datapro2/src/datapro2.cpp:138-272 | In the outcome of a frame, with multiplicity, the newest points of the updated tracks and the new pending points are together exactly the measurements that it was given. |
| TrackPoints.FrameConserves | datapro2/src/datapro2.cpp:123-276 | For every frame of the tracker: the newest points of its updated tracks and its new pending points are together, with multiplicity, exactly the measurements that survive the noise filter for the width and height of the frame; the other pending points are old ones that only aged. |
| TrackPoints.LabelsNamePoints | datapro2/src/datapro2.cpp:163-264 | In the outcome of a frame a choice names the newest point of its track; a promotion names the track whose two points are the pending point and the measurement; a point stays or expires as its age says. |
| TrackPoints.MatchAllGains | datapro2/src/datapro2.cpp:145-208 | The first stage moves each measurement that it takes to the end of one track. |
| TrackPoints.PromoteAllGains | datapro2/src/datapro2.cpp:210-264 | So does the second stage, and it moves no others. |
| TrackTheorems.OneUpdatePerTrack | datapro2/src/datapro2.cpp:147-256 | In the outcome of a frame a track has absorbed at most one measurement or one merge, and is marked updated exactly then. |
| TrackTheorems.PromoteAllIds | datapro2/src/datapro2.cpp:235-254 | Tracks keep their identity; new tracks get identities that were never used, all distinct. |
| TrackTheorems.KeptOrDropped | datapro2/src/datapro2.cpp:530-541 | With multiplicity, the identities kept and those reported as dropped are together those of all tracks. |
| TrackTheorems.KeptMembers | datapro2/src/datapro2.cpp:530-541 | Dropping changes no track, and every kept one meets the requirements. |
| TrackTheorems.RefitDividesByZeroIff | datapro2/src/datapro2.cpp:190-198 | A refit divides by zero if and only if the model is quadratic and windows are limited to two points. |
| TrackTheorems.PredictionIsExact | datapro2/src/datapro2.cpp:154-161 | A track whose points are those of uniform motion, or of uniform acceleration when the model is quadratic and there are three points or more, predicts exactly where the object is. |
| Tracker.FrameKeeps | datapro2/src/datapro2.cpp:137-276 | A frame leaves live tracks, pending points up to its time, and identities that are old ones of the camera or fresh. |
| Tracker.NextSound | datapro2/src/datapro2.cpp:123-296 | The next state of a sound state is sound, over all cameras, and the identity counter never falls. |
| TrackRuns.RunSound | datapro2/src/datapro2.cpp:123-296 | The invariant holds after any number of frames of any cameras. |
| TrackRuns.EveryTrackIsLive | datapro2/src/datapro2.cpp:123-296 | In every run every track has at least two points with strictly increasing times from `time0`, for a limit of at least 2 no more than the limit, a positive linear determinant, a negative quadratic one from three points on, and the least-squares coefficients of its window. |
| TrackRuns.FrameDrops | datapro2/src/datapro2.cpp:530-541 | What a frame reports as dropped is no longer a track of the camera, and was one of its tracks before or new in this frame. |
| TrackRuns.GoneForGood | datapro2/src/datapro2.cpp:235-239 | An identity that was handed out and belongs to no track never belongs to one again. |
| TrackRuns.DroppedForGood | datapro2/src/datapro2.cpp:530-541 | Once reported as dropped, an identity never shows up again, in any camera, in any continuation of the run. |
| TrackChoices.ChoiceMeans | datapro2/src/datapro2.cpp:163-187 | A track takes the earliest of the free measurements in its strobe that are nearest to its prediction, and goes without exactly when none is there. |
| TrackChoices.PttChoiceMeans | datapro2/src/datapro2.cpp:213-232 | A pending point takes the earliest of the nearest free measurements that an object between the minimal and the maximal speed can have made, and goes without exactly when none is there. |
| TrackChoices.TracksChooseInTurn | datapro2/src/datapro2.cpp:145-208 | In a frame the tracks choose in their order: each takes the earliest of the nearest measurements in its strobe that no track before it took, and goes without only when none is there. |
| TrackChoices.PendingPointsChooseInTurn | datapro2/src/datapro2.cpp:210-264 | The pending points choose after the tracks and in their order: each takes the earliest of the nearest measurements at a permitted speed that nothing before it took, and goes without only when none is there. |
| TrackMerges.MergesIntoFirstLost | datapro2/src/datapro2.cpp:243-254 | A pending point that takes a measurement is merged into the first track that has no update yet and from whose last point it can have come at its speed, and starts a new track exactly when there is none. |
| TrackMerges.LostObjectIsFound | datapro2/src/datapro2.cpp:776-797 | With k_dist at least 1, and a distance and a speed that agree on uniform motion: when a pending point and its measurement continue the uniform motion from the last point of a lost track, they are merged into that track or into an earlier one that they can have come from. |
| TrackMerges.LargerReachMerges | datapro2/src/datapro2.cpp:783-787 | A larger k_dist never loses a merge. |
| TrackLives.EveryTrackFollows | datapro2/src/datapro2.cpp:145-276 | In a frame each track does what its event says: it takes a measurement at the end of its window, which loses exactly its oldest point at the limit; or it begins, or begins anew, with a pending point and a measurement; or it keeps its points and is one more frame unconfirmed. |
| TrackLives.ReportsTellEvents | datapro2/src/datapro2.cpp:274-276 | Tracks that began are reported as new, tracks that took a measurement as updated (as new, when windows have two points), tracks outside the limits as dropped, and exactly the others are kept. |
| TrackLives.EveryTrackTellsItsLife | datapro2/src/datapro2.cpp:123-296 | In every run, each track's window is the newest points of all that it has gained since it began or was last merged, as many as the limit allows, and its count of unconfirmed frames is that of its life. |
| TrackCameras.EveryCameraShowsItsOwn | datapro2/src/datapro2.cpp:543-565 | In every run, whatever the order of the cameras: selecting the shown tracks of one camera from those of all cameras by the index they carry gives what its own list shows. |
| TrackReports.UnseenInFrame | datapro2/src/datapro2.cpp:205-207 | A track that is left after a frame without an update was there before, kept its identity, points and coefficients, is one more frame unconfirmed, and is within the drop limit. |
| TrackReports.UnseenIsDropped | datapro2/src/datapro2.cpp:494-497 | In every run, whatever frames of other cameras come in between, a track that gets no measurement outlives no more frames of its camera than the drop limit minus its count of unconfirmed frames. |
| TrackReports.OtherCameraKept | datapro2/src/datapro2.cpp:128-129 | A frame leaves the tracks and the pending points of other cameras alone. |
| TrackReports.UpdatedAreReported | datapro2/src/datapro2.cpp:697-709 | With multiplicity, the new and the updated identities are together those of the updated tracks. |
| TrackReports.FrameReportsOnce | datapro2/src/datapro2.cpp:530-541 | In one frame no identity is reported twice, within or across the lists of new, updated and dropped tracks. |
| TrackReports.KeptInOrder | datapro2/src/datapro2.cpp:482-541 | The kept tracks are those whose values are all within the limits for dropping, each once and in order. |
| TrackReports.ShownInOrder | datapro2/src/datapro2.cpp:482-552 | The shown tracks are those whose values are all within the limits for showing and that have enough points, each once and in order. |
| CameraMatch.ConvertMeasCam1ToCam2 | datapro2/src/datapro2MultiVision.cpp:43-57 | Each detection is moved by the homography and keeps its other data. |
| CameraMatch.FindMatch | datapro2/src/datapro2MultiVision.cpp:75-94 | The nearest free detection within the threshold, the first of equals. |
| CameraMatch.SelectionMeasToObjectTwoCameras | datapro2/src/datapro2MultiVision.cpp:59-107 | The two returned lists hold, pair by pair of the greedy pairs and in camera-1 order, the unmoved detections of the two cameras, with the other data of each camera. |
| CameraMatch.PairsAreGreedy | datapro2/src/datapro2MultiVision.cpp:74-99 | The computed pairs are the only ones that are increasing in camera 1, take the earliest nearest free detection, and leave a detection unpaired only when nothing close is free. |
| CameraMatch.PairsAreMaximal | datapro2/src/datapro2MultiVision.cpp:74-99 | The pairs form an injective matching within the threshold, and no unmatched detection of one camera is close to an unmatched one of the other. |
| CameraMatch.AtLeastHalfOfAnyMatching | datapro2/src/datapro2MultiVision.cpp:74-99 | No matching of close detections has more than twice as many pairs. |
| Binning.ApplySumBinning | datapro1/src/dp1_frame_proc.cpp:40-75 | Factor 1 returns the frame; then empty, multi-channel and indivisible frames are refused in this order; else each output pixel is the sum of its block. |
| Binning.BinPixels | datapro1/src/dp1_frame_proc.cpp:58-72 | The nested loops fill the output with the block sums. |
| Binning.BinnedBlock | datapro1/src/dp1_frame_proc.cpp:58-72 | Any block of output pixels has the sum of the input pixels that it stands for. |
| Binning.TotalKept | datapro1/src/dp1_frame_proc.cpp:58-72 | The sum of all pixels is preserved, for every size and factor. |
| Binning.BinTwice | datapro1/src/dp1_frame_proc.cpp:58-72 | Binning by a and then by b is binning by a * b. |
| Binning.TwoTwiceIsFour | datapro1/src/dp1_frame_proc.cpp:58-72 | Binning by 2 twice equals binning by 4. |
| Binning.SumsFitIntIff | datapro1/src/dp1_frame_proc.cpp:64-70 | No 16-bit frame overflows the int that holds a sum if and only if the factor is at most 181. |
| Binning.AllowedSums | datapro1/src/dp1_frame_proc.cpp:25-30 | With the factors that the configuration allows, no sum exceeds 16 * 65535. |
| Tiling.NumberFrag | datapro1/src/datarpoFragmentation.cpp:14-117 | The number of tiles is the factor, but two less for 14, 22 and 26 and 28 from there on; the shorter side has 1, 2, 3 or 4 tiles as the factor says and lies along the shorter side of the frame; it is left unset exactly for 0 and the odd factors from 3 to 27. |
| Tiling.TilesInside | datapro1/src/datarpoFragmentation.cpp:230-238 | Every tile is non-empty and inside the frame, so the reported size error cannot occur. |
| Tiling.TilesDisjoint | datapro1/src/datarpoFragmentation.cpp:230-247 | No pixel is in two tiles. |
| Tiling.TilesCoverIff | datapro1/src/datarpoFragmentation.cpp:145-151 | Every pixel is in a tile if and only if width mod tiles across is less than the tile width, and height mod tiles down less than the tile height. |
| Tiling.SomeColumnsLost | datapro1/src/datarpoFragmentation.cpp:145-151 | A frame of 11 by 10 pixels that is cut into 4 by 2 tiles: its last two columns are in no tile. |

## Left out

- Floating point: rounding, overflow and NaN; the fits, strobes and averages are over the reals.
- Square roots and closed formulas of the tracker: distance, speed, the strobe around a prediction and the statistics of a track are parameters of the settings, so nothing is said about their values.
- Trigonometric coordinate transformation and the derivative blocks of the dispersion formulas.
- Image processing: background subtraction, contours, filters, homography estimation and triangulation; the processing of one tile is an abstract function of the frame, the tile and the state of the tile.
- The camera calibration record of the same marshalling file, which is two matrices and four numbers.
- process_frame_binocular, which repeats the stages of process_frame with other strobes.
- Result files, logging, configuration files, sockets, queues, shared memory, timers and the user interface; the clock of the heart-beat is a parameter.
- Turret motion control.
- clear_shift_index_frame and calc_shift_index_frame_, whose scan ranges do not match what they index.
- Requests to stop the program, which end the waits of the main thread and of the workers.
- Spurious and timed-out wake-ups of a worker do nothing and are not steps of their own; the mutex around the queue makes taking a tile one step.
- The list of drawing data, which the merge concatenates in the same way as the measurements.
- Tracker.StrobeMethod.ProcessFrame: identities and frame counts are unbounded, so the wrap of a 64-bit identity and of an int count is not modelled; the returned tracks are selected from the camera's own list, which `TrackCameras.EveryCameraShowsItsOwn` shows to be what the source selects from all cameras.
- Tracker.UpdateTrack: fields of a measurement that no decision reads (frame number, turret angles, dispersions) are not part of the model.
- MemStore.CMemStore.Write: an owner's content is limited to 2^31 bytes; `MemStore.GrowsIff` shows that no doubled size has room beyond, so what the source then does is outside its memory or does not end.
- MemStore.CMemStore.Read: nothing is said of the bytes that a read beyond the end copies.
- Marshalling.DeserializeDp1Res: what is read from beyond the end of a message is outside the memory, so nothing is said of it; a refused call leaves its output unspecified.
- Marshalling.DeserializeMat: nothing is said when the sizes do not fit what is left, because the pixels are then read from outside the memory.
- Marshalling.DeserializeFrameCalibrationData: nothing is said when the data are cut short, for the same reason; `Marshalling.CutShort` says when that happens.
- Marshalling.ResRoundTrip: the matrices of the record have one channel or are empty; `Marshalling.MatRoundTrip` shows that other matrices do not read back.
- RpcFraming.RpcDataFormer.FormNextMsg: fields are laid out as on a little-endian host, as the source's casts do on the machines it is built for.
- Tiling.Roi: the border that is added around a tile by reflection.
- Binning.ApplySumBinning: factors above 181, for which an int overflows, and below 1; the configuration allows 1, 2 and 4.
- The rates of `TileLimit.CalcNeedFrProcStatuses` are a list sorted by load, as the ordered map iterates.
