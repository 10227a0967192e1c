# Azure Kinect recorder — a Dafny model of the recording pipeline

This project models the integer and control logic of an Azure Kinect
capture and recording tool (namespace `Ak`). It proves properties of that
model. It covers:

- **The recorder** (`KinectRecord`). Its capture callback does two things:
  - hands each enabled image stream (depth, colour, IR) to that stream's encoder;
  - stores the tracked pose in a 16-slot ring.

  Its record thread opens a session, then alternates two jobs: writing pose
  rows to a CSV file and driving the encoders. It closes everything again on
  stop or shutdown. Session set-up works as follows:
  - The session directory is the smallest free `./PID<pid>/<nnn>`.
  - The file names share the stem `<dir>/PID<pid><date>`.
  - The encoder thread count is derived from the hardware concurrency.
- **The per-stream encoder** (`Encoder`):
  - commit-on-success initialisation;
  - `addFrame`: the input alignment search, frame numbering, and the frame
    ring with its overflow report;
  - `process`: drains the ring, first in, first out;
  - `processFrame`, `encodeFrame` and `muxFrames`: return-code handling;
  - `shutdown`: the flush and trailer.
- **The pixel-conversion filter** (`Filter`):
  - the chain of stages chosen for each pixel format;
  - its commit-on-success initialisation;
  - how `sendFrame` and `receiveFrame` classify return codes.
- **The camera side** (`AzureKinect`):
  - the start, stop and shutdown flags;
  - the session directory and `.mkv`/`.csv` names;
  - the per-frame switch that opens and closes the output;
  - the body mask, and the joint and bone confidence filters.
- **The viewer's integer geometry** (`KinectWidget`):
  - the index buffers of the joint sphere and the bone cylinder, with their
    vertex layout;
  - the aspect-ratio fit of `resizeGL`.

Library calls are not modelled as code. These include ffmpeg, the Azure
Kinect SDK, the filesystem and the clock. Each is a parameter that supplies
the library's answer: a return code per step, the set of directories that
exist, whether a creation or an open succeeds, and the date text. A sequence
of calls that stops at the first failure is specified by `Common.Run`. The
error callback is one shared log, `Common.ErrorLog`. Every component is
handed the recorder's callback, so every message lands there in call order.

The model does not include the mutex or the condition variable. Each
producer or consumer method is atomic, so an interleaving is a sequence of
calls. The record thread is a sequence of steps:

- `Wake` runs at the top of the outer loop.
- `Round` is one turn of the session loop.
- `Shutdown` ends the thread.

A wait is a step that reports `waiting`.

Image widths, heights and strides are `bv32` values, the source's
`uint32_t`, so the row-size and alignment arithmetic wraps as it does there.

Both rings (`FrameRing.Ring`) keep the source's behaviour as written:

- overflow is reported when the count *equals* 15;
- the ring counters are never reset between recorder sessions;
- nothing stops the producer at 16 outstanding items;
- the encoder ring holds optional frames, and its consumer moves each frame
  out, leaving an empty slot (`None`). A consumer that the producer has
  lapped therefore reads an empty slot. `processFrame` takes that for the
  null frame of a flush. The pose ring is read in place.

A ghost `Intact` flag records whether an unread slot has been overwritten.
FIFO behaviour is proved while it holds. The recorder's session loop also
ends on a stop without draining the poses still outstanding, as the source
does.

## Model

| member | source | states |
|---|---|---|
| Common.ErrorLog.constructor | source/KinectRecord.cpp:63-66 | the error log starts empty |
| Common.ErrorLog.Send | source/KinectRecord.cpp:171 | one callback call appends exactly that message to the log |
| Common.ErrorLog.Attempt | source/Filter.cpp:61-66 | one library call succeeds iff its reply is non-negative, and a refusal sends exactly its own message |
| Common.RunCleanIff | source/Filter.cpp:57-238 | a step sequence runs clean iff the library accepts every step |
| Common.RunFirstFailure | source/Filter.cpp:57-238 | a failing sequence reports the first refused step, with its code |
| Common.RunAppend | source/Encoder.cpp:109-208 | running two step lists in turn stops inside the first if it fails there, else behaves as the second |
| Common.Pow2Gap | source/Encoder.cpp:249 | no power of two lies strictly between a power of two and its double |
| FrameRing.CapacityFacts | include/Encoder.h:128 | the ring has 16 slots, a power of two that divides 2^32 |
| FrameRing.WrapKeepsSlot | source/Encoder.cpp:224 | the uint32 wrap of the write counter never changes the slot it selects |
| FrameRing.Advance | source/Encoder.cpp:303-304 | the consumer index stays below 16 and moves one slot on modulo 16 |
| FrameRing.SlotsDiffer | source/Encoder.cpp:278-283 | while fewer than 16 items are outstanding, the write slot holds none of them |
| FrameRing.ConsumerPosition | source/Encoder.cpp:300-304 | with `bufferIndex ≡ nextIndex + remaining (mod 16)` kept, taking k items moves the consumer k slots on |
| FrameRing.Ring.constructor | include/Encoder.h:128-131 | 16 slots, all three counters 0, an empty queue |
| FrameRing.Ring.Stage | source/Encoder.cpp:278 | only slot `bufferIndex mod 16` changes; the queue survives iff fewer than 16 items are outstanding |
| FrameRing.Ring.Commit | source/Encoder.cpp:279-287 | write counter +1 modulo 2^32, count +1, overflow iff the count is now exactly 15; the staged item joins the back of the queue |
| FrameRing.Ring.Push | source/Encoder.cpp:278-287 | the item is written to slot `bufferIndex mod 16` and becomes the last of the queue, with the counter updates of a commit |
| FrameRing.Ring.TryPop | source/KinectRecord.cpp:345-374 | yields an item iff one is outstanding; it is the oldest, the count drops by one and the consumer index wraps to 0 at 16 |
| FrameRing.Ring.TryMove | source/Encoder.cpp:295-304 | as `TryPop`, and the slot it read is left empty, since the frame is moved out |
| FrameRing.LappedReadIsHole | source/Encoder.cpp:278-304 | after 17 pushes with nothing taken, the 17th move reads the empty slot that the first move left |
| FrameRing.Ring.Reset | source/Encoder.cpp:213-215 | all three counters are 0 and the queue is empty |
| FilterGraph.ChainShape | source/Filter.cpp:144-218 | 16-bit grey gives src→hflip→colorlevels→sink, any other format src→scale(640, point)→hflip→sink; hflip appears exactly once |
| FilterGraph.SendFrame | source/Filter.cpp:243-253 | succeeds iff the code is non-negative, and every failure is reported with its code |
| FilterGraph.ReceiveFrame | source/Filter.cpp:255-269 | succeeds iff the code is non-negative; a failure is reported iff it is neither EAGAIN nor EOF |
| FilterGraph.Filter.constructor | include/Filter.h:90-92 | a new filter has no graph |
| FilterGraph.Filter.OpenEndpoints | source/Filter.cpp:57-114 | graph, src/sink allocation, source parameters and the two initialisations run in order, stopping and reporting at the first refusal |
| FilterGraph.Filter.AddStage | source/Filter.cpp:116-142 | lookup, allocation and link of one stage, stopping and reporting at the first refusal |
| FilterGraph.Filter.LinkAndConfigure | source/Filter.cpp:217-233 | link to the sink, then configure, stopping and reporting at the first refusal |
| FilterGraph.Filter.Build | source/Filter.cpp:57-233 | succeeds iff every step of the format's plan is accepted, and then the linked chain is exactly `Chain(format)` |
| FilterGraph.Filter.Init | source/Filter.cpp:51-241 | succeeds iff every step is accepted; only then is the graph replaced by the linked chain, and otherwise it is left unchanged |
| FilterGraph.Filter.Send | source/Filter.cpp:243-253 | the outcome of `SendFrame`, with its report sent to the callback |
| FilterGraph.Filter.Receive | source/Filter.cpp:255-269 | the outcome of `ReceiveFrame`, with its report sent to the callback |
| Encoder.FFAlignRoundsUp | source/Encoder.cpp:250 | for a power of two that does not wrap, `FFALIGN` is the least multiple of `align` at or above the row size |
| Encoder.SearchChosen | source/Encoder.cpp:248-253 | a search started at a power of two with no smaller power fitting ends at the chosen alignment |
| Encoder.AlignmentChosen | source/Encoder.cpp:244-253 | the alignment is the smallest power of two up to the maximum under which the padded row equals the stride, else the first power past the maximum |
| Encoder.ChosenAlignmentUnique | source/Encoder.cpp:248-253 | that description determines the alignment |
| Encoder.FindAlignment | source/Encoder.cpp:248-253 | the doubling loop returns that alignment |
| Encoder.MuxRun | source/Encoder.cpp:394-433 | no more packets are written than replies exist; the run succeeds iff nothing is reported |
| Encoder.EncodeEffect | source/Encoder.cpp:353-392 | at most one trailer, and only for the null frame; a success writes the trailer iff the frame is null; success iff no report |
| Encoder.FrameEffect | source/Encoder.cpp:331-351 | success needs the filter send, the filter receive and the codec send to succeed; a filter failure writes nothing |
| Encoder.UntilFailure | source/Encoder.cpp:294-310 | the loop takes at most all items, and stopping early means failure |
| Encoder.UntilFailureSucceeds | source/Encoder.cpp:294-310 | the loop succeeds iff every item goes through, and then it takes them all |
| Encoder.UntilFailureStops | source/Encoder.cpp:306-308 | a failing loop stops right after the first failing item, all earlier ones having gone through |
| Encoder.NumberedPush | source/Encoder.cpp:271-274 | queuing the frame numbered `m_frameNumber` keeps the queue numbered consecutively below the counter |
| Encoder.HandOver | source/Encoder.cpp:300-306 | handing the head of the queue to the filter keeps the submitted frames in strictly increasing number order |
| Encoder.Encoder.constructor | include/Encoder.h:128-133 | three zero counters, frame number 0, an empty ring, no output and no filter graph |
| Encoder.CodecSettings | source/Encoder.cpp:159-166 | every stream is encoded with CRF "23" and preset "ultrafast"; a thread count is set iff it is not 0 |
| Encoder.Encoder.Init | source/Encoder.cpp:93-219 | format and 1/fps time base are stored; success iff the filter and every output step succeed; only then is the output installed with `CodecSettings` (CRF, preset, threads) and the counters and frame number zeroed, and otherwise they are unchanged |
| Encoder.Encoder.OpenOutput | source/Encoder.cpp:113-216 | the output half of `init` commits output and zeroed counters only when every step succeeds |
| Encoder.Encoder.OpenSteps | source/Encoder.cpp:113-208 | output, stream, codec, file (unless the muxer needs none) and header run in order, stopping and reporting at the first refusal |
| Encoder.Encoder.Install | source/Encoder.cpp:210-216 | the output is assigned and the frame number and ring counters are 0 |
| Encoder.Encoder.OpenStream | source/Encoder.cpp:113-182 | the six codec and stream steps stop and report at the first refusal |
| Encoder.Encoder.Enqueue | source/Encoder.cpp:270-288 | the frame gets the current frame number, which then rises by one; it is queued last; "Encode buffer has overflowed" is sent iff the count is now exactly 15 |
| Encoder.Encoder.AllocateFrame | source/Encoder.cpp:227-243 | frame and buffer allocation, stopping and reporting at the first failure |
| Encoder.Encoder.PrepareFrame | source/Encoder.cpp:227-263 | the allocation and copy steps stop at the first failure, and a success uses the chosen alignment |
| Encoder.Encoder.AddFrame | source/Encoder.cpp:221-289 | fails iff an allocation or copy step fails, leaving ring and frame number untouched; otherwise it writes slot `bufferIndex mod 16`, increments both counters and the frame number by one, and returns true even on overflow |
| Encoder.Encoder.MuxFrames | source/Encoder.cpp:394-433 | writes packets until EAGAIN/EOF, a failed receive or a failed write, and reports the failure |
| Encoder.Encoder.EncodeFrame | source/Encoder.cpp:353-392 | what `EncodeEffect` describes: a frame is sent and muxed, and a null frame flushes, muxes and writes the trailer |
| Encoder.Encoder.ProcessFrame | source/Encoder.cpp:331-351 | what `FrameEffect` describes: filter send, filter receive, then encode |
| Encoder.Encoder.Take | source/Encoder.cpp:295-304 | takes the frame in the consumer's slot iff one is outstanding, leaves that slot empty, and records the frame as handed to the filter |
| Encoder.Encoder.ProcessItem | source/Encoder.cpp:306-308 | processing one item extends the run so far by its effect, and a failure ends the run |
| Encoder.Encoder.ProcessNext | source/Encoder.cpp:295-308 | one turn of `process`: take the oldest frame, if any, and process it |
| Encoder.Encoder.ProcessLoop | source/Encoder.cpp:294-310 | the loop's outcome, packets and messages are those of processing the queue first in, first out until a failure |
| Encoder.Encoder.Process | source/Encoder.cpp:291-311 | success leaves no frame outstanding; a failure leaves the frames after the failing one queued; the consumer index moves one slot per frame taken |
| Encoder.Encoder.Flush | source/Encoder.cpp:316-320 | the loop only ends on a failure: null frames are processed until one fails, and the output and log grow by exactly those effects |
| Encoder.Encoder.FlushGraph | source/Encoder.cpp:316-320 | the flush loop's messages are exactly those of `FlushRun`, which ends at the first failing null frame |
| Encoder.Encoder.CloseOutput | source/Encoder.cpp:322-328 | with an output open, the final flush and trailer are attempted once and the output is released |
| Encoder.Encoder.Shutdown | source/Encoder.cpp:313-329 | the flush loop runs while a graph exists, and finalisation runs while an output exists; afterwards no output remains, so a second shutdown finalises nothing |
| Naming.Digits | source/KinectRecord.cpp:50 | the decimal form is non-empty, all digits, and starts with '0' only for 0 |
| Naming.DigitsValue | source/KinectRecord.cpp:50 | the decimal form denotes the number |
| Naming.ToString | source/KinectRecord.cpp:48-55 | the prepend-'0' loop computes the padded form |
| Naming.PaddedShape | source/KinectRecord.cpp:48-55 | `toString` pads to at least the length and never truncates: '0's followed by the full decimal form |
| Naming.PaddedValue | source/KinectRecord.cpp:48-55 | padding a non-negative number keeps its digits and its value |
| Naming.PidIsThreeDigits | source/AzureKinectWindow.cpp:37 | every player id the window accepts (1..999) renders as exactly three digits of that value |
| Naming.ScanDirDistinct | source/KinectRecord.cpp:210 | different session ids give different directories |
| Naming.FindSessionDir | source/KinectRecord.cpp:203-216 | the scan picks the smallest id ≥ 1 whose `./PID<pid>/<id>` does not exist |
| Naming.SessionsIncrease | source/KinectRecord.cpp:207-218 | once a session's directory exists, the next scan picks a larger id and a different directory |
| Naming.OutputNamesDistinct | source/KinectRecord.cpp:231-235 | `.csv`, `_depth.mp4`, `_colour.mp4` and `_ir.mp4` share the stem, lie in the session directory and are pairwise distinct |
| Pose.JointNamesById | source/KinectRecord.cpp:29-46 | the joint table has 32 entries, each at the position of its joint id |
| Pose.BoneListShape | source/KinectWidget.cpp:111-133 | the bone table has 31 pairs, each joining two joint ids below 32 |
| Pose.JointLabelsOf | source/KinectRecord.cpp:247-253 | a joint's labels are its name followed by X, Y, Z, RX, RY, RZ, RW |
| Pose.HeaderLabels | source/KinectRecord.cpp:245-254 | the header has one column for "Timestamp" followed by seven per joint |
| Pose.ValuesOf | source/KinectRecord.cpp:356-369 | a joint's seven values are position x, y, z, then rotation x, y, z, w |
| Pose.RowCells | source/KinectRecord.cpp:353-370 | a row has the timestamp followed by seven values per joint |
| Pose.WriteHeader | source/KinectRecord.cpp:245-254 | the header loop produces `HeaderLabels` of the table |
| Pose.WriteRow | source/KinectRecord.cpp:353-370 | the row loop produces `RowCells` for the table, the time and the recorded joints |
| Pose.LabelsAt | source/KinectRecord.cpp:245-254 | label 7i+c names component c of table joint i |
| Pose.ValuesAt | source/KinectRecord.cpp:355-370 | value 7i+c is component c of the joint with table entry i's id |
| Pose.ColumnsAlign | source/KinectRecord.cpp:245-370 | header and row have equally many columns (1 + 7 per joint), and the column labelled `<joint><component>` holds that component of that joint |
| KinectRecord.ThreadCount | source/KinectRecord.cpp:260-263 | the encoder thread count is always in 1..8 |
| KinectRecord.ThreadCountWraps | source/KinectRecord.cpp:260-263 | fewer than 4 hardware threads wrap the unsigned subtraction and give 8 |
| KinectRecord.ThreadCountShares | source/KinectRecord.cpp:260-263 | otherwise the count is (hw − 4) / streams clamped to 1..8 |
| KinectRecord.StreamCount | source/KinectRecord.cpp:259-261 | at most 3 streams, and 0 iff no image stream is enabled |
| KinectRecord.Rows | source/KinectRecord.cpp:345-374 | one row per pose taken |
| KinectRecord.AppendRow | source/KinectRecord.cpp:345-374 | writing one more pose's row is writing the rows of the longer prefix |
| KinectRecord.Feed | source/KinectRecord.cpp:130-137 | an enabled stream with an image queues it iff `addFrame` succeeds: the encoder's frame number and outstanding count rise by one and the image joins the queue as the next numbered frame, at the alignment found for its stride; otherwise the encoder is unchanged; the callback goes on iff the stream was not fed or took the frame |
| KinectRecord.FeedBeside | source/KinectRecord.cpp:130-137 | `Feed` on one encoder, and the other two encoders keep their state |
| KinectRecord.FeedPair | source/KinectRecord.cpp:138-155 | colour is fed only when depth went through, IR only when colour did too; each is queued as `Feed` states or unchanged, and depth keeps its state |
| KinectRecord.FeedAll | source/KinectRecord.cpp:130-155 | depth, colour and IR are fed in that order until one fails: each queues its image exactly when it is fed, takes it and every earlier stream went through, and is otherwise unchanged; `fed` iff some encoder queued a frame |
| KinectRecord.StartEncoder | source/KinectRecord.cpp:265-274 | an enabled stream's encoder starts iff its `init` succeeds, with the stream's file, size, fps and thread count; a disabled one stays closed |
| KinectRecord.ProcessStream | source/KinectRecord.cpp:378-383 | an enabled stream processes its frames, and success leaves none outstanding; a disabled one is untouched |
| KinectRecord.PopRows | source/KinectRecord.cpp:345-374 | the writer takes every outstanding pose oldest first, appends one row each and leaves the count 0; the consumer index wraps at 16 |
| KinectRecord.Recorder.constructor | include/KinectRecord.h:99-121 | flags false, ring counters 0, options depth/skeleton on and colour/IR off, three idle encoders, the header built from the joint table |
| KinectRecord.Recorder.Start | source/KinectRecord.cpp:79-88 | the player id is stored and a run requested |
| KinectRecord.Recorder.Stop | source/KinectRecord.cpp:90-98 | the run request is cleared |
| KinectRecord.Recorder.SetRecordOptions | source/KinectRecord.cpp:183-190 | the four options are stored |
| KinectRecord.Recorder.UpdateCalibration | source/KinectRecord.cpp:192-195 | the calibration is stored |
| KinectRecord.Recorder.FeedEncoders | source/KinectRecord.cpp:130-155 | `FeedAll` on the recorder's three encoders with its options, leaving the pose ring alone |
| KinectRecord.Recorder.ShutdownStream | source/KinectRecord.cpp:303-305 | `Encoder::shutdown` on one encoder, which closes its output |
| KinectRecord.Recorder.CloseFile | source/KinectRecord.cpp:300-302 | an open pose file is closed and kept as written |
| KinectRecord.Recorder.CleanupOutput | source/KinectRecord.cpp:297-306 | the pose file and all three encoder outputs are closed |
| KinectRecord.Recorder.OpenSession | source/KinectRecord.cpp:202-223 | the session takes the smallest free directory and its stem; creation failure fails, reported iff the system gave an error |
| KinectRecord.Recorder.OpenPoseFile | source/KinectRecord.cpp:237-256 | with skeletons on, "<stem>.csv" opens holding the header, and otherwise set-up fails silently; with skeletons off nothing is opened |
| KinectRecord.Recorder.StartEncoders | source/KinectRecord.cpp:258-292 | with any image stream, the enabled encoders start in order depth, colour, IR on their `_depth/_colour/_ir.mp4` files, sharing the thread count; success iff all start |
| KinectRecord.Recorder.StartSideEncoders | source/KinectRecord.cpp:275-291 | colour then IR start when enabled; success iff both that are enabled start |
| KinectRecord.Recorder.StartOrClose | source/KinectRecord.cpp:265-291 | a failing encoder start closes the pose file and every output |
| KinectRecord.Recorder.OpenFiles | source/KinectRecord.cpp:237-294 | pose file, then encoders; success iff the file opens (when needed) and every enabled encoder starts; failure leaves everything closed |
| KinectRecord.Recorder.InitOutput | source/KinectRecord.cpp:197-295 | closes old output, picks the smallest free session; succeeds iff the directory is created, the pose file opens and every enabled encoder starts, and then exactly the enabled outputs are open on the session's names; on failure everything is closed |
| KinectRecord.Recorder.WriteRows | source/KinectRecord.cpp:343-375 | every outstanding pose is written as a row, oldest first, and the count is 0 afterwards |
| KinectRecord.Recorder.ProcessSides | source/KinectRecord.cpp:384-395 | colour then IR process when enabled; success drains both |
| KinectRecord.Recorder.ProcessAll | source/KinectRecord.cpp:377-395 | depth, colour, IR process in turn; success drains every enabled stream's ring |
| KinectRecord.Recorder.Drain | source/KinectRecord.cpp:343-395 | with skeletons on, all outstanding poses become rows; then the encoders process |
| KinectRecord.Recorder.EndSession | source/KinectRecord.cpp:397-402 | `m_run2` cleared, output closed, thread back at the top of its loop |
| KinectRecord.Recorder.Finish | source/KinectRecord.cpp:405-414 | the thread returns after closing the output once more |
| KinectRecord.Recorder.Enter | source/KinectRecord.cpp:323-327 | a failed set-up clears `m_run`; a successful one enters the session loop |
| KinectRecord.Recorder.Begin | source/KinectRecord.cpp:322-327 | `initOutput` from the top of the loop: the session is entered iff set-up succeeds, with its files open |
| KinectRecord.Recorder.Wake | source/KinectRecord.cpp:310-327 | waits iff neither run nor shutdown is requested; returns on shutdown; otherwise sets up a session, entering it iff set-up succeeds |
| KinectRecord.Recorder.Arm | source/KinectRecord.cpp:331-338 | `m_run2` is set, and the thread waits iff running, not shutting down, no pose outstanding and no frame fed |
| KinectRecord.Recorder.Proceed | source/KinectRecord.cpp:339-342 | a stop or shutdown ends the session without draining; otherwise the thread works |
| KinectRecord.Recorder.Work | source/KinectRecord.cpp:343-396 | poses are written and frames encoded; a failing encoder ends the session, whose pose file then holds the rows just written |
| KinectRecord.Recorder.Round | source/KinectRecord.cpp:328-396 | one turn of the session loop: wait, end the session on stop or shutdown, or work |
| KinectRecord.Recorder.Join | source/KinectRecord.cpp:310-409 | once shutdown is set, a running session ends and the thread returns |
| KinectRecord.Recorder.Shutdown | source/KinectRecord.cpp:100-113 | after `shutdown` the thread has finished, the flags are cleared, and the pose file and every output are closed |
| KinectRecord.Recorder.StorePose | source/KinectRecord.cpp:126-167 | the timestamp goes into the write slot; a kept pose fills it and is committed, overflow iff exactly 15 are then outstanding |
| KinectRecord.Recorder.Overflow | source/KinectRecord.cpp:164-173 | an overflow clears `m_run` and sends "Write buffer has overflowed" |
| KinectRecord.Recorder.Keep | source/KinectRecord.cpp:120-174 | `m_processEncode` records whether a frame was fed; the encoders keep their state; the pose is stored and the overflow checked |
| KinectRecord.Recorder.Capture | source/KinectRecord.cpp:119-174 | the encoders are fed as `FeedAll` states and `m_processEncode` tells whether any took a frame; a pose is committed iff every fed encoder accepted its frame, skeletons are on and joints were seen, and then it joins the back of the pose queue; the commit reaching 15 stops the session |
| KinectRecord.Recorder.DataCallback | source/KinectRecord.cpp:115-181 | nothing changes unless `m_run && m_run2`; otherwise the encoders, `m_processEncode`, the pose ring and `m_run` change as `Capture` states |
| AzureKinect.Admit | source/AzureKinect.cpp:216-246 | a capture without depth is skipped; a failed capture or a failed enqueue ends the loop with its report; a timeout goes on to the tracker |
| AzureKinect.MaskMarks | source/AzureKinect.cpp:273-281 | pixel i of a body's mask is set iff the index map holds the body id there |
| AzureKinect.BodyMask | source/AzureKinect.cpp:268-282 | the array filled pixel by pixel is the body's `Mask` over width·height pixels: pixel i is set iff the index map holds the body id there |
| AzureKinect.MasksDisjoint | source/AzureKinect.cpp:268-282 | the masks `BodyMask` builds for two different ids share no pixel |
| AzureKinect.AsJoint | source/AzureKinect.cpp:287-294 | the recorded joint has the tracked position and orientation, confident iff confidence ≥ medium |
| AzureKinect.Repeat | source/AzureKinect.cpp:285 | a sized vector starts with that many default entries |
| AzureKinect.TrackJoints | source/AzureKinect.cpp:285-296 | 32 default joints, then the joints seen with at least low confidence, in id order |
| AzureKinect.KeptJointsExactly | source/AzureKinect.cpp:286-296 | every seen joint is kept, and every kept joint comes from a seen one |
| AzureKinect.KeptJointsBounds | source/AzureKinect.cpp:286-296 | all seen keeps all; none seen keeps none |
| AzureKinect.AsBone | source/AzureKinect.cpp:304-313 | a bone joins its joints' positions and is confident iff both ends are ≥ medium |
| AzureKinect.TrackBones | source/AzureKinect.cpp:299-315 | 31 default bones, then every listed bone with both ends seen, in list order |
| AzureKinect.KeptBonesExactly | source/AzureKinect.cpp:300-315 | a bone is kept iff both of its joints are seen |
| AzureKinect.CaptureNamesDistinct | source/AzureKinect.cpp:183-188 | `.mkv` and `.csv` are different files inside the session directory |
| AzureKinect.Camera.constructor | include/AzureKinect.h:62 | all flags start clear |
| AzureKinect.Camera.Start | source/AzureKinect.cpp:66-70 | the player id is stored and `m_run` set |
| AzureKinect.Camera.Stop | source/AzureKinect.cpp:72-75 | `m_run` cleared |
| AzureKinect.Camera.Shutdown | source/AzureKinect.cpp:77-85 | `m_run` cleared and `m_shutdown` set |
| AzureKinect.Camera.InitOutput | source/AzureKinect.cpp:152-196 | smallest free session directory; success iff it is created, and then the `.mkv` and `.csv` names on its stem; a failure with an error is reported |
| AzureKinect.Camera.ReadSkeleton | source/AzureKinect.cpp:259-264 | a failed skeleton read is reported and clears `m_run` |
| AzureKinect.Camera.SwitchOutput | source/AzureKinect.cpp:318-335 | afterwards the output is open iff a recording is requested; a requested start whose set-up fails clears `m_run` |
| AzureKinect.Camera.TrackedFrame | source/AzureKinect.cpp:257-335 | after a tracked frame, output is open iff recording was requested, the skeleton read succeeded (if a body was found), and output was already open or set-up succeeds |
| KinectWidget.Row | source/KinectWidget.cpp:809-821 | ring `ring` holds steps 0..k−1 in order |
| KinectWidget.GridAt | source/KinectWidget.cpp:801-823 | ring i, step j of the grid sits at i·u + j |
| KinectWidget.Next | source/KinectWidget.cpp:833 | the wrapped neighbour is in 1..tessU: j + 1, or 1 after the last step |
| KinectWidget.TopFanBelow | source/KinectWidget.cpp:829-835 | every top-fan index is at most tessU |
| KinectWidget.QuadsBelow | source/KinectWidget.cpp:838-852 | every index of a band lies below the next ring's end |
| KinectWidget.BottomFanBelow | source/KinectWidget.cpp:855-862 | every bottom-fan index is below the last ring's end or is the last vertex |
| KinectWidget.AppendRow | source/KinectWidget.cpp:809-821 | one ring of vertices is appended |
| KinectWidget.AppendTopFan | source/KinectWidget.cpp:829-835 | appends `TopFan`: (0, next, j) for j = 1..tessU |
| KinectWidget.AppendQuad | source/KinectWidget.cpp:840-850 | one quad's six indices, the re-read `end()-2` and `end()-3` being the next step and the lower-ring step |
| KinectWidget.AppendQuads | source/KinectWidget.cpp:839-851 | appends the band of quads between two rings |
| KinectWidget.AppendBottomFan | source/KinectWidget.cpp:855-862 | appends `BottomFan` towards the last vertex |
| KinectWidget.BandsLength | source/KinectWidget.cpp:838-852 | n bands hold 6·tessU·n indices |
| KinectWidget.BandsBelow | source/KinectWidget.cpp:838-852 | every index of the first n bands is at most (n+1)·tessU |
| KinectWidget.AppendBands | source/KinectWidget.cpp:838-852 | the nested loop appends the bands |
| KinectWidget.SphereVertexBuffer | source/KinectWidget.cpp:797-826 | top pole, tessV − 1 rings of tessU, bottom pole |
| KinectWidget.SphereIndexBuffer | source/KinectWidget.cpp:828-862 | top fan, bands, bottom fan |
| KinectWidget.GenerateSphere | source/KinectWidget.cpp:780-880 | builds the sphere's vertices and indices and returns `numIndices = 6·tessU + 6·tessU·(tessV−2)` |
| KinectWidget.SphereIndicesBelow | source/KinectWidget.cpp:829-862 | every sphere index is below tessU·(tessV−1) + 2 |
| KinectWidget.SphereShape | source/KinectWidget.cpp:788-862 | tessU·(tessV−1)+2 vertices, as many indices as `numIndices`, and every index names a vertex |
| KinectWidget.SphereVertexAt | source/KinectWidget.cpp:798-826 | vertex 1 + i·tessU + j is step j of ring i, the layout the fans and bands index |
| KinectWidget.CylinderVertexBuffer | source/KinectWidget.cpp:897-953 | top centre, four rings, bottom centre |
| KinectWidget.CylinderIndexBuffer | source/KinectWidget.cpp:955-987 | top fan, one band of side quads, bottom fan |
| KinectWidget.GenerateCylinder | source/KinectWidget.cpp:882-987 | builds the cylinder and returns `numIndices = 12·tessU` |
| KinectWidget.CylinderShape | source/KinectWidget.cpp:888-987 | 4·tessU+2 vertices, 12·tessU indices, every index names a vertex |
| KinectWidget.FitStepShrinks | source/KinectWidget.cpp:602-609 | a turn of the fit loop never lengthens a side, and shortens one while the ratio is inexact |
| KinectWidget.Fit | source/KinectWidget.cpp:599-609 | the loop ends with width·9 = height·ratio, within the window |
| KinectWidget.FitIsMultiple | source/KinectWidget.cpp:599-609 | a fitted viewport is k·(ratio × 9) |
| KinectWidget.Widget.constructor | include/KinectWidget.h:92-98 | viewport 0, colour off |
| KinectWidget.Widget.ResizeGL | source/KinectWidget.cpp:596-613 | the viewport has the shown image's ratio (16:9 colour, 10:9 otherwise), fits the window and is centred |
| KinectWidget.Widget.SetColourImage | source/KinectWidget.cpp:146-157 | choosing colour refits the viewport to the new ratio (via the refresh slot's `resizeGL`) |

## Left out

- Threads, the mutex, the condition variable and atomics. Each method is atomic, and the record and capture threads are sequences of steps. `start`/`stop` notifications and `shutdown`'s join become calls.
- The libraries (ffmpeg, the Azure Kinect SDK, OpenGL, the filesystem, the clock) are answers given as parameters. Timestamp rescaling (`av_rescale_q`), packet fields and H.264 itself are not modelled.
- Floating point:
  - the depth/IR `65536/range` scale and the colorlevels `1/scale` option;
  - the scaled height `640·aspect`;
  - the `sinf`/`cosf` vertex positions and normals.

  Vertices are named by their place on the mesh instead.
- The filter graph's thread count (`nb_threads`): `Encoder::init` calls `Filter::init` without it, and Filter.cpp's signature asks for it. The model follows the call that Encoder.cpp makes. Encoder.h's `scale` parameter is absent from Encoder.cpp and is not modelled.
- The text of the pose file: the `\r\n` row separators, the trailing commas and the decimal formatting of floats. The header and rows are sequences of labels and cells.
- The pose header is built once, in the recorder's constructor, since it depends only on the joint table. The source writes it on every `initOutput`.
- The joints in a pose slot: a row reads a missing joint id as a zero joint. In the source that read goes past the end of the vector. Recorded joint sets have at least 32 entries.
- KinectRecord.ProcessStream and KinectRecord.Recorder.ProcessAll do not restate the run over the queue (`ProcessRun`). `Encoder.Encoder.Process` states it for each encoder.
- KinectRecord.Recorder.CleanupOutput: states only that the log grows by appending. The exact messages are the three encoders' `ShutdownReports`, stated by `ShutdownStream`.
- Filesystem existence is a set of paths. A failed existence query counts as absent. Directory creation is an answer (created, error code).
- The destructors and `init` thread launches.
- The AzureKinect camera loop's SDK calls. So are `initCamera`, the image callback, `cleanup`, and the `cleanupOutput` and file-writing TODOs. The camera's `m_run`, `m_run2` and `m_pid` are not declared in include/AzureKinect.h; the model starts them clear and 0. The joint and bone lists are computed and then left unused in the source.
- The 32-bit wrap of `align += align` in the alignment search, which only matters for a maximum alignment of 2^30 or more.
- The unsigned 32-bit arithmetic of the widget's index computations, which only matters beyond about 2^29 vertices.
- The bone table's tree shape (31 bones over 32 joints, connected) is not proved. Only its size and that every id is a joint are proved.
- The Encoder's unused worker thread (`m_thread`) and its non-copyability.
