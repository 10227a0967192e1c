/** The recorder (`Ak::KinectRecord`): a capture callback that hands images
    to three encoders and poses to a 16-slot ring, and a record thread that
    opens a session's output files, writes pose rows, drives the encoders
    and closes everything again. The mutex and the condition variable
    collapse to the atomicity of each method; the record thread is a
    sequence of steps (`Wake` at the top of its outer loop, `Round` in
    the session loop), and a wait is a step that reports `waiting`. */
module KinectRecord {
  import opened Common
  import opened Naming
  import opened FrameRing
  import opened FilterGraph
  import opened Encoder
  import opened Pose

  /** One slot of the pose ring (`DataBuffers`): a capture time and the
      joints recorded at it. */
  datatype PoseSlot = PoseSlot(timeStamp: nat, joints: seq<Joint>)

  /** The pixels and layout of a `KinectImage` whose data is set; a
      null image is `None`. */
  datatype Image = Image(data: seq<bv8>, width: bv32, height: bv32, stride: bv32)

  /** The parts of `KinectCalibration` the recorder reads. */
  datatype Calibration = Calibration(depthWidth: int, depthHeight: int, colourWidth: int, colourHeight: int,
                                     irWidth: int, irHeight: int, fps: int)

  /** What the video libraries answer to one stream's encoder: the return
      codes of the filter and output set-up steps, of the steps of
      `addFrame`, the platform's largest alignment, the replies while
      processing each frame, and those of a shutdown's flush loop and
      final flush. */
  datatype StreamLibrary = StreamLibrary(filterInit: Step -> int, outputInit: InitStep -> int, add: AddStep -> int,
                                         maxAlign: int, process: Option<Frame> -> FrameReplies,
                                         flush: FlushReplies, final: FrameReplies)

  /** What to record: depth, colour and IR video, and the pose file. */
  datatype Options = Options(depthImage: bool, colourImage: bool, irImage: bool, bodySkeleton: bool)

  datatype Libraries = Libraries(depth: StreamLibrary, colour: StreamLibrary, ir: StreamLibrary)

  /** An open pose file: its name, the header labels and the rows written. */
  datatype PoseFile = PoseFile(name: string, header: seq<string>, rows: seq<seq<Cell>>)

  /** Where the record thread is: at the top of its outer loop, waiting for
      a start or a shutdown; in the inner loop of a recording session; or
      returned. */
  datatype Phase = Idle | Recording | Finished

  const UInt32Modulus: nat := 0x1_0000_0000

  /** The encoder thread count: the hardware threads beyond 4, in unsigned
      32-bit arithmetic, shared among the enabled image streams, at least 1
      and at most 8. */
  function ThreadCount(hardware: nat, streams: nat): (n: nat)
    requires hardware < UInt32Modulus && 1 <= streams <= 3
    ensures 1 <= n <= 8
  {
    var share := (hardware - 4) % UInt32Modulus / streams;
    var atLeastOne := if share > 1 then share else 1;
    if atLeastOne < 8 then atLeastOne else 8
  }

  /** With fewer than 4 hardware threads the subtraction wraps around and
      the count is the maximum, 8. */
  lemma ThreadCountWraps(hardware: nat, streams: nat)
    requires hardware < 4 && 1 <= streams <= 3
    ensures ThreadCount(hardware, streams) == 8
  {
    var w := (hardware - 4) % UInt32Modulus;
    assert w == UInt32Modulus + hardware - 4;
    assert w / streams >= w / 3 >= 8;
  }

  /** Otherwise the count is the spare threads' share, clamped to 1..8. */
  lemma ThreadCountShares(hardware: nat, streams: nat)
    requires 4 <= hardware < UInt32Modulus && 1 <= streams <= 3
    ensures (hardware - 4) / streams >= 8 ==> ThreadCount(hardware, streams) == 8
    ensures 1 <= (hardware - 4) / streams <= 8 ==> ThreadCount(hardware, streams) == (hardware - 4) / streams
    ensures hardware < 4 + 2 * streams ==> ThreadCount(hardware, streams) == 1
  {
    assert (hardware - 4) % UInt32Modulus == hardware - 4;
  }

  /** The stream is enabled and its image is present. */
  predicate Feeds(enabled: bool, image: Option<Image>) {
    enabled && image.Some?
  }

  /** Every step of the stream's `addFrame` succeeds. */
  predicate Accepts(lib: StreamLibrary) {
    Run(AddPlan, lib.add, AddMessage).None?
  }

  /** The callback goes past this stream: it is not fed, or takes the frame. */
  predicate Passes(enabled: bool, image: Option<Image>, lib: StreamLibrary) {
    Feeds(enabled, image) ==> Accepts(lib)
  }

  /** The stream is fed and takes its frame. */
  predicate Takes(enabled: bool, image: Option<Image>, lib: StreamLibrary) {
    Feeds(enabled, image) && Accepts(lib)
  }

  /** What feeding one encoder does to its producer side: when it takes the
      image, the image is queued as a frame at the alignment the library
      finds for its stride; otherwise nothing changes. */
  ghost predicate Fed(before: QueueState, after: QueueState, added: bool, image: Option<Image>, lib: StreamLibrary) {
    if added then
      image.Some? &&
      var im := image.value;
      Queued(before, after, Frame(before.format, im.width, im.height,
                                  Alignment(RowBytes(im.width, before.format), im.stride, lib.maxAlign), im.data, 0))
    else after == before
  }

  /** The encoder half of the callback: depth is fed first, colour only
      when depth went through, IR only when both did. */
  ghost predicate AllFed(options: Options, depthFrame: Option<Image>, colourFrame: Option<Image>, irFrame: Option<Image>,
                         libs: Libraries, d0: QueueState, d1: QueueState, c0: QueueState, c1: QueueState,
                         i0: QueueState, i1: QueueState)
  {
    var d := Passes(options.depthImage, depthFrame, libs.depth);
    var c := Passes(options.colourImage, colourFrame, libs.colour);
    Fed(d0, d1, Takes(options.depthImage, depthFrame, libs.depth), depthFrame, libs.depth) &&
    Fed(c0, c1, d && Takes(options.colourImage, colourFrame, libs.colour), colourFrame, libs.colour) &&
    Fed(i0, i1, d && c && Takes(options.irImage, irFrame, libs.ir), irFrame, libs.ir)
  }

  /** Some encoder took a frame during the callback. */
  predicate FedAny(options: Options, depthFrame: Option<Image>, colourFrame: Option<Image>, irFrame: Option<Image>,
                   libs: Libraries)
  {
    var d := Passes(options.depthImage, depthFrame, libs.depth);
    var c := Passes(options.colourImage, colourFrame, libs.colour);
    Takes(options.depthImage, depthFrame, libs.depth) || (d && Takes(options.colourImage, colourFrame, libs.colour)) ||
    (d && c && Takes(options.irImage, irFrame, libs.ir))
  }

  /** Every stream the callback feeds takes its frame. */
  predicate AllPass(options: Options, depthFrame: Option<Image>, colourFrame: Option<Image>, irFrame: Option<Image>,
                    libs: Libraries)
  {
    Passes(options.depthImage, depthFrame, libs.depth) && Passes(options.colourImage, colourFrame, libs.colour) &&
    Passes(options.irImage, irFrame, libs.ir)
  }

  /** The callback commits a pose: every fed encoder takes its frame,
      skeletons are recorded and joints were seen. */
  predicate Commits(options: Options, depthFrame: Option<Image>, colourFrame: Option<Image>, irFrame: Option<Image>,
                    joints: seq<Joint>, libs: Libraries)
  {
    AllPass(options, depthFrame, colourFrame, irFrame, libs) && options.bodySkeleton && |joints| > 0
  }

  /** An unsigned 32-bit value. */
  type UInt32 = x: int | 0 <= x < UInt32Modulus

  /** What setting up a session finds outside the program: the
      directories on disk, whether creating the new one succeeds and the
      error code when it fails with one, the local date as "%Y-%m-%d"
      text, whether the pose file opens, and the hardware thread count. */
  datatype Environment = Environment(existing: set<string>, created: bool, createError: Option<int>,
                                     date: string, fileOpens: bool, hardware: UInt32)

  /** The file stem of session `id`. */
  function SessionStem(pid: int, id: int, date: string): string {
    Stem(ScanDir(pid, id), pid, date)
  }

  /** An encoder's `init` succeeds: every filter step, then every output
      step (the file is opened). */
  predicate Starts(lib: StreamLibrary, format: PixelFormat, filename: string) {
    Run(Plan(format), lib.filterInit, StepMessage).None? &&
    Run(InitPlan(filename, false), lib.outputInit, InitMessage).None?
  }

  /** The number of enabled image streams. */
  function StreamCount(options: Options): (n: nat)
    ensures n <= 3 && (n == 0 <==> !options.depthImage && !options.colourImage && !options.irImage)
  {
    (if options.depthImage then 1 else 0) + (if options.colourImage then 1 else 0) + (if options.irImage then 1 else 0)
  }

  /** Every enabled image stream's encoder starts. */
  predicate AllStart(options: Options, stem: string, libs: Libraries) {
    (options.depthImage ==> Starts(libs.depth, Gray16LE, stem + DepthSuffix)) &&
    (options.colourImage ==> Starts(libs.colour, BGRA, stem + ColourSuffix)) &&
    (options.irImage ==> Starts(libs.ir, Gray16LE, stem + IrSuffix))
  }

  /** `initOutput` succeeds: the directory is created, the pose file opens
      when skeletons are recorded, and every enabled encoder starts. */
  predicate Opens(options: Options, env: Environment, stem: string, libs: Libraries) {
    env.created && (!options.bodySkeleton || env.fileOpens) && AllStart(options, stem, libs)
  }

  /** The encoder thread count `initOutput` uses: with no image stream
      enabled no encoder is started and the count is not needed. */
  function Threads(options: Options, hardware: UInt32): nat {
    var streams := StreamCount(options);
    if streams == 0 then 0 else ThreadCount(hardware, streams)
  }

  /** What a freshly started encoder's output is when its stream is
      enabled, and that it stays closed otherwise. */
  function StreamOutput(enabled: bool, filename: string, width: int, height: int, fps: int, threads: nat): Option<Output> {
    if enabled then Some(Output(filename, CodecSettings(width, height, fps, threads), 0, 0)) else None
  }

  /** The pose file `initOutput` opens: "<stem>.csv" holding the header. */
  function NewPoseFile(stem: string, header: seq<string>): PoseFile {
    PoseFile(stem + PoseSuffix, header, [])
  }

  /** The rows the writer appends for the given poses, oldest first. */
  function Rows(table: seq<(nat, string)>, poses: seq<PoseSlot>): (rows: seq<seq<Cell>>)
    ensures |rows| == |poses|
  {
    if poses == [] then []
    else
      var last := poses[|poses| - 1];
      Rows(table, poses[..|poses| - 1]) + [RowCells(table, last.timeStamp, last.joints)]
  }

  /** Writing the row of one more pose is writing the rows of the longer
      prefix. */
  lemma AppendRow(file: Option<PoseFile>, table: seq<(nat, string)>, poses: seq<PoseSlot>, k: nat)
    requires k < |poses|
    ensures Append(Append(file, Rows(table, poses[..k])), [RowCells(table, poses[k].timeStamp, poses[k].joints)]) ==
            Append(file, Rows(table, poses[..k + 1]))
  {
    var prefix := poses[..k + 1];
    assert prefix[..|prefix| - 1] == poses[..k] && prefix[|prefix| - 1] == poses[k];
    if file.Some? {
      var rows := file.value.rows;
      var a := Rows(table, poses[..k]);
      var row := RowCells(table, poses[k].timeStamp, poses[k].joints);
      assert (rows + a) + [row] == rows + (a + [row]);
    }
  }

  /** Writing rows to the pose file, which has no effect when it is closed. */
  function Append(file: Option<PoseFile>, rows: seq<seq<Cell>>): Option<PoseFile> {
    if file.Some? then Some(file.value.(rows := file.value.rows + rows)) else None
  }

  /** One stream's part of `dataCallback`: when the stream is enabled and
      its image present, hand the image to its encoder. `added` tells
      whether a frame was queued, `ok` whether the callback goes on. */
  method Feed(e: Encoder, enabled: bool, image: Option<Image>, lib: StreamLibrary) returns (added: bool, ok: bool)
    requires e.Valid()
    modifies e`frameNumber, e.ring, e.ring.slots, e.log`messages
    ensures e.Valid()
    ensures ok == Passes(enabled, image, lib) && added == Takes(enabled, image, lib)
    ensures Fed(old(e.State()), e.State(), added, image, lib)
  {
    if enabled && image.Some? {
      var im := image.value;
      ok := e.AddFrame(im.data, im.width, im.height, im.stride, lib.maxAlign, lib.add);
      added := ok;
    } else {
      added, ok := false, true;
    }
  }

  /** Two encoders that share no part and report to the same log. */
  ghost predicate Apart(a: Encoder, b: Encoder) {
    a != b && a.ring != b.ring && a.ring.slots != b.ring.slots && a.log == b.log
  }

  /** A step that leaves an encoder's producer side and its ring alone
      keeps it valid and in the same state. */
  twostate lemma Untouched(e: Encoder)
    requires old(e.Valid())
    requires unchanged(e`format, e`frameNumber, e`Submitted, e.ring, e.ring.slots)
    ensures e.Valid() && e.State() == old(e.State())
  {
  }

  /** `Feed` on `e` while two other encoders look on: they share no part
      with `e`, so they stay valid and keep their state. */
  method FeedBeside(e: Encoder, enabled: bool, image: Option<Image>, lib: StreamLibrary, x: Encoder, y: Encoder)
    returns (added: bool, ok: bool)
    requires e.Valid() && x.Valid() && y.Valid() && Apart(e, x) && Apart(e, y)
    modifies e`frameNumber, e.ring, e.ring.slots, e.log`messages
    ensures e.Valid() && x.Valid() && y.Valid()
    ensures ok == Passes(enabled, image, lib) && added == Takes(enabled, image, lib)
    ensures Fed(old(e.State()), e.State(), added, image, lib)
    ensures x.State() == old(x.State()) && y.State() == old(y.State())
  {
    added, ok := Feed(e, enabled, image, lib);
    Untouched(x);
    Untouched(y);
  }

  /** Two streams of the callback in turn, reached only when `go` (the
      streams before them went through): the first is fed, and the second
      only when the first went through; a third encoder, which shares no
      part with either, looks on. */
  method FeedPair(go: bool, a: Encoder, aEnabled: bool, aImage: Option<Image>, aLib: StreamLibrary,
                  b: Encoder, bEnabled: bool, bImage: Option<Image>, bLib: StreamLibrary, x: Encoder)
    returns (ok: bool, addedA: bool, addedB: bool)
    requires a.Valid() && b.Valid() && x.Valid() && Apart(a, b) && Apart(a, x) && Apart(b, x)
    modifies a`frameNumber, a.ring, a.ring.slots, a.log`messages, b`frameNumber, b.ring, b.ring.slots
    ensures a.Valid() && b.Valid() && x.Valid()
    ensures ok == (go && Passes(aEnabled, aImage, aLib) && Passes(bEnabled, bImage, bLib))
    ensures addedA == (go && Takes(aEnabled, aImage, aLib))
    ensures addedB == (go && Passes(aEnabled, aImage, aLib) && Takes(bEnabled, bImage, bLib))
    ensures Fed(old(a.State()), a.State(), addedA, aImage, aLib) && Fed(old(b.State()), b.State(), addedB, bImage, bLib)
    ensures x.State() == old(x.State())
  {
    ok, addedA, addedB := false, false, false;
    if go {
      addedA, ok := FeedBeside(a, aEnabled, aImage, aLib, b, x);
      if ok {
        label fedA:
        addedB, ok := Feed(b, bEnabled, bImage, bLib);
        Untouched@fedA(a);
        Untouched@fedA(x);
      }
    } else {
      Untouched(a);
      Untouched(b);
      Untouched(x);
    }
  }

  /** The encoder half of `dataCallback`: each enabled stream's image goes
      to its encoder, in the order depth, colour, IR, until one fails;
      `fed` tells whether any encoder queued a frame. */
  method FeedAll(depth: Encoder, colour: Encoder, ir: Encoder, options: Options,
                 depthFrame: Option<Image>, colourFrame: Option<Image>, irFrame: Option<Image>, libs: Libraries)
    returns (ok: bool, fed: bool)
    requires depth.Valid() && colour.Valid() && ir.Valid()
    requires Apart(depth, colour) && Apart(depth, ir) && Apart(colour, ir)
    modifies depth`frameNumber, depth.ring, depth.ring.slots, depth.log`messages,
             colour`frameNumber, colour.ring, colour.ring.slots, ir`frameNumber, ir.ring, ir.ring.slots
    ensures depth.Valid() && colour.Valid() && ir.Valid()
    ensures ok == AllPass(options, depthFrame, colourFrame, irFrame, libs)
    ensures fed == FedAny(options, depthFrame, colourFrame, irFrame, libs)
    ensures AllFed(options, depthFrame, colourFrame, irFrame, libs, old(depth.State()), depth.State(),
                   old(colour.State()), colour.State(), old(ir.State()), ir.State())
  {
    var addedDepth, addedColour, addedIr;
    addedDepth, ok := FeedBeside(depth, options.depthImage, depthFrame, libs.depth, colour, ir);
    ok, addedColour, addedIr := FeedPair(ok, colour, options.colourImage, colourFrame, libs.colour,
                                         ir, options.irImage, irFrame, libs.ir, depth);
    fed := addedDepth || addedColour || addedIr;
  }

  /** One stream's part of `initOutput`: when the stream is enabled, start
      its encoder on a file. */
  method StartEncoder(e: Encoder, enabled: bool, filename: string, width: int, height: int, fps: int,
                      format: PixelFormat, threads: nat, lib: StreamLibrary) returns (ok: bool)
    requires e.Valid() && e.Attached() && e.output == None
    modifies e`format, e`timebase, e`output, e`frameNumber, e`Submitted, e.ring, e.filter`graph, e.log`messages
    ensures e.Valid() && e.Attached()
    ensures ok == (!enabled || Starts(lib, format, filename))
    ensures e.output == if enabled && ok then StreamOutput(true, filename, width, height, fps, threads) else None
  {
    ok := true;
    if enabled {
      ok := e.Init(filename, width, height, fps, format, threads, false, lib.filterInit, lib.outputInit);
    }
  }

  /** One stream's part of the record thread's encoding step: when the
      stream is enabled, its encoder processes the frames queued for it;
      `ok` tells whether the session goes on. */
  method ProcessStream(e: Encoder, enabled: bool, lib: StreamLibrary) returns (ok: bool)
    requires e.Valid() && e.Attached()
    modifies e`output, e`Submitted, e.ring, e.ring.slots, e.log`messages
    ensures e.Valid() && e.Attached() && e.output.Some? == old(e.output).Some?
    ensures !enabled ==> ok && e.output == old(e.output) && unchanged(e.ring) && unchanged(e.ring.slots)
    ensures enabled && ok ==> e.ring.remaining == 0
  {
    ok := true;
    if enabled {
      ok := e.Process(lib.process);
    }
  }

  /** The loop of the pose writer: poses are taken off `ring` until none
      is outstanding, each one's row appended to `file`. */
  method PopRows(ring: Ring<PoseSlot>, table: seq<(nat, string)>, file: Option<PoseFile>) returns (written: Option<PoseFile>)
    requires ring.Valid()
    modifies ring`remaining, ring`nextIndex, ring`Contents
    ensures ring.Valid() && ring.remaining == 0
    ensures ring.nextIndex == (old(ring.nextIndex) + old(ring.remaining)) % Capacity
    ensures written.Some? == file.Some?
    ensures ring.Intact ==> ring.Contents == [] && written == Append(file, Rows(table, old(ring.Contents)))
  {
    ghost var poses := ring.Contents;
    ghost var taken := 0;
    assert file.Some? ==> file.value.rows + [] == file.value.rows;
    written := file;
    while true
      invariant ring.Valid() && ring.bufferIndex == old(ring.bufferIndex)
      invariant 0 <= taken <= old(ring.remaining) && ring.remaining == old(ring.remaining) - taken
      invariant written.Some? == file.Some?
      invariant ring.Intact ==> taken <= |poses| && ring.Contents == poses[taken..] &&
                                written == Append(file, Rows(table, poses[..taken]))
      decreases ring.remaining
    {
      var item := ring.TryPop();
      if item.None? {
        break;
      }
      var row := WriteRow(table, item.value.timeStamp, item.value.joints);
      if ring.Intact {
        AppendRow(file, table, poses, taken);
      }
      written := Append(written, [row]);
      taken := taken + 1;
    }
    ConsumerPosition(old(ring.nextIndex), old(ring.remaining), ring.nextIndex, ring.remaining, ring.bufferIndex);
    if ring.Intact {
      assert poses[..taken] == poses;
    }
  }

  class Recorder {
    /** `m_shutdown`, `m_run` and `m_run2` */
    var shutdown: bool
    var run: bool
    var run2: bool
    /** `m_processEncode`: the last callback handed a frame to an encoder */
    var processEncode: bool
    /** `m_dataBuffer` with `m_bufferIndex`, `m_remainingBuffers` and `m_nextBufferIndex` */
    const ring: Ring<PoseSlot>
    /** `m_depthImage`, `m_colourImage`, `m_irImage` and `m_bodySkeleton` */
    var options: Options
    /** `m_skeletonFile` while it is open */
    var skeletonFile: Option<PoseFile>
    /** The pose files closed so far, in order. */
    ghost var Written: seq<PoseFile>
    /** The session set up last: its id and its file stem. */
    ghost var SessionId: int
    ghost var Session: string
    /** `m_pid` */
    var pid: int
    /** `s_jointNames`: the joints written to the pose file, in column order */
    const jointNames: seq<(nat, string)>
    /** The header line of every pose file. It depends on `s_jointNames`
        only, so it is rendered once, when the recorder is built. */
    const header: seq<string>
    /** `m_encoders[0]`, `[1]` and `[2]` */
    const depth: Encoder
    const colour: Encoder
    const ir: Encoder
    /** `m_errorCallback`, shared with the encoders */
    const log: ErrorLog
    var calibration: Calibration
    /** Where the record thread is. */
    var phase: Phase

    /** The three encoders are distinct and share no part. */
    ghost predicate Separate() {
      depth != colour && depth != ir && colour != ir &&
      depth.ring != colour.ring && depth.ring != ir.ring && colour.ring != ir.ring &&
      depth.ring.slots != colour.ring.slots && depth.ring.slots != ir.ring.slots && colour.ring.slots != ir.ring.slots &&
      depth.filter != colour.filter && depth.filter != ir.filter && colour.filter != ir.filter
    }

    /** The ring and the encoders are consistent, the encoders report to
        the recorder's log and share no part. */
    ghost predicate Valid()
      reads ring, ring.slots, depth`frameNumber, depth`Submitted, depth`output, depth.ring, depth.ring.slots, depth.filter`graph,
            colour`frameNumber, colour`Submitted, colour`output, colour.ring, colour.ring.slots, colour.filter`graph,
            ir`frameNumber, ir`Submitted, ir`output, ir.ring, ir.ring.slots, ir.filter`graph
    {
      ring.Valid() && depth.Valid() && colour.Valid() && ir.Valid() &&
      depth.Attached() && colour.Attached() && ir.Attached() &&
      depth.log == log && colour.log == log && ir.log == log && Separate()
    }

    /** `m_run2` is only set inside a recording session, the record
        thread returns only on a shutdown, and outside a session the pose
        file and every encoder output are closed. */
    ghost predicate Phases()
      reads this, depth`output, colour`output, ir`output
    {
      (run2 ==> phase == Recording) && (phase == Finished ==> shutdown) &&
      (phase != Recording ==> skeletonFile == None && depth.output == None && colour.output == None && ir.output == None)
    }

    /** A default-constructed recorder after `init`: flags clear, ring
        counters 0, depth and skeleton recording on, colour and IR off,
        three idle encoders, and the record thread started. */
    constructor (log: ErrorLog)
      ensures Valid() && Phases() && this.log == log
      ensures !shutdown && !run && !run2 && !processEncode && phase == Idle
      ensures ring.bufferIndex == 0 && ring.remaining == 0 && ring.nextIndex == 0 && ring.Contents == [] && ring.Intact
      ensures options == Options(true, false, false, true)
      ensures skeletonFile == None && Written == [] && pid == 0
      ensures jointNames == JointNames && header == HeaderLabels(JointNames)
      ensures depth.output == None && colour.output == None && ir.output == None
      ensures depth.frameNumber == 0 && colour.frameNumber == 0 && ir.frameNumber == 0
    {
      shutdown, run, run2, processEncode := false, false, false, false;
      ring := new Ring();
      options := Options(true, false, false, true);
      skeletonFile, Written := None, [];
      SessionId, Session := 0, "";
      pid := 0;
      jointNames := JointNames;
      var labels := Pose.WriteHeader(JointNames);
      header := labels;
      depth := new Encoder(log);
      colour := new Encoder(log);
      ir := new Encoder(log);
      this.log := log;
      calibration := Calibration(0, 0, 0, 0, 0, 0, 0);
      phase := Idle;
    }

    /** `start`: remember the player id and ask the record thread to run. */
    method Start(pid: int)
      requires Valid()
      modifies this`pid, this`run
      ensures Valid() && this.pid == pid && run
    {
      this.pid := pid;
      run := true;
    }

    /** `stop`: ask the record thread to end the session. */
    method Stop()
      requires Valid()
      modifies this`run
      ensures Valid() && !run
    {
      run := false;
    }

    /** `setRecordOptions` */
    method SetRecordOptions(depthImage: bool, colourImage: bool, irImage: bool, bodySkeleton: bool)
      requires Valid()
      modifies this`options
      ensures Valid() && options == Options(depthImage, colourImage, irImage, bodySkeleton)
    {
      options := Options(depthImage, colourImage, irImage, bodySkeleton);
    }

    /** `updateCalibration` */
    method UpdateCalibration(calibration: Calibration)
      requires Valid()
      modifies this`calibration
      ensures Valid() && this.calibration == calibration
    {
      this.calibration := calibration;
    }

    /** The encoders' outputs after a successful `initOutput` for the
        session with file stem `stem`. */
    ghost predicate Streaming(stem: string, threads: nat)
      reads this`options, this`calibration, depth`output, colour`output, ir`output
    {
      var c := calibration;
      depth.output == StreamOutput(options.depthImage, stem + DepthSuffix, c.depthWidth, c.depthHeight, c.fps, threads) &&
      SideStreaming(stem, threads)
    }

    /** The colour and IR part of `Streaming`. */
    ghost predicate SideStreaming(stem: string, threads: nat)
      reads this`options, this`calibration, colour`output, ir`output
    {
      var c := calibration;
      colour.output == StreamOutput(options.colourImage, stem + ColourSuffix, c.colourWidth, c.colourHeight, c.fps, threads) &&
      ir.output == StreamOutput(options.irImage, stem + IrSuffix, c.irWidth, c.irHeight, c.fps, threads)
    }

    /** Every encoder output is closed. */
    ghost predicate Closed()
      reads depth`output, colour`output, ir`output
    {
      depth.output == None && colour.output == None && ir.output == None
    }

    /** `Encoder::shutdown` on one of the recorder's encoders. */
    method ShutdownStream(e: Encoder, lib: StreamLibrary)
      requires Valid() && (e == depth || e == colour || e == ir)
      modifies e`output, log`messages
      ensures Valid() && e.output == None
      ensures log.messages == old(log.messages) + ShutdownReports(old(e.filter.graph).Some?, old(e.output).Some?, lib.flush, lib.final)
    {
      e.Shutdown(lib.flush, lib.final);
      depth.StaysValid();
      colour.StaysValid();
      ir.StaysValid();
      ring.Kept();
    }

    /** `cleanupOutput`: close the pose file if it is open, then shut down
        the depth, colour and IR encoders in that order. */
    method CleanupOutput(libs: Libraries)
      requires Valid()
      modifies this`skeletonFile, this`Written, log`messages, depth`output, colour`output, ir`output
      ensures Valid() && Closed() && skeletonFile == None
      ensures Written == old(Written) + (if old(skeletonFile).Some? then [old(skeletonFile).value] else [])
      ensures |log.messages| >= |old(log.messages)| && log.messages[..|old(log.messages)|] == old(log.messages)
    {
      CloseFile();
      ShutdownStream(depth, libs.depth);
      ShutdownStream(colour, libs.colour);
      ShutdownStream(ir, libs.ir);
    }

    /** Closing the pose file, which is then written for good. */
    method CloseFile()
      modifies this`skeletonFile, this`Written
      ensures skeletonFile == None
      ensures Written == old(Written) + (if old(skeletonFile).Some? then [old(skeletonFile).value] else [])
    {
      if skeletonFile.Some? {
        Written := Written + [skeletonFile.value];
        skeletonFile := None;
      }
    }

    /** The directory part of `initOutput`: the session takes the smallest
        id whose directory does not exist yet, and the directory is created;
        a creation that fails with an error code is reported. */
    method OpenSession(env: Environment) returns (ok: bool, stem: string)
      modifies this`SessionId, this`Session, log`messages
      ensures ok == env.created && stem == Session
      ensures SmallestFree(pid, env.existing, SessionId) && Session == SessionStem(pid, SessionId, env.date)
      ensures log.messages == old(log.messages) +
        (if !env.created && env.createError.Some? then [DirectoryMessage(ScanDir(pid, SessionId), env.createError.value)] else [])
    {
      var digits := ToString(pid, 3);
      var pidString := "PID" + digits;
      var scanID, dir := FindSessionDir(pid, env.existing);
      stem := dir + "/" + pidString + env.date;
      SessionId, Session := scanID, stem;
      ok := env.created;
      if !ok && env.createError.Some? {
        log.Send(DirectoryMessage(dir, env.createError.value));
      }
    }

    /** The pose file part of `initOutput`: when skeletons are recorded,
        open "<stem>.csv" and write the header; a file that does not open
        fails the set-up without a report. */
    method OpenPoseFile(stem: string, opens: bool) returns (ok: bool)
      modifies this`skeletonFile
      ensures ok == (!options.bodySkeleton || opens)
      ensures skeletonFile == if options.bodySkeleton && opens then Some(NewPoseFile(stem, header)) else old(skeletonFile)
    {
      ok := true;
      if options.bodySkeleton {
        if !opens {
          return false;
        }
        skeletonFile := Some(PoseFile(stem + PoseSuffix, header, []));
      }
    }

    /** The encoder part of `initOutput`: with any image stream enabled, the
        spare hardware threads are shared among them and the encoders of the
        enabled streams started in the order depth, colour, IR, on
        "<stem>_depth.mp4", "<stem>_colour.mp4" and "<stem>_ir.mp4", until
        one fails. */
    method StartEncoders(stem: string, hardware: UInt32, libs: Libraries) returns (ok: bool)
      requires Valid() && Closed()
      modifies depth, depth.ring, depth.filter`graph, colour, colour.ring, colour.filter`graph, ir, ir.ring, ir.filter`graph, log`messages
      ensures Valid()
      ensures ok == AllStart(options, stem, libs)
      ensures ok ==> Streaming(stem, Threads(options, hardware))
    {
      ok := true;
      var streams := StreamCount(options);
      if streams == 0 {
        return;
      }
      var threads := ThreadCount(hardware, streams);
      var c := calibration;
      ok := StartEncoder(depth, options.depthImage, stem + DepthSuffix, c.depthWidth, c.depthHeight, c.fps,
                         Gray16LE, threads, libs.depth);
      if ok {
        ok := StartSideEncoders(stem, threads, libs);
      }
    }

    /** The colour and IR encoders of `initOutput`, started in that order
        until one fails. */
    method StartSideEncoders(stem: string, threads: nat, libs: Libraries) returns (ok: bool)
      requires Valid() && colour.output == None && ir.output == None
      modifies colour, colour.ring, colour.filter`graph, ir, ir.ring, ir.filter`graph, log`messages
      ensures Valid()
      ensures ok == ((options.colourImage ==> Starts(libs.colour, BGRA, stem + ColourSuffix)) &&
                     (options.irImage ==> Starts(libs.ir, Gray16LE, stem + IrSuffix)))
      ensures ok ==> SideStreaming(stem, threads)
    {
      var c := calibration;
      ok := StartEncoder(colour, options.colourImage, stem + ColourSuffix, c.colourWidth, c.colourHeight, c.fps,
                         BGRA, threads, libs.colour);
      if ok {
        ok := StartEncoder(ir, options.irImage, stem + IrSuffix, c.irWidth, c.irHeight, c.fps,
                           Gray16LE, threads, libs.ir);
      }
    }

    /** `initOutput`: close what is still open, set up the next session's
        directory, its pose file and its encoders; an encoder that fails to
        start closes everything again. */
    method InitOutput(env: Environment, libs: Libraries) returns (ok: bool)
      requires Valid()
      modifies this`skeletonFile, this`Written, this`SessionId, this`Session, log`messages,
               depth, depth.ring, depth.filter`graph, colour, colour.ring, colour.filter`graph, ir, ir.ring, ir.filter`graph
      ensures Valid()
      ensures SmallestFree(pid, env.existing, SessionId) && Session == SessionStem(pid, SessionId, env.date)
      ensures ok == Opens(options, env, Session, libs)
      ensures ok ==> skeletonFile == (if options.bodySkeleton then Some(NewPoseFile(Session, header)) else None) &&
                     Streaming(Session, Threads(options, env.hardware))
      ensures !ok ==> skeletonFile == None && Closed()
      ensures |Written| >= |old(Written)| && Written[..|old(Written)|] == old(Written)
    {
      CleanupOutput(libs);
      var stem;
      ok, stem := OpenSession(env);
      if ok {
        ok := OpenFiles(stem, env.fileOpens, env.hardware, libs);
      }
    }

    /** The files of `initOutput` once the session directory exists: the
        pose file, then the encoders; an encoder that fails to start closes
        everything again. */
    method OpenFiles(stem: string, opens: bool, hardware: UInt32, libs: Libraries) returns (ok: bool)
      requires Valid() && Closed() && skeletonFile == None
      modifies this`skeletonFile, this`Written, log`messages,
               depth, depth.ring, depth.filter`graph, colour, colour.ring, colour.filter`graph, ir, ir.ring, ir.filter`graph
      ensures Valid()
      ensures ok == ((!options.bodySkeleton || opens) && AllStart(options, stem, libs))
      ensures ok ==> skeletonFile == (if options.bodySkeleton then Some(NewPoseFile(stem, header)) else None) &&
                     Streaming(stem, Threads(options, hardware))
      ensures !ok ==> skeletonFile == None && Closed()
      ensures |Written| >= |old(Written)| && Written[..|old(Written)|] == old(Written)
    {
      ok := OpenPoseFile(stem, opens);
      if ok {
        ok := StartOrClose(stem, hardware, libs);
      }
    }

    /** The encoders of `initOutput`; when one fails to start, everything
        is closed again. */
    method StartOrClose(stem: string, hardware: UInt32, libs: Libraries) returns (ok: bool)
      requires Valid() && Closed()
      modifies this`skeletonFile, this`Written, log`messages,
               depth, depth.ring, depth.filter`graph, colour, colour.ring, colour.filter`graph, ir, ir.ring, ir.filter`graph
      ensures Valid()
      ensures ok == AllStart(options, stem, libs)
      ensures ok ==> skeletonFile == old(skeletonFile) && Written == old(Written) && Streaming(stem, Threads(options, hardware))
      ensures !ok ==> skeletonFile == None && Closed()
      ensures |Written| >= |old(Written)| && Written[..|old(Written)|] == old(Written)
    {
      ok := StartEncoders(stem, hardware, libs);
      if !ok {
        CleanupOutput(libs);
      }
    }

    /** The pose writer of the record thread: every outstanding pose is
        taken off the ring, oldest first, and its row appended to the pose
        file (which ignores it when closed). */
    method WriteRows()
      requires Valid()
      modifies this`skeletonFile, ring`remaining, ring`nextIndex, ring`Contents
      ensures Valid() && ring.remaining == 0
      ensures ring.nextIndex == (old(ring.nextIndex) + old(ring.remaining)) % Capacity
      ensures skeletonFile.Some? == old(skeletonFile).Some?
      ensures ring.Intact ==>
        ring.Contents == [] && skeletonFile == Append(old(skeletonFile), Rows(jointNames, old(ring.Contents)))
    {
      skeletonFile := PopRows(ring, jointNames, skeletonFile);
    }

    /** The encoding step of the record thread: depth, colour and IR in
        turn, each when enabled; the first failure ends the step. */
    method ProcessAll(libs: Libraries) returns (ok: bool)
      requires Valid()
      modifies depth`output, depth`Submitted, depth.ring, depth.ring.slots,
               colour`output, colour`Submitted, colour.ring, colour.ring.slots,
               ir`output, ir`Submitted, ir.ring, ir.ring.slots, log
      ensures Valid()
      ensures depth.output.Some? == old(depth.output).Some? && colour.output.Some? == old(colour.output).Some? &&
              ir.output.Some? == old(ir.output).Some?
      ensures ok ==> (options.depthImage ==> depth.ring.remaining == 0) &&
                     (options.colourImage ==> colour.ring.remaining == 0) &&
                     (options.irImage ==> ir.ring.remaining == 0)
    {
      ok := ProcessStream(depth, options.depthImage, libs.depth);
      if ok {
        ok := ProcessSides(libs);
      }
    }

    /** The colour and IR part of the encoding step. */
    method ProcessSides(libs: Libraries) returns (ok: bool)
      requires Valid()
      modifies colour`output, colour`Submitted, colour.ring, colour.ring.slots,
               ir`output, ir`Submitted, ir.ring, ir.ring.slots, log
      ensures Valid()
      ensures colour.output.Some? == old(colour.output).Some? && ir.output.Some? == old(ir.output).Some?
      ensures ok ==> (options.colourImage ==> colour.ring.remaining == 0) && (options.irImage ==> ir.ring.remaining == 0)
    {
      ok := ProcessStream(colour, options.colourImage, libs.colour);
      if ok {
        ok := ProcessStream(ir, options.irImage, libs.ir);
      }
    }

    /** One pass of the session loop once woken: write the outstanding
        poses when skeletons are recorded, then encode. */
    method Drain(libs: Libraries) returns (ok: bool)
      requires Valid()
      modifies this`skeletonFile, ring`remaining, ring`nextIndex, ring`Contents,
               depth`output, depth`Submitted, depth.ring, depth.ring.slots,
               colour`output, colour`Submitted, colour.ring, colour.ring.slots,
               ir`output, ir`Submitted, ir.ring, ir.ring.slots, log
      ensures Valid() && skeletonFile.Some? == old(skeletonFile).Some?
      ensures depth.output.Some? == old(depth.output).Some? && colour.output.Some? == old(colour.output).Some? &&
              ir.output.Some? == old(ir.output).Some?
      ensures options.bodySkeleton ==>
        ring.remaining == 0 && (ring.Intact ==> skeletonFile == Append(old(skeletonFile), Rows(jointNames, old(ring.Contents))))
      ensures !options.bodySkeleton ==> skeletonFile == old(skeletonFile) && ring.remaining == old(ring.remaining)
      ensures ok ==> (options.depthImage ==> depth.ring.remaining == 0) &&
                     (options.colourImage ==> colour.ring.remaining == 0) &&
                     (options.irImage ==> ir.ring.remaining == 0)
    {
      if options.bodySkeleton {
        WriteRows();
      }
      ok := ProcessAll(libs);
    }

    /** The end of a session: `m_run2` is cleared and the output closed;
        the record thread is back at the top of its outer loop. */
    method EndSession(libs: Libraries)
      requires Valid() && (phase == Finished ==> shutdown)
      modifies this`run2, this`phase, this`skeletonFile, this`Written, depth`output, colour`output, ir`output, log`messages
      ensures Valid() && Phases() && phase == Idle && !run2
      ensures Written == old(Written) + (if old(skeletonFile).Some? then [old(skeletonFile).value] else [])
    {
      run2, phase := false, Idle;
      CleanupOutput(libs);
    }

    /** The record thread's return on a shutdown: `cleanup` closes the
        output once more. */
    method Finish(libs: Libraries)
      requires Valid() && shutdown && !run2
      modifies this`phase, this`skeletonFile, this`Written, depth`output, colour`output, ir`output, log`messages
      ensures Valid() && Phases() && phase == Finished
      ensures Written == old(Written) + (if old(skeletonFile).Some? then [old(skeletonFile).value] else [])
    {
      phase := Finished;
      CleanupOutput(libs);
    }

    /** The top of the record thread's outer loop. With neither a start
        nor a shutdown pending the thread waits (`waiting`); on a shutdown
        it returns; otherwise it sets up a session, and when that fails it
        clears `m_run` and is back at the top. */
    method Wake(env: Environment, libs: Libraries) returns (waiting: bool)
      requires Valid() && Phases() && phase == Idle
      modifies this`run, this`phase, this`skeletonFile, this`Written, this`SessionId, this`Session, log`messages,
               depth, depth.ring, depth.filter`graph, colour, colour.ring, colour.filter`graph, ir, ir.ring, ir.filter`graph
      ensures Valid() && Phases()
      ensures waiting == (!old(run) && !shutdown)
      ensures waiting ==> phase == Idle && !run
      ensures shutdown ==> phase == Finished
      ensures !waiting && !shutdown ==>
        SmallestFree(pid, env.existing, SessionId) && Session == SessionStem(pid, SessionId, env.date) &&
        (phase == Recording) == Opens(options, env, Session, libs) && run == (phase == Recording)
      ensures phase == Recording ==>
        skeletonFile == (if options.bodySkeleton then Some(NewPoseFile(Session, header)) else None) &&
        Streaming(Session, Threads(options, env.hardware))
    {
      if !run && !shutdown {
        return true;
      }
      waiting := false;
      if shutdown {
        Finish(libs);
        return;
      }
      Begin(env, libs);
    }

    /** `initOutput` from the top of the outer loop: on success the
        session loop is entered, otherwise `m_run` is cleared. */
    method Begin(env: Environment, libs: Libraries)
      requires Valid() && Phases() && phase == Idle && run
      modifies this`run, this`phase, this`skeletonFile, this`Written, this`SessionId, this`Session, log`messages,
               depth, depth.ring, depth.filter`graph, colour, colour.ring, colour.filter`graph, ir, ir.ring, ir.filter`graph
      ensures Valid() && Phases()
      ensures SmallestFree(pid, env.existing, SessionId) && Session == SessionStem(pid, SessionId, env.date)
      ensures (phase == Recording) == Opens(options, env, Session, libs) && run == (phase == Recording)
      ensures phase == Recording ==>
        skeletonFile == (if options.bodySkeleton then Some(NewPoseFile(Session, header)) else None) &&
        Streaming(Session, Threads(options, env.hardware))
    {
      var ok := InitOutput(env, libs);
      Enter(ok);
    }

    /** After `initOutput`: the session loop is entered, or `m_run` is
        cleared. */
    method Enter(ok: bool)
      modifies this`phase, this`run
      ensures phase == (if ok then Recording else old(phase)) && run == (ok && old(run))
    {
      if ok {
        phase := Recording;
      } else {
        run := false;
      }
    }

    /** One turn of the session loop. `m_run2` is set; with the session
        running and nothing to do (no pose outstanding and no frame handed
        to an encoder by the last callback) the thread waits (`waiting`); on
        a stop or a shutdown the session ends; otherwise the thread works. */
    method Round(libs: Libraries) returns (waiting: bool)
      requires Valid() && Phases() && phase == Recording
      modifies this`run2, this`phase, this`skeletonFile, this`Written, ring`remaining, ring`nextIndex, ring`Contents,
               depth`output, depth`Submitted, depth.ring, depth.ring.slots,
               colour`output, colour`Submitted, colour.ring, colour.ring.slots,
               ir`output, ir`Submitted, ir.ring, ir.ring.slots, log
      ensures Valid() && Phases()
      ensures waiting == (run && !shutdown && old(ring.remaining) == 0 && !processEncode)
      ensures waiting ==> phase == Recording && run2 && skeletonFile == old(skeletonFile)
      ensures !run || shutdown ==>
        phase == Idle && !run2 && Written == old(Written) + (if old(skeletonFile).Some? then [old(skeletonFile).value] else [])
      ensures phase == Recording && !waiting ==> options.bodySkeleton ==> ring.remaining == 0
    {
      waiting := Arm();
      if !waiting {
        Proceed(libs);
      }
    }

    /** The locked part of the session loop's wait: `m_run2` is set and
        the wait condition evaluated. */
    method Arm() returns (waiting: bool)
      modifies this`run2
      ensures run2 && waiting == (run && !shutdown && ring.remaining == 0 && !processEncode)
    {
      run2 := true;
      waiting := run && !shutdown && ring.remaining == 0 && !processEncode;
    }

    /** Woken in the session loop: a stop or a shutdown ends the session,
        anything else is work. */
    method Proceed(libs: Libraries)
      requires Valid() && Phases() && phase == Recording && run2
      modifies this`run2, this`phase, this`skeletonFile, this`Written, ring`remaining, ring`nextIndex, ring`Contents,
               depth`output, depth`Submitted, depth.ring, depth.ring.slots,
               colour`output, colour`Submitted, colour.ring, colour.ring.slots,
               ir`output, ir`Submitted, ir.ring, ir.ring.slots, log
      ensures Valid() && Phases()
      ensures !run || shutdown ==>
        phase == Idle && !run2 && Written == old(Written) + (if old(skeletonFile).Some? then [old(skeletonFile).value] else [])
      ensures phase == Recording ==> options.bodySkeleton ==> ring.remaining == 0
    {
      if !run || shutdown {
        EndSession(libs);
      } else {
        Work(libs);
      }
    }

    /** The work of a turn: the poses are written and the frames encoded;
        a failing encoder ends the session, and the pose file it closes
        holds the rows just written. */
    method Work(libs: Libraries)
      requires Valid() && Phases() && phase == Recording && run2
      modifies this`run2, this`phase, this`skeletonFile, this`Written, ring`remaining, ring`nextIndex, ring`Contents,
               depth`output, depth`Submitted, depth.ring, depth.ring.slots,
               colour`output, colour`Submitted, colour.ring, colour.ring.slots,
               ir`output, ir`Submitted, ir.ring, ir.ring.slots, log
      ensures Valid() && Phases() && (phase == Recording || phase == Idle) && run2 == (phase == Recording)
      ensures options.bodySkeleton ==> ring.remaining == 0
      ensures phase == Recording ==>
        (options.bodySkeleton && ring.Intact ==> skeletonFile == Append(old(skeletonFile), Rows(jointNames, old(ring.Contents)))) &&
        (options.depthImage ==> depth.ring.remaining == 0) && (options.colourImage ==> colour.ring.remaining == 0) &&
        (options.irImage ==> ir.ring.remaining == 0)
      ensures phase == Idle ==>
        |Written| == |old(Written)| + (if old(skeletonFile).Some? then 1 else 0) && Written[..|old(Written)|] == old(Written)
      ensures phase == Idle && old(skeletonFile).Some? && options.bodySkeleton && ring.Intact ==>
        Written[|Written| - 1] == Append(old(skeletonFile), Rows(jointNames, old(ring.Contents))).value
    {
      var ok := Drain(libs);
      if !ok {
        EndSession(libs);
      }
    }

    /** `shutdown`: the session is stopped, the shutdown flag set, and the
        record thread runs to its end, closing the output (twice when a
        session was running: once at its end and once in `cleanup`). */
    method Shutdown(libs: Libraries)
      requires Valid() && Phases()
      modifies this`run, this`shutdown, this`run2, this`phase, this`skeletonFile, this`Written,
               depth`output, colour`output, ir`output, log
      ensures Valid() && Phases() && phase == Finished && shutdown && !run && !run2
      ensures skeletonFile == None && Closed()
      ensures Written == old(Written) + (if old(skeletonFile).Some? then [old(skeletonFile).value] else [])
    {
      run, shutdown := false, true;
      if phase != Finished {
        Join(libs);
      }
    }

    /** The record thread's way out once the shutdown flag is set: a
        running session ends, then the thread returns. */
    method Join(libs: Libraries)
      requires Valid() && Phases() && shutdown && phase != Finished
      modifies this`run2, this`phase, this`skeletonFile, this`Written, depth`output, colour`output, ir`output, log`messages
      ensures Valid() && Phases() && phase == Finished && !run2
      ensures Written == old(Written) + (if old(skeletonFile).Some? then [old(skeletonFile).value] else [])
    {
      if phase == Recording {
        EndSession(libs);
      }
      Finish(libs);
    }

    /** The encoder half of the callback on the recorder's own encoders,
        with the recorder's options; the pose ring is left alone. */
    method FeedEncoders(depthFrame: Option<Image>, colourFrame: Option<Image>, irFrame: Option<Image>, libs: Libraries)
      returns (ok: bool, fed: bool)
      requires Valid()
      modifies log`messages, depth`frameNumber, depth.ring, depth.ring.slots, colour`frameNumber, colour.ring, colour.ring.slots,
               ir`frameNumber, ir.ring, ir.ring.slots
      ensures Valid()
      ensures ok == AllPass(old(options), depthFrame, colourFrame, irFrame, libs)
      ensures fed == FedAny(old(options), depthFrame, colourFrame, irFrame, libs)
      ensures AllFed(old(options), depthFrame, colourFrame, irFrame, libs, old(depth.State()), depth.State(),
                     old(colour.State()), colour.State(), old(ir.State()), ir.State())
      ensures unchanged(ring)
    {
      ok, fed := FeedAll(depth, colour, ir, options, depthFrame, colourFrame, irFrame, libs);
      ring.Kept();
    }

    /** `dataCallback`: outside a running session nothing happens. */
    method DataCallback(time: nat, depthFrame: Option<Image>, colourFrame: Option<Image>, irFrame: Option<Image>,
                        joints: seq<Joint>, libs: Libraries)
      requires Valid()
      modifies this`processEncode, this`run, ring, ring.slots, log`messages,
               depth`frameNumber, depth.ring, depth.ring.slots, colour`frameNumber, colour.ring, colour.ring.slots,
               ir`frameNumber, ir.ring, ir.ring.slots
      ensures Valid()
      ensures !(old(run) && old(run2)) ==>
        unchanged(this, ring, ring.slots, log) && unchanged(depth, depth.ring, depth.ring.slots) &&
        unchanged(colour, colour.ring, colour.ring.slots) && unchanged(ir, ir.ring, ir.ring.slots)
      ensures old(run) && old(run2) ==>
        AllFed(old(options), depthFrame, colourFrame, irFrame, libs, old(depth.State()), depth.State(),
               old(colour.State()), colour.State(), old(ir.State()), ir.State()) &&
        processEncode == FedAny(old(options), depthFrame, colourFrame, irFrame, libs)
      ensures old(run) && old(run2) ==>
        var commit := Commits(old(options), depthFrame, colourFrame, irFrame, joints, libs);
        ring.remaining == old(ring.remaining) + (if commit then 1 else 0) &&
        (ring.Intact ==> ring.Contents == old(ring.Contents) + (if commit then [PoseSlot(time, joints)] else [])) &&
        run == !(commit && ring.remaining == Capacity - 1)
    {
      if run && run2 {
        Capture(time, depthFrame, colourFrame, irFrame, joints, libs);
      }
    }

    /** `dataCallback` inside a running session: the timestamp goes into
        the pose ring's write slot, each enabled stream's image goes to its
        encoder (a failure there ends the callback), and when skeletons are
        recorded and joints were seen the joints go into the slot too and it
        is committed; the commit that leaves exactly 15 poses outstanding
        stops the session and reports the overflow. */
    method Capture(time: nat, depthFrame: Option<Image>, colourFrame: Option<Image>, irFrame: Option<Image>,
                   joints: seq<Joint>, libs: Libraries)
      requires Valid()
      modifies this`processEncode, this`run, ring, ring.slots, log`messages,
               depth`frameNumber, depth.ring, depth.ring.slots, colour`frameNumber, colour.ring, colour.ring.slots,
               ir`frameNumber, ir.ring, ir.ring.slots
      ensures Valid()
      ensures AllFed(old(options), depthFrame, colourFrame, irFrame, libs, old(depth.State()), depth.State(),
                     old(colour.State()), colour.State(), old(ir.State()), ir.State())
      ensures processEncode == FedAny(old(options), depthFrame, colourFrame, irFrame, libs)
      ensures var commit := Commits(old(options), depthFrame, colourFrame, irFrame, joints, libs);
        ring.remaining == old(ring.remaining) + (if commit then 1 else 0) &&
        (ring.Intact ==> ring.Contents == old(ring.Contents) + (if commit then [PoseSlot(time, joints)] else [])) &&
        run == (old(run) && !(commit && ring.remaining == Capacity - 1))
    {
      var ok, fed := FeedEncoders(depthFrame, colourFrame, irFrame, libs);
      Keep(time, joints, ok && options.bodySkeleton && |joints| > 0, fed);
    }

    /** The rest of the callback once the encoders have their frames:
        note whether any was queued, store the pose and check for an
        overflow. */
    method Keep(time: nat, joints: seq<Joint>, commit: bool, fed: bool)
      requires Valid()
      modifies this`processEncode, this`run, ring, ring.slots, log`messages
      ensures Valid() && processEncode == fed
      ensures depth.State() == old(depth.State()) && colour.State() == old(colour.State()) && ir.State() == old(ir.State())
      ensures ring.remaining == old(ring.remaining) + (if commit then 1 else 0)
      ensures ring.Intact ==> ring.Contents == old(ring.Contents) + (if commit then [PoseSlot(time, joints)] else [])
      ensures run == (old(run) && !(commit && ring.remaining == Capacity - 1))
    {
      processEncode := fed;
      var overflow := StorePose(time, joints, commit);
      Overflow(overflow);
      Untouched(depth);
      Untouched(colour);
      Untouched(ir);
    }

    /** The pose ring's part of the callback. The capture time goes into
        the write slot; when the pose is to be kept the joints go in too
        and the slot is committed, and `overflow` tells whether that left
        exactly 15 poses outstanding. (The source writes the timestamp
        before handing images to the encoders; the ring and the encoders
        share nothing, so the order is not observable.) */
    method StorePose(time: nat, joints: seq<Joint>, commit: bool) returns (overflow: bool)
      requires ring.Valid()
      modifies ring, ring.slots
      ensures ring.Valid()
      ensures ring.slots[..] == old(ring.slots[..])[old(ring.bufferIndex) % Capacity :=
                if commit then PoseSlot(time, joints) else old(ring.WriteSlot()).(timeStamp := time)]
      ensures ring.bufferIndex == (if commit then (old(ring.bufferIndex) + 1) % IndexModulus else old(ring.bufferIndex))
      ensures ring.remaining == old(ring.remaining) + (if commit then 1 else 0) && ring.nextIndex == old(ring.nextIndex)
      ensures ring.Intact == (old(ring.Intact) && old(ring.remaining) < Capacity)
      ensures ring.Intact ==> ring.Contents == old(ring.Contents) + (if commit then [PoseSlot(time, joints)] else [])
      ensures overflow == (commit && ring.remaining == Capacity - 1)
    {
      if commit {
        ring.Stage(PoseSlot(time, joints));
        overflow := ring.Commit();
      } else {
        ring.Stage(ring.WriteSlot().(timeStamp := time));
        overflow := false;
      }
    }

    /** On an overflow of the pose ring the session is stopped and the
        overflow reported. */
    method Overflow(overflow: bool)
      modifies this`run, log`messages
      ensures run == (old(run) && !overflow)
      ensures log.messages == old(log.messages) + (if overflow then [Report("Write buffer has overflowed")] else [])
      ensures overflow ==> |log.messages| > 0 && log.messages[|log.messages| - 1] == Report("Write buffer has overflowed")
    {
      if overflow {
        run := false;
        log.Send(Report("Write buffer has overflowed"));
      }
    }
  }
}
