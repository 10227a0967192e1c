/** One video stream of a recording: frames from the capture thread are
    copied, numbered and queued on a 16-slot ring (`Encoder::addFrame`),
    and the recording thread drains the ring through the filter chain into
    the H.264 encoder and the muxer (`process`, `processFrame`,
    `encodeFrame`, `muxFrames`). The library is an abstract backend that
    answers each call with a return code. */
module Encoder {
  import opened Common
  import opened FrameRing
  import opened FilterGraph

  /** One copied input frame waiting on the ring. A slot of the ring holds
      a frame or, once the frame has been moved out of it (and before the
      first frame reaches it), the null `None`. */
  datatype Frame = Frame(format: PixelFormat, width: bv32, height: bv32, align: int, data: seq<bv8>, number: nat)

  // -----------------------------------------------------------------------
  // Input buffer alignment

  /** `FFALIGN(x, a)` on `uint32_t`: round x up to a multiple of the power
      of two a, wrapping at 2^32. */
  function FFAlign(x: bv32, a: bv32): bv32 {
    (x + a - 1) & !(a - 1)
  }

  /** For a power of two whose rounding does not wrap, FFALIGN gives the
      smallest multiple of a that is at least x. */
  lemma FFAlignRoundsUp(x: bv32, a: bv32)
    requires a != 0 && a & (a - 1) == 0
    requires x <= 0xFFFF_FFFF - (a - 1)
    ensures FFAlign(x, a) & (a - 1) == 0
    ensures x <= FFAlign(x, a) && FFAlign(x, a) - x < a
  {
  }

  /** Bytes per pixel as the source assumes them: 4 for BGRA, else 2. */
  function PixelSize(format: PixelFormat): bv32 {
    if format == BGRA then 4 else 2
  }

  /** `width * pixSize`, computed in `uint32_t`. */
  function RowBytes(width: bv32, format: PixelFormat): bv32 {
    width * PixelSize(format)
  }

  /** The stride is the row rounded up to `align`. */
  predicate Fits(row: bv32, stride: bv32, align: nat) {
    align < 0x1_0000_0000 && FFAlign(row, align as bv32) == stride
  }

  /** The search from `align` upwards: the first power tried that fits,
      or the first one past `maxAlign`. */
  function SearchFrom(row: bv32, stride: bv32, maxAlign: int, align: nat): nat
    requires align >= 1
    decreases maxAlign - align
  {
    if align > maxAlign || Fits(row, stride, align) then align
    else SearchFrom(row, stride, maxAlign, align + align)
  }

  /** The alignment `Encoder::addFrame` settles on for a row of `row`
      bytes, a stride of `stride` bytes and `av_cpu_max_align()` = `maxAlign`. */
  function Alignment(row: bv32, stride: bv32, maxAlign: int): nat {
    SearchFrom(row, stride, maxAlign, 1)
  }

  /** What the alignment search means: the smallest power of two up to
      `maxAlign` under which the stride is the padded row, and otherwise the
      first power of two above `maxAlign`. */
  ghost predicate ChosenAlignment(row: bv32, stride: bv32, maxAlign: int, align: int) {
    IsPow2(align) &&
    (forall p :: IsPow2(p) && p < align ==> !Fits(row, stride, p)) &&
    (align <= maxAlign ==> Fits(row, stride, align)) &&
    (align > maxAlign ==> align == 1 || align <= 2 * maxAlign)
  }

  lemma {:induction false} SearchChosen(row: bv32, stride: bv32, maxAlign: int, align: nat)
    requires IsPow2(align) && (align == 1 || align <= 2 * maxAlign)
    requires forall p :: IsPow2(p) && p < align ==> !Fits(row, stride, p)
    ensures ChosenAlignment(row, stride, maxAlign, SearchFrom(row, stride, maxAlign, align))
    decreases maxAlign - align
  {
    if !(align > maxAlign || Fits(row, stride, align)) {
      forall p | IsPow2(p) && p < align + align
        ensures !Fits(row, stride, p)
      {
        Pow2Gap(p, align);
      }
      Pow2Double(align);
      SearchChosen(row, stride, maxAlign, align + align);
    }
  }

  lemma AlignmentChosen(row: bv32, stride: bv32, maxAlign: int)
    ensures ChosenAlignment(row, stride, maxAlign, Alignment(row, stride, maxAlign))
  {
    SearchChosen(row, stride, maxAlign, 1);
  }

  /** The search determines its result: two alignments that both meet the
      description are the same. */
  lemma ChosenAlignmentUnique(row: bv32, stride: bv32, maxAlign: int, a: int, b: int)
    requires ChosenAlignment(row, stride, maxAlign, a) && ChosenAlignment(row, stride, maxAlign, b)
    ensures a == b
  {
    AlignAtMost(row, stride, maxAlign, a, b);
    AlignAtMost(row, stride, maxAlign, b, a);
  }

  lemma AlignAtMost(row: bv32, stride: bv32, maxAlign: int, a: int, b: int)
    requires ChosenAlignment(row, stride, maxAlign, a) && ChosenAlignment(row, stride, maxAlign, b)
    ensures b <= a
  {
    if a > maxAlign && b > maxAlign && b != 1 {
      Pow2Gap(b, a);
    }
  }

  /** The alignment loop of `Encoder::addFrame`: try 1, 2, 4, ... up to
      `av_cpu_max_align()` and stop at the first that reproduces the stride. */
  method FindAlignment(row: bv32, stride: bv32, maxAlign: int) returns (align: nat)
    ensures align == Alignment(row, stride, maxAlign)
  {
    align := 1;
    while align <= maxAlign
      invariant align >= 1
      invariant SearchFrom(row, stride, maxAlign, align) == Alignment(row, stride, maxAlign)
      decreases maxAlign - align
    {
      if Fits(row, stride, align) {
        break;
      }
      align := align + align;
    }
  }

  // -----------------------------------------------------------------------
  // Calls into the library

  /** The library calls of `Encoder::init` after the filter, in order. */
  datatype InitStep =
    | AllocOutput             // avformat_alloc_output_context2
    | NewStream               // avformat_new_stream
    | FindEncoder             // avcodec_find_encoder(H264)
    | AllocCodec              // avcodec_alloc_context3
    | OpenCodec               // avcodec_open2
    | CopyParams              // avcodec_parameters_from_context
    | OpenFile(name: string)  // avio_open, unless the muxer has AVFMT_NOFILE
    | WriteHeader(name: string)

  function InitPlan(filename: string, noFile: bool): seq<InitStep> {
    [AllocOutput, NewStream, FindEncoder, AllocCodec, OpenCodec, CopyParams] +
    (if noFile then [] else [OpenFile(filename)]) + [WriteHeader(filename)]
  }

  function InitMessage(step: InitStep, code: int): Message {
    match step
    case AllocOutput => ReportCode("Failed to open output stream ", code)
    case NewStream => Report("Failed to create an output stream")
    case FindEncoder => Report("Requested encoder is not supported")
    case AllocCodec => Report("Failed allocating encoder context")
    case OpenCodec => ReportCode("Failed opening video encoder: ", code)
    case CopyParams => ReportCode("Failed copying parameters to encoder context: ", code)
    case OpenFile(name) => ReportCode("Failed to open output file: " + name + ", ", code)
    case WriteHeader(name) => ReportCode("Failed writing header to output file: " + name + ", ", code)
  }

  /** The library calls of `Encoder::addFrame` that can fail. */
  datatype AddStep = AllocFrame | GetBuffer | FillArrays

  const AddPlan: seq<AddStep> := [AllocFrame, GetBuffer, FillArrays]

  function AddMessage(step: AddStep, code: int): Message {
    match step
    case AllocFrame => Report("Failed to allocate new host frame")
    case GetBuffer => ReportCode("Failed allocating new frame storage, ", code)
    case FillArrays => ReportCode("Failed to copy new frame, ", code)
  }

  /** One `avcodec_receive_packet` and, when it yields a packet, the
      `av_interleaved_write_frame` that follows. */
  datatype MuxReply = MuxReply(receive: int, write: int)

  /** The replies the library gives to one `processFrame`. */
  datatype FrameReplies = FrameReplies(
    filterSend: int,       // av_buffersrc_add_frame
    filterReceive: int,    // av_buffersink_get_frame
    codecSend: int,        // avcodec_send_frame
    mux: seq<MuxReply>,    // the packets muxFrames drains
    trailer: int)          // av_write_trailer (flush branch only)

  /** The settings `Encoder::init` gives the codec: the frame size and
      rate, and the "crf", "preset" and (when not 0) "threads" options. */
  datatype Settings = Settings(width: int, height: int, fps: int, crf: string, preset: string, threads: Option<int>)

  /** The "crf" and "preset" options every stream is encoded with. */
  const Crf := "23"
  const Preset := "ultrafast"

  /** The codec settings of a stream of `width` x `height` at `fps`
      encoded on `threads` threads, 0 leaving the choice to the codec. */
  function CodecSettings(width: int, height: int, fps: int, threads: nat): (s: Settings)
    ensures s.crf == "23" && s.preset == "ultrafast"
    ensures s.threads.Some? <==> threads != 0
    ensures s.threads.Some? ==> s.threads.value == threads
  {
    Settings(width, height, fps, Crf, Preset, if threads != 0 then Some(threads) else None)
  }

  /** The open output file: what it was opened with, how many packets have
      been written to it and how many times its trailer has been written. */
  datatype Output = Output(filename: string, settings: Settings, packets: nat, trailers: nat)

  /** What `muxFrames` does: packets written, success, and the report. */
  datatype MuxResult = MuxResult(ok: bool, packets: nat, report: Option<Message>)

  /** `muxFrames`: drain packets until the codec asks for input or reaches
      the end; a failed receive or write stops with a report. A reply list
      that runs out stands for the codec asking for input. */
  function MuxRun(replies: seq<MuxReply>): (r: MuxResult)
    ensures r.packets <= |replies|
    ensures r.ok <==> r.report.None?
    decreases |replies|
  {
    if replies == [] then MuxResult(true, 0, None)
    else
      var rcv := replies[0].receive;
      if rcv == AgainCode || rcv == EofCode then MuxResult(true, 0, None)
      else if rcv < 0 then MuxResult(false, 0, Some(ReportCode("Failed to receive encoded frame: ", rcv)))
      else if replies[0].write < 0 then
        MuxResult(false, 0, Some(ReportCode("Failed to write encoded frame: ", replies[0].write)))
      else
        var rest := MuxRun(replies[1..]);
        MuxResult(rest.ok, rest.packets + 1, rest.report)
  }

  /** Everything one call does to the output: success, packets and
      trailers written, and the messages sent. */
  datatype Effect = Effect(ok: bool, packets: nat, trailers: nat, reports: seq<Message>)

  function MuxEffect(m: MuxResult): Effect {
    Effect(m.ok, m.packets, 0, Reported(m.report))
  }

  /** `encodeFrame`: a frame is sent to the codec and its packets muxed; a
      null frame flushes the codec, muxes what is left and writes the
      trailer. */
  function EncodeEffect(frame: Option<Frame>, r: FrameReplies): (e: Effect)
    ensures e.trailers <= 1 && (e.trailers == 1 ==> frame.None?)
    ensures e.ok ==> (frame.None? <==> e.trailers == 1)
    ensures e.ok <==> e.reports == []
  {
    if frame.Some? then
      if r.codecSend < 0 then Effect(false, 0, 0, [ReportCode("Failed to send packet to encoder: ", r.codecSend)])
      else MuxEffect(MuxRun(r.mux))
    else
      if r.codecSend < 0 then Effect(false, 0, 0, [ReportCode("Failed to send flush packet to encoder: ", r.codecSend)])
      else
        var m := MuxRun(r.mux);
        if !m.ok then MuxEffect(m)
        else if r.trailer < 0 then Effect(false, m.packets, 1, [ReportCode("Failed to write file trailer: ", r.trailer)])
        else Effect(true, m.packets, 1, [])
  }

  /** `processFrame`: into the filter, out of the filter, into the codec.
      The frame handed to the codec is the one handed to the
      filter, so a null frame stays null and takes the flush branch. */
  function FrameEffect(frame: Option<Frame>, r: FrameReplies): (e: Effect)
    ensures e.ok ==> r.filterSend >= 0 && r.filterReceive >= 0 && r.codecSend >= 0
    ensures r.filterSend < 0 || r.filterReceive < 0 ==> e.packets == 0 && e.trailers == 0
  {
    var send := SendFrame(r.filterSend);
    if !send.ok then Effect(false, 0, 0, Sent(send))
    else
      var recv := ReceiveFrame(r.filterReceive);
      if !recv.ok then Effect(false, 0, 0, Sent(recv))
      else EncodeEffect(frame, r)
  }

  /** Two effects one after the other. */
  function Then(a: Effect, b: Effect): Effect {
    Effect(b.ok, a.packets + b.packets, a.trailers + b.trailers, a.reports + b.reports)
  }

  /** What a loop of `processFrame` calls does: the items are processed
      in order until one fails. `count` is how many were taken, the failing
      one included. */
  datatype RunResult = RunResult(count: nat, effect: Effect)

  function UntilFailure<T>(items: seq<T>, effect: T -> Effect): (r: RunResult)
    ensures r.count <= |items|
    ensures r.count < |items| ==> !r.effect.ok
    decreases |items|
  {
    if items == [] then RunResult(0, Effect(true, 0, 0, []))
    else
      var e := effect(items[0]);
      if !e.ok then RunResult(1, e)
      else
        var rest := UntilFailure(items[1..], effect);
        RunResult(rest.count + 1, Then(e, rest.effect))
  }

  /** The run succeeds exactly when every item goes through, and then it
      takes all of them. */
  lemma {:induction false} UntilFailureSucceeds<T>(items: seq<T>, effect: T -> Effect)
    ensures var r := UntilFailure(items, effect);
      (r.effect.ok <==> forall i :: 0 <= i < |items| ==> effect(items[i]).ok) &&
      (r.effect.ok ==> r.count == |items|)
    decreases |items|
  {
    if items != [] {
      UntilFailureSucceeds(items[1..], effect);
      assert forall i :: 1 <= i < |items| ==> items[i] == items[1..][i - 1];
    }
  }

  /** A run that fails stops right after the first item that fails: the
      items before it went through, and the run's effect is theirs
      followed by the failing one's. */
  lemma {:induction false} UntilFailureStops<T>(items: seq<T>, effect: T -> Effect)
    requires !UntilFailure(items, effect).effect.ok
    ensures var r := UntilFailure(items, effect);
      0 < r.count && r.effect == Then(UntilFailure(items[..r.count - 1], effect).effect, effect(items[r.count - 1])) &&
      !effect(items[r.count - 1]).ok &&
      forall i :: 0 <= i < r.count - 1 ==> effect(items[i]).ok
    decreases |items|
  {
    var r := UntilFailure(items, effect);
    var e := effect(items[0]);
    if e.ok {
      var tail := items[1..];
      var rest := UntilFailure(tail, effect);
      UntilFailureStops(tail, effect);
      var pre := items[..r.count - 1];
      assert pre[0] == items[0] && pre[1..] == tail[..rest.count - 1];
      assert items[r.count - 1] == tail[rest.count - 1];
      ThenAssoc(e, UntilFailure(pre[1..], effect).effect, effect(items[r.count - 1]));
      forall i | 0 <= i < r.count - 1 ensures effect(items[i]).ok {
        if i > 0 { assert items[i] == tail[i - 1]; }
      }
    } else {
      assert items[..0] == [];
      NothingThen(e);
    }
  }

  /** Taking the item at position `taken`: it, and then, if it goes
      through, the ones after it. */
  lemma UntilFailureStep<T>(items: seq<T>, taken: nat, effect: T -> Effect)
    requires taken < |items|
    ensures var e := effect(items[taken]);
      var r := UntilFailure(items[taken + 1..], effect);
      UntilFailure(items[taken..], effect) == (if e.ok then RunResult(r.count + 1, Then(e, r.effect)) else RunResult(1, e)) &&
      items[..taken + 1] == items[..taken] + [items[taken]]
  {
    assert items[taken..][0] == items[taken] && items[taken..][1..] == items[taken + 1..];
  }

  /** Having taken `taken` items with effect `done`, the rest of the run
      is `r`. */
  function Resume(done: Effect, taken: nat, r: RunResult): RunResult {
    RunResult(r.count + taken, Then(done, r.effect))
  }

  /** One more item taken: the run so far grows by its effect, and a
      failing item ends the run. */
  lemma ResumeStep<T>(items: seq<T>, taken: nat, done: Effect, effect: T -> Effect)
    requires taken < |items|
    requires UntilFailure(items, effect) == Resume(done, taken, UntilFailure(items[taken..], effect))
    ensures var e := effect(items[taken]);
      (e.ok ==> UntilFailure(items, effect) == Resume(Then(done, e), taken + 1, UntilFailure(items[taken + 1..], effect))) &&
      (!e.ok ==> UntilFailure(items, effect) == RunResult(taken + 1, Then(done, e)))
  {
    var e := effect(items[taken]);
    var r := UntilFailure(items[taken + 1..], effect);
    UntilFailureStep(items, taken, effect);
    ThenAssoc(done, e, r.effect);
  }

  /** `process`: each item taken off the ring goes through `processFrame`. */
  function ProcessRun(items: seq<Option<Frame>>, reply: Option<Frame> -> FrameReplies): RunResult {
    UntilFailure(items, f => FrameEffect(f, reply(f)))
  }

  /** The flush loop of `shutdown`: null frames are processed until one
      fails. */
  function FlushRun(replies: seq<FrameReplies>): RunResult {
    UntilFailure(replies, FlushEffect)
  }

  /** The library's replies to the flush loop of `shutdown`, which only
      ends on a failure: a finite list in which some null frame fails. */
  type FlushReplies = replies: seq<FrameReplies> | !FlushRun(replies).effect.ok
    witness [FrameReplies(-1, 0, 0, [], 0)]

  /** One turn of the flush loop: a null frame through `processFrame`. */
  function FlushEffect(r: FrameReplies): Effect {
    FrameEffect(None, r)
  }

  /** Add the packets and trailers of an effect to the output file. */
  function Grow(out: Option<Output>, e: Effect): Option<Output> {
    if out.Some? then Some(out.value.(packets := out.value.packets + e.packets, trailers := out.value.trailers + e.trailers))
    else None
  }

  /** What `shutdown` reports: the flush loop's messages while a filter
      graph exists, then those of the final flush and trailer while the
      output is open. */
  function ShutdownReports(graphOpen: bool, outputOpen: bool, flush: FlushReplies, final: FrameReplies): seq<Message> {
    (if graphOpen then FlushRun(flush).effect.reports else []) +
    (if outputOpen then EncodeEffect(None, final).reports else [])
  }

  lemma ThenNothing(a: Effect)
    requires a.ok
    ensures Then(a, Effect(true, 0, 0, [])) == a
  {
    assert a.reports + [] == a.reports;
  }

  lemma NothingThen(a: Effect)
    ensures Then(Effect(true, 0, 0, []), a) == a
  {
    assert [] + a.reports == a.reports;
  }

  lemma ThenAssoc(a: Effect, b: Effect, c: Effect)
    ensures Then(Then(a, b), c) == Then(a, Then(b, c))
  {
  }

  lemma GrowThen(out: Option<Output>, a: Effect, b: Effect)
    ensures Grow(Grow(out, a), b) == Grow(out, Then(a, b))
  {
  }

  // -----------------------------------------------------------------------
  // Frame numbering

  /** The queued items are frames carrying the numbers just below `next`,
      in order. */
  ghost predicate Numbered(queue: seq<Option<Frame>>, next: nat) {
    |queue| <= next && forall k :: 0 <= k < |queue| ==> queue[k].Some? && queue[k].value.number == next - |queue| + k
  }

  /** Items handed to the filter so far: frames with strictly increasing
      numbers, all below `bound`. */
  ghost predicate Ordered(frames: seq<Option<Frame>>, bound: int) {
    (forall i :: 0 <= i < |frames| ==> frames[i].Some? && frames[i].value.number < bound) &&
    (forall i, j :: 0 <= i < j < |frames| ==> frames[i].value.number < frames[j].value.number)
  }

  /** Queuing the frame numbered `next` keeps the queue numbered. */
  lemma NumberedPush(queue: seq<Option<Frame>>, next: nat, f: Frame)
    requires Numbered(queue, next) && f.number == next
    ensures Numbered(queue + [Some(f)], next + 1)
  {
  }

  /** Handing over the head of a numbered queue keeps both facts. */
  lemma HandOver(submitted: seq<Option<Frame>>, queue: seq<Option<Frame>>, next: nat)
    requires Numbered(queue, next) && |queue| > 0
    requires Ordered(submitted, next - |queue|)
    ensures Numbered(queue[1..], next)
    ensures Ordered(submitted + [queue[0]], next - |queue| + 1)
  {
    var s := submitted + [queue[0]];
    forall i, j | 0 <= i < j < |s| ensures s[i].value.number < s[j].value.number {
      if j == |s| - 1 { assert s[i] == submitted[i]; }
    }
  }

  /** What the producer side of an encoder consists of: the format new
      frames are tagged with, the frame counter, and the ring's counters
      and queued items. */
  datatype QueueState = QueueState(format: PixelFormat, frameNumber: nat, bufferIndex: nat, remaining: int,
                                   nextIndex: nat, contents: seq<Option<Frame>>, intact: bool)

  /** One successful `addFrame`: `frame`, numbered with the counter, goes
      into the write slot and is committed, and the counter moves on; while
      the ring is intact the frame joins the end of the queue. */
  ghost predicate Queued(before: QueueState, after: QueueState, frame: Frame) {
    var numbered := frame.(number := before.frameNumber);
    after.format == before.format && after.frameNumber == before.frameNumber + 1 &&
    after.bufferIndex == (before.bufferIndex + 1) % IndexModulus && after.remaining == before.remaining + 1 &&
    after.nextIndex == before.nextIndex &&
    after.intact == (before.intact && before.remaining < Capacity) &&
    (after.intact ==> after.contents == before.contents + [Some(numbered)])
  }

  class Encoder {
    /** `m_dataBuffer` with its three counters. */
    const ring: Ring<Option<Frame>>
    /** `m_filter` */
    const filter: Filter
    /** `m_errorCallback` */
    const log: ErrorLog
    /** `m_format` */
    var format: PixelFormat
    /** `m_timebase` = 1/fps */
    var timebase: Rational
    /** `m_frameNumber` */
    var frameNumber: nat
    /** `m_formatContext` and `m_codecContext`, which are set and cleared together. */
    var output: Option<Output>
    /** Items handed to the filter since the output was opened. */
    ghost var Submitted: seq<Option<Frame>>

    /** The ring is consistent, the filter reports to the encoder's log,
        and the queued frames carry the numbers below `frameNumber`, above
        those of the frames already handed to the filter. */
    ghost predicate Valid()
      reads this`frameNumber, this`Submitted, ring, ring.slots
    {
      ring.Valid() && filter.log == log &&
      (ring.Intact ==> Numbered(ring.Contents, frameNumber) && Ordered(Submitted, frameNumber - |ring.Contents|))
    }

    /** An output is only open once the filter graph exists. */
    ghost predicate Attached()
      reads this`output, filter`graph
    {
      output.Some? ==> filter.graph.Some?
    }

    /** A step that leaves the encoder's counter, its handed-over items
        and its ring alone keeps it valid. */
    twostate lemma StaysValid()
      requires old(Valid())
      requires unchanged(this`frameNumber, this`Submitted, ring, ring.slots)
      ensures Valid()
    {
    }

    /** The producer side as it stands. */
    ghost function State(): QueueState
      reads this`format, this`frameNumber, ring
    {
      QueueState(format, frameNumber, ring.bufferIndex, ring.remaining, ring.nextIndex, ring.Contents, ring.Intact)
    }

    constructor (log: ErrorLog)
      ensures Valid() && Attached() && this.log == log && fresh(ring) && fresh(ring.slots) && fresh(filter)
      ensures output == None && filter.graph == None && frameNumber == 0
      ensures ring.remaining == 0 && ring.Contents == [] && ring.Intact && Submitted == []
    {
      ring := new Ring();
      filter := new Filter(log);
      this.log := log;
      format := OtherFormat(0);
      timebase := Rational(0, 1);
      frameNumber := 0;
      output := None;
      Submitted := [];
    }

    /** `Encoder::init`: remember the format and the 1/fps time base, set up
        the filter (which is handed the time base as its frame rate), then
        the output, stream and codec; only once the header has been written
        are they installed and the counters zeroed. */
    method Init(filename: string, width: int, height: int, fps: int, format: PixelFormat, numThreads: nat,
                noFile: bool, filterReply: Step -> int, reply: InitStep -> int) returns (ok: bool)
      requires Valid() && Attached()
      modifies this`format, this`timebase, this`output, this`frameNumber, this`Submitted, ring, filter`graph, log`messages
      ensures Valid() && Attached()
      ensures this.format == format && timebase == Rational(1, fps)
      ensures var f := Run(Plan(format), filterReply, StepMessage);
        var o := Run(InitPlan(filename, noFile), reply, InitMessage);
        ok == (f.None? && o.None?) &&
        log.messages == old(log.messages) + Reported(f) + (if f.None? then Reported(o) else []) &&
        filter.graph == (if f.None? then Some(Graph(Chain(format, width, height, Rational(1, fps)))) else old(filter.graph))
      ensures ok ==> output == Some(Output(filename, CodecSettings(width, height, fps, numThreads), 0, 0))
      ensures ok ==> frameNumber == 0 && ring.bufferIndex == 0 && ring.remaining == 0 && ring.nextIndex == 0 &&
                     ring.Contents == [] && ring.Intact && Submitted == []
      ensures !ok ==> output == old(output) && frameNumber == old(frameNumber) && Submitted == old(Submitted) && unchanged(ring)
    {
      this.format := format;
      timebase := Rational(1, fps);
      ok := filter.Init(width, height, timebase, format, filterReply);
      if !ok { return; }
      var settings := CodecSettings(width, height, fps, numThreads);
      ok := OpenOutput(filename, settings, noFile, reply);
    }

    /** The second half of `Encoder::init`: output context, stream, codec,
        file and header; on success the output is installed and the frame
        counter and ring counters are zeroed. */
    method OpenOutput(filename: string, settings: Settings, noFile: bool, reply: InitStep -> int) returns (ok: bool)
      requires Valid() && filter.graph.Some?
      modifies this`output, this`frameNumber, this`Submitted, ring, log`messages
      ensures Valid()
      ensures ok == Run(InitPlan(filename, noFile), reply, InitMessage).None?
      ensures log.messages == old(log.messages) + Reported(Run(InitPlan(filename, noFile), reply, InitMessage))
      ensures ok ==> output == Some(Output(filename, settings, 0, 0))
      ensures ok ==> frameNumber == 0 && ring.bufferIndex == 0 && ring.remaining == 0 && ring.nextIndex == 0 &&
                     ring.Contents == [] && ring.Intact && Submitted == []
      ensures !ok ==> output == old(output) && frameNumber == old(frameNumber) && Submitted == old(Submitted) && unchanged(ring)
    {
      ok := OpenSteps(filename, noFile, reply);
      if ok {
        Install(Output(filename, settings, 0, 0));
      }
    }

    /** The library calls of the second half of `Encoder::init`, up to
        the first that fails. */
    method OpenSteps(filename: string, noFile: bool, reply: InitStep -> int) returns (ok: bool)
      modifies log`messages
      ensures ok == Run(InitPlan(filename, noFile), reply, InitMessage).None?
      ensures log.messages == old(log.messages) + Reported(Run(InitPlan(filename, noFile), reply, InitMessage))
    {
      var head := [AllocOutput, NewStream, FindEncoder, AllocCodec, OpenCodec, CopyParams];
      ghost var prefix := head + (if noFile then [] else [OpenFile(filename)]);
      RunAppend(head, if noFile then [] else [OpenFile(filename)], reply, InitMessage);
      RunAppend(prefix, [WriteHeader(filename)], reply, InitMessage);
      ok := OpenStream(head, reply);
      if !ok { return; }
      if !noFile {
        ok := log.Attempt(OpenFile(filename), reply, InitMessage);
        if !ok { return; }
      } else {
        assert Run([], reply, InitMessage) == None;
      }
      ok := log.Attempt(WriteHeader(filename), reply, InitMessage);
    }

    /** Assign the output and zero the frame counter and the ring. */
    method Install(out: Output)
      requires Valid() && filter.graph.Some?
      modifies this`output, this`frameNumber, this`Submitted, ring
      ensures Valid() && output == Some(out)
      ensures frameNumber == 0 && ring.bufferIndex == 0 && ring.remaining == 0 && ring.nextIndex == 0 &&
              ring.Contents == [] && ring.Intact && Submitted == []
    {
      output := Some(out);
      ring.Reset();
      frameNumber := 0;
      Submitted := [];
    }

    /** Output context, stream, encoder lookup, codec context, open, and
        parameter copy, each reported when it fails. */
    method OpenStream(head: seq<InitStep>, reply: InitStep -> int) returns (ok: bool)
      requires head == [AllocOutput, NewStream, FindEncoder, AllocCodec, OpenCodec, CopyParams]
      modifies log`messages
      ensures ok == Run(head, reply, InitMessage).None?
      ensures log.messages == old(log.messages) + Reported(Run(head, reply, InitMessage))
    {
      ghost var p2 := [AllocOutput] + [NewStream];
      ghost var p3 := p2 + [FindEncoder];
      ghost var p4 := p3 + [AllocCodec];
      ghost var p5 := p4 + [OpenCodec];
      assert head == p5 + [CopyParams];
      RunAppend([AllocOutput], [NewStream], reply, InitMessage);
      RunAppend(p2, [FindEncoder], reply, InitMessage);
      RunAppend(p3, [AllocCodec], reply, InitMessage);
      RunAppend(p4, [OpenCodec], reply, InitMessage);
      RunAppend(p5, [CopyParams], reply, InitMessage);
      ok := log.Attempt(AllocOutput, reply, InitMessage);
      if !ok { return; }
      ok := log.Attempt(NewStream, reply, InitMessage);
      if !ok { return; }
      ok := log.Attempt(FindEncoder, reply, InitMessage);
      if !ok { return; }
      ok := log.Attempt(AllocCodec, reply, InitMessage);
      if !ok { return; }
      ok := log.Attempt(OpenCodec, reply, InitMessage);
      if !ok { return; }
      ok := log.Attempt(CopyParams, reply, InitMessage);
    }

    /** The end of `Encoder::addFrame`: give the copied frame the next
        frame number and queue it; the count reaching exactly 15 is
        reported as an overflow, and the frame is queued all the same. */
    method Enqueue(frame: Frame) returns (queued: Frame)
      requires Valid()
      modifies this`frameNumber, ring, ring.slots, log`messages
      ensures Valid()
      ensures queued == frame.(number := old(frameNumber)) && frameNumber == old(frameNumber) + 1
      ensures ring.slots[..] == old(ring.slots[..])[old(ring.bufferIndex) % Capacity := Some(queued)]
      ensures ring.bufferIndex == (old(ring.bufferIndex) + 1) % IndexModulus &&
              ring.remaining == old(ring.remaining) + 1 && ring.nextIndex == old(ring.nextIndex) &&
              ring.Intact == (old(ring.Intact) && old(ring.remaining) < Capacity)
      ensures ring.Intact ==> ring.Contents == old(ring.Contents) + [Some(queued)]
      ensures log.messages == old(log.messages) +
                (if ring.remaining == Capacity - 1 then [Report("Encode buffer has overflowed")] else [])
      ensures format == old(format) && Queued(old(State()), State(), frame)
    {
      queued := frame.(number := frameNumber);
      frameNumber := frameNumber + 1;
      ghost var queue := ring.Contents;
      var overflow := ring.Push(Some(queued));
      if ring.Intact {
        NumberedPush(queue, frameNumber - 1, queued);
        assert frameNumber - |ring.Contents| == old(frameNumber) - |queue|;
      }
      if overflow {
        log.Send(Report("Encode buffer has overflowed"));
      }
    }

    /** The frame allocation and its buffer, each reported when it fails. */
    method AllocateFrame(reply: AddStep -> int) returns (ok: bool)
      modifies log`messages
      ensures ok == Run([AllocFrame, GetBuffer], reply, AddMessage).None?
      ensures log.messages == old(log.messages) + Reported(Run([AllocFrame, GetBuffer], reply, AddMessage))
    {
      RunAppend([AllocFrame], [GetBuffer], reply, AddMessage);
      assert [AllocFrame] + [GetBuffer] == [AllocFrame, GetBuffer];
      ok := log.Attempt(AllocFrame, reply, AddMessage);
      if !ok { return; }
      ok := log.Attempt(GetBuffer, reply, AddMessage);
    }

    /** `Encoder::addFrame`: allocate a frame, find the input alignment,
        copy the image in, then number and queue it. */
    method AddFrame(data: seq<bv8>, width: bv32, height: bv32, stride: bv32, maxAlign: int, reply: AddStep -> int)
      returns (ok: bool)
      requires Valid()
      modifies this`frameNumber, ring, ring.slots, log`messages
      ensures Valid()
      ensures ok == Run(AddPlan, reply, AddMessage).None?
      ensures !ok ==> log.messages == old(log.messages) + Reported(Run(AddPlan, reply, AddMessage)) &&
                      frameNumber == old(frameNumber) && unchanged(ring) && unchanged(ring.slots)
      ensures ok ==> ring.slots[..] == old(ring.slots[..])[old(ring.bufferIndex) % Capacity :=
                       Some(Frame(format, width, height, Alignment(RowBytes(width, format), stride, maxAlign), data, old(frameNumber)))]
      ensures ok ==> frameNumber == old(frameNumber) + 1 &&
                     ring.bufferIndex == (old(ring.bufferIndex) + 1) % IndexModulus &&
                     ring.remaining == old(ring.remaining) + 1 && ring.nextIndex == old(ring.nextIndex) &&
                     ring.Intact == (old(ring.Intact) && old(ring.remaining) < Capacity) &&
                     log.messages == old(log.messages) +
                       (if ring.remaining == Capacity - 1 then [Report("Encode buffer has overflowed")] else [])
      ensures ok && ring.Intact ==> ring.Contents == old(ring.Contents) + [ring.slots[old(ring.bufferIndex) % Capacity]]
      ensures ok ==> Queued(old(State()), State(), Frame(old(format), width, height,
                                                         Alignment(RowBytes(width, old(format)), stride, maxAlign), data, 0))
      ensures !ok ==> State() == old(State())
    {
      var align;
      ok, align := PrepareFrame(RowBytes(width, format), stride, maxAlign, reply);
      if ok {
        var queued := Enqueue(Frame(format, width, height, align, data, 0));
      }
    }

    /** The library calls of `Encoder::addFrame` before the frame is
        queued: allocation, then the copy at the alignment found for the
        row size. */
    method PrepareFrame(rowBytes: bv32, stride: bv32, maxAlign: int, reply: AddStep -> int) returns (ok: bool, align: nat)
      modifies log`messages
      ensures ok == Run(AddPlan, reply, AddMessage).None?
      ensures log.messages == old(log.messages) + Reported(Run(AddPlan, reply, AddMessage))
      ensures ok ==> align == Alignment(rowBytes, stride, maxAlign)
    {
      ghost var p2 := [AllocFrame, GetBuffer];
      assert AddPlan == p2 + [FillArrays];
      RunAppend(p2, [FillArrays], reply, AddMessage);
      align := 0;
      ok := AllocateFrame(reply);
      if !ok { return; }
      align := FindAlignment(rowBytes, stride, maxAlign);
      ok := log.Attempt(FillArrays, reply, AddMessage);
    }

    /** `muxFrames`: write packets until the codec asks for more input. */
    method MuxFrames(replies: seq<MuxReply>) returns (ok: bool)
      modifies this`output, log`messages
      ensures var m := MuxRun(replies);
        ok == m.ok && output == Grow(old(output), MuxEffect(m)) &&
        log.messages == old(log.messages) + Reported(m.report)
    {
      var i := 0;
      while i < |replies|
        invariant 0 <= i <= |replies|
        invariant output == Grow(old(output), Effect(true, i, 0, []))
        invariant log.messages == old(log.messages)
        invariant MuxRun(replies) == (var m := MuxRun(replies[i..]); MuxResult(m.ok, m.packets + i, m.report))
        decreases |replies| - i
      {
        assert replies[i..][1..] == replies[i + 1..];
        var rcv := replies[i].receive;
        if rcv == AgainCode || rcv == EofCode {
          return true;
        } else if rcv < 0 {
          log.Send(ReportCode("Failed to receive encoded frame: ", rcv));
          return false;
        }
        if replies[i].write < 0 {
          log.Send(ReportCode("Failed to write encoded frame: ", replies[i].write));
          return false;
        }
        output := Grow(output, Effect(true, 1, 0, []));
        i := i + 1;
      }
      ok := true;
    }

    /** `encodeFrame` */
    method EncodeFrame(frame: Option<Frame>, r: FrameReplies) returns (ok: bool)
      modifies this`output, log`messages
      ensures var e := EncodeEffect(frame, r);
        ok == e.ok && output == Grow(old(output), e) && log.messages == old(log.messages) + e.reports
    {
      if frame.Some? {
        if r.codecSend < 0 {
          log.Send(ReportCode("Failed to send packet to encoder: ", r.codecSend));
          return false;
        }
        ok := MuxFrames(r.mux);
      } else {
        if r.codecSend < 0 {
          log.Send(ReportCode("Failed to send flush packet to encoder: ", r.codecSend));
          return false;
        }
        ok := MuxFrames(r.mux);
        if !ok { return; }
        output := Grow(output, Effect(true, 0, 1, []));
        if r.trailer < 0 {
          log.Send(ReportCode("Failed to write file trailer: ", r.trailer));
          return false;
        }
      }
    }

    /** `processFrame` */
    method ProcessFrame(frame: Option<Frame>, r: FrameReplies) returns (ok: bool)
      requires filter.log == log
      modifies this`output, log`messages
      ensures var e := FrameEffect(frame, r);
        ok == e.ok && output == Grow(old(output), e) && log.messages == old(log.messages) + e.reports
    {
      ok := filter.Send(r.filterSend);
      if !ok { return; }
      ok := filter.Receive(r.filterReceive);
      if !ok { return; }
      ok := EncodeFrame(frame, r);
    }

    /** The bookkeeping of `Encoder::process` after `taken` frames of
        `queue` went through with effect `done`: the rest of the queue is
        still on the ring, and what the whole run does is `done` followed
        by what the rest does. */
    ghost predicate Midway(queue: seq<Option<Frame>>, outcome: Option<Frame> -> Effect, taken: nat, done: Effect,
                           submitted: seq<Option<Frame>>, out: Option<Output>, messages: seq<Message>)
      reads this, ring, log
    {
      taken <= |queue| && done.ok && ring.Contents == queue[taken..] &&
      Submitted == submitted + queue[..taken] && output == Grow(out, done) && log.messages == messages + done.reports &&
      UntilFailure(queue, outcome) == Resume(done, taken, UntilFailure(queue[taken..], outcome))
    }

    /** The end of `Encoder::process`: the run over `queue` took `count`
        frames with effect `effect`, and the rest of the queue is still on
        the ring. */
    ghost predicate Stopped(queue: seq<Option<Frame>>, outcome: Option<Frame> -> Effect, count: nat, effect: Effect,
                            submitted: seq<Option<Frame>>, out: Option<Output>, messages: seq<Message>)
      reads this, ring, log
    {
      UntilFailure(queue, outcome) == RunResult(count, effect) && count <= |queue| &&
      ring.Contents == queue[count..] && Submitted == submitted + queue[..count] &&
      output == Grow(out, effect) && log.messages == messages + effect.reports
    }

    /** One round of `Encoder::process`: take the oldest queued item, if
        any, and process it. `outcome` is what processing does to each item. */
    method ProcessNext(reply: Option<Frame> -> FrameReplies, ghost outcome: Option<Frame> -> Effect,
                       ghost queue: seq<Option<Frame>>, ghost taken: nat, ghost done: Effect,
                       ghost submitted: seq<Option<Frame>>, ghost out: Option<Output>, ghost messages: seq<Message>)
      returns (took: bool, ok: bool, ghost next: Effect)
      requires Valid()
      requires forall f {:trigger FrameEffect(f, reply(f))} :: outcome(f) == FrameEffect(f, reply(f))
      requires ring.Intact ==> Midway(queue, outcome, taken, done, submitted, out, messages)
      modifies this`output, this`Submitted, ring, ring.slots, log`messages
      ensures Valid() && output.Some? == old(output).Some?
      ensures ring.Intact == old(ring.Intact) && ring.bufferIndex == old(ring.bufferIndex)
      ensures took <==> old(ring.remaining) != 0
      ensures !took ==> ring.remaining == old(ring.remaining) && ring.nextIndex == old(ring.nextIndex) && ok
      ensures took ==> ring.remaining == old(ring.remaining) - 1 && ring.nextIndex == Advance(old(ring.nextIndex))
      ensures ring.Intact ==> ok == next.ok
      ensures ring.Intact && !took ==> Stopped(queue, outcome, taken, next, submitted, out, messages)
      ensures ring.Intact && took && ok ==> Midway(queue, outcome, taken + 1, next, submitted, out, messages)
      ensures ring.Intact && took && !ok ==> Stopped(queue, outcome, taken + 1, next, submitted, out, messages)
    {
      next := done;
      var frame;
      took, frame := Take();
      if !took {
        if ring.Intact {
          assert queue[taken..] == [];
          ThenNothing(done);
        }
        return took, true, done;
      }
      if ring.Intact {
        assert queue[..taken + 1] == queue[..taken] + [frame];
      }
      ok, next := ProcessItem(frame, reply(frame), outcome, ring.Intact, queue, taken, done, out, messages);
    }

    /** Move the oldest queued item, if any, off the ring
        (`FramePtr frame(move(m_dataBuffer[m_nextBufferIndex]))`): its slot
        is left null, and from here on the item counts as handed to the
        filter. An item read from a slot that was moved out before and not
        refilled since is the null frame. */
    method Take() returns (took: bool, frame: Option<Frame>)
      requires Valid()
      modifies this`Submitted, ring, ring.slots
      ensures Valid()
      ensures ring.Intact == old(ring.Intact) && ring.bufferIndex == old(ring.bufferIndex)
      ensures took <==> old(ring.remaining) != 0
      ensures !took ==> ring.remaining == old(ring.remaining) && ring.nextIndex == old(ring.nextIndex) &&
                        ring.Contents == old(ring.Contents) && Submitted == old(Submitted) && ring.slots[..] == old(ring.slots[..])
      ensures took ==> frame == old(ring.slots[ring.nextIndex]) && ring.slots[..] == old(ring.slots[..])[old(ring.nextIndex) := None] &&
                       ring.remaining == old(ring.remaining) - 1 && ring.nextIndex == Advance(old(ring.nextIndex)) &&
                       Submitted == old(Submitted) + [frame]
      ensures ring.Intact && took ==> frame == old(ring.Contents)[0] && frame.Some? && ring.Contents == old(ring.Contents)[1..]
    {
      ghost var before := ring.Contents;
      var item := ring.TryMove(None);
      took, frame := item.Some?, None;
      if took {
        frame := item.value;
        if ring.Intact {
          HandOver(Submitted, before, frameNumber);
        }
        Submitted := Submitted + [frame];
      }
    }

    /** `processFrame` on the item at position `taken` of a run over
        `items` (a queued frame, or the replies to one null frame of the
        flush loop); the run so far grows by its effect. */
    method ProcessItem<T>(frame: Option<Frame>, r: FrameReplies, ghost outcome: T -> Effect, ghost tracked: bool,
                          ghost items: seq<T>, ghost taken: nat, ghost done: Effect,
                          ghost out: Option<Output>, ghost messages: seq<Message>)
      returns (ok: bool, ghost next: Effect)
      requires filter.log == log
      requires tracked ==>
        taken < |items| && outcome(items[taken]) == FrameEffect(frame, r) && done.ok &&
        UntilFailure(items, outcome) == Resume(done, taken, UntilFailure(items[taken..], outcome)) &&
        output == Grow(out, done) && log.messages == messages + done.reports
      modifies this`output, log`messages
      ensures output.Some? == old(output).Some?
      ensures tracked ==> next.ok == ok && output == Grow(out, next) && log.messages == messages + next.reports
      ensures tracked && ok ==> UntilFailure(items, outcome) == Resume(next, taken + 1, UntilFailure(items[taken + 1..], outcome))
      ensures tracked && !ok ==> UntilFailure(items, outcome) == RunResult(taken + 1, next)
    {
      next := done;
      ok := ProcessFrame(frame, r);
      if tracked {
        ghost var e := FrameEffect(frame, r);
        ResumeStep(items, taken, done, outcome);
        GrowThen(out, done, e);
        next := Then(done, e);
      }
    }

    /** `Encoder::process`: move items off the ring, oldest first, until it
        is empty or one fails. An item that fails has been taken off the
        ring all the same. */
    method Process(reply: Option<Frame> -> FrameReplies) returns (ok: bool)
      requires Valid() && Attached()
      modifies this`output, this`Submitted, ring, ring.slots, log`messages
      ensures Valid() && Attached() && output.Some? == old(output).Some?
      ensures ok ==> ring.remaining == 0
      ensures ring.nextIndex == (old(ring.nextIndex) + (old(ring.remaining) - ring.remaining)) % Capacity
      ensures ring.Intact == old(ring.Intact) && ring.bufferIndex == old(ring.bufferIndex)
      ensures old(ring.Intact) ==>
        var run := ProcessRun(old(ring.Contents), reply);
        ok == run.effect.ok && ring.Contents == old(ring.Contents)[run.count..] &&
        Submitted == old(Submitted) + old(ring.Contents)[..run.count] &&
        output == Grow(old(output), run.effect) &&
        log.messages == old(log.messages) + run.effect.reports
    {
      ok := ProcessLoop(reply, f => FrameEffect(f, reply(f)));
    }

    /** The loop of `Encoder::process`, with `outcome` standing for what
        processing does to each item. */
    method ProcessLoop(reply: Option<Frame> -> FrameReplies, ghost outcome: Option<Frame> -> Effect) returns (ok: bool)
      requires Valid()
      requires forall f {:trigger FrameEffect(f, reply(f))} :: outcome(f) == FrameEffect(f, reply(f))
      modifies this`output, this`Submitted, ring, ring.slots, log`messages
      ensures Valid() && output.Some? == old(output).Some?
      ensures ok ==> ring.remaining == 0
      ensures ring.nextIndex == (old(ring.nextIndex) + (old(ring.remaining) - ring.remaining)) % Capacity
      ensures ring.Intact == old(ring.Intact) && ring.bufferIndex == old(ring.bufferIndex)
      ensures old(ring.Intact) ==>
        var run := UntilFailure(old(ring.Contents), outcome);
        ok == run.effect.ok && Stopped(old(ring.Contents), outcome, run.count, run.effect, old(Submitted), old(output), old(log.messages))
    {
      ghost var queue := ring.Contents;
      ghost var taken := 0;
      ghost var done := Effect(true, 0, 0, []);
      assert queue[0..] == queue;
      NothingThen(UntilFailure(queue, outcome).effect);
      while true
        invariant Valid() && output.Some? == old(output).Some?
        invariant ring.Intact == old(ring.Intact) && ring.bufferIndex == old(ring.bufferIndex)
        invariant 0 <= taken <= old(ring.remaining) && ring.remaining == old(ring.remaining) - taken
        invariant ring.Intact ==> Midway(queue, outcome, taken, done, old(Submitted), old(output), old(log.messages))
        decreases ring.remaining
      {
        var took;
        took, ok, done := ProcessNext(reply, outcome, queue, taken, done, old(Submitted), old(output), old(log.messages));
        if !took {
          break;
        }
        taken := taken + 1;
        if !ok {
          break;
        }
      }
      ConsumerPosition(old(ring.nextIndex), old(ring.remaining), ring.nextIndex, ring.remaining, ring.bufferIndex);
    }

    /** The flush loop of `Encoder::shutdown`, `while (processFrame(temp))`
        on the null frame, with `outcome` standing for what processing a
        null frame does; the replies hold a failure, where it ends. */
    method Flush(flush: FlushReplies, ghost outcome: FrameReplies -> Effect)
      requires filter.log == log
      requires forall r {:trigger FrameEffect(None, r)} :: outcome(r) == FrameEffect(None, r)
      requires !UntilFailure(flush, outcome).effect.ok
      modifies this`output, log`messages
      ensures var f := UntilFailure(flush, outcome).effect;
        output == Grow(old(output), f) && log.messages == old(log.messages) + f.reports
    {
      ghost var f := Effect(true, 0, 0, []);
      assert flush[0..] == flush;
      NothingThen(UntilFailure(flush, outcome).effect);
      var i := 0;
      while true
        invariant 0 <= i <= |flush|
        invariant UntilFailure(flush, outcome) == Resume(f, i, UntilFailure(flush[i..], outcome))
        invariant output == Grow(old(output), f) && log.messages == old(log.messages) + f.reports && f.ok
        decreases |flush| - i
      {
        if i == |flush| {
          assert false;
        }
        assert outcome(flush[i]) == FrameEffect(None, flush[i]);
        var more;
        more, f := ProcessItem(None, flush[i], outcome, true, flush, i, f, old(output), old(log.messages));
        if !more {
          return;
        }
        i := i + 1;
      }
    }

    /** `Encoder::shutdown`: while a filter graph exists, push null frames
        through until one fails; then, if the output is open, flush the
        codec, write the trailer and release the output. */
    method Shutdown(flush: FlushReplies, final: FrameReplies)
      requires Valid()
      modifies this`output, log`messages
      ensures Valid() && Attached()
      ensures output == None
      ensures log.messages == old(log.messages) + ShutdownReports(old(filter.graph).Some?, old(output).Some?, flush, final)
    {
      if filter.graph.Some? {
        FlushGraph(flush);
      }
      CloseOutput(final);
    }

    /** The flush loop of `Encoder::shutdown`, which leaves the encoder
        consistent. */
    method FlushGraph(flush: FlushReplies)
      requires Valid()
      modifies this`output, log`messages
      ensures Valid() && output.Some? == old(output).Some?
      ensures log.messages == old(log.messages) + FlushRun(flush).effect.reports
    {
      Flush(flush, FlushEffect);
    }

    /** The end of `Encoder::shutdown`: with the output open, flush the
        codec and write the trailer, then release the output. */
    method CloseOutput(final: FrameReplies)
      requires Valid()
      modifies this`output, log`messages
      ensures Valid() && output == None
      ensures log.messages == old(log.messages) + (if old(output).Some? then EncodeEffect(None, final).reports else [])
    {
      if output.Some? {
        var _ := EncodeFrame(None, final);
        output := None;
      }
    }
  }
}
