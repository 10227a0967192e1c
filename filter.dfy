/** The pixel-conversion filter chain that sits in front of each encoder:
    which stages it links for which input format, its commit-on-success
    initialisation, and how it classifies the library's return codes. The
    library itself is an abstract backend that answers each step with a
    return code (negative = failure, also for calls that return null). */
module FilterGraph {
  import opened Common

  datatype PixelFormat = Gray16LE | BGRA | YUV420P | OtherFormat(code: int)

  /** `AVERROR(EAGAIN)`: -EAGAIN, -11 on Linux. */
  const AgainCode: int := -11
  /** `AVERROR_EOF`: -MKTAG('E','O','F',' '). */
  const EofCode: int := -0x2046_4F45

  /** An `AVRational`. */
  datatype Rational = Rational(num: int, den: int)

  /** One filter of the chain. */
  datatype Stage =
    | Source(format: PixelFormat, width: int, height: int, frameRate: Rational) // "buffer", named "src"
    | HFlip                              // "hflip"
    | ColorLevels                        // "colorlevels", r/g/b imax = 1/scale
    | Scale(width: int, flags: string)   // "scale", height = 640 * aspect
    | Sink(formats: seq<PixelFormat>)    // "buffersink", named "sink"

  /** The stages between source and sink: 16-bit grey is mirrored before
      the brightness rescale, everything else is resized to 640 wide with
      point sampling before it is mirrored. */
  function Middle(format: PixelFormat): seq<Stage> {
    if format == Gray16LE then [HFlip, ColorLevels] else [Scale(640, "point"), HFlip]
  }

  /** The whole linked chain, source first. */
  function Chain(format: PixelFormat, width: int, height: int, frameRate: Rational): seq<Stage> {
    [Source(format, width, height, frameRate)] + Middle(format) + [Sink([YUV420P])]
  }

  lemma ChainShape(format: PixelFormat, width: int, height: int, frameRate: Rational)
    ensures var c := Chain(format, width, height, frameRate);
      |c| == 4 && c[0] == Source(format, width, height, frameRate) && c[3] == Sink([YUV420P]) &&
      (format == Gray16LE ==> c[1] == HFlip && c[2] == ColorLevels) &&
      (format != Gray16LE ==> c[1] == Scale(640, "point") && c[2] == HFlip) &&
      (forall i :: 0 <= i < 4 ==> (c[i] == HFlip <==> i == (if format == Gray16LE then 1 else 2)))
  {
  }

  /** The backend calls of `Filter::init`, in the order the source makes them. */
  datatype Step =
    | AllocGraph          // graph, "buffer" and "buffersink" lookups
    | AllocBuffers        // the "src" and "sink" instances
    | SetSourceParams
    | InitSource
    | InitSink            // pixel-format option, then initialisation
    | GetFilter(s: Stage)
    | AllocFilter(s: Stage)
    | LinkFilter(s: Stage)
    | LinkSink
    | ConfigGraph

  /** The graph, its "src" and "sink" instances, and their set-up. */
  const Endpoints: seq<Step> := [AllocGraph, AllocBuffers, SetSourceParams, InitSource, InitSink]

  /** Finding, allocating and linking one middle stage. */
  function StageSteps(s: Stage): seq<Step> { [GetFilter(s), AllocFilter(s), LinkFilter(s)] }

  /** Linking the last middle stage to the sink, then configuring. */
  const Finish: seq<Step> := [LinkSink, ConfigGraph]

  function Plan(format: PixelFormat): seq<Step> {
    var m := Middle(format);
    Endpoints + StageSteps(m[0]) + StageSteps(m[1]) + Finish
  }

  function StageName(s: Stage): string {
    match s
    case Source(_, _, _, _) => "src"
    case HFlip => "hflip"
    case ColorLevels => "colorlevels"
    case Scale(_, _) => "scale"
    case Sink(_) => "sink"
  }

  /** The message `Filter::init` reports when `step` fails with `code`. */
  function StepMessage(step: Step, code: int): Message {
    match step
    case AllocGraph => Report("Unable to create filter graph")
    case AllocBuffers => Report("Could not allocate the filter buffer instance")
    case SetSourceParams => ReportCode("Failed setting filter input parameters: ", code)
    case InitSource => ReportCode("Could not initialize the filter input instance: ", code)
    case InitSink => ReportCode("Could not initialize the filter output instance: ", code)
    case GetFilter(s) => Report("Unable to create " + StageName(s) + " filter")
    case AllocFilter(s) => Report("Unable to create " + StageName(s) + " filter context")
    case LinkFilter(s) => Report("Unable to link " + StageName(s) + " filter")
    case LinkSink => ReportCode("Could not set the filter links: ", code)
    case ConfigGraph => ReportCode("Failed configuring filter graph: ", code)
  }

  /** The graph a successful init leaves behind: the linked stages, the
      source first and the sink last. */
  datatype Graph = Graph(stages: seq<Stage>)

  /** `ret < 0` reports and fails; anything else succeeds. */
  datatype Outcome = Outcome(ok: bool, report: Option<Message>)

  /** `Filter::sendFrame`: a negative code from the source buffer fails and
      is reported. */
  function SendFrame(err: int): (r: Outcome)
    ensures r.ok <==> err >= 0
    ensures r.report.Some? <==> !r.ok
    ensures r.report.Some? ==> r.report.value.code == Some(err)
  {
    if err < 0 then Outcome(false, Some(ReportCode("Failed to submit frame to filter graph: ", err)))
    else Outcome(true, None)
  }

  /** `Filter::receiveFrame`: "try again" and end-of-stream fail silently,
      every other negative code fails with a report. */
  function ReceiveFrame(err: int): (r: Outcome)
    ensures r.ok <==> err >= 0
    ensures r.report.Some? <==> (err < 0 && err != AgainCode && err != EofCode)
    ensures r.report.Some? ==> r.report.value.code == Some(err)
  {
    if err < 0 then
      if err == AgainCode || err == EofCode then Outcome(false, None)
      else Outcome(false, Some(ReportCode("Failed to receive frame from filter graph: ", err)))
    else Outcome(true, None)
  }

  /** What an outcome sends to the error callback. */
  function Sent(r: Outcome): seq<Message> {
    if r.report.Some? then [r.report.value] else []
  }

  class Filter {
    /** `m_filterGraph` together with `m_source` (its first stage) and
        `m_sink` (its last); None while it is null. */
    var graph: Option<Graph>
    /** `m_errorCallback` */
    const log: ErrorLog

    constructor (log: ErrorLog)
      ensures graph == None && this.log == log
    {
      graph := None;
      this.log := log;
    }

    /** Create the graph with its "src" buffer (format, size, frame rate and
        its inverse as time base) and its "sink" restricted to YUV420P. */
    method OpenEndpoints(reply: Step -> int) returns (ok: bool)
      modifies log`messages
      ensures ok == Run(Endpoints, reply, StepMessage).None?
      ensures log.messages == old(log.messages) + Reported(Run(Endpoints, reply, StepMessage))
    {
      ghost var p2 := [AllocGraph] + [AllocBuffers];
      ghost var p3 := p2 + [SetSourceParams];
      ghost var p4 := p3 + [InitSource];
      assert Endpoints == p4 + [InitSink];
      RunAppend([AllocGraph], [AllocBuffers], reply, StepMessage);
      RunAppend(p2, [SetSourceParams], reply, StepMessage);
      RunAppend(p3, [InitSource], reply, StepMessage);
      RunAppend(p4, [InitSink], reply, StepMessage);
      ok := log.Attempt(AllocGraph, reply, StepMessage);
      if !ok { return; }
      ok := log.Attempt(AllocBuffers, reply, StepMessage);
      if !ok { return; }
      ok := log.Attempt(SetSourceParams, reply, StepMessage);
      if !ok { return; }
      ok := log.Attempt(InitSource, reply, StepMessage);
      if !ok { return; }
      ok := log.Attempt(InitSink, reply, StepMessage);
    }

    /** Find, allocate and link one middle stage (the `hflip` lambda and
        the inline colorlevels and scale blocks). */
    method AddStage(s: Stage, reply: Step -> int) returns (ok: bool)
      modifies log`messages
      ensures ok == Run(StageSteps(s), reply, StepMessage).None?
      ensures log.messages == old(log.messages) + Reported(Run(StageSteps(s), reply, StepMessage))
    {
      assert StageSteps(s) == [GetFilter(s)] + [AllocFilter(s)] + [LinkFilter(s)];
      RunAppend([GetFilter(s)], [AllocFilter(s)], reply, StepMessage);
      RunAppend([GetFilter(s), AllocFilter(s)], [LinkFilter(s)], reply, StepMessage);
      ok := log.Attempt(GetFilter(s), reply, StepMessage);
      if !ok { return; }
      ok := log.Attempt(AllocFilter(s), reply, StepMessage);
      if !ok { return; }
      ok := log.Attempt(LinkFilter(s), reply, StepMessage);
    }

    /** Link the last stage to the sink and configure the graph. */
    method LinkAndConfigure(reply: Step -> int) returns (ok: bool)
      modifies log`messages
      ensures ok == Run(Finish, reply, StepMessage).None?
      ensures log.messages == old(log.messages) + Reported(Run(Finish, reply, StepMessage))
    {
      RunAppend([LinkSink], [ConfigGraph], reply, StepMessage);
      ok := log.Attempt(LinkSink, reply, StepMessage);
      if !ok { return; }
      ok := log.Attempt(ConfigGraph, reply, StepMessage);
    }

    /** `Filter::init`: build the chain for `format` in a temporary graph
        and assign it only once the graph has been configured; the first
        refused step is reported and leaves the old graph in place. */
    method Init(width: int, height: int, frameRate: Rational, format: PixelFormat, reply: Step -> int)
      returns (ok: bool)
      modifies this`graph, log`messages
      ensures ok == Run(Plan(format), reply, StepMessage).None?
      ensures log.messages == old(log.messages) + Reported(Run(Plan(format), reply, StepMessage))
      ensures graph == if ok then Some(Graph(Chain(format, width, height, frameRate))) else old(graph)
    {
      var linked;
      ok, linked := Build(width, height, frameRate, format, reply);
      if ok {
        graph := Some(Graph(linked));
      }
    }

    /** The library calls of `Filter::init`, up to the first refused one;
        `linked` is the chain built so far. */
    method Build(width: int, height: int, frameRate: Rational, format: PixelFormat, reply: Step -> int)
      returns (ok: bool, linked: seq<Stage>)
      modifies log`messages
      ensures ok == Run(Plan(format), reply, StepMessage).None?
      ensures log.messages == old(log.messages) + Reported(Run(Plan(format), reply, StepMessage))
      ensures ok ==> linked == Chain(format, width, height, frameRate)
    {
      var m := Middle(format);
      ghost var e0 := Endpoints + StageSteps(m[0]);
      ghost var e1 := e0 + StageSteps(m[1]);
      RunAppend(Endpoints, StageSteps(m[0]), reply, StepMessage);
      RunAppend(e0, StageSteps(m[1]), reply, StepMessage);
      RunAppend(e1, Finish, reply, StepMessage);
      linked := [];
      ok := OpenEndpoints(reply);
      if !ok { return; }
      linked := [Source(format, width, height, frameRate)];
      // The first middle stage: hflip for 16-bit grey, scale otherwise.
      ok := AddStage(m[0], reply);
      if !ok { return; }
      linked := linked + [m[0]];
      // The second: colorlevels after hflip, or hflip after scale.
      ok := AddStage(m[1], reply);
      if !ok { return; }
      linked := linked + [m[1]];
      ok := LinkAndConfigure(reply);
      if !ok { return; }
      linked := linked + [Sink([YUV420P])];
    }

    /** `Filter::sendFrame` as a call on the filter: the outcome's report,
        if any, goes to the callback. */
    method Send(err: int) returns (ok: bool)
      modifies log`messages
      ensures ok == SendFrame(err).ok
      ensures log.messages == old(log.messages) + Sent(SendFrame(err))
    {
      var r := SendFrame(err);
      if r.report.Some? {
        log.Send(r.report.value);
      }
      ok := r.ok;
    }

    /** `Filter::receiveFrame` as a call on the filter. */
    method Receive(err: int) returns (ok: bool)
      modifies log`messages
      ensures ok == ReceiveFrame(err).ok
      ensures log.messages == old(log.messages) + Sent(ReceiveFrame(err))
    {
      var r := ReceiveFrame(err);
      if r.report.Some? {
        log.Send(r.report.value);
      }
      ok := r.ok;
    }
  }
}
