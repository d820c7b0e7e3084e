/** What the firmware transmits: besides log lines, exactly one status frame per
    ping and one copy of every report from the USB host, in order. */
module DeviceOutput {
  import opened Bytes
  import opened BridgeFrame
  import opened FrameScan
  import opened BridgeParser
  import opened DeviceModel
  import StatusReply

  /** A frame without its number. */
  datatype Content = Content(kind: byte, payload: seq<byte>)

  /** The frames that are not log lines. */
  function Unlogged(frames: seq<Frame>): seq<Content>
    decreases |frames|
  {
    if frames == [] then []
    else
      var last := frames[|frames| - 1];
      Unlogged(frames[..|frames| - 1]) + if last.kind == KIND_LOG then [] else [Content(last.kind, last.payload)]
  }

  /** The status frames that pings call for. */
  function Answers(frames: seq<Frame>): seq<Content>
    decreases |frames|
  {
    if frames == [] then []
    else (if frames[0].kind == KIND_PING then [Content(KIND_STATUS, BUILD_ID)] else []) + Answers(frames[1..])
  }

  /** What a step calls for, given the bytes the parser has kept. */
  function Demanded(kept: seq<byte>, step: Step): seq<Content> {
    match step
    case Receive(chunk, _) => Answers(FeedOnce(kept, chunk).frames)
    case SetReport(reportId, buffer, _) =>
      if Normalized(reportId, buffer).Some? then [Content(KIND_OUTPUT_REPORT, Normalized(reportId, buffer).value)] else []
    case _ => []
  }

  function KeptBy(kept: seq<byte>, step: Step): seq<byte> {
    if step.Receive? then FeedOnce(kept, step.chunk).rest else kept
  }

  /** What a run calls for, told from its steps. */
  function Demands(kept: seq<byte>, steps: seq<Step>): seq<Content>
    decreases |steps|
  {
    if steps == [] then [] else Demanded(kept, steps[0]) + Demands(KeptBy(kept, steps[0]), steps[1..])
  }

  /** Everything transmitted or waiting to be. */
  function Output(d: Device): seq<Content> {
    Unlogged(d.sent + d.tx)
  }

  lemma UnloggedOneMore(frames: seq<Frame>, f: Frame)
    ensures Unlogged(frames + [f]) == Unlogged(frames) + if f.kind == KIND_LOG then [] else [Content(f.kind, f.payload)]
  {
    assert (frames + [f])[..|frames|] == frames;
  }

  // ---- One push ----

  /** The parts of the device that a push leaves alone. */
  ghost predicate Beside(d: Device, e: Device) {
    e.rest == d.rest && e.sent == d.sent && e.reports == d.reports && e.txRefused == d.txRefused
  }

  lemma PushOutput(d: Device, kind: byte, payload: seq<byte>)
    requires TxPush(d, kind, payload).1
    ensures Output(TxPush(d, kind, payload).0) == Output(d) + if kind == KIND_LOG then [] else [Content(kind, payload)]
  {
    hide Unlogged;
    var f := Frame(kind, d.nextSequence, payload);
    UnloggedOneMore(d.sent + d.tx, f);
    assert d.sent + (d.tx + [f]) == (d.sent + d.tx) + [f];
  }

  lemma LogOutput(d: Device, text: seq<byte>)
    ensures Output(Log(d, text)) == Output(d) && Beside(d, Log(d, text))
  {
    hide Output;
    if |d.tx| <= TX_QUEUE_CAPACITY - 4 && text != [] {
      PushOutput(d, KIND_LOG, if |text| >= MAX_PAYLOAD then text[..MAX_PAYLOAD - 1] else text);
    }
  }

  /** A demanded frame is refused if and only if the transmit queue is full. */
  lemma DemandOutput(d: Device, kind: byte, payload: seq<byte>)
    requires kind != KIND_LOG && |payload| <= MAX_PAYLOAD
    ensures var e := Demand(d, kind, payload);
      && e.rest == d.rest && e.sent == d.sent
      && (|d.tx| == TX_QUEUE_CAPACITY <==> e.txRefused == d.txRefused + 1)
      && (|d.tx| != TX_QUEUE_CAPACITY <==> e.txRefused == d.txRefused)
      && (e.txRefused == d.txRefused ==> Output(e) == Output(d) + [Content(kind, payload)])
  {
    hide Output;
    if |d.tx| != TX_QUEUE_CAPACITY { PushOutput(d, kind, payload); }
  }

  // ---- Every step ----

  /** What a step adds to the output unless something was refused. */
  ghost predicate Adds(d: Device, e: Device, more: seq<Content>) {
    && e.txRefused >= d.txRefused
    && (e.txRefused == d.txRefused ==> Output(e) == Output(d) + more)
  }

  lemma AddsTwice(d: Device, e: Device, f: Device, x: seq<Content>, y: seq<Content>)
    requires Adds(d, e, x) && Adds(e, f, y)
    ensures Adds(d, f, x + y)
  {
    hide Output;
    if f.txRefused == d.txRefused { assert (Output(d) + x) + y == Output(d) + (x + y); }
  }

  lemma SameAdds(d: Device, e: Device)
    requires e.sent + e.tx == d.sent + d.tx && e.txRefused == d.txRefused
    ensures Adds(d, e, [])
  {
    assert Output(d) + [] == Output(d);
  }

  lemma LogAdds(d: Device, text: seq<byte>)
    ensures Adds(d, Log(d, text), []) && Log(d, text).rest == d.rest
  {
    hide Output, Log;
    LogOutput(d, text);
    assert Output(d) + [] == Output(d);
  }

  lemma OnFrameAdds(d: Device, f: Frame, fullText: u16 -> seq<byte>)
    ensures Adds(d, OnFrame(d, f, fullText), Answers([f])) && OnFrame(d, f, fullText).rest == d.rest
  {
    hide Output, Log, Demand;
    OneAnswer(f);
    var e := OnFrame(d, f, fullText);
    if IsInputReport(f) {
      if |d.reports| == REPORT_QUEUE_CAPACITY {
        LogAdds(d, fullText(f.sequence));
        SameOutput(Log(d, fullText(f.sequence)), e);
      } else {
        SameAdds(d, e);
      }
    } else if f.kind == KIND_PING {
      DemandOutput(d, KIND_STATUS, BUILD_ID);
    } else {
      SameAdds(d, e);
    }
  }

  lemma OneAnswer(f: Frame)
    ensures Answers([f]) == if f.kind == KIND_PING then [Content(KIND_STATUS, BUILD_ID)] else []
  {
    assert [f][1..] == [];
  }

  lemma SameOutput(d: Device, e: Device)
    requires e.sent == d.sent && e.tx == d.tx
    ensures Output(e) == Output(d)
  {}

  lemma {:induction false} OnFramesAdd(d: Device, frames: seq<Frame>, fullText: u16 -> seq<byte>)
    ensures Adds(d, OnFrames(d, frames, fullText), Answers(frames)) && OnFrames(d, frames, fullText).rest == d.rest
    decreases |frames|
  {
    hide Adds, OnFrame, Answers;
    if frames == [] {
      SameAdds(d, d);
      NoAnswers();
    } else {
      var e := OnFrame(d, frames[0], fullText);
      OnFrameAdds(d, frames[0], fullText);
      OnFramesAdd(e, frames[1..], fullText);
      AddsTwice(d, e, OnFrames(e, frames[1..], fullText), Answers([frames[0]]), Answers(frames[1..]));
      AnswersFront(frames);
    }
  }

  lemma NoAnswers()
    ensures Answers([]) == []
  {}

  lemma AnswersFront(frames: seq<Frame>)
    requires frames != []
    ensures Answers(frames) == Answers([frames[0]]) + Answers(frames[1..])
  {
    OneAnswer(frames[0]);
  }

  lemma RespondAdds(d: Device, report: StoredReport, texts: Texts)
    ensures Adds(d, Respond(d, report, texts), []) && Respond(d, report, texts).rest == d.rest
  {
    hide Output, Log, StatusReply.Asks, StatusReply.Reply, StatusReply.ParseId, StatusReports, Adds;
    if !StatusReply.Asks(report) {
      SameAdds(d, d);
    } else {
      var asked := Log(d, texts.asked);
      LogAdds(d, texts.asked);
      forall reply: seq<byte> ensures Adds(asked, QueueReply(asked, reply, texts), []) && QueueReply(asked, reply, texts).rest == d.rest {
        QueueReplyAdds(asked, reply, texts);
      }
      forall reply: seq<byte> ensures Adds(d, QueueReply(asked, reply, texts), []) {
        AddsTwice(d, asked, QueueReply(asked, reply, texts), [], []);
        NothingTwice();
      }
    }
  }

  lemma NothingTwice()
    ensures var none: seq<Content> := []; none + none == none
  {}

  lemma QueueReplyAdds(d: Device, reply: seq<byte>, texts: Texts)
    ensures Adds(d, QueueReply(d, reply, texts), []) && QueueReply(d, reply, texts).rest == d.rest
  {
    hide Output, Log, StatusReports, Adds;
    var rs := StatusReports(reply);
    var whole := d.(reports := d.reports + rs, queued := d.queued + rs, intake := d.intake + [FromStatus(reply)]);
    SameAdds(d, whole);
    LogAdds(whole, texts.answered);
    AddsTwice(d, whole, Log(whole, texts.answered), [], []);
    NothingTwice();
    if |rs| > Room(d) {
      var cut := d.(reports := d.reports + rs[..Room(d)], queued := d.queued + rs[..Room(d)], refused := d.refused + 1);
      SameAdds(d, cut);
      LogAdds(cut, texts.cut);
      AddsTwice(d, cut, Log(cut, texts.cut), [], []);
    }
  }

  lemma ForwardAdds(d: Device, report: StoredReport, text: seq<byte>)
    ensures Adds(d, Forward(d, report, text), [Content(KIND_OUTPUT_REPORT, report)]) && Forward(d, report, text).rest == d.rest
  {
    hide Output, Log, Demand;
    DemandOutput(d, KIND_OUTPUT_REPORT, report);
    LogAdds(Demand(d, KIND_OUTPUT_REPORT, report), text);
  }

  lemma SetReportAdds(d: Device, reportId: byte, buffer: seq<byte>, texts: Texts)
    ensures var e := OnSetReport(d, reportId, buffer, texts);
      && Adds(d, e, if Normalized(reportId, buffer).Some? then [Content(KIND_OUTPUT_REPORT, Normalized(reportId, buffer).value)] else [])
      && e.rest == d.rest
  {
    hide Log, Respond, Forward, Adds;
    LogAdds(d, texts.seen);
    SameAdds(d, d);
    if buffer != [] && Normalized(reportId, buffer).Some? {
      var report := Normalized(reportId, buffer).value;
      var seen := Log(d, texts.seen);
      var answered := Respond(seen, report, texts);
      var copy := [Content(KIND_OUTPUT_REPORT, report)];
      RespondAdds(seen, report, texts);
      ForwardAdds(answered, report, texts.full);
      AddsTwice(d, seen, answered, [], []);
      NothingTwice();
      AddsTwice(d, answered, Forward(answered, report, texts.full), [], copy);
      assert [] + copy == copy;
    }
  }

  lemma StepAdds(d: Device, step: Step)
    ensures Adds(d, Next(d, step), Demanded(d.rest, step)) && Next(d, step).rest == KeptBy(d.rest, step)
  {
    hide Adds, OnSetReport, OnFrames, FeedOnce, Log, Output, Normalized, Answers, EncodeFrame;
    match step
    case Receive(chunk, fullText) =>
      var r := FeedOnce(d.rest, chunk);
      OnFramesAdd(d.(rest := r.rest), r.frames, fullText);
      SameAdds(d, d.(rest := r.rest));
      AddsTwice(d, d.(rest := r.rest), Next(d, step), [], Answers(r.frames));
      assert [] + Answers(r.frames) == Answers(r.frames);
    case SetReport(reportId, buffer, texts) => SetReportAdds(d, reportId, buffer, texts);
    case HidFlush(ready, accepted, text) => HidFlushAdds(d, ready, accepted, text);
    case TxFlush(connected, room) => TxFlushAdds(d, connected, room);
    case BootLog(connected, text) =>
      LogAdds(d, text);
      SameAdds(d, d);
      SameAdds(Log(d, text), Log(d, text).(bootLogPending := false));
      AddsTwice(d, Log(d, text), Log(d, text).(bootLogPending := false), [], []);
      NothingTwice();
    case LogLine(text) => LogAdds(d, text);
  }

  lemma HidFlushAdds(d: Device, ready: bool, accepted: bool, text: seq<byte>)
    ensures Adds(d, Next(d, HidFlush(ready, accepted, text)), [])
    ensures Next(d, HidFlush(ready, accepted, text)).rest == d.rest
  {
    hide Log, Adds;
    LogAdds(d, text);
    SameAdds(d, d);
    var e := Next(d, HidFlush(ready, accepted, text));
    if d.reports != [] && ready && accepted {
      SameAdds(Log(d, text), e);
      AddsTwice(d, Log(d, text), e, [], []);
      NothingTwice();
    }
  }

  lemma TxFlushAdds(d: Device, connected: bool, room: nat)
    ensures Adds(d, Next(d, TxFlush(connected, room)), []) && Next(d, TxFlush(connected, room)).rest == d.rest
  {
    hide Adds, EncodeFrame;
    var e := Next(d, TxFlush(connected, room));
    assert e.sent + e.tx == d.sent + d.tx;
    SameAdds(d, e);
  }

  lemma {:induction false} RunAdds(d: Device, steps: seq<Step>)
    ensures Adds(d, Run(d, steps), Demands(d.rest, steps))
    decreases |steps|
  {
    hide Adds, Next, Demanded, KeptBy;
    if steps == [] {
      SameAdds(d, d);
    } else {
      var e := Next(d, steps[0]);
      StepAdds(d, steps[0]);
      RunAdds(e, steps[1..]);
      AddsTwice(d, e, Run(e, steps[1..]), Demanded(d.rest, steps[0]), Demands(e.rest, steps[1..]));
    }
  }

  /** In every run in which the transmit queue never refused one of them: the
      frames sent and waiting that are not log lines are, in order, one status
      frame with the build's name for each ping received and one unaltered copy
      of each report the USB host has set. */
  lemma EveryOutput(steps: seq<Step>)
    requires Run(BOOTED, steps).txRefused == 0
    ensures Output(Run(BOOTED, steps)) == Demands([], steps)
  {
    hide Run, Demands, Output;
    RunAdds(BOOTED, steps);
    assert Output(BOOTED) == [] by { NoOutput(); }
    assert [] + Demands([], steps) == Demands([], steps);
  }

  lemma NoOutput()
    ensures Output(BOOTED) == []
  {}

  /** And refusals happen exactly at full queues: a report of a frame at a full
      report queue, an answer to a ping or a copy of a host report at a full
      transmit queue, a status reply that does not fit as a whole. */
  lemma RefusedExactly(d: Device, f: Frame, fullText: u16 -> seq<byte>, report: StoredReport, reply: seq<byte>, texts: Texts)
    ensures OnFrame(d, f, fullText).refused > d.refused <==> IsInputReport(f) && |d.reports| == REPORT_QUEUE_CAPACITY
    ensures OnFrame(d, f, fullText).txRefused > d.txRefused <==> f.kind == KIND_PING && |d.tx| == TX_QUEUE_CAPACITY
    ensures Forward(d, report, texts.full).txRefused > d.txRefused <==> |d.tx| == TX_QUEUE_CAPACITY
    ensures QueueReply(d, reply, texts).refused > d.refused <==> |StatusReports(reply)| > Room(d)
  {
    hide StatusReports;
  }
}
