/** All layers of the serial link composed, over whole runs of the firmware. */
module EndToEnd {
  import opened Bytes
  import opened BridgeFrame
  import opened FrameScan
  import opened BridgeParser
  import opened DeviceModel
  import opened LineDecoder
  import opened SerialLink
  import opened HostSession
  import opened LinkTrack
  import StatusReply

  // ---- Where replies come from ----

  /** A reply is the status text for some id, and fits its buffer. */
  ghost predicate IsReply(reply: seq<byte>) {
    |reply| < StatusReply.JSON_BYTES && exists id: nat :: reply == StatusReply.Reply(id)
  }

  ghost predicate Replying(d: Device) {
    forall i | i in d.intake && i.FromStatus? :: IsReply(i.reply)
  }

  lemma FrameReplies(d: Device, e: Device)
    requires Replying(d)
    requires forall i | i in e.intake && i.FromStatus? :: i in d.intake || IsReply(i.reply)
    ensures Replying(e)
  {
    hide IsReply;
  }

  lemma {:induction false} OnFramesReply(d: Device, frames: seq<Frame>, fullText: u16 -> seq<byte>)
    requires Replying(d)
    ensures Replying(OnFrames(d, frames, fullText))
    ensures forall i | i in OnFrames(d, frames, fullText).intake && i.FromStatus? :: i in d.intake
    decreases |frames|
  {
    hide IsReply, IsInputReport;
    if frames == [] {
    } else {
      FrameReplies(d, OnFrame(d, frames[0], fullText));
      OnFramesReply(OnFrame(d, frames[0], fullText), frames[1..], fullText);
    }
  }

  lemma SetReportReplies(d: Device, reportId: byte, buffer: seq<byte>, texts: Texts)
    requires Replying(d)
    ensures Replying(OnSetReport(d, reportId, buffer, texts))
  {
    hide Log, Forward, Normalized, StatusReply.OccursAt, StatusReply.Reply, StatusReply.ParseId, StatusReports, IsReply;
    forall x: Device, text: seq<byte> ensures LogKeeps(x, Log(x, text)) { LogTouchesTx(x, text); }
    forall x: Device, report: StoredReport ensures LogKeeps(x, Forward(x, report, texts.full)) {
      ForwardTouchesTx(x, report, texts.full);
    }
    forall id: nat | |StatusReply.Reply(id)| < StatusReply.JSON_BYTES ensures IsReply(StatusReply.Reply(id)) {
      ReplyIs(id);
    }
  }

  lemma ReplyIs(id: nat)
    requires |StatusReply.Reply(id)| < StatusReply.JSON_BYTES
    ensures IsReply(StatusReply.Reply(id))
  {
    hide StatusReply.Reply;
  }

  lemma StepReplies(d: Device, step: Step)
    requires Replying(d)
    ensures Replying(Next(d, step))
  {
    hide IsReply, OnFrames, OnSetReport, FeedOnce;
    match step
    case Receive(chunk, fullText) =>
      var r := FeedOnce(d.rest, chunk);
      OnFramesReply(d.(rest := r.rest), r.frames, fullText);
    case SetReport(reportId, buffer, texts) => SetReportReplies(d, reportId, buffer, texts);
    case _ =>
  }

  lemma {:induction false} RunReplies(d: Device, steps: seq<Step>)
    requires Replying(d)
    ensures Replying(Run(d, steps))
    decreases |steps|
  {
    hide Next, Replying;
    if steps == [] {
    } else {
      StepReplies(d, steps[0]);
      RunReplies(Next(d, steps[0]), steps[1..]);
    }
  }

  // ---- What arrives ----

  /** What travels over the serial line. */
  function Stream(noise: seq<seq<byte>>, frames: seq<Frame>, tail: seq<byte>): seq<byte>
    requires |noise| == |frames| && forall f | f in frames :: Encodable(f)
  {
    NoisyStream(noise, frames) + tail
  }

  /** A session on the serial line: frames of any kind that carry the reports of
      the lines, each frame preceded by noise free of the magic pair, and a run
      that has received some of it without ever filling the report queue. */
  ghost predicate Session(lines: seq<seq<byte>>, noise: seq<seq<byte>>, frames: seq<Frame>, tail: seq<byte>, steps: seq<Step>) {
    && |noise| == |frames| && (forall f | f in frames :: Encodable(f))
    && InputReports(frames) == MessageReports(lines)
    && (forall g | g in noise :: Quiet(g)) && Quiet(tail)
    && Received(steps) <= Stream(noise, frames, tail)
    && Run(BOOTED, steps).refused == 0
  }

  /** The firmware takes in the host's reports in order, and all of them once
      everything has been received. */
  lemma TakenInAsSent(lines: seq<seq<byte>>, noise: seq<seq<byte>>, frames: seq<Frame>, tail: seq<byte>, steps: seq<Step>)
    requires Session(lines, noise, frames, tail, steps)
    ensures HostReports(Run(BOOTED, steps).intake) <= MessageReports(lines)
    ensures Received(steps) == Stream(noise, frames, tail) ==> HostReports(Run(BOOTED, steps).intake) == MessageReports(lines)
  {
    hide Scan, Run, InputReports, HostReports, MessageReports, NoisyStream, Quiet, Received;
    EmptyScan();
    InputReportsNone();
    NoHostReports();
    RunFollowsScan(BOOTED, [], steps);
    assert [] + Received(steps) == Received(steps);
    var stream := Stream(noise, frames, tail);
    NoisyRoundTrip(noise, frames, tail);
    var later := stream[|Received(steps)|..];
    assert Received(steps) + later == stream;
    ScanSplit(Received(steps), later);
    InputReportsAppend(Scan(Received(steps)).frames, Scan(Scan(Received(steps)).rest + later).frames);
  }

  /** The run as progress through the lines. */
  lemma TracksSession(lines: seq<seq<byte>>, noise: seq<seq<byte>>, frames: seq<Frame>, tail: seq<byte>, steps: seq<Step>)
    requires Session(lines, noise, frames, tail, steps)
    ensures var p, intake := Progress(lines, 0), Run(BOOTED, steps).intake;
      && OnTrack(p, intake)
      && SentLines(Merged(p, intake)) <= lines && RepliedLines(Merged(p, intake)) == Replies(intake)
      && (Received(steps) == Stream(noise, frames, tail) ==>
            SentLines(Merged(p, intake)) == lines && Begun(After(p, intake)) == [])
  {
    hide Run, Received, Stream, HostReports, MessageReports, Merged, SentLines, RepliedLines, Replies, Session, OnTrack;
    var p, intake := Progress(lines, 0), Run(BOOTED, steps).intake;
    SessionShape(lines, noise, frames, tail, steps);
    TakenInAsSent(lines, noise, frames, tail, steps);
    assert Remaining(p) == MessageReports(lines);
    HostKeepsTrack(p, intake);
    LinesInterleave(p, intake);
    var q := After(p, intake);
    if Received(steps) == Stream(noise, frames, tail) {
      assert Remaining(q) == [];
      NothingRemains(q);
    }
  }

  lemma SessionShape(lines: seq<seq<byte>>, noise: seq<seq<byte>>, frames: seq<Frame>, tail: seq<byte>, steps: seq<Step>)
    requires Session(lines, noise, frames, tail, steps)
    ensures |noise| == |frames| && forall f | f in frames :: Encodable(f)
  {
    hide Run, Received, Stream, InputReports, MessageReports, Quiet;
  }

  lemma SomethingRemains(p: Progress)
    requires Underway(p) && p.lines != []
    ensures Remaining(p) != []
  {
    hide LineReports;
  }

  lemma NothingRemains(p: Progress)
    requires Underway(p) && Remaining(p) == []
    ensures p.lines == [] && Begun(p) == []
  {
    hide LineReports;
    if p.lines != [] { SomethingRemains(p); }
  }

  /** What the host application has been given is a prefix of what was brought. */
  lemma Delivered(steps: seq<Step>)
    requires Run(BOOTED, steps).refused == 0
    ensures var d := Run(BOOTED, steps);
      && d.hid <= Short(AllBrought(d.intake))
      && (d.reports == [] ==> d.hid == Short(AllBrought(d.intake)))
  {
    hide Run, AllBrought, Scan;
    EveryRun(steps);
    var d := Run(BOOTED, steps);
    forall i | 0 <= i < |d.hid| ensures d.hid[i] == Short(AllBrought(d.intake))[i] {
      assert ([DeviceModel.REPORT_ID] + d.hid[i])[1..] == d.hid[i];
    }
  }

  lemma PlainIsFree(s: seq<byte>)
    requires StatusReply.Plain(s)
    ensures CrlfFree(s)
  {
    FreeMeans(s);
  }

  lemma EverythingFits(limit: nat, lines: seq<seq<byte>>, intake: seq<Intake>)
    requires forall line | line in lines :: Fits(limit, line)
    requires forall i | i in intake && i.FromStatus? :: IsReply(i.reply) && |i.reply| + 2 <= limit
    ensures AllFit(limit, Progress(lines, 0), intake)
  {
    hide StatusReply.Reply, StatusReply.Plain, CrlfFree;
    forall i | i in intake && i.FromStatus? ensures Fits(limit, i.reply) && StatusReply.Plain(i.reply) {
      var id: nat :| i.reply == StatusReply.Reply(id);
      StatusReply.ReplyPlain(id);
      PlainIsFree(i.reply);
    }
  }

  // ---- The theorems ----

  /** Every line and every reply taken in fits the decoder. */
  predicate WithinLimit(limit: nat, lines: seq<seq<byte>>, intake: seq<Intake>) {
    && (forall line | line in lines :: Fits(limit, line))
    && (forall i | i in intake && i.FromStatus? :: |i.reply| + 2 <= limit)
  }

  /** End to end, over a noisy serial line cut in any way, with pings and other
      frames anywhere, interleaved in any way with everything else the firmware
      does, at any moment of a run in which the report queue was never full and
      no status reply was queued inside a host message: the host application has
      decoded a prefix of the host's messages and the firmware's replies, merged
      in the order in which they were completed; all of them once the queue is
      empty; and once everything has been received too, each message of the host
      is among them and nothing is left in the buffer. */
  lemma EndToEnd<M>(
    parse: seq<byte> -> Outcome<M>, limit: nat, lines: seq<seq<byte>>,
    noise: seq<seq<byte>>, frames: seq<Frame>, tail: seq<byte>, steps: seq<Step>)
    requires Session(lines, noise, frames, tail, steps)
    requires WithinLimit(limit, lines, Run(BOOTED, steps).intake)
    requires Uninterrupted(Progress(lines, 0), Run(BOOTED, steps).intake)
    ensures var d := Run(BOOTED, steps);
      var merged, fed := Merged(Progress(lines, 0), d.intake), FeedReports(parse, limit, [], d.hid);
      && SentLines(merged) <= lines && RepliedLines(merged) == Replies(d.intake)
      && fed.messages <= Messages(parse, LineTexts(merged)) && fed.errors <= LineErrors(parse, LineTexts(merged))
      && (d.reports == [] ==> fed.messages == Messages(parse, LineTexts(merged)) && fed.errors == LineErrors(parse, LineTexts(merged)))
      && (Received(steps) == Stream(noise, frames, tail) ==> SentLines(merged) == lines && (d.reports == [] ==> fed.buffer == []))
  {
    hide Next, Run, FeedReports, Messages, LineErrors, Stream, Received, Session, AllBrought, Replying;
    hide Merged, SentLines, RepliedLines, Replies, Uninterrupted, OnTrack, Fits, Begun, After, IsReply;
    var d, p := Run(BOOTED, steps), Progress(lines, 0);
    SessionNeverFull(lines, noise, frames, tail, steps);
    TracksSession(lines, noise, frames, tail, steps);
    Delivered(steps);
    AllReplies(steps);
    EverythingFits(limit, lines, d.intake);
    NothingBegun(lines);
    UninterruptedDecodes(parse, limit, p, d.intake);
    var all := Short(AllBrought(d.intake));
    FeedReportsAppend(parse, limit, [], d.hid, all[|d.hid|..]);
    assert d.hid + all[|d.hid|..] == all;
  }

  lemma SessionNeverFull(lines: seq<seq<byte>>, noise: seq<seq<byte>>, frames: seq<Frame>, tail: seq<byte>, steps: seq<Step>)
    requires Session(lines, noise, frames, tail, steps)
    ensures Run(BOOTED, steps).refused == 0
  {
    hide Run, Received, Stream, InputReports, MessageReports, Quiet;
  }

  lemma AllReplies(steps: seq<Step>)
    ensures forall i | i in Run(BOOTED, steps).intake && i.FromStatus? :: IsReply(i.reply)
  {
    hide Run, IsReply;
    RunReplies(BOOTED, steps);
  }

  lemma NothingBegun(lines: seq<seq<byte>>)
    ensures Begun(Progress(lines, 0)) == [] && Underway(Progress(lines, 0))
  {}

  /** The condition is exact. Once the queue is empty, the lines decoded are the
      host's messages and the replies in their order of completion, without an
      error, if and only if no reply was queued inside a host message. */
  lemma EndToEndExactly(
    limit: nat, lines: seq<seq<byte>>, noise: seq<seq<byte>>, frames: seq<Frame>, tail: seq<byte>, steps: seq<Step>)
    requires Session(lines, noise, frames, tail, steps)
    requires WithinLimit(limit, lines, Run(BOOTED, steps).intake)
    requires Run(BOOTED, steps).reports == []
    ensures var d, p := Run(BOOTED, steps), Progress(lines, 0);
      var fed := FeedReports(Verbatim, limit, [], d.hid);
      Uninterrupted(p, d.intake) <==> fed.messages == LineTexts(Merged(p, d.intake)) && fed.errors == []
  {
    hide Next, Run, FeedReports, Messages, LineErrors, Stream, Received, Session, AllBrought, Replying;
    hide Merged, SentLines, RepliedLines, Replies, Uninterrupted, OnTrack, Fits, Begun, After, IsReply;
    var d, p := Run(BOOTED, steps), Progress(lines, 0);
    SessionNeverFull(lines, noise, frames, tail, steps);
    TracksSession(lines, noise, frames, tail, steps);
    Delivered(steps);
    AllReplies(steps);
    EverythingFits(limit, lines, d.intake);
    NothingBegun(lines);
    if Uninterrupted(p, d.intake) {
      UninterruptedDecodes(Verbatim, limit, p, d.intake);
      LinesNotEmpty(limit, p, d.intake);
      AllVerbatim(LineTexts(Merged(p, d.intake)));
    } else {
      InterruptedShows(limit, p, d.intake);
    }
  }

  lemma {:induction false} LinesNotEmpty(limit: nat, p: Progress, intake: seq<Intake>)
    requires AllFit(limit, p, intake)
    ensures forall text | text in LineTexts(Merged(p, intake)) :: text != []
    decreases |intake|
  {
    hide AllFit, Emits, Advance;
    if intake == [] {
    } else {
      FitFirst(limit, p, intake);
      EmitsFit(limit, p, intake[0]);
      FitLater(limit, p, intake);
      LinesNotEmpty(limit, Advance(p, intake[0]), intake[1..]);
      TextsFront(Emits(p, intake[0]), Merged(Advance(p, intake[0]), intake[1..]));
    }
  }

  // ---- The condition told from the steps ----

  /** The step is a status request that is answered. */
  predicate Answered(step: Step) {
    AsksStatus(step)
    && |StatusReply.Reply(StatusReply.ParseId(StatusReply.Declared(Normalized(step.reportId, step.buffer).value)))| < StatusReply.JSON_BYTES
  }

  /** Whenever a status request is answered, the host reports taken in before it
      make up whole messages. */
  predicate BetweenMessages(lines: seq<seq<byte>>, steps: seq<Step>) {
    forall k | 0 <= k < |steps| && Answered(steps[k]) ::
      After(Progress(lines, 0), Run(BOOTED, steps[..k]).intake).left == 0
  }

  /** What one step takes in, unless the queue was full: host reports, or the one
      reply of an answered request. */
  lemma IntakeOfStep(d: Device, step: Step)
    requires Next(d, step).refused == d.refused
    ensures var e := Next(d, step);
      && d.intake <= e.intake
      && (Answered(step) ==> |e.intake| == |d.intake| + 1 && e.intake[|d.intake|].FromStatus?)
      && (!Answered(step) ==> forall k | |d.intake| <= k < |e.intake| :: e.intake[k].FromHost?)
  {
    hide Log, Forward, Normalized, OnFrames, FeedOnce, StatusReply.OccursAt, StatusReply.Reply, StatusReply.ParseId, StatusReports;
    forall x: Device, text: seq<byte> ensures LogKeeps(x, Log(x, text)) { LogTouchesTx(x, text); }
    match step
    case Receive(chunk, fullText) =>
      var r := FeedOnce(d.rest, chunk);
      HostIntake(d.(rest := r.rest), r.frames, fullText);
    case SetReport(reportId, buffer, texts) =>
      forall x: Device, report: StoredReport ensures LogKeeps(x, Forward(x, report, texts.full)) {
        ForwardTouchesTx(x, report, texts.full);
      }
      if Normalized(reportId, buffer).Some? { NormalizedNotEmpty(reportId, buffer); }
    case _ =>
  }

  lemma NormalizedNotEmpty(reportId: byte, buffer: seq<byte>)
    requires Normalized(reportId, buffer).Some?
    ensures buffer != []
  {}

  lemma {:induction false} HostIntake(d: Device, frames: seq<Frame>, fullText: u16 -> seq<byte>)
    ensures var e := OnFrames(d, frames, fullText);
      d.intake <= e.intake && forall k | |d.intake| <= k < |e.intake| :: e.intake[k].FromHost?
    decreases |frames|
  {
    hide IsInputReport, Demand;
    forall x: Device, text: seq<byte> ensures LogKeeps(x, Log(x, text)) { LogTouchesTx(x, text); }
    hide Log;
    if frames == [] {
    } else {
      var e := OnFrame(d, frames[0], fullText);
      DemandKeepsIntake(d);
      HostIntake(e, frames[1..], fullText);
    }
  }

  lemma DemandKeepsIntake(d: Device)
    ensures Demand(d, KIND_STATUS, BUILD_ID).intake == d.intake
  {}

  lemma {:induction false} UninterruptedAppend(p: Progress, xs: seq<Intake>, ys: seq<Intake>)
    ensures Uninterrupted(p, xs + ys) <==> Uninterrupted(p, xs) && Uninterrupted(After(p, xs), ys)
    decreases |xs|
  {
    hide Advance;
    if xs == [] {
      assert xs + ys == ys;
    } else {
      assert (xs + ys)[1..] == xs[1..] + ys;
      UninterruptedAppend(Advance(p, xs[0]), xs[1..], ys);
    }
  }

  lemma OneReplyUninterrupted(p: Progress, i: Intake)
    requires i.FromStatus?
    ensures Uninterrupted(p, [i]) <==> p.left == 0
  {
    assert [i][1..] == [];
  }

  lemma {:induction false} RefusedGrows(d: Device, steps: seq<Step>)
    ensures Run(d, steps).refused >= d.refused
    decreases |steps|
  {
    hide Next;
    if steps == [] {
    } else {
      StepRefuses(d, steps[0]);
      RefusedGrows(Next(d, steps[0]), steps[1..]);
    }
  }

  lemma StepRefuses(d: Device, step: Step)
    ensures Next(d, step).refused >= d.refused
  {
    hide Log, Forward, Respond, Normalized, OnFrames, FeedOnce, HostReports, InputReports;
    forall x: Device, text: seq<byte> ensures LogKeeps(x, Log(x, text)) { LogTouchesTx(x, text); }
    match step
    case Receive(chunk, fullText) =>
      var r := FeedOnce(d.rest, chunk);
      OnFramesTakeIn(d.(rest := r.rest), r.frames, fullText);
    case SetReport(reportId, buffer, texts) =>
      if Normalized(reportId, buffer).Some? {
        var report, seen := Normalized(reportId, buffer).value, Log(d, texts.seen);
        RespondFollows(seen, report, texts);
        ForwardTouchesTx(Respond(seen, report, texts), report, texts.full);
      }
    case _ =>
  }

  lemma {:induction false} RunSnoc(d: Device, steps: seq<Step>, step: Step)
    ensures Run(d, steps + [step]) == Next(Run(d, steps), step)
    decreases |steps|
  {
    hide Next;
    if steps == [] {
      assert [step][1..] == [] && steps + [step] == [step];
    } else {
      assert (steps + [step])[1..] == steps[1..] + [step];
      RunSnoc(Next(d, steps[0]), steps[1..], step);
    }
  }

  lemma BetweenSnoc(lines: seq<seq<byte>>, steps: seq<Step>, step: Step)
    ensures BetweenMessages(lines, steps + [step]) <==>
      BetweenMessages(lines, steps) && (Answered(step) ==> After(Progress(lines, 0), Run(BOOTED, steps).intake).left == 0)
  {
    hide Run, Answered, After;
    var all := steps + [step];
    assert forall k | 0 <= k < |steps| :: all[k] == steps[k] && all[..k] == steps[..k];
    assert all[|steps|] == step && all[..|steps|] == steps;
  }

  /** The two ways to say that no reply falls inside a message. */
  lemma {:induction false} BetweenIsUninterrupted(lines: seq<seq<byte>>, steps: seq<Step>)
    requires Run(BOOTED, steps).refused == 0
    ensures BetweenMessages(lines, steps) <==> Uninterrupted(Progress(lines, 0), Run(BOOTED, steps).intake)
    decreases |steps|
  {
    hide Next, Run, Uninterrupted, After, BetweenMessages, Answered;
    if steps == [] {
      NothingYet(lines);
    } else {
      var before, last := steps[..|steps| - 1], steps[|steps| - 1];
      assert steps == before + [last];
      var p, d := Progress(lines, 0), Run(BOOTED, before);
      RunSnoc(BOOTED, before, last);
      StepRefuses(d, last);
      RefusedGrows(BOOTED, before);
      IntakeOfStep(d, last);
      BetweenIsUninterrupted(lines, before);
      BetweenSnoc(lines, before, last);
      var more := Next(d, last).intake[|d.intake|..];
      assert Next(d, last).intake == d.intake + more;
      UninterruptedAppend(p, d.intake, more);
      if Answered(last) {
        assert more == [more[0]];
        OneReplyUninterrupted(After(p, d.intake), more[0]);
      } else {
        HostOnly(After(p, d.intake), more);
      }
    }
  }

  lemma NothingYet(lines: seq<seq<byte>>)
    ensures BetweenMessages(lines, []) && Run(BOOTED, []).intake == [] && Uninterrupted(Progress(lines, 0), [])
  {}

  /** A limit of 129 bytes has room for every reply. */
  lemma RepliesFit(limit: nat, lines: seq<seq<byte>>, steps: seq<Step>)
    requires limit >= 129 && forall line | line in lines :: Fits(limit, line)
    ensures WithinLimit(limit, lines, Run(BOOTED, steps).intake)
  {
    hide Run, Fits;
    AllReplies(steps);
  }

  /** So, for a decoder limit of at least 129 bytes: once the queue is empty, the
      lines decoded are the host's messages and the replies in their order of
      completion, without an error, if and only if whenever a status request was
      answered the host's reports taken in by then made up whole messages. */
  lemma EndToEndBySteps(
    limit: nat, lines: seq<seq<byte>>, noise: seq<seq<byte>>, frames: seq<Frame>, tail: seq<byte>, steps: seq<Step>)
    requires Session(lines, noise, frames, tail, steps) && Run(BOOTED, steps).reports == []
    requires limit >= 129 && forall line | line in lines :: Fits(limit, line)
    ensures var d := Run(BOOTED, steps);
      var fed := FeedReports(Verbatim, limit, [], d.hid);
      BetweenMessages(lines, steps) <==>
        fed.messages == LineTexts(Merged(Progress(lines, 0), d.intake)) && fed.errors == []
  {
    hide Run, FeedReports, Session, Merged, Uninterrupted, BetweenMessages, Fits, WithinLimit;
    SessionNeverFull(lines, noise, frames, tail, steps);
    RepliesFit(limit, lines, steps);
    BetweenIsUninterrupted(lines, steps);
    EndToEndExactly(limit, lines, noise, frames, tail, steps);
  }

  // ---- Sessions without a status request ----

  /** No report from the USB host asks for the status. */
  predicate NeverAsked(steps: seq<Step>) {
    forall k | 0 <= k < |steps| :: !AsksStatus(steps[k])
  }

  predicate AsksStatus(step: Step) {
    step.SetReport? && Normalized(step.reportId, step.buffer).Some?
    && StatusReply.Asks(Normalized(step.reportId, step.buffer).value)
  }

  lemma UnaskedStep(d: Device, step: Step)
    requires !AsksStatus(step) && forall i | i in d.intake :: i.FromHost?
    ensures forall i | i in Next(d, step).intake :: i.FromHost?
  {
    hide Log, StatusReply.Asks, OnFrames, FeedOnce, Normalized, QueueReply;
    forall x: Device, text: seq<byte> ensures LogKeeps(x, Log(x, text)) { LogTouchesTx(x, text); }
    if step.Receive? {
      var r := FeedOnce(d.rest, step.chunk);
      FromFramesOnly(d.(rest := r.rest), r.frames, step.fullText);
    }
  }

  lemma {:induction false} FromFramesOnly(d: Device, frames: seq<Frame>, fullText: u16 -> seq<byte>)
    requires forall i | i in d.intake :: i.FromHost?
    ensures forall i | i in OnFrames(d, frames, fullText).intake :: i.FromHost?
    decreases |frames|
  {
    hide IsInputReport;
    if frames == [] {
    } else {
      FromFramesOnly(OnFrame(d, frames[0], fullText), frames[1..], fullText);
    }
  }

  lemma {:induction false} UnaskedRun(d: Device, steps: seq<Step>)
    requires NeverAsked(steps) && forall i | i in d.intake :: i.FromHost?
    ensures forall i | i in Run(d, steps).intake :: i.FromHost?
    decreases |steps|
  {
    hide Next, AsksStatus;
    if steps == [] {
    } else {
      UnaskedStep(d, steps[0]);
      UnaskedRun(Next(d, steps[0]), steps[1..]);
    }
  }

  lemma EmitsText(p: Progress, i: Intake)
    requires i.FromHost?
    ensures LineTexts(Emits(p, i)) == SentLines(Emits(p, i))
  {
    hide Completes;
    EmitsOne(p, i);
  }

  lemma {:induction false} HostOnly(p: Progress, intake: seq<Intake>)
    requires forall i | i in intake :: i.FromHost?
    ensures Uninterrupted(p, intake) && LineTexts(Merged(p, intake)) == SentLines(Merged(p, intake))
    decreases |intake|
  {
    hide Completes, Advance, Emits, SentLines;
    if intake == [] {
      NoLines();
    } else {
      assert intake[0] in intake && forall i | i in intake[1..] :: i in intake;
      EmitsText(p, intake[0]);
      HostOnly(Advance(p, intake[0]), intake[1..]);
      var first, rest := Emits(p, intake[0]), Merged(Advance(p, intake[0]), intake[1..]);
      SentAppend(first, rest);
      TextsFront(first, rest);
    }
  }

  /** When the status is never asked for and every line parses: once everything
      has been received and the queue is empty, the host application has exactly
      the messages sent, in order, with no error and an empty buffer. */
  lemma AllMessagesArrive<M>(
    parse: seq<byte> -> Outcome<M>, limit: nat, lines: seq<seq<byte>>,
    noise: seq<seq<byte>>, frames: seq<Frame>, tail: seq<byte>, steps: seq<Step>)
    requires Session(lines, noise, frames, tail, steps) && NeverAsked(steps)
    requires forall line | line in lines :: Fits(limit, line) && parse(line).Message?
    ensures var d := Run(BOOTED, steps);
      var fed := FeedReports(parse, limit, [], d.hid);
      && fed.messages <= Messages(parse, lines) && fed.errors == []
      && (Received(steps) == Stream(noise, frames, tail) && d.reports == [] ==>
            && fed.buffer == [] && |fed.messages| == |lines|
            && forall i | 0 <= i < |lines| :: fed.messages[i] == parse(lines[i]).m)
  {
    hide Next, Run, FeedReports, Messages, LineErrors, Stream, Received, Session, CrlfFree;
    hide Merged, SentLines, RepliedLines, Replies, Uninterrupted, Normalized, StatusReply.Asks;
    var d, p := Run(BOOTED, steps), Progress(lines, 0);
    UnaskedRun(BOOTED, steps);
    HostOnly(p, d.intake);
    EndToEnd(parse, limit, lines, noise, frames, tail, steps);
    var sent := SentLines(Merged(p, d.intake));
    assert lines == sent + lines[|sent|..];
    MessagesAppend(parse, sent, lines[|sent|..]);
    LineErrorsAppend(parse, sent, lines[|sent|..]);
    AllParse(parse, lines);
  }

  /** A host session, pings included, is such a session. */
  lemma HostSessionsQualify(acts: seq<Act>, next: u16, noise: seq<seq<byte>>, tail: seq<byte>, steps: seq<Step>)
    requires |noise| == |SessionFrames(acts, next)| && (forall g | g in noise :: Quiet(g)) && Quiet(tail)
    requires Received(steps) <= Stream(noise, SessionFrames(acts, next), tail) && Run(BOOTED, steps).refused == 0
    ensures Session(LinesOf(acts), noise, SessionFrames(acts, next), tail, steps)
  {
    hide Run, Received, Stream, InputReports, MessageReports, Quiet, SessionFrames;
    SessionCarries(acts, next);
  }
}
