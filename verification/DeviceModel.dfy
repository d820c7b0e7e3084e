/** The firmware's main loop as a state machine on values. */
module DeviceModel {
  import opened Bytes
  import opened BridgeFrame
  import opened FrameScan
  import opened BridgeParser
  import HidReports
  import StatusReply

  const REPORT_QUEUE_CAPACITY: nat := 8
  const TX_QUEUE_CAPACITY: nat := 32
  const WIRE_REPORT_BYTES: nat := 64
  const REPORT_ID: byte := 6

  const KIND_INPUT_REPORT: byte := 0x01
  const KIND_OUTPUT_REPORT: byte := 0x02
  const KIND_PING: byte := 0x03
  const KIND_STATUS: byte := 0x04
  const KIND_LOG: byte := 0x05

  /** The text rp2040-zero/0.1.1-diag. */
  const BUILD_ID: seq<byte> := [
    0x72, 0x70, 0x32, 0x30, 0x34, 0x30, 0x2d, 0x7a, 0x65, 0x72, 0x6f,
    0x2f, 0x30, 0x2e, 0x31, 0x2e, 0x31, 0x2d, 0x64, 0x69, 0x61, 0x67]

  /** A report as stored: an array of exactly 64 bytes. */
  type StoredReport = r: seq<byte> | |r| == 64 witness seq(64, _ => 0)

  /** Where queued reports come from: one report of a bridge frame, or the whole
      reply to a status request. */
  datatype Intake = FromHost(report: StoredReport) | FromStatus(reply: seq<byte>)

  /** `rest`, `reports`, `tx`, `nextSequence` and `bootLogPending` are the
      firmware's memory. The others record its history: reports handed to the
      USB host, frames and bytes written to the serial port, every report ever
      queued, where they came from, how often a full queue refused a report or
      cut a reply short, and how often a full transmit queue refused a frame that
      is not a log line. */
  datatype Device = Device(
    rest: seq<byte>,
    reports: seq<StoredReport>,
    tx: seq<Frame>,
    nextSequence: u16,
    bootLogPending: bool,
    hid: seq<seq<byte>>,
    cdc: seq<byte>,
    sent: seq<Frame>,
    queued: seq<StoredReport>,
    intake: seq<Intake>,
    refused: nat,
    txRefused: nat)

  const BOOTED: Device := Device([], [], [], 1, true, [], [], [], [], [], 0, 0)

  /** What the C library, the USB stack and the host decide is part of each
      step: the formatted log texts, readiness, free space, acceptance. */
  datatype Step =
    | Receive(chunk: seq<byte>, fullText: u16 -> seq<byte>)
    | HidFlush(ready: bool, accepted: bool, text: seq<byte>)
    | TxFlush(connected: bool, room: nat)
    | BootLog(connected: bool, text: seq<byte>)
    | LogLine(text: seq<byte>)
    | SetReport(reportId: byte, buffer: seq<byte>, texts: Texts)

  /** The log texts of one report from the USB host. */
  datatype Texts = Texts(seen: seq<byte>, asked: seq<byte>, answered: seq<byte>, cut: seq<byte>, full: seq<byte>)

  function TxPush(d: Device, kind: byte, payload: seq<byte>): (Device, bool) {
    if |payload| > MAX_PAYLOAD || |d.tx| == TX_QUEUE_CAPACITY then (d, false)
    else
      (d.(tx := d.tx + [Frame(kind, d.nextSequence, payload)],
          nextSequence := (d.nextSequence + 1) % 0x1_0000), true)
  }

  /** A formatted text occupies at most 63 bytes of the 64-byte scratch buffer;
      formatting that produced nothing logs nothing. */
  function Log(d: Device, text: seq<byte>): Device {
    if |d.tx| > TX_QUEUE_CAPACITY - 4 || text == [] then d
    else TxPush(d, KIND_LOG, if |text| >= MAX_PAYLOAD then text[..MAX_PAYLOAD - 1] else text).0
  }

  /** Pushes a frame that is not a log line, and keeps count of refusals. */
  function Demand(d: Device, kind: byte, payload: seq<byte>): Device {
    var (pushed, ok) := TxPush(d, kind, payload);
    if ok then pushed else d.(txRefused := d.txRefused + 1)
  }

  predicate IsInputReport(f: Frame) {
    f.kind == KIND_INPUT_REPORT && |f.payload| == WIRE_REPORT_BYTES && f.payload[0] == REPORT_ID
  }

  function OnFrame(d: Device, f: Frame, fullText: u16 -> seq<byte>): Device {
    if IsInputReport(f) then
      if |d.reports| == REPORT_QUEUE_CAPACITY then Log(d, fullText(f.sequence)).(refused := d.refused + 1)
      else d.(reports := d.reports + [f.payload], queued := d.queued + [f.payload],
              intake := d.intake + [FromHost(f.payload)])
    else if f.kind == KIND_PING then Demand(d, KIND_STATUS, BUILD_ID)
    else d
  }

  function OnFrames(d: Device, frames: seq<Frame>, fullText: u16 -> seq<byte>): Device
    decreases |frames|
  {
    if frames == [] then d else OnFrames(OnFrame(d, frames[0], fullText), frames[1..], fullText)
  }

  // ---- Reports from the USB host ----

  /** The stored form of a report, with or without its id in front. */
  function Normalized(reportId: byte, buffer: seq<byte>): Option<StoredReport> {
    if reportId == REPORT_ID && |buffer| == WIRE_REPORT_BYTES - 1 then Some([REPORT_ID] + buffer)
    else if |buffer| == WIRE_REPORT_BYTES && buffer[0] == REPORT_ID then Some(buffer)
    else None
  }

  function StatusReports(reply: seq<byte>): (reports: seq<StoredReport>)
    ensures forall r | r in reports :: r[0] == REPORT_ID
  {
    HidReports.Reports(HidReports.Ble, reply + HidReports.CRLF)
  }

  function Room(d: Device): nat {
    if |d.reports| < REPORT_QUEUE_CAPACITY then REPORT_QUEUE_CAPACITY - |d.reports| else 0
  }

  /** Queues a reply's reports one after another, and gives up at the first that
      finds the queue full. */
  function QueueReply(d: Device, reply: seq<byte>, texts: Texts): Device {
    var rs := StatusReports(reply);
    if |rs| <= Room(d) then
      Log(d.(reports := d.reports + rs, queued := d.queued + rs, intake := d.intake + [FromStatus(reply)]), texts.answered)
    else
      Log(d.(reports := d.reports + rs[..Room(d)], queued := d.queued + rs[..Room(d)], refused := d.refused + 1), texts.cut)
  }

  /** Answers a status request, unless the text would not fit its buffer. */
  function Respond(d: Device, report: StoredReport, texts: Texts): Device {
    if !StatusReply.Asks(report) then d
    else
      var reply := StatusReply.Reply(StatusReply.ParseId(StatusReply.Declared(report)));
      if |reply| >= StatusReply.JSON_BYTES then Log(d, texts.asked)
      else QueueReply(Log(d, texts.asked), reply, texts)
  }

  /** Copies a report to the serial side, or logs that it could not. */
  function Forward(d: Device, report: StoredReport, text: seq<byte>): Device {
    var e := Demand(d, KIND_OUTPUT_REPORT, report);
    if e.txRefused == d.txRefused then e else Log(e, text)
  }

  function OnSetReport(d: Device, reportId: byte, buffer: seq<byte>, texts: Texts): Device {
    if buffer == [] then d
    else
      match Normalized(reportId, buffer)
      case None => Log(d, texts.seen)
      case Some(report) => Forward(Respond(Log(d, texts.seen), report, texts), report, texts.full)
  }

  function Next(d: Device, step: Step): Device {
    match step
    case Receive(chunk, fullText) =>
      var r := FeedOnce(d.rest, chunk);
      OnFrames(d.(rest := r.rest), r.frames, fullText)
    case HidFlush(ready, accepted, text) =>
      if d.reports == [] || !ready || !accepted then d
      else Log(d, text).(reports := d.reports[1..], hid := d.hid + [d.reports[0][1..]])
    case TxFlush(connected, room) =>
      if d.tx == [] || !connected || !Encodable(d.tx[0]) || room < FrameBytes(d.tx[0]) then d
      else d.(cdc := d.cdc + EncodeFrame(d.tx[0]), sent := d.sent + [d.tx[0]], tx := d.tx[1..])
    case BootLog(connected, text) =>
      if d.bootLogPending && connected then Log(d, text).(bootLogPending := false) else d
    case LogLine(text) => Log(d, text)
    case SetReport(reportId, buffer, texts) => OnSetReport(d, reportId, buffer, texts)
  }

  function Run(d: Device, steps: seq<Step>): Device
    decreases |steps|
  {
    if steps == [] then d else Run(Next(d, steps[0]), steps[1..])
  }

  // ---- The log rule ----

  /** Log lines never take the last three transmit slots: those stay free for
      reports and status replies. */
  lemma LogLeavesRoom(d: Device, text: seq<byte>)
    ensures Log(d, text) == d || |Log(d, text).tx| <= TX_QUEUE_CAPACITY - 3
    ensures |d.tx| <= TX_QUEUE_CAPACITY - 4 && text != [] ==> |Log(d, text).tx| == |d.tx| + 1
    ensures |d.tx| < TX_QUEUE_CAPACITY ==> TxPush(Log(d, text), KIND_STATUS, BUILD_ID).1
  {}

  // ---- Invariants over every run ----

  ghost predicate Numbered(frames: seq<Frame>, next: u16) {
    && (forall i | 0 <= i < |frames| :: frames[i].sequence == (i + 1) % 0x1_0000)
    && next == (|frames| + 1) % 0x1_0000
  }

  ghost predicate TxGood(d: Device) {
    && |d.tx| <= TX_QUEUE_CAPACITY
    && Numbered(d.sent + d.tx, d.nextSequence)
    && (forall f | f in d.sent + d.tx :: Encodable(f))
    && (forall f | f in d.sent :: Encodable(f))
    && d.cdc == Wire(d.sent)
  }

  /** The reports of one intake. */
  function Brought(i: Intake): (reports: seq<StoredReport>)
    ensures i.FromStatus? ==> forall r | r in reports :: r[0] == REPORT_ID
  {
    match i
    case FromHost(report) => [report]
    case FromStatus(reply) => StatusReports(reply)
  }

  function AllBrought(intake: seq<Intake>): seq<StoredReport>
    decreases |intake|
  {
    if intake == [] then [] else AllBrought(intake[..|intake| - 1]) + Brought(intake[|intake| - 1])
  }

  /** The reports handed over and those still queued are all that were queued, in
      order; and unless the queue was ever full, it took in exactly what was
      brought. */
  ghost predicate HidGood(d: Device) {
    && |d.reports| <= REPORT_QUEUE_CAPACITY
    && |d.hid| <= |d.queued| && d.queued[|d.hid|..] == d.reports
    && (forall i | 0 <= i < |d.queued| :: d.queued[i][0] == REPORT_ID)
    && (forall i | 0 <= i < |d.hid| :: d.hid[i] == d.queued[i][1..])
    && (d.refused == 0 ==> d.queued == AllBrought(d.intake))
  }

  ghost predicate Good(d: Device) {
    Settled(d.rest) && TxGood(d) && HidGood(d)
  }

  lemma TxPushKeepsGood(d: Device, kind: byte, payload: seq<byte>)
    requires TxGood(d)
    ensures TxGood(TxPush(d, kind, payload).0)
  {
    hide Wire;
    var (e, ok) := TxPush(d, kind, payload);
    if ok {
      assert e.sent + e.tx == (d.sent + d.tx) + [e.tx[|d.tx|]];
    }
  }

  lemma DemandKeepsGood(d: Device, kind: byte, payload: seq<byte>)
    requires Good(d)
    ensures Good(Demand(d, kind, payload))
  {
    hide TxGood, HidGood, Settled;
    TxPushKeepsGood(d, kind, payload);
    HidFrame(d, Demand(d, kind, payload));
    TxFrame(d, d.(txRefused := d.txRefused + 1));
  }

  lemma LogKeepsGood(d: Device, text: seq<byte>)
    requires Good(d)
    ensures Good(Log(d, text))
    ensures Log(d, text) == d.(tx := Log(d, text).tx, nextSequence := Log(d, text).nextSequence)
  {
    hide Wire, TxGood, HidGood;
    var t := if |text| >= MAX_PAYLOAD then text[..MAX_PAYLOAD - 1] else text;
    TxPushKeepsGood(d, KIND_LOG, t);
    HidFrame(d, Log(d, text));
  }

  lemma HidFrame(d: Device, e: Device)
    requires HidGood(d) && e.reports == d.reports && e.hid == d.hid && e.queued == d.queued
    requires e.intake == d.intake && (e.refused == d.refused || e.refused > 0)
    ensures HidGood(e)
  {}

  lemma TxFrame(d: Device, e: Device)
    requires TxGood(d) && e.tx == d.tx && e.sent == d.sent && e.cdc == d.cdc && e.nextSequence == d.nextSequence
    ensures TxGood(e)
  {
    hide Wire;
  }

  /** Queueing reports that fit; what they come from is recorded, or the queue
      counts as having been full. */
  lemma QueueKeepsGood(d: Device, rs: seq<StoredReport>, e: Device)
    requires Good(d) && |d.reports| + |rs| <= REPORT_QUEUE_CAPACITY && forall r | r in rs :: r[0] == REPORT_ID
    requires e == d.(reports := d.reports + rs, queued := d.queued + rs, intake := e.intake, refused := e.refused)
    requires e.refused > 0 || (e.refused == d.refused && AllBrought(e.intake) == AllBrought(d.intake) + rs)
    ensures Good(e)
  {
    hide TxGood, AllBrought;
    TxFrame(d, e);
    assert e.queued[|d.hid|..] == d.queued[|d.hid|..] + rs;
    forall i | |d.queued| <= i < |e.queued| ensures e.queued[i][0] == REPORT_ID {
      assert e.queued[i] == rs[i - |d.queued|] && rs[i - |d.queued|] in rs;
    }
  }

  lemma BroughtOneMore(intake: seq<Intake>, i: Intake)
    ensures AllBrought(intake + [i]) == AllBrought(intake) + Brought(i)
  {
    assert (intake + [i])[..|intake|] == intake;
  }

  lemma OnFrameKeepsGood(d: Device, f: Frame, fullText: u16 -> seq<byte>)
    requires Good(d)
    ensures Good(OnFrame(d, f, fullText))
  {
    hide TxGood, AllBrought;
    var e := OnFrame(d, f, fullText);
    if IsInputReport(f) {
      if |d.reports| == REPORT_QUEUE_CAPACITY {
        LogKeepsGood(d, fullText(f.sequence));
        TxFrame(Log(d, fullText(f.sequence)), e);
      } else {
        BroughtOneMore(d.intake, FromHost(f.payload));
        QueueKeepsGood(d, [f.payload], e);
      }
    } else if f.kind == KIND_PING {
      DemandKeepsGood(d, KIND_STATUS, BUILD_ID);
    }
  }

  lemma QueueReplyKeepsGood(d: Device, reply: seq<byte>, texts: Texts)
    requires Good(d)
    ensures Good(QueueReply(d, reply, texts))
  {
    hide Good, AllBrought, Log, StatusReports;
    var rs := StatusReports(reply);
    GoodBounds(d);
    if |rs| <= Room(d) {
      var e := d.(reports := d.reports + rs, queued := d.queued + rs, intake := d.intake + [FromStatus(reply)]);
      BroughtOneMore(d.intake, FromStatus(reply));
      QueueKeepsGood(d, rs, e);
      LogKeepsGood(e, texts.answered);
    } else {
      var some := rs[..Room(d)];
      var e := d.(reports := d.reports + some, queued := d.queued + some, refused := d.refused + 1);
      QueueKeepsGood(d, some, e);
      LogKeepsGood(e, texts.cut);
    }
  }

  lemma GoodBounds(d: Device)
    requires Good(d)
    ensures |d.reports| <= REPORT_QUEUE_CAPACITY
  {
    hide TxGood, AllBrought;
  }

  lemma SetReportKeepsGood(d: Device, reportId: byte, buffer: seq<byte>, texts: Texts)
    requires Good(d)
    ensures Good(OnSetReport(d, reportId, buffer, texts))
  {
    hide Good, Log, QueueReply, Forward, StatusReply.OccursAt, StatusReply.Reply, StatusReply.ParseId;
    LogKeepsGood(d, texts.seen);
    if buffer != [] && Normalized(reportId, buffer).Some? {
      var report := Normalized(reportId, buffer).value;
      var seen := Log(d, texts.seen);
      if StatusReply.Asks(report) {
        LogKeepsGood(seen, texts.asked);
        QueueReplyKeepsGood(Log(seen, texts.asked), StatusReply.Reply(StatusReply.ParseId(StatusReply.Declared(report))), texts);
      }
      ForwardKeepsGood(Respond(seen, report, texts), report, texts.full);
    }
  }

  lemma {:induction false} OnFramesKeepGood(d: Device, frames: seq<Frame>, fullText: u16 -> seq<byte>)
    requires Good(d)
    ensures Good(OnFrames(d, frames, fullText))
    decreases |frames|
  {
    hide Good, OnFrame;
    if frames == [] {
    } else {
      OnFrameKeepsGood(d, frames[0], fullText);
      OnFramesKeepGood(OnFrame(d, frames[0], fullText), frames[1..], fullText);
    }
  }

  lemma FeedSettles(kept: seq<byte>, chunk: seq<byte>)
    requires Settled(kept)
    ensures Settled(FeedOnce(kept, chunk).rest)
  {
    hide Scan;
    if chunk != [] { ScanRetainsUndecided(MakeRoom(kept) + chunk); }
  }

  lemma HidFlushKeepsGood(d: Device, ready: bool, accepted: bool, text: seq<byte>)
    requires Good(d)
    ensures Good(Next(d, HidFlush(ready, accepted, text)))
  {
    hide TxGood;
    var e := Next(d, HidFlush(ready, accepted, text));
    if d.reports != [] && ready && accepted {
      LogKeepsGood(d, text);
      TxFrame(Log(d, text), e);
      assert d.queued[|d.hid|] == d.queued[|d.hid|..][0];
      assert e.queued[|e.hid|..] == d.queued[|d.hid|..][1..];
    }
  }

  lemma TxFlushKeepsGood(d: Device, connected: bool, room: nat)
    requires Good(d)
    ensures Good(Next(d, TxFlush(connected, room)))
  {
    hide EncodeFrame, Wire, HidGood;
    var e := Next(d, TxFlush(connected, room));
    HidFrame(d, e);
    if e != d {
      WireSnoc(d.sent, d.tx[0]);
      assert e.sent + e.tx == d.sent + d.tx;
    }
  }

  lemma NextKeepsGood(d: Device, step: Step)
    requires Good(d)
    ensures Good(Next(d, step))
  {
    hide TxGood, HidGood, Settled, FeedOnce, Log, TxPush, OnSetReport;
    match step
    case Receive(chunk, fullText) =>
      var r := FeedOnce(d.rest, chunk);
      FeedSettles(d.rest, chunk);
      TxFrame(d, d.(rest := r.rest));
      HidFrame(d, d.(rest := r.rest));
      OnFramesKeepGood(d.(rest := r.rest), r.frames, fullText);
    case HidFlush(ready, accepted, text) => HidFlushKeepsGood(d, ready, accepted, text);
    case TxFlush(connected, room) => TxFlushKeepsGood(d, connected, room);
    case BootLog(connected, text) =>
      LogKeepsGood(d, text);
      TxFrame(Log(d, text), Log(d, text).(bootLogPending := false));
      HidFrame(Log(d, text), Log(d, text).(bootLogPending := false));
    case LogLine(text) => LogKeepsGood(d, text);
    case SetReport(reportId, buffer, texts) => SetReportKeepsGood(d, reportId, buffer, texts);
  }

  lemma ForwardKeepsGood(d: Device, report: StoredReport, text: seq<byte>)
    requires Good(d)
    ensures Good(Forward(d, report, text))
  {
    hide Good, Log, Demand;
    DemandKeepsGood(d, KIND_OUTPUT_REPORT, report);
    LogKeepsGood(Demand(d, KIND_OUTPUT_REPORT, report), text);
  }

  lemma {:induction false} RunKeepsGood(d: Device, steps: seq<Step>)
    requires Good(d)
    ensures Good(Run(d, steps))
    decreases |steps|
  {
    hide Good, Next;
    if steps == [] {
    } else {
      NextKeepsGood(d, steps[0]);
      RunKeepsGood(Next(d, steps[0]), steps[1..]);
    }
  }

  lemma BootedGood()
    ensures Good(BOOTED)
  {}

  /** In every run: the bytes written to the serial port decode to exactly the
      transmitted frames with nothing left over, and those carry consecutive
      sequence numbers from 1, modulo 2^16; the reports handed to the host are
      the queued ones in order, each once, and the rest are still queued; and
      while the queue was never full, those are exactly the reports taken in from
      the bridge and the reports of the status replies, in order. */
  lemma EveryRun(steps: seq<Step>)
    ensures var d := Run(BOOTED, steps);
      && Scan(d.cdc) == ScanResult(d.sent, [])
      && (forall i | 0 <= i < |d.sent| :: d.sent[i].sequence == (i + 1) % 0x1_0000)
      && |d.reports| <= REPORT_QUEUE_CAPACITY && |d.tx| <= TX_QUEUE_CAPACITY
      && |d.queued| == |d.hid| + |d.reports|
      && (forall i | 0 <= i < |d.hid| :: [REPORT_ID] + d.hid[i] == d.queued[i])
      && d.queued[|d.hid|..] == d.reports
      && (d.refused == 0 ==> d.queued == AllBrought(d.intake))
  {
    hide Next, Wire, Scan, AllBrought;
    BootedGood();
    RunKeepsGood(BOOTED, steps);
    var d := Run(BOOTED, steps);
    WireRoundTrip(d.sent);
    assert forall i | 0 <= i < |d.sent| :: d.sent[i] == (d.sent + d.tx)[i];
    forall i | 0 <= i < |d.hid|
      ensures [REPORT_ID] + d.hid[i] == d.queued[i]
    {
      assert d.queued[i] == [d.queued[i][0]] + d.queued[i][1..];
    }
  }

  // ---- What a run receives ----

  function Received(steps: seq<Step>): seq<byte>
    decreases |steps|
  {
    if steps == [] then []
    else (if steps[0].Receive? then steps[0].chunk else []) + Received(steps[1..])
  }

  /** The reports carried by a list of frames. */
  function InputReports(frames: seq<Frame>): seq<StoredReport>
    decreases |frames|
  {
    if frames == [] then []
    else (if IsInputReport(frames[0]) then [frames[0].payload] else []) + InputReports(frames[1..])
  }

  lemma {:induction false} InputReportsAppend(xs: seq<Frame>, ys: seq<Frame>)
    ensures InputReports(xs + ys) == InputReports(xs) + InputReports(ys)
    decreases |xs|
  {
    if xs == [] {
      assert xs + ys == ys;
    } else {
      assert (xs + ys)[1..] == xs[1..] + ys;
      InputReportsAppend(xs[1..], ys);
    }
  }

  /** The reports among the intakes that came over the bridge. */
  function HostReports(intake: seq<Intake>): seq<StoredReport>
    decreases |intake|
  {
    if intake == [] then []
    else
      var last := intake[|intake| - 1];
      HostReports(intake[..|intake| - 1]) + if last.FromHost? then [last.report] else []
  }

  lemma HostOneMore(intake: seq<Intake>, i: Intake)
    ensures HostReports(intake + [i]) == HostReports(intake) + if i.FromHost? then [i.report] else []
  {
    assert (intake + [i])[..|intake|] == intake;
  }

  lemma OnFrameTakesIn(d: Device, f: Frame, fullText: u16 -> seq<byte>)
    ensures var e := OnFrame(d, f, fullText);
      && e.rest == d.rest && e.refused >= d.refused
      && (e.refused == d.refused ==> HostReports(e.intake) == HostReports(d.intake) + InputReports([f]))
  {
    hide HostReports;
    assert [f][1..] == [];
    if IsInputReport(f) { HostOneMore(d.intake, FromHost(f.payload)); }
  }

  /** Unless a report was refused, all of them were taken in, in order. */
  lemma {:induction false} OnFramesTakeIn(d: Device, frames: seq<Frame>, fullText: u16 -> seq<byte>)
    ensures var e := OnFrames(d, frames, fullText);
      && e.rest == d.rest && e.refused >= d.refused
      && (e.refused == d.refused ==> HostReports(e.intake) == HostReports(d.intake) + InputReports(frames))
    decreases |frames|
  {
    hide OnFrame, InputReports, HostReports;
    if frames == [] {
      InputReportsNone();
    } else {
      var e := OnFrame(d, frames[0], fullText);
      OnFrameTakesIn(d, frames[0], fullText);
      OnFramesTakeIn(e, frames[1..], fullText);
      assert [frames[0]] + frames[1..] == frames;
      InputReportsAppend([frames[0]], frames[1..]);
    }
  }

  lemma InputReportsNone()
    ensures InputReports([]) == []
  {}

  ghost predicate Follows(d: Device, before: seq<byte>) {
    d.rest == Scan(before).rest && (d.refused == 0 ==> HostReports(d.intake) == InputReports(Scan(before).frames))
  }

  lemma ReceiveFollows(d: Device, before: seq<byte>, chunk: seq<byte>, fullText: u16 -> seq<byte>)
    requires Follows(d, before)
    ensures Follows(Next(d, Receive(chunk, fullText)), before + chunk)
  {
    hide Scan, OnFrames, HostReports, InputReports;
    var r := FeedOnce(d.rest, chunk);
    OnFramesTakeIn(d.(rest := r.rest), r.frames, fullText);
    ScanRetainsUndecided(before);
    ScanSplit(before, chunk);
    InputReportsAppend(Scan(before).frames, r.frames);
    if chunk == [] {
      assert before + chunk == before;
      InputReportsNone();
    }
  }

  lemma SetReportFollows(d: Device, before: seq<byte>, reportId: byte, buffer: seq<byte>, texts: Texts)
    requires Follows(d, before)
    ensures Follows(OnSetReport(d, reportId, buffer, texts), before)
  {
    hide Scan, InputReports, HostReports, Log, Forward, Respond, Normalized;
    LogTouchesTx(d, texts.seen);
    if buffer != [] && Normalized(reportId, buffer).Some? {
      var report, seen := Normalized(reportId, buffer).value, Log(d, texts.seen);
      RespondFollows(seen, report, texts);
      ForwardTouchesTx(Respond(seen, report, texts), report, texts.full);
    }
  }

  lemma RespondFollows(d: Device, report: StoredReport, texts: Texts)
    ensures var e := Respond(d, report, texts);
      && e.rest == d.rest && e.refused >= d.refused
      && (e.refused == d.refused ==> HostReports(e.intake) == HostReports(d.intake))
  {
    hide Log, HostReports, StatusReply.Asks, StatusReply.Reply, StatusReply.ParseId, StatusReports;
    forall x: Device, text: seq<byte> ensures LogKeeps(x, Log(x, text)) { LogTouchesTx(x, text); }
    forall reply: seq<byte> ensures HostReports(d.intake + [FromStatus(reply)]) == HostReports(d.intake) {
      HostOneMore(d.intake, FromStatus(reply));
    }
  }

  lemma ForwardTouchesTx(d: Device, report: StoredReport, text: seq<byte>)
    ensures LogKeeps(d, Forward(d, report, text))
  {
    hide Log;
    LogTouchesTx(Demand(d, KIND_OUTPUT_REPORT, report), text);
  }

  /** The parser and the report queue are left alone. */
  ghost predicate LogKeeps(d: Device, e: Device) {
    e.rest == d.rest && e.reports == d.reports && e.intake == d.intake && e.refused == d.refused
  }

  lemma LogTouchesTx(d: Device, text: seq<byte>)
    ensures LogKeeps(d, Log(d, text))
  {}

  lemma OtherStepsFollow(d: Device, before: seq<byte>, step: Step)
    requires Follows(d, before) && !step.Receive?
    ensures Follows(Next(d, step), before)
  {
    hide Scan, InputReports, HostReports, OnSetReport;
    if step.SetReport? { SetReportFollows(d, before, step.reportId, step.buffer, step.texts); }
  }

  /** At any point of a run in which the queue was never full, the reports taken
      in over the bridge are those in a leftmost scan of all bytes received so
      far; replies to status requests come between them. */
  lemma {:induction false} RunFollowsScan(d: Device, before: seq<byte>, steps: seq<Step>)
    requires Follows(d, before)
    ensures Follows(Run(d, steps), before + Received(steps))
    decreases |steps|
  {
    hide Next, Follows;
    if steps == [] {
      assert before + Received(steps) == before;
    } else {
      var s := steps[0];
      if s.Receive? {
        ReceiveFollows(d, before, s.chunk, s.fullText);
        RunFollowsScan(Next(d, s), before + s.chunk, steps[1..]);
        assert before + Received(steps) == (before + s.chunk) + Received(steps[1..]);
      } else {
        OtherStepsFollow(d, before, s);
        RunFollowsScan(Next(d, s), before, steps[1..]);
        assert before + Received(steps) == before + Received(steps[1..]);
      }
    }
  }
}
