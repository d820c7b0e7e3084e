/** A run in which a status reply falls inside a host message, and both are lost. */
module InterruptedMessage {
  import opened Bytes
  import opened BridgeFrame
  import opened FrameScan
  import opened BridgeParser
  import opened DeviceModel
  import opened HidReports
  import opened LineDecoder
  import opened SerialLink
  import opened HostSession
  import opened LinkTrack
  import opened EndToEnd
  import StatusReply

  const SILENT: Texts := Texts([], [], [], [], [])

  function NoText(sequence: u16): seq<byte> {
    []
  }

  // ---- The steps of the run ----

  lemma OneFrame(f: Frame)
    requires Encodable(f)
    ensures FeedOnce([], EncodeFrame(f)) == ScanResult([f], [])
  {
    hide Scan, EncodeFrame;
    WireRoundTrip([f]);
    assert [f][1..] == [];
    assert Wire([f]) == EncodeFrame(f) + Wire([f][1..]);
    assert EncodeFrame(f) + [] == EncodeFrame(f);
    assert [] + EncodeFrame(f) == EncodeFrame(f);
    assert EncodeFrame(f) != [] by { EncodingNotEmpty(f); }
  }

  lemma EncodingNotEmpty(f: Frame)
    requires Encodable(f)
    ensures EncodeFrame(f) != []
  {
    EncodingStartsWithMagic(f, EncodeFrame(f));
  }

  lemma ReceiveOne(d: Device, f: Frame)
    requires d.rest == [] && Encodable(f) && IsInputReport(f) && |d.reports| < REPORT_QUEUE_CAPACITY
    ensures var e := Next(d, Receive(EncodeFrame(f), NoText));
      && e.rest == [] && e.refused == d.refused
      && e.reports == d.reports + [f.payload] && e.intake == d.intake + [FromHost(f.payload)]
  {
    hide FeedOnce, EncodeFrame;
    OneFrame(f);
    var c := d.(rest := []);
    assert OnFrames(c, [f], NoText) == OnFrames(OnFrame(c, f, NoText), [], NoText) by { assert [f][1..] == []; }
  }

  lemma AskOnce(d: Device, buffer: seq<byte>, reply: seq<byte>)
    requires Normalized(DeviceModel.REPORT_ID, buffer).Some?
    requires var report := Normalized(DeviceModel.REPORT_ID, buffer).value;
      StatusReply.Asks(report) && reply == StatusReply.Reply(StatusReply.ParseId(StatusReply.Declared(report)))
    requires |reply| < StatusReply.JSON_BYTES && |d.reports| + |StatusReports(reply)| <= REPORT_QUEUE_CAPACITY
    ensures var e := Next(d, SetReport(DeviceModel.REPORT_ID, buffer, SILENT));
      && e.rest == d.rest && e.refused == d.refused
      && e.reports == d.reports + StatusReports(reply) && e.intake == d.intake + [FromStatus(reply)]
  {
    hide Log, StatusReply.OccursAt, StatusReply.Reply, StatusReply.ParseId, StatusReports;
    forall x: Device, text: seq<byte> ensures LogKeeps(x, Log(x, text)) { LogTouchesTx(x, text); }
    forall x: Device, report: StoredReport ensures LogKeeps(x, TxPush(x, KIND_OUTPUT_REPORT, report).0) {}
  }

  /** Handing over n reports. */
  function Flushes(n: nat): seq<Step> {
    if n == 0 then [] else [HidFlush(true, true, [])] + Flushes(n - 1)
  }

  lemma {:induction false} FlushAll(d: Device, n: nat)
    requires n == |d.reports|
    ensures var e := Run(d, Flushes(n));
      e.reports == [] && e.intake == d.intake && e.refused == d.refused
    ensures Received(Flushes(n)) == []
    decreases n
  {
    if n == 0 {
    } else {
      var e := Next(d, HidFlush(true, true, []));
      assert Flushes(n)[1..] == Flushes(n - 1);
      FlushAll(e, n - 1);
    }
  }

  lemma {:induction false} ReportsCount(transport: Transport, message: seq<byte>)
    ensures |Reports(transport, message)| <= |message| / MAX_CHUNK_BYTES + 1
    decreases |message|
  {
    hide Report;
    if |message| > MAX_CHUNK_BYTES { ReportsCount(transport, message[MAX_CHUNK_BYTES..]); }
  }

  lemma TwoReports(line: seq<byte>)
    requires 60 <= |line| <= 120
    ensures |LineReports(line)| == 2
    ensures forall r | r in LineReports(line) :: r[0] == DeviceModel.REPORT_ID
  {
    hide Report;
    var m := line + CRLF;
    ReportAt(Ble, m, 0);
    ReportAt(Ble, m, 1);
  }

  // ---- What is decoded ----

  /** The first report of a message of two. */
  function Front(line: seq<byte>): seq<byte>
    requires |line| >= 60
  {
    (line + CRLF)[..61]
  }

  /** What is decoded from the second report alone: the rest of the message as a
      line, an empty line, or half a line end that is kept. */
  function Rest(line: seq<byte>): (fed: Fed<seq<byte>>)
    requires |line| >= 60
    ensures fed.errors == []
  {
    if |line| >= 62 then Fed([], [line[61..]], [])
    else if |line| == 61 then Fed([], [], [])
    else Fed([0x0a], [], [])
  }

  lemma Mangled(limit: nat, line: seq<byte>, reply: seq<byte>)
    requires 60 <= |line| <= 120 && Sendable(line) && Sendable(reply) && StatusReply.Plain(reply)
    requires |line| + |reply| + 4 <= limit
    requires |LineReports(line)| == 2
    ensures var rs := LineReports(line);
      FeedReports(Verbatim, limit, [], Short([rs[0]] + StatusReports(reply) + [rs[1]]))
        == Fed(Rest(line).buffer, [Front(line) + reply] + Rest(line).messages, [])
  {
    hide FeedReports, Reports, StatusReports, CrlfFree, Messages, LineErrors, Split, Read, Report, Rest;
    var rs, m := LineReports(line), line + CRLF;
    var p := Progress([line], 0);
    var q := Progress([line], 1);
    var a := Front(line);
    assert Advance(p, FromHost(rs[0])) == q && Begun(q) == a && Begun(p) == [];
    assert Fits(limit, line);
    HostStep(Verbatim, limit, p, FromHost(rs[0]));
    NoLinesNoOutcomes(Verbatim);
    assert LineTexts(Emits(p, FromHost(rs[0]))) == [];
    MangledReply(limit, line, reply);
    Ending(limit, line);
    assert Short([rs[0]] + StatusReports(reply) + [rs[1]]) == Short([rs[0]]) + (Short(StatusReports(reply)) + Short([rs[1]]));
    FeedReportsAppend(Verbatim, limit, [], Short([rs[0]]), Short(StatusReports(reply)) + Short([rs[1]]));
    FeedReportsAppend(Verbatim, limit, a, Short(StatusReports(reply)), Short([rs[1]]));
    assert [] + ([a + reply] + Rest(line).messages) == [a + reply] + Rest(line).messages;
  }

  lemma MangledReply(limit: nat, line: seq<byte>, reply: seq<byte>)
    requires 60 <= |line| && Sendable(line) && StatusReply.Plain(reply) && |line| + |reply| + 4 <= limit
    ensures FeedReports(Verbatim, limit, Front(line), Short(StatusReports(reply))) == Fed([], [Front(line) + reply], [])
  {
    hide FeedReports, Reports, StatusReports, Messages, LineErrors, Split, Read, CrlfFree;
    var a, text := Front(line), reply + CRLF;
    BeginningIsFree(line, 61);
    ShortReply(reply);
    ReportsCarry(Usb, text);
    WithinBudget(limit, a, Reports(Usb, text));
    DecoderRefinesSplit(Verbatim, limit, a, Reports(Usb, text));
    assert a + text == (a + reply) + CRLF;
    JoinedIsFree(a, reply);
    OneLine(a + reply);
    OneVerbatim(a + reply);
  }

  lemma Ending(limit: nat, line: seq<byte>)
    requires 60 <= |line| <= 120 && Sendable(line) && |line| + 2 <= limit && |LineReports(line)| == 2
    ensures FeedReports(Verbatim, limit, [], Short([LineReports(line)[1]])) == Rest(line)
  {
    hide FeedReports, Reports, Messages, LineErrors, Split, Read, Report, CrlfFree;
    var m := line + CRLF;
    BothForms(m);
    ReportAt(Usb, m, 1);
    var chunk := m[61..|m|];
    assert Short([LineReports(line)[1]]) == [Report(Usb, chunk)];
    assert [] + chunk == chunk;
    OneReport(Verbatim, limit, [], chunk);
    ChunkSplits(line);
  }

  /** The lines of the second report. */
  lemma ChunkSplits(line: seq<byte>)
    requires 60 <= |line| && Sendable(line)
    ensures var r := Split((line + CRLF)[61..|line| + 2]);
      Fed(r.rest, Messages(Verbatim, r.lines), LineErrors(Verbatim, r.lines)) == Rest(line)
  {
    hide Messages, LineErrors, Split, CrlfFree;
    var chunk := (line + CRLF)[61..|line| + 2];
    if |line| >= 62 {
      assert chunk == line[61..] + CRLF;
      TailIsFree(line, 61);
      OneLine(line[61..]);
      OneVerbatim(line[61..]);
    } else if |line| == 61 {
      assert chunk == [] + CRLF;
      NothingIsFree();
      OneLine([]);
      EmptyLineNoOutcome();
    } else {
      assert chunk == [0x0a];
      HalfEndIsFree();
      CrlfFreeSplit(chunk);
      NoLinesNoOutcomes(Verbatim);
    }
  }

  lemma NothingIsFree()
    ensures CrlfFree([])
  {}

  lemma HalfEndIsFree()
    ensures CrlfFree([0x0a])
  {
    FreeMeans([0x0a]);
  }

  lemma EmptyLineNoOutcome()
    ensures Messages(Verbatim, [[]]) == [] && LineErrors(Verbatim, [[]]) == []
  {
    var none: seq<byte> := [];
    assert [none][1..] == [];
  }

  lemma TailIsFree(line: seq<byte>, k: nat)
    requires CrlfFree(line) && k <= |line|
    ensures CrlfFree(line[k..])
  {
    forall j | 0 <= j < |line[k..]| - 1 ensures line[k..][j] != 0x0d || line[k..][j + 1] != 0x0a {
      assert line[k..][j] == line[k + j] && line[k..][j + 1] == line[k + j + 1];
    }
    FreeMeans(line[k..]);
  }

  /** For every message of two reports, which has 60 to 120 bytes, and every
      status request: a run in which the request arrives between the two. The
      queue is never full, yet neither the message nor the reply is decoded: the
      first report of the message is put in front of the reply. */
  lemma Interrupted(limit: nat, line: seq<byte>, buffer: seq<byte>) returns (steps: seq<Step>, reply: seq<byte>)
    requires |LineReports(line)| == 2 && Sendable(line) && limit >= 256
    requires Normalized(DeviceModel.REPORT_ID, buffer).Some?
    requires var report := Normalized(DeviceModel.REPORT_ID, buffer).value;
      StatusReply.Asks(report) && |StatusReply.Reply(StatusReply.ParseId(StatusReply.Declared(report)))| < StatusReply.JSON_BYTES
    ensures Received(steps) == Wire(SessionFrames([SendMessage(line)], 1))
    ensures var d := Run(BOOTED, steps);
      && d.refused == 0 && d.reports == [] && Replies(d.intake) == [reply]
      && (var fed := FeedReports(Verbatim, limit, [], d.hid);
          && |line| >= 60 && fed == Fed(Rest(line).buffer, [Front(line) + reply] + Rest(line).messages, [])
          && line !in fed.messages && reply !in fed.messages)
  {
    hide Next, Run, FeedReports, EncodeFrame, StatusReply.OccursAt, StatusReply.Reply, StatusReply.ParseId, StatusReply.Declared;
    hide CrlfFree, LineReports, StatusReports, Wire, Received, AllBrought, StatusReply.Plain, Rest, Front;
    var report := Normalized(DeviceModel.REPORT_ID, buffer).value;
    var id := StatusReply.ParseId(StatusReply.Declared(report));
    reply := StatusReply.Reply(id);
    ReplyFits(id);
    TwoReportLines(line);
    TwoReports(line);
    var rs := LineReports(line);
    var f, g := Frame(KIND_INPUT_REPORT, 1, rs[0]), Frame(KIND_INPUT_REPORT, 2, rs[1]);
    var one, ask, two := Receive(EncodeFrame(f), NoText), SetReport(DeviceModel.REPORT_ID, buffer, SILENT), Receive(EncodeFrame(g), NoText);
    ReceiveOne(BOOTED, f);
    var d1 := Next(BOOTED, one);
    AskOnce(d1, buffer, reply);
    var d2 := Next(d1, ask);
    ReceiveOne(d2, g);
    var d3 := Next(d2, two);
    var n := |d3.reports|;
    FlushAll(d3, n);
    steps := [one] + ([ask] + ([two] + Flushes(n)));
    RunFront(BOOTED, one, [ask] + ([two] + Flushes(n)));
    RunFront(d1, ask, [two] + Flushes(n));
    RunFront(d2, two, Flushes(n));
    SentBytes(line, f, g);
    var d := Run(BOOTED, steps);
    IntakeOfThree(d.intake, rs[0], reply, rs[1]);
    Delivered(steps);
    Mangled(limit, line, reply);
    NeitherDecoded(line, reply);
  }

  /** The lengths of the messages that take two reports. */
  lemma TwoReportLines(line: seq<byte>)
    requires |LineReports(line)| == 2
    ensures 60 <= |line| <= 120
  {
    hide Report;
    ReportAt(Ble, line + CRLF, 0);
    ReportAt(Ble, line + CRLF, 1);
  }

  lemma NeitherDecoded(line: seq<byte>, reply: seq<byte>)
    requires 60 <= |line| <= 120 && |reply| >= 104
    ensures var messages := [Front(line) + reply] + Rest(line).messages;
      line !in messages && reply !in messages
  {
    var messages := [Front(line) + reply] + Rest(line).messages;
    assert forall m | m in messages :: m == Front(line) + reply || m in Rest(line).messages;
    assert |Front(line) + reply| == 61 + |reply|;
  }

  lemma ReplyFits(id: nat)
    ensures Sendable(StatusReply.Reply(id)) && StatusReply.Plain(StatusReply.Reply(id)) && |StatusReply.Reply(id)| >= 104
    ensures |StatusReply.Reply(id)| < StatusReply.JSON_BYTES ==> |StatusReports(StatusReply.Reply(id))| <= 3
  {
    hide StatusReply.Reply, CrlfFree, Reports, StatusReply.Plain;
    StatusReply.ReplyPlain(id);
    PlainIsFree(StatusReply.Reply(id));
    ReportsCount(Ble, StatusReply.Reply(id) + CRLF);
  }

  lemma RunFront(d: Device, step: Step, later: seq<Step>)
    ensures Run(d, [step] + later) == Run(Next(d, step), later)
    ensures Received([step] + later) == (if step.Receive? then step.chunk else []) + Received(later)
  {
    hide Next;
    assert ([step] + later)[1..] == later;
  }

  lemma SentBytes(line: seq<byte>, f: Frame, g: Frame)
    requires |LineReports(line)| == 2
    requires f == Frame(KIND_INPUT_REPORT, 1, LineReports(line)[0]) && g == Frame(KIND_INPUT_REPORT, 2, LineReports(line)[1])
    ensures Encodable(f) && Encodable(g)
    ensures Wire(SessionFrames([SendMessage(line)], 1)) == EncodeFrame(f) + (EncodeFrame(g) + [])
  {
    hide EncodeFrame, LineReports, ReportFrames, Wire;
    var rs := LineReports(line);
    assert rs == [rs[0]] + ([rs[1]] + []);
    FramesFront(rs[0], [rs[1]] + [], 1);
    FramesFront(rs[1], [], 2);
    NoFrames(3);
    assert SessionFrames([SendMessage(line)], 1) == [f] + [g] by {
      assert [SendMessage(line)][1..] == [];
      assert ActFrames(SendMessage(line), 1) == [f] + [g];
      assert ([f] + [g]) + [] == [f] + [g];
    }
    WireSnoc([], f);
    WireSnoc([f], g);
    NoWire();
    assert [] + [f] == [f] && [] + EncodeFrame(f) == EncodeFrame(f) && EncodeFrame(g) + [] == EncodeFrame(g);
  }

  lemma NoWire()
    ensures Wire([]) == []
  {}

  lemma IntakeOfThree(intake: seq<Intake>, r: StoredReport, reply: seq<byte>, s: StoredReport)
    requires intake == [FromHost(r)] + [FromStatus(reply)] + [FromHost(s)]
    ensures AllBrought(intake) == [r] + StatusReports(reply) + [s] && Replies(intake) == [reply]
  {
    hide AllBrought, StatusReports, Replies;
    NoReplies();
    BroughtOneMore([], FromHost(r));
    BroughtOneMore([FromHost(r)], FromStatus(reply));
    BroughtOneMore([FromHost(r)] + [FromStatus(reply)], FromHost(s));
    NothingBrought();
    assert [] + [FromHost(r)] == [FromHost(r)] && [] + [r] == [r];
    assert intake[1..] == [FromStatus(reply), FromHost(s)] && intake[1..][1..] == [FromHost(s)];
    assert [FromHost(s)][1..] == [];
    RepliesFront(intake);
    RepliesFront(intake[1..]);
    RepliesFront(intake[1..][1..]);
  }

  lemma NoReplies()
    ensures Replies([]) == []
  {}

  lemma RepliesFront(intake: seq<Intake>)
    requires intake != []
    ensures Replies(intake) == (if intake[0].FromStatus? then [intake[0].reply] else []) + Replies(intake[1..])
  {}
}
