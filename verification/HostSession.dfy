/** The host's side of the serial line: messages and pings share one writer and
    one sequence counter. */
module HostSession {
  import opened Bytes
  import opened BridgeFrame
  import opened DeviceModel
  import opened HidReports

  /** Sequence numbers wrap around. */
  function Plus(a: u16, n: nat): u16 {
    (a + n) % 0x1_0000
  }

  lemma PlusPlus(a: u16, m: nat, n: nat)
    ensures Plus(Plus(a, m), n) == Plus(a, m + n)
    ensures Plus(a, 0) == a
  {
    var sum: nat := a + m;
    assert sum == 0x1_0000 * (sum / 0x1_0000) + sum % 0x1_0000;
    assert sum + n == 0x1_0000 * (sum / 0x1_0000) + (sum % 0x1_0000 + n);
  }

  /** The reports of one line, as the firmware stores them. */
  function LineReports(line: seq<byte>): (reports: seq<StoredReport>)
    ensures |reports| > 0
  {
    Reports(Ble, line + CRLF)
  }

  function MessageReports(lines: seq<seq<byte>>): seq<StoredReport>
    decreases |lines|
  {
    if lines == [] then [] else LineReports(lines[0]) + MessageReports(lines[1..])
  }

  /** One frame per report, numbered from `next`. */
  function ReportFrames(reports: seq<StoredReport>, next: u16): (frames: seq<Frame>)
    ensures |frames| == |reports|
    ensures forall f | f in frames :: Encodable(f)
    decreases |reports|
  {
    if reports == [] then []
    else [Frame(KIND_INPUT_REPORT, next, reports[0])] + ReportFrames(reports[1..], Plus(next, 1))
  }

  datatype Act = SendMessage(line: seq<byte>) | SendPing

  function ActFrames(act: Act, next: u16): (frames: seq<Frame>)
    ensures forall f | f in frames :: Encodable(f)
  {
    match act
    case SendMessage(line) => ReportFrames(LineReports(line), next)
    case SendPing => [Frame(KIND_PING, next, [])]
  }

  /** Everything written in a session. */
  function SessionFrames(acts: seq<Act>, next: u16): (frames: seq<Frame>)
    ensures forall f | f in frames :: Encodable(f)
    decreases |acts|
  {
    if acts == [] then []
    else
      var first := ActFrames(acts[0], next);
      first + SessionFrames(acts[1..], Plus(next, |first|))
  }

  function LinesOf(acts: seq<Act>): seq<seq<byte>>
    decreases |acts|
  {
    if acts == [] then []
    else (if acts[0].SendMessage? then [acts[0].line] else []) + LinesOf(acts[1..])
  }

  lemma {:induction false} ReportFramesCarry(reports: seq<StoredReport>, next: u16)
    requires forall r | r in reports :: r[0] == DeviceModel.REPORT_ID
    ensures InputReports(ReportFrames(reports, next)) == reports
    decreases |reports|
  {
    if reports == [] {
    } else {
      assert reports[0] in reports;
      ReportFramesCarry(reports[1..], Plus(next, 1));
      assert IsInputReport(ReportFrames(reports, next)[0]);
      assert reports == [reports[0]] + reports[1..];
    }
  }

  lemma {:induction false} ReportFramesNumbered(reports: seq<StoredReport>, next: u16)
    ensures forall i | 0 <= i < |reports| :: ReportFrames(reports, next)[i].sequence == Plus(next, i)
    decreases |reports|
  {
    hide InputReports, Plus;
    PlusPlus(next, 0, 0);
    if reports == [] {
    } else {
      var later := Plus(next, 1);
      ReportFramesNumbered(reports[1..], later);
      forall i | 0 <= i < |reports|
        ensures ReportFrames(reports, next)[i].sequence == Plus(next, i)
      {
        if i > 0 {
          assert ReportFrames(reports, next)[i] == ReportFrames(reports[1..], later)[i - 1];
          PlusPlus(next, 1, i - 1);
        }
      }
    }
  }

  lemma LineReportsMarked(line: seq<byte>)
    ensures forall r | r in LineReports(line) :: r[0] == DeviceModel.REPORT_ID
  {}

  lemma {:induction false} SessionNumbered(acts: seq<Act>, next: u16)
    ensures forall i | 0 <= i < |SessionFrames(acts, next)| ::
      SessionFrames(acts, next)[i].sequence == Plus(next, i)
    decreases |acts|
  {
    hide ActFrames, Plus;
    if acts == [] {
    } else {
      var first := ActFrames(acts[0], next);
      var after := Plus(next, |first|);
      var rest := SessionFrames(acts[1..], after);
      SessionNumbered(acts[1..], after);
      ActNumbered(acts[0], next);
      var all: seq<Frame> := first + rest;
      forall i | 0 <= i < |all|
        ensures all[i].sequence == Plus(next, i)
      {
        if i >= |first| { PlusPlus(next, |first|, i - |first|); }
      }
    }
  }

  lemma ActNumbered(act: Act, next: u16)
    ensures forall i | 0 <= i < |ActFrames(act, next)| :: ActFrames(act, next)[i].sequence == Plus(next, i)
  {
    hide LineReports, ReportFrames, Plus;
    PlusPlus(next, 0, 0);
    if act.SendMessage? { ReportFramesNumbered(LineReports(act.line), next); }
  }

  lemma ActCarries(act: Act, next: u16)
    ensures InputReports(ActFrames(act, next)) == if act.SendMessage? then LineReports(act.line) else []
  {
    hide LineReports, ReportFrames;
    match act
    case SendMessage(line) =>
      LineReportsMarked(line);
      ReportFramesCarry(LineReports(line), next);
    case SendPing =>
      assert ActFrames(act, next)[1..] == [];
  }

  lemma LinesFront(act: Act, later: seq<Act>)
    ensures MessageReports(LinesOf([act] + later))
      == (if act.SendMessage? then LineReports(act.line) else []) + MessageReports(LinesOf(later))
  {
    hide LineReports;
    assert ([act] + later)[1..] == later;
    if act.SendMessage? {
      assert LinesOf([act] + later)[1..] == LinesOf(later);
    } else {
      assert LinesOf([act] + later) == LinesOf(later);
    }
  }

  /** A session carries the reports of its messages and nothing else that the
      firmware queues, wherever pings are sent. */
  lemma {:induction false} SessionCarries(acts: seq<Act>, next: u16)
    ensures InputReports(SessionFrames(acts, next)) == MessageReports(LinesOf(acts))
    decreases |acts|
  {
    hide LineReports, ReportFrames, InputReports, ActFrames, MessageReports, LinesOf;
    if acts == [] {
      InputReportsNone();
      NoLinesNoReports();
    } else {
      var first := ActFrames(acts[0], next);
      var after := Plus(next, |first|);
      SessionCarries(acts[1..], after);
      InputReportsAppend(first, SessionFrames(acts[1..], after));
      ActCarries(acts[0], next);
      LinesFront(acts[0], acts[1..]);
      assert acts == [acts[0]] + acts[1..];
    }
  }

  lemma NoLinesNoReports()
    ensures MessageReports(LinesOf([])) == []
  {}

  /** The serial writer with its sequence counter; `written` is what went out. */
  class HostWriter {
    var sequence: u16
    ghost var written: seq<Frame>

    constructor (sequence: u16)
      ensures this.sequence == sequence && written == []
    {
      this.sequence := sequence;
      written := [];
    }

    method NextSequence() returns (value: u16)
      modifies this`sequence
      ensures value == old(sequence) && sequence == Plus(old(sequence), 1)
    {
      value := sequence;
      sequence := (sequence + 1) % 0x1_0000;
    }

    method SendCodexMessage(message: Json) returns (ok: bool)
      modifies this
      ensures ok == message.Object?
      ensures var sent := if ok then ActFrames(SendMessage(message.text), old(sequence)) else [];
        written == old(written) + sent && sequence == Plus(old(sequence), |sent|)
    {
      hide LineReports, Reports, ReportFrames, Plus;
      PlusPlus(sequence, 0, 0);
      var reports := FrameJson(message);
      if reports.None? {
        return false;
      }
      ghost var all := LineReports(message.text);
      SameReports(message.text);
      var i := 0;
      assert all[0..] == all;
      while i < |reports.value|
        invariant i <= |all| && reports.value == all
        invariant sequence == Plus(old(sequence), i)
        invariant written + ReportFrames(all[i..], sequence) == old(written) + ReportFrames(all, old(sequence))
      {
        assert all[i..] == [all[i]] + all[i + 1..];
        FramesFront(all[i], all[i + 1..], sequence);
        PlusPlus(old(sequence), i, 1);
        var value := NextSequence();
        written := written + [Frame(KIND_INPUT_REPORT, value, reports.value[i])];
        i := i + 1;
      }
      assert all[|all|..] == [];
      NoFrames(sequence);
      return true;
    }

    method Ping()
      modifies this
      ensures written == old(written) + ActFrames(SendPing, old(sequence))
      ensures sequence == Plus(old(sequence), 1)
    {
      var value := NextSequence();
      written := written + [Frame(KIND_PING, value, [])];
    }
  }

  lemma FramesFront(report: StoredReport, later: seq<StoredReport>, next: u16)
    ensures ReportFrames([report] + later, next)
      == [Frame(KIND_INPUT_REPORT, next, report)] + ReportFrames(later, Plus(next, 1))
  {
    assert ([report] + later)[1..] == later;
  }

  lemma NoFrames(next: u16)
    ensures ReportFrames([], next) == []
  {}

  lemma SameReports(text: seq<byte>)
    ensures LineReports(text) == Reports(Ble, text + CRLF)
  {}
}
