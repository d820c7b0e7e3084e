/** The firmware's globals and the routines that update them, refining the
    device state machine step by step. */
module Firmware {
  import opened Bytes
  import opened BridgeFrame
  import opened FrameScan
  import opened BridgeParser
  import opened DeviceModel
  import R = Ring
  import HidReports
  import StatusReply

  class Firmware {
    const parser: Parser
    const inputReports: R.Ring<StoredReport>
    const bridgeTx: R.Ring<Frame>
    var nextSequence: u16
    var bootLogPending: bool
    // What has left the device so far.
    ghost var hid: seq<seq<byte>>
    ghost var cdc: seq<byte>
    ghost var sent: seq<Frame>
    ghost var queued: seq<StoredReport>
    ghost var intake: seq<Intake>
    ghost var refused: nat
    ghost var txRefused: nat

    ghost predicate Valid()
      reads this, parser, inputReports, bridgeTx
    {
      && parser.Valid() && inputReports.Valid() && bridgeTx.Valid()
      && inputReports.slots.Length == REPORT_QUEUE_CAPACITY
      && bridgeTx.slots.Length == TX_QUEUE_CAPACITY
      && parser.bytes as object != inputReports.slots
      && parser.bytes as object != bridgeTx.slots
      && inputReports.slots as object != bridgeTx.slots
      && inputReports as object != bridgeTx
    }

    ghost function Footprint(): set<object>
      reads this
    {
      {this, parser, inputReports, bridgeTx, parser.bytes, inputReports.slots, bridgeTx.slots}
    }

    ghost function View(): Device
      requires Valid()
      reads this, parser, inputReports, bridgeTx, parser.bytes, inputReports.slots, bridgeTx.slots
    {
      Device(parser.Buffered(), inputReports.Contents(), bridgeTx.Contents(), nextSequence, bootLogPending,
             hid, cdc, sent, queued, intake, refused, txRefused)
    }

    constructor ()
      ensures Valid() && View() == BOOTED
    {
      parser := new Parser();
      inputReports := new R.Ring(REPORT_QUEUE_CAPACITY);
      bridgeTx := new R.Ring(TX_QUEUE_CAPACITY);
      nextSequence, bootLogPending := 1, true;
      hid, cdc, sent, queued, intake, refused, txRefused := [], [], [], [], [], 0, 0;
    }

    method TransmitPush(kind: byte, payload: seq<byte>) returns (ok: bool)
      requires Valid()
      modifies this`nextSequence, bridgeTx`count, bridgeTx.slots
      ensures Valid() && (View(), ok) == TxPush(old(View()), kind, payload)
    {
      hide R.Ring.Contents, Parser.Buffered;
      if |payload| > MAX_PAYLOAD || bridgeTx.count == TX_QUEUE_CAPACITY {
        return false;
      }
      ok := bridgeTx.Push(Frame(kind, nextSequence, payload));
      nextSequence := (nextSequence + 1) % 0x1_0000;
    }

    method WriteLog(text: seq<byte>)
      requires Valid()
      modifies this`nextSequence, bridgeTx`count, bridgeTx.slots
      ensures Valid() && View() == Log(old(View()), text)
    {
      hide R.Ring.Contents, Parser.Buffered;
      if bridgeTx.count > TX_QUEUE_CAPACITY - 4 {
        return;
      }
      var written := |text|;
      if written <= 0 {
        return;
      }
      if written >= MAX_PAYLOAD {
        written := MAX_PAYLOAD - 1;
      }
      assert text[..|text|] == text;
      var _ := TransmitPush(KIND_LOG, text[..written]);
    }

    method OnBridgeFrame(frame: Frame, fullText: u16 -> seq<byte>)
      requires Valid()
      modifies this, inputReports, inputReports.slots, bridgeTx, bridgeTx.slots
      ensures Valid() && View() == OnFrame(old(View()), frame, fullText)
    {
      hide R.Ring.Contents, Parser.Buffered, TxPush, Log;
      if frame.kind == KIND_INPUT_REPORT && |frame.payload| == WIRE_REPORT_BYTES && frame.payload[0] == REPORT_ID {
        var ok := inputReports.Push(frame.payload);
        if ok {
          queued := queued + [frame.payload];
          intake := intake + [FromHost(frame.payload)];
        } else {
          WriteLog(fullText(frame.sequence));
          refused := refused + 1;
        }
        return;
      }
      if frame.kind == KIND_PING {
        PushRefused(View(), KIND_STATUS, BUILD_ID);
        var ok := TransmitPush(KIND_STATUS, BUILD_ID);
        if !ok { txRefused := txRefused + 1; }
      }
    }

    /** One read from the serial port. The callbacks never touch the parser, so
        making them after the feed, in order, is the same as making them
        during it. */
    method ReceiveBytes(chunk: seq<byte>, fullText: u16 -> seq<byte>)
      requires Valid() && Settled(parser.Buffered())
      modifies Footprint()
      ensures Valid() && View() == Next(old(View()), Receive(chunk, fullText))
    {
      hide Scan, OnFrame, R.Ring.Contents, Parser.Buffered;
      var frames := parser.Feed(chunk);
      ghost var start := View();
      assert start == old(View()).(rest := FeedOnce(old(View()).rest, chunk).rest);
      assert frames == FeedOnce(old(View()).rest, chunk).frames;
      var i := 0;
      assert frames[0..] == frames;
      while i < |frames|
        invariant i <= |frames| && Valid()
        invariant OnFrames(View(), frames[i..], fullText) == OnFrames(start, frames, fullText)
      {
        assert frames[i..][0] == frames[i] && frames[i..][1..] == frames[i + 1..];
        OnBridgeFrame(frames[i], fullText);
        i := i + 1;
      }
    }

    /** Offers the oldest report to the USB host and drops it once accepted. */
    method FlushInput(ready: bool, accepted: bool, text: seq<byte>)
      requires Valid()
      modifies this, inputReports, bridgeTx, bridgeTx.slots
      ensures Valid() && View() == Next(old(View()), HidFlush(ready, accepted, text))
    {
      hide R.Ring.Contents, Parser.Buffered, TxPush, FeedOnce, OnFrames, EncodeFrame;
      if inputReports.count == 0 || !ready {
        return;
      }
      var report := inputReports.Front();
      if !accepted {
        return;
      }
      ghost var handed := report[1..];
      WriteLog(text);
      inputReports.Pop();
      hid := hid + [handed];
    }

    /** Writes the oldest frame when the port is open and has room for it. */
    method FlushTransmit(connected: bool, room: nat)
      requires Valid()
      modifies this, bridgeTx
      ensures Valid() && View() == Next(old(View()), TxFlush(connected, room))
    {
      hide R.Ring.Contents, Parser.Buffered, TxPush, FeedOnce, OnFrames, EncodeFrame, Log;
      if bridgeTx.count == 0 {
        return;
      }
      if !connected {
        return;
      }
      var frame := bridgeTx.Front();
      var encoded := new byte[MAX_FRAME_BYTES];
      var length := Encode(frame, encoded, MAX_FRAME_BYTES);
      if length == 0 || room < length {
        return;
      }
      ghost var written := encoded[..length];
      bridgeTx.Pop();
      cdc := cdc + written;
      sent := sent + [frame];
    }

    method EmitBootLog(connected: bool, text: seq<byte>)
      requires Valid()
      modifies this, bridgeTx, bridgeTx.slots
      ensures Valid() && View() == Next(old(View()), BootLog(connected, text))
    {
      hide R.Ring.Contents, Parser.Buffered, TxPush, FeedOnce, OnFrames, EncodeFrame, Log;
      if bootLogPending && connected {
        WriteLog(text);
        bootLogPending := false;
      }
    }

    /** Copies a report to the serial side. */
    method ForwardOutput(report: StoredReport, text: seq<byte>)
      requires Valid()
      modifies this, bridgeTx, bridgeTx.slots
      ensures Valid() && View() == Forward(old(View()), report, text)
    {
      hide R.Ring.Contents, Parser.Buffered, Log;
      var ok := TransmitPush(KIND_OUTPUT_REPORT, report);
      if !ok {
        txRefused := txRefused + 1;
        WriteLog(text);
      }
    }

    method PushReport(report: StoredReport) returns (ok: bool)
      requires Valid()
      modifies this`queued, inputReports, inputReports.slots
      ensures Valid() && ok == (|old(View()).reports| < REPORT_QUEUE_CAPACITY)
      ensures View() == if ok then Queued(old(View()), [report]) else old(View())
    {
      hide R.Ring.Contents, Parser.Buffered;
      ok := inputReports.Push(report);
      if ok { queued := queued + [report]; }
    }

    /** Chunks a status reply and queues its reports until the queue is full. */
    method PushReply(json: seq<byte>) returns (ok: bool)
      requires Valid()
      modifies this`queued, inputReports, inputReports.slots
      ensures Valid()
      ensures var d, all := old(View()), StatusReports(json);
        && ok == (|all| <= Room(d))
        && View() == Queued(d, if ok then all else all[..Room(d)])
    {
      hide R.Ring.Contents, Parser.Buffered, StatusReports, HidReports.Report, HidReports.Reports;
      var message := json + HidReports.CRLF;
      ghost var all := StatusReports(json);
      ghost var k := 0;
      ghost var start := View();
      ReplyReports(json);
      var offset := 0;
      assert message[0..] == message && all[0..] == all;
      assert start == Queued(start, all[..0]);
      while offset < |message|
        invariant Valid() && offset <= |message| && k <= |all|
        invariant all[k..] == HidReports.Reports(HidReports.Ble, message[offset..])
        invariant |start.reports| + k <= REPORT_QUEUE_CAPACITY
        invariant View() == Queued(start, all[..k])
      {
        var end := if |message| - offset > 61 then offset + 61 else |message|;
        var filled := HidReports.FillReport(HidReports.Ble, message[offset..end]);
        var report := filled[..];
        HidReports.NextReport(HidReports.Ble, message[offset..], message[offset..end], message[end..]);
        NextOf(all, k, report, HidReports.Reports(HidReports.Ble, message[end..]));
        ok := PushReport(report);
        if !ok {
          return;
        }
        QueuedMore(start, all[..k], report);
        k := k + 1;
        offset := end;
      }
      NothingLeft();
      assert message[offset..] == [];
      assert all[..|all|] == all;
      return true;
    }

    method SendStatusResponse(id: nat, texts: Texts)
      requires Valid()
      modifies this, inputReports, inputReports.slots, bridgeTx, bridgeTx.slots
      ensures Valid()
      ensures View() == if |StatusReply.Reply(id)| >= StatusReply.JSON_BYTES then old(View())
                        else QueueReply(old(View()), StatusReply.Reply(id), texts)
    {
      hide R.Ring.Contents, Parser.Buffered, Log, StatusReply.Reply, StatusReports;
      var json := StatusReply.Reply(id);
      if |json| >= StatusReply.JSON_BYTES {
        return;
      }
      var ok := PushReply(json);
      if !ok {
        refused := refused + 1;
        WriteLog(texts.cut);
        return;
      }
      intake := intake + [FromStatus(json)];
      WriteLog(texts.answered);
    }

    /** A report written by the USB host: answered when it asks for the status,
        and copied to the serial side. */
    method SetReport(reportId: byte, buffer: seq<byte>, texts: Texts)
      requires Valid()
      modifies this, inputReports, inputReports.slots, bridgeTx, bridgeTx.slots
      ensures Valid() && View() == Next(old(View()), DeviceModel.SetReport(reportId, buffer, texts))
    {
      hide R.Ring.Contents, Parser.Buffered, Log, QueueReply, Forward, StatusReply.OccursAt, StatusReply.ParseId, StatusReply.Reply;
      if |buffer| == 0 {
        return;
      }
      var report: StoredReport;
      if reportId == REPORT_ID && |buffer| == WIRE_REPORT_BYTES - 1 {
        report := [REPORT_ID] + buffer;
      } else if |buffer| == WIRE_REPORT_BYTES && buffer[0] == REPORT_ID {
        report := buffer;
      } else {
        WriteLog(texts.seen);
        return;
      }
      WriteLog(texts.seen);
      var asks := StatusReply.PayloadContains(report);
      if asks {
        var id := StatusReply.PayloadParseId(report);
        WriteLog(texts.asked);
        SendStatusResponse(id, texts);
      }
      ForwardOutput(report, texts.full);
    }
  }

  lemma PushRefused(d: Device, kind: byte, payload: seq<byte>)
    ensures !TxPush(d, kind, payload).1 ==> TxPush(d, kind, payload).0 == d
  {}

  ghost function Queued(d: Device, rs: seq<StoredReport>): Device {
    d.(reports := d.reports + rs, queued := d.queued + rs)
  }

  lemma QueuedMore(d: Device, rs: seq<StoredReport>, report: StoredReport)
    ensures Queued(Queued(d, rs), [report]) == Queued(d, rs + [report])
  {
    assert (d.reports + rs) + [report] == d.reports + (rs + [report]);
    assert (d.queued + rs) + [report] == d.queued + (rs + [report]);
  }

  lemma NextOf(all: seq<StoredReport>, k: nat, report: seq<byte>, later: seq<seq<byte>>)
    requires k <= |all| && all[k..] == [report] + later
    ensures k < |all| && all[k] == report && all[k + 1..] == later && all[..k + 1] == all[..k] + [report]
  {
    assert all[k] == all[k..][0];
    assert all[k + 1..] == all[k..][1..];
  }

  lemma NothingLeft()
    ensures HidReports.Reports(HidReports.Ble, []) == []
  {}

  lemma ReplyReports(json: seq<byte>)
    ensures StatusReports(json) == HidReports.Reports(HidReports.Ble, json + HidReports.CRLF)
  {}
}
