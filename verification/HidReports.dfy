/** Cutting a message into HID reports, and reading one report back. */
module HidReports {
  import opened Bytes

  const REPORT_ID: byte := 6
  const OPCODE_DATA: byte := 0x02
  const REPORT_BYTES_USB: nat := 63
  const REPORT_BYTES_BLE: nat := 64
  const MAX_CHUNK_BYTES: nat := 61
  const CRLF: seq<byte> := [0x0d, 0x0a]

  datatype Transport = Usb | Ble

  datatype ErrorCode =
    | MessageTooLarge
    | InvalidReportLength
    | InvalidReportHeader
    | InvalidChunkLength
    | BufferLimitExceeded
    | InvalidUtf8
    | InvalidJson
    | InvalidJsonMessage
    | TruncatedMessage

  datatype Result<+T> = Ok(value: T) | Failed(error: ErrorCode)

  function Zeros(n: nat): seq<byte> {
    seq(n, _ => 0)
  }

  predicate IsChunk(chunk: seq<byte>) {
    1 <= |chunk| <= MAX_CHUNK_BYTES
  }

  function ReportSize(transport: Transport): nat {
    if transport.Ble? then REPORT_BYTES_BLE else REPORT_BYTES_USB
  }

  /** A zero-padded report carrying one chunk. */
  function Report(transport: Transport, chunk: seq<byte>): (r: seq<byte>)
    requires IsChunk(chunk)
    ensures |r| == ReportSize(transport)
    ensures transport.Ble? ==> r[0] == REPORT_ID
  {
    (if transport.Ble? then [REPORT_ID] else [])
    + [OPCODE_DATA, |chunk|] + chunk + Zeros(MAX_CHUNK_BYTES - |chunk|)
  }

  function Reports(transport: Transport, message: seq<byte>): (reports: seq<seq<byte>>)
    ensures forall i | 0 <= i < |reports| ::
      |reports[i]| == ReportSize(transport) && (transport.Ble? ==> reports[i][0] == REPORT_ID)
    decreases |message|
  {
    if message == [] then []
    else if |message| <= MAX_CHUNK_BYTES then [Report(transport, message)]
    else [Report(transport, message[..MAX_CHUNK_BYTES])] + Reports(transport, message[MAX_CHUNK_BYTES..])
  }

  /** Fills one report array. */
  method FillReport(transport: Transport, chunk: seq<byte>) returns (report: array<byte>)
    requires IsChunk(chunk)
    ensures fresh(report) && report[..] == Report(transport, chunk)
  {
    var size := ReportSize(transport);
    var header := if transport.Ble? then 1 else 0;
    report := new byte[size](_ => 0);
    if transport.Ble? {
      report[0] := REPORT_ID;
    }
    report[header] := OPCODE_DATA;
    report[header + 1] := |chunk|;
    forall i | 0 <= i < |chunk| {
      report[header + 2 + i] := chunk[i];
    }
  }

  /** The chunking loop of both senders. */
  method ChunkMessage(transport: Transport, message: seq<byte>) returns (reports: seq<seq<byte>>)
    ensures reports == Reports(transport, message)
  {
    reports := [];
    var offset := 0;
    assert message[0..] == message;
    while offset < |message|
      invariant offset <= |message|
      invariant reports + Reports(transport, message[offset..]) == Reports(transport, message)
    {
      var end := if offset + MAX_CHUNK_BYTES < |message| then offset + MAX_CHUNK_BYTES else |message|;
      var chunk := message[offset..end];
      var report := FillReport(transport, chunk);
      NextReport(transport, message[offset..], chunk, message[end..]);
      assert reports + Reports(transport, message[offset..])
          == (reports + [report[..]]) + Reports(transport, message[end..]);
      reports := reports + [report[..]];
      offset := end;
    }
  }

  lemma NextReport(transport: Transport, message: seq<byte>, chunk: seq<byte>, later: seq<byte>)
    requires message == chunk + later && IsChunk(chunk)
    requires |chunk| == MAX_CHUNK_BYTES || later == []
    ensures Reports(transport, message) == [Report(transport, chunk)] + Reports(transport, later)
  {
    hide Report;
    if later == [] {
      assert message == chunk;
    } else {
      assert message[..MAX_CHUNK_BYTES] == chunk && message[MAX_CHUNK_BYTES..] == later;
    }
  }

  /** The JavaScript sender: terminates the encoded payload with CRLF and
      refuses messages over the limit. */
  method FrameMessage(payload: seq<byte>, transport: Transport, maxMessageBytes: nat)
    returns (r: Result<seq<seq<byte>>>)
    ensures r == if |payload| + 2 > maxMessageBytes then Failed(MessageTooLarge)
                 else Ok(Reports(transport, payload + CRLF))
  {
    var message := payload + CRLF;
    if |message| > maxMessageBytes {
      return Failed(MessageTooLarge);
    }
    var reports := ChunkMessage(transport, message);
    return Ok(reports);
  }

  /** What the Rust sender is given: a JSON value that is not an object, an
      object that cannot be serialised, or an object with its text. */
  datatype Json = NotAnObject | Unserialisable | Object(text: seq<byte>)

  /** The Rust sender: refuses what is not an object; always the prefixed form,
      and no limit. */
  method FrameJson(message: Json) returns (r: Option<seq<seq<byte>>>)
    ensures r == if message.Object? then Some(Reports(Ble, message.text + CRLF)) else None
  {
    if !message.Object? {
      return None;
    }
    var reports := ChunkMessage(Ble, message.text + CRLF);
    return Some(reports);
  }

  // ---- Reading a report ----

  datatype Reading = Body(bytes: seq<byte>) | Malformed(error: ErrorCode)

  function Read(report: seq<byte>): (r: Reading)
    ensures r.Body? ==> IsChunk(r.bytes)
  {
    if |report| == REPORT_BYTES_BLE && report[0] == REPORT_ID && report[1] == OPCODE_DATA then ReadAt(report, 1)
    else if |report| == REPORT_BYTES_USB && report[0] == OPCODE_DATA then ReadAt(report, 0)
    else if |report| != REPORT_BYTES_USB && |report| != REPORT_BYTES_BLE then Malformed(InvalidReportLength)
    else Malformed(InvalidReportHeader)
  }

  function ReadAt(report: seq<byte>, header: nat): (r: Reading)
    requires |report| == header + REPORT_BYTES_USB
    ensures r.Body? ==> IsChunk(r.bytes)
  {
    var declared := report[header + 1];
    if declared == 0 || declared > MAX_CHUNK_BYTES then Malformed(InvalidChunkLength)
    else Body(report[header + 2..header + 2 + declared])
  }

  /** A report is read back as the chunk it was made from, on either transport,
      and dropping the prefix of the long form gives the short form. */
  lemma ReadReport(transport: Transport, chunk: seq<byte>)
    requires IsChunk(chunk)
    ensures Read(Report(transport, chunk)) == Body(chunk)
    ensures Report(Ble, chunk)[1..] == Report(Usb, chunk)
  {
    var r := Report(transport, chunk);
    var header := if transport.Ble? then 1 else 0;
    assert r[header] == OPCODE_DATA && r[header + 1] == |chunk|;
    assert r[header + 2..header + 2 + |chunk|] == chunk;
  }
}
