/** Messages to reports and back. */
module SerialLink {
  import opened Bytes
  import opened HidReports
  import opened LineDecoder

  // ---- One message ----

  /** What the CRLF framing can carry. Serialised JSON qualifies: section 7 of
      RFC 8259 requires control characters inside strings to be escaped. */
  predicate Sendable(line: seq<byte>) {
    line != [] && CrlfFree(line)
  }

  /** The reports of a message carry exactly its bytes, without a fault. */
  lemma {:induction false} ReportsCarry(transport: Transport, message: seq<byte>)
    ensures Bodies(Reports(transport, message)) == message && Faults(Reports(transport, message)) == []
    decreases |message|
  {
    hide Report, Read;
    if message == [] {
    } else if |message| <= MAX_CHUNK_BYTES {
      ReadReport(transport, message);
      assert [Report(transport, message)][1..] == [];
      assert message + [] == message;
    } else {
      var chunk, later := message[..MAX_CHUNK_BYTES], message[MAX_CHUNK_BYTES..];
      ReadReport(transport, chunk);
      ReportsCarry(transport, later);
      assert Reports(transport, message)[1..] == Reports(transport, later);
      assert chunk + later == message;
    }
  }

  /** Any payload within the limit is decoded as the lines it contains. */
  lemma PayloadDecodes<M>(parse: seq<byte> -> Outcome<M>, limit: nat, transport: Transport, payload: seq<byte>)
    requires |payload| + 2 <= limit
    ensures var all := Split(payload + CRLF);
      FeedReports(parse, limit, [], Reports(transport, payload + CRLF))
        == Fed(all.rest, Messages(parse, all.lines), LineErrors(parse, all.lines))
  {
    hide Split, Messages, LineErrors, Reports, Read;
    var message := payload + CRLF;
    ReportsCarry(transport, message);
    WithinBudget(limit, [], Reports(transport, message));
    DecoderRefinesSplit(parse, limit, [], Reports(transport, message));
    assert [] + message == message;
  }

  lemma OneLine(line: seq<byte>)
    requires CrlfFree(line)
    ensures Split(line + CRLF) == Lines([line], [])
  {
    hide FirstCrlf;
    var s := line + CRLF;
    assert forall j | 0 <= j < |line| :: s[j] == line[j];
    assert s[|line|] == 0x0d && s[|line| + 1] == 0x0a;
    NoneBefore(line);
    FirstCrlfIs(s, |line|);
    assert s[..|line|] == line && s[|line| + 2..] == [];
    EmptySplit();
  }

  lemma NoneBefore(line: seq<byte>)
    requires CrlfFree(line)
    ensures forall j | 0 <= j < |line| ::
      (line + CRLF)[j] != 0x0d || (line + CRLF)[j + 1] != 0x0a
  {
    var s := line + CRLF;
    forall j | 0 <= j < |line|
      ensures s[j] != 0x0d || s[j + 1] != 0x0a
    {
      if j + 1 < |line| {
        assert s[j] == line[j] && s[j + 1] == line[j + 1];
      } else {
        assert s[j + 1] == CRLF[0];
      }
    }
  }

  lemma EmptySplit()
    ensures Split([]) == Lines([], [])
  {}

  lemma {:induction false} SplitLinesCrlfFree(s: seq<byte>)
    ensures forall line | line in Split(s).lines :: CrlfFree(line)
    decreases |s|
  {
    var i := FirstCrlf(s);
    if i < |s| {
      SplitLinesCrlfFree(s[i + 2..]);
      PrefixCrlfFree(s, i);
    }
  }

  lemma PrefixCrlfFree(s: seq<byte>, i: nat)
    requires i <= FirstCrlf(s)
    ensures CrlfFree(s[..i])
  {
    var prefix := s[..i];
    assert forall j | 0 <= j < i :: prefix[j] == s[j];
  }

  /** The parser that takes every line as it is. */
  function Verbatim(line: seq<byte>): Outcome<seq<byte>> {
    Message(line)
  }

  lemma {:induction false} KeptLines(lines: seq<seq<byte>>)
    ensures forall line | line in Messages(Verbatim, lines) :: line in lines && line != []
    decreases |lines|
  {
    if lines == [] {
    } else {
      KeptLines(lines[1..]);
      assert forall line | line in lines[1..] :: line in lines;
    }
  }

  /** A payload within the limit comes back as exactly one line, itself, if and
      only if it is not empty and contains no CRLF. */
  lemma RoundTripExactly(limit: nat, transport: Transport, payload: seq<byte>)
    requires |payload| + 2 <= limit
    ensures FeedReports(Verbatim, limit, [], Reports(transport, payload + CRLF)) == Fed([], [payload], [])
      <==> Sendable(payload)
  {
    hide Split, FirstCrlf, FeedReports;
    PayloadDecodes(Verbatim, limit, transport, payload);
    var lines := Split(payload + CRLF).lines;
    if Sendable(payload) {
      OneLine(payload);
      assert [payload][1..] == [];
    }
    if Messages(Verbatim, lines) == [payload] {
      KeptLines(lines);
      assert payload in Messages(Verbatim, lines);
      SplitLinesCrlfFree(payload + CRLF);
    }
  }

  // ---- Many messages ----

  datatype Send = Send(payload: seq<byte>, transport: Transport)

  function AllReports(sends: seq<Send>): seq<seq<byte>>
    decreases |sends|
  {
    if sends == [] then []
    else Reports(sends[0].transport, sends[0].payload + CRLF) + AllReports(sends[1..])
  }

  function Payloads(sends: seq<Send>): (p: seq<seq<byte>>)
    ensures |p| == |sends|
    decreases |sends|
  {
    if sends == [] then [] else [sends[0].payload] + Payloads(sends[1..])
  }

  lemma OneLineOutcomes<M>(parse: seq<byte> -> Outcome<M>, line: seq<byte>, later: seq<seq<byte>>)
    ensures Messages(parse, [line] + later) == Messages(parse, [line]) + Messages(parse, later)
    ensures LineErrors(parse, [line] + later) == LineErrors(parse, [line]) + LineErrors(parse, later)
  {
    MessagesAppend(parse, [line], later);
    LineErrorsAppend(parse, [line], later);
  }

  /** Report round trip: messages within the limit, each on either transport,
      decode to exactly what their lines parse to, leaving nothing behind. */
  lemma {:induction false} ReportRoundTrip<M>(parse: seq<byte> -> Outcome<M>, limit: nat, sends: seq<Send>)
    requires forall s | s in sends :: Sendable(s.payload) && |s.payload| + 2 <= limit
    ensures FeedReports(parse, limit, [], AllReports(sends))
      == Fed([], Messages(parse, Payloads(sends)), LineErrors(parse, Payloads(sends)))
    decreases |sends|
  {
    hide Split, FirstCrlf, Reports, FeedReport, Messages, LineErrors;
    if sends == [] {
      NoLinesNoOutcomes(parse);
    } else {
      var p, first := sends[0].payload, Reports(sends[0].transport, sends[0].payload + CRLF);
      PayloadDecodes(parse, limit, sends[0].transport, p);
      OneLine(p);
      ReportRoundTrip(parse, limit, sends[1..]);
      FeedReportsAppend(parse, limit, [], first, AllReports(sends[1..]));
      OneLineOutcomes(parse, p, Payloads(sends[1..]));
    }
  }

  /** When every line parses, there is one message per line, in order, and no
      error. */
  lemma {:induction false} AllParse<M>(parse: seq<byte> -> Outcome<M>, lines: seq<seq<byte>>)
    requires forall line | line in lines :: line != [] && parse(line).Message?
    ensures |Messages(parse, lines)| == |lines| && LineErrors(parse, lines) == []
    ensures forall i | 0 <= i < |lines| :: Messages(parse, lines)[i] == parse(lines[i]).m
    decreases |lines|
  {
    if lines == [] {
    } else {
      assert forall line | line in lines[1..] :: line in lines;
      AllParse(parse, lines[1..]);
    }
  }

  /** And when every line parses, exactly its messages and no error. */
  lemma MessagesRoundTrip<M>(parse: seq<byte> -> Outcome<M>, limit: nat, sends: seq<Send>)
    requires forall s | s in sends ::
      Sendable(s.payload) && |s.payload| + 2 <= limit && parse(s.payload).Message?
    ensures var fed := FeedReports(parse, limit, [], AllReports(sends));
      && fed.buffer == [] && fed.errors == [] && |fed.messages| == |sends|
      && forall i | 0 <= i < |sends| :: fed.messages[i] == parse(sends[i].payload).m
  {
    hide FeedReports, AllReports, Messages, LineErrors, CrlfFree;
    ReportRoundTrip(parse, limit, sends);
    PayloadAt(sends);
    AllParse(parse, Payloads(sends));
  }

  lemma {:induction false} PayloadAt(sends: seq<Send>)
    ensures forall i | 0 <= i < |sends| :: Payloads(sends)[i] == sends[i].payload
    decreases |sends|
  {
    if sends == [] {
    } else {
      PayloadAt(sends[1..]);
      assert forall i | 0 < i < |sends| :: Payloads(sends)[i] == Payloads(sends[1..])[i - 1];
    }
  }
}
