/** How host messages and the firmware's own replies share the report queue, and
    what the host application decodes from it. */
module LinkTrack {
  import opened Bytes
  import opened DeviceModel
  import opened HidReports
  import opened LineDecoder
  import opened SerialLink
  import opened HostSession
  import StatusReply

  // ---- Progress through the host's messages ----

  /** The lines not yet taken in completely, and how many reports of the first of
      them have been. */
  datatype Progress = Progress(lines: seq<seq<byte>>, left: nat)

  predicate Underway(p: Progress) {
    p.left == 0 || (p.lines != [] && p.left < |LineReports(p.lines[0])|)
  }

  /** The intake is the next host report, or any reply. */
  predicate Expects(p: Progress, i: Intake) {
    i.FromHost? ==> p.lines != [] && p.left < |LineReports(p.lines[0])| && i.report == LineReports(p.lines[0])[p.left]
  }

  predicate Completes(p: Progress) {
    p.lines != [] && p.left + 1 >= |LineReports(p.lines[0])|
  }

  function Advance(p: Progress, i: Intake): Progress {
    if i.FromStatus? || p.lines == [] then p
    else if Completes(p) then Progress(p.lines[1..], 0)
    else p.(left := p.left + 1)
  }

  /** A line as it is completed in the queue. */
  datatype Line = Sent(text: seq<byte>) | Replied(text: seq<byte>)

  function Emits(p: Progress, i: Intake): seq<Line> {
    match i
    case FromStatus(reply) => [Replied(reply)]
    case FromHost(_) => if Completes(p) then [Sent(p.lines[0])] else []
  }

  predicate OnTrack(p: Progress, intake: seq<Intake>)
    decreases |intake|
  {
    intake == [] || (Expects(p, intake[0]) && OnTrack(Advance(p, intake[0]), intake[1..]))
  }

  /** The lines in the order in which they are completed. */
  function Merged(p: Progress, intake: seq<Intake>): seq<Line>
    decreases |intake|
  {
    if intake == [] then [] else Emits(p, intake[0]) + Merged(Advance(p, intake[0]), intake[1..])
  }

  /** No reply is queued inside a host message. */
  predicate Uninterrupted(p: Progress, intake: seq<Intake>)
    decreases |intake|
  {
    intake == [] ||
    ((intake[0].FromStatus? ==> p.left == 0) && Uninterrupted(Advance(p, intake[0]), intake[1..]))
  }

  function After(p: Progress, intake: seq<Intake>): Progress
    decreases |intake|
  {
    if intake == [] then p else After(Advance(p, intake[0]), intake[1..])
  }

  /** The bytes of the message underway that have been taken in. */
  function Begun(p: Progress): seq<byte> {
    if p.left == 0 || p.lines == [] then []
    else (p.lines[0] + CRLF)[..Min(MAX_CHUNK_BYTES * p.left, |p.lines[0] + CRLF|)]
  }

  function LineTexts(lines: seq<Line>): (texts: seq<seq<byte>>)
    ensures |texts| == |lines|
    ensures forall i | 0 <= i < |lines| :: texts[i] == lines[i].text
  {
    seq(|lines|, i requires 0 <= i < |lines| => lines[i].text)
  }

  /** The host's lines among those completed. */
  function SentLines(lines: seq<Line>): seq<seq<byte>>
    decreases |lines|
  {
    if lines == [] then [] else (if lines[0].Sent? then [lines[0].text] else []) + SentLines(lines[1..])
  }

  function RepliedLines(lines: seq<Line>): seq<seq<byte>>
    decreases |lines|
  {
    if lines == [] then [] else (if lines[0].Replied? then [lines[0].text] else []) + RepliedLines(lines[1..])
  }

  function Replies(intake: seq<Intake>): seq<seq<byte>>
    decreases |intake|
  {
    if intake == [] then [] else (if intake[0].FromStatus? then [intake[0].reply] else []) + Replies(intake[1..])
  }

  lemma {:induction false} SentAppend(xs: seq<Line>, ys: seq<Line>)
    ensures SentLines(xs + ys) == SentLines(xs) + SentLines(ys)
    decreases |xs|
  {
    hide *;
    if xs == [] {
      assert xs + ys == ys;
      NoLines();
    } else {
      assert xs == [xs[0]] + xs[1..];
      assert xs + ys == [xs[0]] + (xs[1..] + ys);
      SentAppend(xs[1..], ys);
      LineFront(xs[0], xs[1..]);
      LineFront(xs[0], xs[1..] + ys);
    }
  }

  lemma {:induction false} RepliedAppend(xs: seq<Line>, ys: seq<Line>)
    ensures RepliedLines(xs + ys) == RepliedLines(xs) + RepliedLines(ys)
    decreases |xs|
  {
    hide *;
    if xs == [] {
      assert xs + ys == ys;
      NoLines();
    } else {
      assert xs == [xs[0]] + xs[1..];
      assert xs + ys == [xs[0]] + (xs[1..] + ys);
      RepliedAppend(xs[1..], ys);
      LineFront(xs[0], xs[1..]);
      LineFront(xs[0], xs[1..] + ys);
    }
  }

  lemma LineFront(line: Line, later: seq<Line>)
    ensures SentLines([line] + later) == (if line.Sent? then [line.text] else []) + SentLines(later)
    ensures RepliedLines([line] + later) == (if line.Replied? then [line.text] else []) + RepliedLines(later)
  {
    assert ([line] + later)[1..] == later;
  }

  lemma EmitsOne(p: Progress, i: Intake)
    ensures SentLines(Emits(p, i)) == if i.FromHost? && Completes(p) then [p.lines[0]] else []
    ensures RepliedLines(Emits(p, i)) == if i.FromStatus? then [i.reply] else []
  {
    hide Completes;
    if Emits(p, i) != [] { assert Emits(p, i)[1..] == []; }
  }

  /** The completed lines are an interleaving of the host's first lines with all
      the replies; what is left is what progress says. */
  lemma {:induction false} LinesInterleave(p: Progress, intake: seq<Intake>)
    requires OnTrack(p, intake) && Underway(p)
    ensures RepliedLines(Merged(p, intake)) == Replies(intake)
    ensures SentLines(Merged(p, intake)) + After(p, intake).lines == p.lines
    ensures Underway(After(p, intake))
    decreases |intake|
  {
    hide LineReports, Emits, SentLines, RepliedLines, Expects, Underway, Completes, Advance;
    if intake == [] {
      NoLines();
    } else {
      var i := intake[0];
      AdvanceUnderway(p, i);
      if i.FromHost? { UnderwayLines(p, i); }
      EmitsOne(p, i);
      SentAppend(Emits(p, i), Merged(Advance(p, i), intake[1..]));
      RepliedAppend(Emits(p, i), Merged(Advance(p, i), intake[1..]));
      LinesInterleave(Advance(p, i), intake[1..]);
      AdvanceLines(p, i);
    }
  }

  lemma AdvanceLines(p: Progress, i: Intake)
    requires Expects(p, i)
    ensures p.lines == (if i.FromHost? && Completes(p) then [p.lines[0]] else []) + Advance(p, i).lines
  {
    hide LineReports;
  }

  lemma NoLines()
    ensures SentLines([]) == [] && RepliedLines([]) == []
  {}

  lemma UnderwayLines(p: Progress, i: Intake)
    requires Expects(p, i) && i.FromHost?
    ensures p.lines != []
  {}

  // ---- The host's reports in order ----

  /** The host reports still to come. */
  function Remaining(p: Progress): seq<StoredReport>
    requires Underway(p)
  {
    MessageReports(p.lines)[p.left..]
  }

  lemma {:induction false} BroughtFront(i: Intake, later: seq<Intake>)
    ensures AllBrought([i] + later) == Brought(i) + AllBrought(later)
    ensures HostReports([i] + later) == (if i.FromHost? then [i.report] else []) + HostReports(later)
    decreases |later|
  {
    hide *;
    if later == [] {
      assert [i] + later == [] + [i];
      BroughtOneMore([], i);
      HostOneMore([], i);
      NothingBrought();
    } else {
      var before, last := later[..|later| - 1], later[|later| - 1];
      assert later == before + [last] && [i] + later == ([i] + before) + [last];
      BroughtFront(i, before);
      BroughtOneMore(before, last);
      BroughtOneMore([i] + before, last);
      HostOneMore(before, last);
      HostOneMore([i] + before, last);
    }
  }

  lemma NothingBrought()
    ensures AllBrought([]) == [] && HostReports([]) == []
  {}

  lemma RemainingStep(p: Progress, r: StoredReport, later: seq<StoredReport>)
    requires Underway(p) && [r] + later <= Remaining(p)
    ensures Expects(p, FromHost(r)) && Underway(Advance(p, FromHost(r)))
    ensures later <= Remaining(Advance(p, FromHost(r)))
    ensures [r] + Remaining(Advance(p, FromHost(r))) == Remaining(p)
  {
    hide LineReports;
    assert p.lines != [];
    var first, rest := LineReports(p.lines[0]), MessageReports(p.lines[1..]);
    var all := first + rest;
    assert Remaining(p) == all[p.left..];
    assert r == Remaining(p)[0] == all[p.left] == first[p.left];
    assert later == ([r] + later)[1..];
    if p.left + 1 == |first| {
      assert all[p.left + 1..] == rest && rest[0..] == rest;
    }
    assert all[p.left..][1..] == all[p.left + 1..];
  }

  /** Host reports that come as sent keep on track. */
  lemma {:induction false} HostKeepsTrack(p: Progress, intake: seq<Intake>)
    requires Underway(p) && HostReports(intake) <= Remaining(p)
    ensures OnTrack(p, intake) && Underway(After(p, intake))
    ensures HostReports(intake) + Remaining(After(p, intake)) == Remaining(p)
    decreases |intake|
  {
    hide LineReports, MessageReports, Remaining, HostReports, Underway, Advance, Expects, AllBrought, Brought;
    if intake == [] {
      NoHostReports();
    } else {
      var i, later := intake[0], intake[1..];
      assert intake == [i] + later;
      BroughtFront(i, later);
      if i.FromHost? {
        RemainingStep(p, i.report, HostReports(later));
        HostKeepsTrack(Advance(p, i), later);
        assert ([i.report] + HostReports(later)) + Remaining(After(p, intake))
            == [i.report] + (HostReports(later) + Remaining(After(p, intake)));
      } else {
        StatusStays(p, i);
        HostKeepsTrack(p, later);
        assert [] + HostReports(later) == HostReports(later);
      }
    }
  }

  lemma NoHostReports()
    ensures HostReports([]) == []
  {}

  lemma StatusStays(p: Progress, i: Intake)
    requires i.FromStatus?
    ensures Expects(p, i) && Advance(p, i) == p
  {}

  // ---- Feeding one intake ----

  /** The reports as the USB host sees them, without the report id. */
  function Short(reports: seq<StoredReport>): (short: seq<seq<byte>>)
    ensures |short| == |reports|
    ensures forall i | 0 <= i < |reports| :: short[i] == reports[i][1..]
  {
    seq(|reports|, i requires 0 <= i < |reports| => reports[i][1..])
  }

  /** The chunk that report k of a message carries. */
  lemma {:induction false} ReportAt(transport: Transport, message: seq<byte>, k: nat)
    requires k < |Reports(transport, message)|
    ensures MAX_CHUNK_BYTES * k < |message|
    ensures Reports(transport, message)[k] == Report(transport, message[MAX_CHUNK_BYTES * k..Min(MAX_CHUNK_BYTES * k + MAX_CHUNK_BYTES, |message|)])
    ensures k + 1 == |Reports(transport, message)| <==> MAX_CHUNK_BYTES * k + MAX_CHUNK_BYTES >= |message|
    decreases |message|
  {
    hide Report;
    if |message| <= MAX_CHUNK_BYTES {
      assert message[0..|message|] == message;
    } else if k == 0 {
      assert message[0..MAX_CHUNK_BYTES] == message[..MAX_CHUNK_BYTES];
      SomeReport(transport, message[MAX_CHUNK_BYTES..]);
    } else {
      var later := message[MAX_CHUNK_BYTES..];
      ReportAt(transport, later, k - 1);
      var from := MAX_CHUNK_BYTES * (k - 1);
      SliceOfTail(message, MAX_CHUNK_BYTES, from, Min(from + MAX_CHUNK_BYTES, |later|));
    }
  }

  lemma SliceOfTail<T>(s: seq<T>, k: nat, from: nat, to: nat)
    requires k <= |s| && from <= to <= |s| - k
    ensures s[k..][from..to] == s[k + from..k + to]
  {}

  lemma SomeReport(transport: Transport, message: seq<byte>)
    requires message != []
    ensures |Reports(transport, message)| > 0
  {}

  /** The long and the short form of a message's reports. */
  lemma {:induction false} BothForms(message: seq<byte>)
    ensures |Reports(Ble, message)| == |Reports(Usb, message)|
    ensures forall i | 0 <= i < |Reports(Ble, message)| :: Reports(Ble, message)[i][1..] == Reports(Usb, message)[i]
    decreases |message|
  {
    if message == [] {
    } else if |message| <= MAX_CHUNK_BYTES {
      ReadReport(Ble, message);
    } else {
      ReadReport(Ble, message[..MAX_CHUNK_BYTES]);
      BothForms(message[MAX_CHUNK_BYTES..]);
    }
  }

  lemma ShortReply(reply: seq<byte>)
    ensures Short(StatusReports(reply)) == Reports(Usb, reply + CRLF)
  {
    hide Reports;
    BothForms(reply + CRLF);
  }

  /** A proper prefix of a terminated line holds no line end. */
  lemma BeginningIsFree(line: seq<byte>, n: nat)
    requires CrlfFree(line) && n < |line| + 2
    ensures CrlfFree((line + CRLF)[..n])
  {
    NoneBefore(line);
    var s := (line + CRLF)[..n];
    assert forall j | 0 <= j < n :: s[j] == (line + CRLF)[j];
  }

  lemma OneReport<M>(parse: seq<byte> -> Outcome<M>, limit: nat, buffer: seq<byte>, chunk: seq<byte>)
    requires IsChunk(chunk) && |buffer + chunk| <= limit
    ensures var r := Split(buffer + chunk);
      FeedReports(parse, limit, buffer, [Report(Usb, chunk)]) == Fed(r.rest, Messages(parse, r.lines), LineErrors(parse, r.lines))
  {
    hide Split, Messages, LineErrors, Report, Read;
    ReadReport(Usb, chunk);
    assert [Report(Usb, chunk)][1..] == [];
  }

  lemma HostStep<M>(parse: seq<byte> -> Outcome<M>, limit: nat, p: Progress, i: Intake)
    requires Underway(p) && Expects(p, i) && i.FromHost?
    requires Sendable(p.lines[0]) && |p.lines[0]| + 2 <= limit
    ensures FeedReports(parse, limit, Begun(p), Short(Brought(i)))
      == Fed(Begun(Advance(p, i)), Messages(parse, LineTexts(Emits(p, i))), LineErrors(parse, LineTexts(Emits(p, i))))
  {
    hide Split, Messages, LineErrors, Report, Read, FeedReports, Reports, CrlfFree;
    var line := p.lines[0];
    var message := line + CRLF;
    var from := MAX_CHUNK_BYTES * p.left;
    var to := Min(from + MAX_CHUNK_BYTES, |message|);
    BothForms(message);
    ReportAt(Usb, message, p.left);
    var chunk := message[from..to];
    assert Short(Brought(i)) == [Report(Usb, chunk)];
    assert Begun(p) == message[..from];
    assert message[..from] + chunk == message[..to];
    OneReport(parse, limit, Begun(p), chunk);
    if Completes(p) {
      assert message[..to] == message;
      OneLine(line);
      assert LineTexts(Emits(p, i)) == [line];
    } else {
      BeginningIsFree(line, to);
      CrlfFreeSplit(message[..to]);
      assert LineTexts(Emits(p, i)) == [];
    }
  }

  lemma ReplyStep<M>(parse: seq<byte> -> Outcome<M>, limit: nat, reply: seq<byte>)
    requires Sendable(reply) && |reply| + 2 <= limit
    ensures FeedReports(parse, limit, [], Short(Brought(FromStatus(reply))))
      == Fed([], Messages(parse, [reply]), LineErrors(parse, [reply]))
  {
    hide Split, Messages, LineErrors, FeedReports, Reports, StatusReports, CrlfFree;
    ShortReply(reply);
    PayloadDecodes(parse, limit, Usb, reply);
    OneLine(reply);
  }

  predicate Fits(limit: nat, line: seq<byte>) {
    Sendable(line) && |line| + 2 <= limit
  }

  /** Everything that may be taken in fits the decoder; replies hold no line end
      at all. */
  predicate AllFit(limit: nat, p: Progress, intake: seq<Intake>) {
    && (forall line | line in p.lines :: Fits(limit, line))
    && (forall i | i in intake && i.FromStatus? :: Fits(limit, i.reply) && StatusReply.Plain(i.reply))
  }

  lemma FitLater(limit: nat, p: Progress, intake: seq<Intake>)
    requires AllFit(limit, p, intake) && intake != []
    ensures AllFit(limit, Advance(p, intake[0]), intake[1..])
  {
    hide Fits, Completes, StatusReply.Plain;
  }

  lemma OneStep<M>(parse: seq<byte> -> Outcome<M>, limit: nat, p: Progress, i: Intake)
    requires Underway(p) && Expects(p, i) && AllFit(limit, p, [i]) && (i.FromStatus? ==> p.left == 0)
    ensures FeedReports(parse, limit, Begun(p), Short(Brought(i)))
      == Fed(Begun(Advance(p, i)), Messages(parse, LineTexts(Emits(p, i))), LineErrors(parse, LineTexts(Emits(p, i))))
  {
    hide FeedReports, Messages, LineErrors, Brought, LineReports, CrlfFree, StatusReply.Plain;
    if i.FromHost? {
      assert p.lines[0] in p.lines;
      HostStep(parse, limit, p, i);
    } else {
      assert i in [i];
      ReplyStep(parse, limit, i.reply);
      assert LineTexts(Emits(p, i)) == [i.reply];
    }
  }

  lemma AdvanceUnderway(p: Progress, i: Intake)
    requires Underway(p) && Expects(p, i)
    ensures Underway(Advance(p, i))
  {
    hide LineReports;
  }

  lemma ShortFront(i: Intake, later: seq<Intake>)
    ensures Short(AllBrought([i] + later)) == Short(Brought(i)) + Short(AllBrought(later))
  {
    hide Brought, AllBrought;
    BroughtFront(i, later);
  }

  lemma TextsFront(xs: seq<Line>, ys: seq<Line>)
    ensures LineTexts(xs + ys) == LineTexts(xs) + LineTexts(ys)
  {}

  /** As long as no reply is queued inside a host message, the decoder sees the
      completed lines, in their order, and keeps what has begun. */
  lemma {:induction false} UninterruptedDecodes<M>(parse: seq<byte> -> Outcome<M>, limit: nat, p: Progress, intake: seq<Intake>)
    requires Underway(p) && OnTrack(p, intake) && AllFit(limit, p, intake) && Uninterrupted(p, intake)
    ensures var texts := LineTexts(Merged(p, intake));
      FeedReports(parse, limit, Begun(p), Short(AllBrought(intake)))
        == Fed(Begun(After(p, intake)), Messages(parse, texts), LineErrors(parse, texts))
    decreases |intake|
  {
    hide FeedReports, Messages, LineErrors, Brought, AllBrought, Underway, Expects, Advance, Emits, Begun, AllFit;
    if intake == [] {
      NoneBrought();
      NothingFed(parse, limit, Begun(p));
      NoLinesNoOutcomes(parse);
    } else {
      var i, later := intake[0], intake[1..];
      assert intake == [i] + later;
      var q := Advance(p, i);
      assert AllFit(limit, p, [i]) by { FitFirst(limit, p, intake); }
      OneStep(parse, limit, p, i);
      FitLater(limit, p, intake);
      AdvanceUnderway(p, i);
      UninterruptedDecodes(parse, limit, q, later);
      ShortFront(i, later);
      FeedReportsAppend(parse, limit, Begun(p), Short(Brought(i)), Short(AllBrought(later)));
      TextsFront(Emits(p, i), Merged(q, later));
      MessagesAppend(parse, LineTexts(Emits(p, i)), LineTexts(Merged(q, later)));
      LineErrorsAppend(parse, LineTexts(Emits(p, i)), LineTexts(Merged(q, later)));
    }
  }

  lemma FitFirst(limit: nat, p: Progress, intake: seq<Intake>)
    requires AllFit(limit, p, intake) && intake != []
    ensures AllFit(limit, p, [intake[0]])
  {
    hide Fits, StatusReply.Plain;
  }

  lemma NoneBrought()
    ensures Short(AllBrought([])) == []
  {}

  // ---- A reply inside a message ----

  lemma JoinedIsFree(a: seq<byte>, reply: seq<byte>)
    requires CrlfFree(a) && StatusReply.Plain(reply)
    ensures CrlfFree(a + reply)
  {
    var s := a + reply;
    forall j | 0 <= j < |s| - 1 ensures s[j] != 0x0d || s[j + 1] != 0x0a {
      if j + 1 < |a| { assert a[j] == s[j] && a[j + 1] == s[j + 1]; }
    }
    FreeMeans(s);
  }

  lemma FreeMeans(s: seq<byte>)
    requires forall j | 0 <= j < |s| - 1 :: s[j] != 0x0d || s[j + 1] != 0x0a
    ensures CrlfFree(s)
  {}

  /** What has begun is put in front of the reply: the line decoded is neither the
      reply nor anything that was sent, unless an overflow already shows. */
  lemma InterruptedStep(limit: nat, p: Progress, reply: seq<byte>)
    requires Underway(p) && p.left > 0 && Fits(limit, p.lines[0]) && Fits(limit, reply) && StatusReply.Plain(reply)
    ensures Begun(p) != []
    ensures var fed := FeedReports(Verbatim, limit, Begun(p), Short(Brought(FromStatus(reply))));
      fed.errors != [] || fed == Fed([], [Begun(p) + reply], [])
  {
    hide Split, FeedReports, Reports, StatusReports, CrlfFree, Messages, LineErrors, LineReports, Read;
    var message := p.lines[0] + CRLF;
    LeftWithin(p);
    var a, text := Begun(p), reply + CRLF;
    BeginningIsFree(p.lines[0], |a|);
    ShortReply(reply);
    ReportsCarry(Usb, text);
    if StaysWithin(limit, a, Reports(Usb, text)) {
      DecoderRefinesSplit(Verbatim, limit, a, Reports(Usb, text));
      assert a + text == (a + reply) + CRLF;
      JoinedIsFree(a, reply);
      OneLine(a + reply);
      OneVerbatim(a + reply);
    } else {
      OverflowShows(Verbatim, limit, a, Reports(Usb, text));
    }
  }

  lemma OneVerbatim(line: seq<byte>)
    requires line != []
    ensures Messages(Verbatim, [line]) == [line] && LineErrors(Verbatim, [line]) == []
  {
    assert [line][1..] == [];
  }

  lemma LeftWithin(p: Progress)
    requires Underway(p) && p.left > 0
    ensures 0 < |Begun(p)| < |p.lines[0]| + 2 && Begun(p) == (p.lines[0] + CRLF)[..|Begun(p)|]
    ensures |Begun(p)| == MAX_CHUNK_BYTES * p.left
  {
    hide Reports, Report;
    ReportAt(Ble, p.lines[0] + CRLF, p.left);
  }

  lemma {:induction false} AllVerbatim(lines: seq<seq<byte>>)
    requires forall line | line in lines :: line != []
    ensures Messages(Verbatim, lines) == lines && LineErrors(Verbatim, lines) == []
    decreases |lines|
  {
    if lines == [] {
    } else {
      assert lines[0] in lines && forall line | line in lines[1..] :: line in lines;
      AllVerbatim(lines[1..]);
      assert lines == [lines[0]] + lines[1..];
    }
  }

  lemma EmitsFit(limit: nat, p: Progress, i: Intake)
    requires AllFit(limit, p, [i])
    ensures forall text | text in LineTexts(Emits(p, i)) :: text != []
  {
    hide CrlfFree, StatusReply.Plain, Completes;
    assert i in [i];
    if i.FromHost? && Completes(p) { LineEmitted(p, i); }
  }

  lemma LineEmitted(p: Progress, i: Intake)
    requires i.FromHost? && Completes(p)
    ensures p.lines != [] && p.lines[0] in p.lines && LineTexts(Emits(p, i)) == [p.lines[0]]
  {
    hide LineReports;
  }

  /** With a reply inside a message, something else than the completed lines is
      decoded, or an error is reported. */
  lemma {:induction false} InterruptedShows(limit: nat, p: Progress, intake: seq<Intake>)
    requires Underway(p) && OnTrack(p, intake) && AllFit(limit, p, intake) && !Uninterrupted(p, intake)
    ensures var fed := FeedReports(Verbatim, limit, Begun(p), Short(AllBrought(intake)));
      fed.errors != [] || fed.messages != LineTexts(Merged(p, intake))
    decreases |intake|
  {
    hide FeedReports, Messages, LineErrors, Brought, AllBrought, Underway, Expects, Advance, Begun, AllFit, Emits;
    var i, later := intake[0], intake[1..];
    assert intake == [i] + later;
    var q := Advance(p, i);
    ShortFront(i, later);
    FeedReportsAppend(Verbatim, limit, Begun(p), Short(Brought(i)), Short(AllBrought(later)));
    TextsFront(Emits(p, i), Merged(q, later));
    FitFirst(limit, p, intake);
    if i.FromStatus? && p.left > 0 {
      FitsBoth(limit, p, intake);
      InterruptedStep(limit, p, i.reply);
      StatusEmits(p, i);
      assert |Begun(p) + i.reply| > |i.reply|;
      var first := FeedReports(Verbatim, limit, Begun(p), Short(Brought(i)));
      var rest := FeedReports(Verbatim, limit, first.buffer, Short(AllBrought(later)));
      FirstDiffers(Begun(p) + i.reply, i.reply, rest.messages, LineTexts(Merged(q, later)));
    } else {
      OneStep(Verbatim, limit, p, i);
      EmitsFit(limit, p, i);
      AllVerbatim(LineTexts(Emits(p, i)));
      FitLater(limit, p, intake);
      AdvanceUnderway(p, i);
      InterruptedShows(limit, q, later);
      var rest := FeedReports(Verbatim, limit, Begun(q), Short(AllBrought(later)));
      SamePrefix(LineTexts(Emits(p, i)), rest.messages, LineTexts(Merged(q, later)));
    }
  }

  lemma FirstDiffers<T>(a: T, b: T, x: seq<T>, y: seq<T>)
    requires a != b
    ensures [a] + x != [b] + y
  {
    assert ([a] + x)[0] != ([b] + y)[0];
  }

  lemma StatusEmits(p: Progress, i: Intake)
    requires i.FromStatus?
    ensures LineTexts(Emits(p, i)) == [i.reply]
  {}

  lemma FitsBoth(limit: nat, p: Progress, intake: seq<Intake>)
    requires AllFit(limit, p, intake) && intake != [] && intake[0].FromStatus? && Underway(p) && p.left > 0
    ensures p.lines != [] && Fits(limit, p.lines[0]) && Fits(limit, intake[0].reply) && StatusReply.Plain(intake[0].reply)
  {
    hide Fits, StatusReply.Plain, LineReports;
  }

  lemma SamePrefix<T>(a: seq<T>, x: seq<T>, y: seq<T>)
    ensures a + x == a + y <==> x == y
  {
    assert x == (a + x)[|a|..] && y == (a + y)[|a|..];
  }
}
