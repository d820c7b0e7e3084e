/** Reassembling CRLF-terminated lines from report bodies under a size limit. */
module LineDecoder {
  import opened Bytes
  import opened HidReports

  // ---- Lines of a byte stream ----

  /** The index of the first CRLF, or the length when there is none. */
  function FirstCrlf(s: seq<byte>): (i: nat)
    ensures i <= |s|
    ensures i < |s| ==> i + 2 <= |s| && s[i] == 0x0d && s[i + 1] == 0x0a
    ensures forall j | 0 <= j < i && j + 1 < |s| :: s[j] != 0x0d || s[j + 1] != 0x0a
    decreases |s|
  {
    if |s| < 2 then |s|
    else if s[0] == 0x0d && s[1] == 0x0a then 0
    else 1 + FirstCrlf(s[1..])
  }

  predicate CrlfFree(s: seq<byte>) {
    FirstCrlf(s) == |s|
  }

  datatype Lines = Lines(lines: seq<seq<byte>>, rest: seq<byte>)

  function Split(s: seq<byte>): Lines
    decreases |s|
  {
    var i := FirstCrlf(s);
    if i == |s| then Lines([], s)
    else
      var r := Split(s[i + 2..]);
      r.(lines := [s[..i]] + r.lines)
  }

  lemma FirstCrlfIs(s: seq<byte>, i: nat)
    requires i + 2 <= |s| && s[i] == 0x0d && s[i + 1] == 0x0a
    requires forall j | 0 <= j < i :: s[j] != 0x0d || s[j + 1] != 0x0a
    ensures FirstCrlf(s) == i
  {}

  lemma FirstLine(s: seq<byte>)
    requires !CrlfFree(s)
    ensures Split(s).lines == [s[..FirstCrlf(s)]] + Split(s[FirstCrlf(s) + 2..]).lines
    ensures Split(s).rest == Split(s[FirstCrlf(s) + 2..]).rest
  {
    hide FirstCrlf;
  }

  lemma CrlfFreeSplit(s: seq<byte>)
    requires CrlfFree(s)
    ensures Split(s) == Lines([], s)
  {}

  lemma {:induction false} SplitRest(s: seq<byte>)
    ensures CrlfFree(Split(s).rest) && |Split(s).rest| <= |s|
    decreases |s|
  {
    hide FirstCrlf;
    if FirstCrlf(s) < |s| {
      SplitRest(s[FirstCrlf(s) + 2..]);
    }
  }

  /** Where the stream is cut does not matter to its lines, not even between
      the CR and the LF. */
  lemma {:induction false} SplitAppend(s: seq<byte>, t: seq<byte>)
    ensures Split(s + t).lines == Split(s).lines + Split(Split(s).rest + t).lines
    ensures Split(s + t).rest == Split(Split(s).rest + t).rest
    decreases |s|
  {
    hide FirstCrlf, Split;
    var i := FirstCrlf(s);
    if i == |s| {
      CrlfFreeSplit(s);
    } else {
      FirstCrlfIs(s + t, i);
      FirstLine(s);
      FirstLine(s + t);
      assert (s + t)[..i] == s[..i];
      assert (s + t)[i + 2..] == s[i + 2..] + t;
      SplitAppend(s[i + 2..], t);
      var later := Split(Split(s).rest + t).lines;
      assert [s[..i]] + (Split(s[i + 2..]).lines + later) == ([s[..i]] + Split(s[i + 2..]).lines) + later;
    }
  }

  // ---- What becomes of a line ----

  /** UTF-8 and JSON decoding of one line, left abstract: a message, or one of
      the three line errors. */
  datatype Outcome<M> = Message(m: M) | Reject(error: ErrorCode)

  function Messages<M>(parse: seq<byte> -> Outcome<M>, lines: seq<seq<byte>>): seq<M>
    decreases |lines|
  {
    if lines == [] then []
    else
      (if lines[0] != [] && parse(lines[0]).Message? then [parse(lines[0]).m] else [])
      + Messages(parse, lines[1..])
  }

  function LineErrors<M>(parse: seq<byte> -> Outcome<M>, lines: seq<seq<byte>>): seq<ErrorCode>
    decreases |lines|
  {
    if lines == [] then []
    else
      (if lines[0] != [] && parse(lines[0]).Reject? then [parse(lines[0]).error] else [])
      + LineErrors(parse, lines[1..])
  }

  lemma {:induction false} MessagesAppend<M>(parse: seq<byte> -> Outcome<M>, xs: seq<seq<byte>>, ys: seq<seq<byte>>)
    ensures Messages(parse, xs + ys) == Messages(parse, xs) + Messages(parse, ys)
    decreases |xs|
  {
    if xs == [] {
      assert xs + ys == ys;
    } else {
      assert (xs + ys)[1..] == xs[1..] + ys;
      MessagesAppend(parse, xs[1..], ys);
    }
  }

  lemma {:induction false} LineErrorsAppend<M>(parse: seq<byte> -> Outcome<M>, xs: seq<seq<byte>>, ys: seq<seq<byte>>)
    ensures LineErrors(parse, xs + ys) == LineErrors(parse, xs) + LineErrors(parse, ys)
    decreases |xs|
  {
    if xs == [] {
      assert xs + ys == ys;
    } else {
      assert (xs + ys)[1..] == xs[1..] + ys;
      LineErrorsAppend(parse, xs[1..], ys);
    }
  }

  /** What one more line adds in front. */
  lemma OneMoreLine<M>(parse: seq<byte> -> Outcome<M>, line: seq<byte>, later: seq<seq<byte>>)
    ensures Messages(parse, [line] + later)
      == (if line != [] && parse(line).Message? then [parse(line).m] else []) + Messages(parse, later)
    ensures LineErrors(parse, [line] + later)
      == (if line != [] && parse(line).Reject? then [parse(line).error] else []) + LineErrors(parse, later)
  {
    assert ([line] + later)[1..] == later;
  }

  function NonEmptyCount(lines: seq<seq<byte>>): nat
    decreases |lines|
  {
    if lines == [] then 0 else (if lines[0] != [] then 1 else 0) + NonEmptyCount(lines[1..])
  }

  /** Every non-empty line yields exactly one message or one error. */
  lemma {:induction false} OneOutcomePerLine<M>(parse: seq<byte> -> Outcome<M>, lines: seq<seq<byte>>)
    ensures |Messages(parse, lines)| + |LineErrors(parse, lines)| == NonEmptyCount(lines)
    decreases |lines|
  {
    if lines == [] {
    } else {
      OneOutcomePerLine(parse, lines[1..]);
    }
  }

  // ---- Feeding reports ----

  datatype Fed<M> = Fed(buffer: seq<byte>, messages: seq<M>, errors: seq<ErrorCode>)

  function FeedReport<M>(parse: seq<byte> -> Outcome<M>, limit: nat, buffer: seq<byte>, report: seq<byte>): Fed<M> {
    match Read(report)
    case Malformed(error) => Fed(buffer, [], [error])
    case Body(bytes) =>
      if |buffer + bytes| > limit then Fed([], [], [BufferLimitExceeded])
      else
        var r := Split(buffer + bytes);
        Fed(r.rest, Messages(parse, r.lines), LineErrors(parse, r.lines))
  }

  function FeedReports<M>(parse: seq<byte> -> Outcome<M>, limit: nat, buffer: seq<byte>, reports: seq<seq<byte>>): Fed<M>
    decreases |reports|
  {
    if reports == [] then Fed(buffer, [], [])
    else
      var first := FeedReport(parse, limit, buffer, reports[0]);
      var later := FeedReports(parse, limit, first.buffer, reports[1..]);
      Fed(later.buffer, first.messages + later.messages, first.errors + later.errors)
  }

  class FrameDecoder<M> {
    const parse: seq<byte> -> Outcome<M>
    const limit: nat
    var buffer: seq<byte>

    constructor (parse: seq<byte> -> Outcome<M>, limit: nat)
      ensures buffer == [] && this.parse == parse && this.limit == limit
    {
      this.parse := parse;
      this.limit := limit;
      buffer := [];
    }

    method Reset()
      modifies this
      ensures buffer == []
    {
      buffer := [];
    }

    method Feed(report: seq<byte>) returns (messages: seq<M>, errors: seq<ErrorCode>)
      modifies this
      ensures Fed(buffer, messages, errors) == FeedReport(parse, limit, old(buffer), report)
    {
      hide Split, FirstCrlf, Read;
      messages, errors := [], [];
      var body;
      match Read(report) {
        case Malformed(error) =>
          errors := [error];
          return;
        case Body(bytes) =>
          body := bytes;
      }
      var combined := buffer + body;
      if |combined| > limit {
        Reset();
        errors := [BufferLimitExceeded];
        return;
      }
      buffer := combined;
      messages, errors := DrainLines();
    }

    /** Takes every complete line off the front of the buffer. */
    method DrainLines() returns (messages: seq<M>, errors: seq<ErrorCode>)
      modifies this
      ensures buffer == Split(old(buffer)).rest
      ensures messages == Messages(parse, Split(old(buffer)).lines)
      ensures errors == LineErrors(parse, Split(old(buffer)).lines)
    {
      hide FirstCrlf, Split, Messages, LineErrors;
      messages, errors := [], [];
      while true
        invariant messages + Messages(parse, Split(buffer).lines) == Messages(parse, Split(old(buffer)).lines)
        invariant errors + LineErrors(parse, Split(buffer).lines) == LineErrors(parse, Split(old(buffer)).lines)
        invariant Split(buffer).rest == Split(old(buffer)).rest
        decreases |buffer|
      {
        var end := FindCrlf(buffer);
        if end < 0 {
          CrlfFreeSplit(buffer);
          NoLinesNoOutcomes(parse);
          break;
        }
        var line := buffer[..end];
        FirstLine(buffer);
        buffer := buffer[end + 2..];
        OneMoreLine(parse, line, Split(buffer).lines);
        if |line| == 0 {
          continue;
        }
        match parse(line)
        case Message(m) =>
          messages := messages + [m];
        case Reject(error) =>
          errors := errors + [error];
      }
    }

    /** Ends the stream: unterminated bytes are one error. */
    method Finish() returns (errors: seq<ErrorCode>)
      modifies this
      ensures buffer == []
      ensures errors == if old(buffer) == [] then [] else [TruncatedMessage]
    {
      if |buffer| == 0 {
        return [];
      }
      Reset();
      return [TruncatedMessage];
    }
  }

  method FindCrlf(bytes: seq<byte>) returns (end: int)
    ensures end == if CrlfFree(bytes) then -1 else FirstCrlf(bytes)
  {
    var index := 0;
    while index < |bytes| - 1
      invariant index == 0 || 0 < index < |bytes|
      invariant forall j | 0 <= j < index :: bytes[j] != 0x0d || bytes[j + 1] != 0x0a
    {
      if bytes[index] == 0x0d && bytes[index + 1] == 0x0a {
        FirstCrlfIs(bytes, index);
        return index;
      }
      index := index + 1;
    }
    return -1;
  }

  /** Decodes a whole list of reports with a decoder of its own. */
  method DecodeReports<M>(parse: seq<byte> -> Outcome<M>, limit: nat, reports: seq<seq<byte>>)
    returns (messages: seq<M>, errors: seq<ErrorCode>)
    ensures var fed := FeedReports(parse, limit, [], reports);
      messages == fed.messages && errors == fed.errors + if fed.buffer == [] then [] else [TruncatedMessage]
  {
    hide FeedReport, FeedReports;
    var decoder := new FrameDecoder(parse, limit);
    messages, errors := [], [];
    var i := 0;
    ghost var whole := FeedReports(parse, limit, [], reports);
    assert reports[0..] == reports;
    while i < |reports|
      invariant i <= |reports| && decoder.parse == parse && decoder.limit == limit
      invariant var later := FeedReports(parse, limit, decoder.buffer, reports[i..]);
        later.buffer == whole.buffer && messages + later.messages == whole.messages
        && errors + later.errors == whole.errors
    {
      assert reports[i..] == [reports[i]] + reports[i + 1..];
      FeedsOn(parse, limit, decoder.buffer, reports[i], reports[i + 1..]);
      var m, e := decoder.Feed(reports[i]);
      messages, errors := messages + m, errors + e;
      i := i + 1;
    }
    assert reports[i..] == [];
    NothingFed(parse, limit, decoder.buffer);
    var e := decoder.Finish();
    errors := errors + e;
  }

  lemma FeedsOn<M>(parse: seq<byte> -> Outcome<M>, limit: nat, buffer: seq<byte>, report: seq<byte>, later: seq<seq<byte>>)
    ensures var first := FeedReport(parse, limit, buffer, report);
      var rest := FeedReports(parse, limit, first.buffer, later);
      FeedReports(parse, limit, buffer, [report] + later)
        == Fed(rest.buffer, first.messages + rest.messages, first.errors + rest.errors)
  {
    hide FeedReport;
    assert ([report] + later)[1..] == later;
  }

  // ---- Invariants of every run ----

  /** The buffer never exceeds the limit and never holds a complete line, on
      any run, overflows included. */
  lemma {:induction false} BufferBounded<M>(parse: seq<byte> -> Outcome<M>, limit: nat, buffer: seq<byte>, reports: seq<seq<byte>>)
    requires |buffer| <= limit && CrlfFree(buffer)
    ensures |FeedReports(parse, limit, buffer, reports).buffer| <= limit
    ensures CrlfFree(FeedReports(parse, limit, buffer, reports).buffer)
    decreases |reports|
  {
    hide Split, Read;
    if reports == [] {
    } else {
      var r := Read(reports[0]);
      if r.Body? {
        SplitRest(buffer + r.bytes);
      }
      BufferBounded(parse, limit, FeedReport(parse, limit, buffer, reports[0]).buffer, reports[1..]);
    }
  }

  // ---- Refinement: a run without overflow is one split of the bodies ----

  function Bodies(reports: seq<seq<byte>>): seq<byte>
    decreases |reports|
  {
    if reports == [] then []
    else (if Read(reports[0]).Body? then Read(reports[0]).bytes else []) + Bodies(reports[1..])
  }

  function Faults(reports: seq<seq<byte>>): seq<ErrorCode>
    decreases |reports|
  {
    if reports == [] then []
    else (if Read(reports[0]).Malformed? then [Read(reports[0]).error] else []) + Faults(reports[1..])
  }

  /** No accepted body, added to the unterminated bytes before it, exceeds the
      limit. */
  predicate StaysWithin(limit: nat, buffer: seq<byte>, reports: seq<seq<byte>>)
    decreases |reports|
  {
    reports == [] ||
    match Read(reports[0])
    case Malformed(_) => StaysWithin(limit, buffer, reports[1..])
    case Body(bytes) =>
      |buffer| + |bytes| <= limit && StaysWithin(limit, Split(buffer + bytes).rest, reports[1..])
  }

  /** The fed reports amount to one split of their bodies. */
  ghost predicate Refines<M>(parse: seq<byte> -> Outcome<M>, buffer: seq<byte>, bodies: seq<byte>, faults: seq<ErrorCode>, fed: Fed<M>) {
    var all := Split(buffer + bodies);
    && fed.buffer == all.rest
    && fed.messages == Messages(parse, all.lines)
    && multiset(fed.errors) == multiset(faults) + multiset(LineErrors(parse, all.lines))
    && (faults == [] ==> fed.errors == LineErrors(parse, all.lines))
  }

  lemma RefineBody<M>(parse: seq<byte> -> Outcome<M>, buffer: seq<byte>, bytes: seq<byte>, later: seq<byte>, faults: seq<ErrorCode>, fed: Fed<M>)
    requires Refines(parse, Split(buffer + bytes).rest, later, faults, fed)
    ensures var first := Split(buffer + bytes).lines;
      Refines(parse, buffer, bytes + later, faults,
        Fed(fed.buffer, Messages(parse, first) + fed.messages, LineErrors(parse, first) + fed.errors))
  {
    hide Split, Messages, LineErrors;
    assert buffer + (bytes + later) == (buffer + bytes) + later;
    SplitAppend(buffer + bytes, later);
    var first, rest := Split(buffer + bytes).lines, Split(Split(buffer + bytes).rest + later).lines;
    MessagesAppend(parse, first, rest);
    LineErrorsAppend(parse, first, rest);
  }

  lemma RefineFault<M>(parse: seq<byte> -> Outcome<M>, buffer: seq<byte>, bodies: seq<byte>, faults: seq<ErrorCode>, fed: Fed<M>, error: ErrorCode)
    requires Refines(parse, buffer, bodies, faults, fed)
    ensures Refines(parse, buffer, bodies, [error] + faults, Fed(fed.buffer, fed.messages, [error] + fed.errors))
  {
    hide Split, Messages, LineErrors;
  }

  lemma RefineNothing<M>(parse: seq<byte> -> Outcome<M>, buffer: seq<byte>)
    requires CrlfFree(buffer)
    ensures Refines(parse, buffer, [], [], Fed(buffer, [], []))
  {
    hide Split, Messages, LineErrors, CrlfFree;
    assert buffer + [] == buffer;
    CrlfFreeSplit(buffer);
    NoLinesNoOutcomes(parse);
  }

  lemma {:induction false} BodiesRefine<M>(parse: seq<byte> -> Outcome<M>, limit: nat, buffer: seq<byte>, reports: seq<seq<byte>>)
    requires StaysWithin(limit, buffer, reports) && CrlfFree(buffer)
    ensures Refines(parse, buffer, Bodies(reports), Faults(reports), FeedReports(parse, limit, buffer, reports))
    decreases |reports|
  {
    hide Split, Messages, LineErrors, Read, CrlfFree, Refines;
    if reports == [] {
      RefineNothing(parse, buffer);
    } else {
      var tail := reports[1..];
      var first := FeedReport(parse, limit, buffer, reports[0]);
      var later := FeedReports(parse, limit, first.buffer, tail);
      match Read(reports[0])
      case Malformed(error) =>
        BodiesRefine(parse, limit, buffer, tail);
        RefineFault(parse, buffer, Bodies(tail), Faults(tail), later, error);
        assert [] + Bodies(tail) == Bodies(tail) && [] + later.messages == later.messages;
      case Body(bytes) =>
        SplitRest(buffer + bytes);
        BodiesRefine(parse, limit, first.buffer, tail);
        RefineBody(parse, buffer, bytes, Bodies(tail), Faults(tail), later);
        assert [] + Faults(tail) == Faults(tail);
    }
  }

  lemma NoLinesNoOutcomes<M>(parse: seq<byte> -> Outcome<M>)
    ensures Messages(parse, []) == [] && LineErrors(parse, []) == []
  {}

  /** Bodies that fit the limit all together never overflow. */
  lemma {:induction false} WithinBudget(limit: nat, buffer: seq<byte>, reports: seq<seq<byte>>)
    requires |buffer| + |Bodies(reports)| <= limit
    ensures StaysWithin(limit, buffer, reports)
    decreases |reports|
  {
    hide Split, Read;
    if reports == [] {
    } else {
      match Read(reports[0])
      case Malformed(_) => WithinBudget(limit, buffer, reports[1..]);
      case Body(bytes) =>
        SplitRest(buffer + bytes);
        WithinBudget(limit, Split(buffer + bytes).rest, reports[1..]);
    }
  }

  lemma {:induction false} FeedReportsAppend<M>(parse: seq<byte> -> Outcome<M>, limit: nat, buffer: seq<byte>, xs: seq<seq<byte>>, ys: seq<seq<byte>>)
    ensures var first := FeedReports(parse, limit, buffer, xs);
      var later := FeedReports(parse, limit, first.buffer, ys);
      FeedReports(parse, limit, buffer, xs + ys)
        == Fed(later.buffer, first.messages + later.messages, first.errors + later.errors)
    decreases |xs|
  {
    hide FeedReport;
    if xs == [] {
      assert xs + ys == ys;
    } else {
      assert (xs + ys)[1..] == xs[1..] + ys;
      var one := FeedReport(parse, limit, buffer, xs[0]);
      FeedReportsAppend(parse, limit, one.buffer, xs[1..], ys);
      var first := FeedReports(parse, limit, one.buffer, xs[1..]);
      var later := FeedReports(parse, limit, first.buffer, ys);
      assert (one.messages + first.messages) + later.messages == one.messages + (first.messages + later.messages);
      assert (one.errors + first.errors) + later.errors == one.errors + (first.errors + later.errors);
    }
  }

  // ---- The order of the errors ----

  /** The errors of a stream of reports: each malformed report has its own, and
      each other report those of the lines that its body completes in the whole
      stream, in the order of the reports. */
  function OrderedErrors<M>(parse: seq<byte> -> Outcome<M>, buffer: seq<byte>, reports: seq<seq<byte>>): seq<ErrorCode>
    decreases |reports|
  {
    if reports == [] then []
    else
      var before, last := reports[..|reports| - 1], reports[|reports| - 1];
      OrderedErrors(parse, buffer, before) +
      match Read(last)
      case Malformed(error) => [error]
      case Body(_) => LineErrors(parse, Completed(buffer + Bodies(before), buffer + Bodies(reports)))
  }

  /** The lines that a longer stream has beyond those of a shorter one. */
  function Completed(shorter: seq<byte>, longer: seq<byte>): seq<seq<byte>> {
    var n := |Split(shorter).lines|;
    if n <= |Split(longer).lines| then Split(longer).lines[n..] else []
  }

  lemma {:induction false} BodiesAppend(xs: seq<seq<byte>>, ys: seq<seq<byte>>)
    ensures Bodies(xs + ys) == Bodies(xs) + Bodies(ys)
    decreases |xs|
  {
    hide Read;
    if xs == [] {
      assert xs + ys == ys;
    } else {
      assert (xs + ys)[1..] == xs[1..] + ys;
      BodiesAppend(xs[1..], ys);
    }
  }

  lemma {:induction false} WithinSplits<M>(parse: seq<byte> -> Outcome<M>, limit: nat, buffer: seq<byte>, xs: seq<seq<byte>>, ys: seq<seq<byte>>)
    requires StaysWithin(limit, buffer, xs + ys)
    ensures StaysWithin(limit, buffer, xs)
    ensures StaysWithin(limit, FeedReports(parse, limit, buffer, xs).buffer, ys)
    decreases |xs|
  {
    hide Split, Read;
    if xs == [] {
      assert xs + ys == ys;
    } else {
      assert (xs + ys)[1..] == xs[1..] + ys;
      WithinSplits(parse, limit, FeedReport(parse, limit, buffer, xs[0]).buffer, xs[1..], ys);
    }
  }

  lemma {:induction false} ErrorsInOrder<M>(parse: seq<byte> -> Outcome<M>, limit: nat, buffer: seq<byte>, reports: seq<seq<byte>>)
    requires StaysWithin(limit, buffer, reports) && CrlfFree(buffer)
    ensures FeedReports(parse, limit, buffer, reports).errors == OrderedErrors(parse, buffer, reports)
    decreases |reports|
  {
    hide Split, FeedReports, Bodies, LineErrors, Messages, Read, CrlfFree, StaysWithin;
    if reports == [] {
      NothingFed(parse, limit, buffer);
    } else {
      var before, last := reports[..|reports| - 1], reports[|reports| - 1];
      assert before + [last] == reports;
      WithinSplits(parse, limit, buffer, before, [last]);
      ErrorsInOrder(parse, limit, buffer, before);
      FeedReportsAppend(parse, limit, buffer, before, [last]);
      BodiesRefine(parse, limit, buffer, before);
      var kept := FeedReports(parse, limit, buffer, before).buffer;
      OneFed(parse, limit, kept, last);
      if Read(last).Body? {
        BodiesAppend(before, [last]);
        OneBody(last);
        assert buffer + Bodies(reports) == (buffer + Bodies(before)) + Read(last).bytes;
        SplitAppend(buffer + Bodies(before), Read(last).bytes);
      }
    }
  }

  lemma NothingFed<M>(parse: seq<byte> -> Outcome<M>, limit: nat, buffer: seq<byte>)
    ensures FeedReports(parse, limit, buffer, []) == Fed(buffer, [], [])
  {}

  lemma OneBody(report: seq<byte>)
    ensures Bodies([report]) == if Read(report).Body? then Read(report).bytes else []
  {
    hide Read;
    assert [report][1..] == [];
  }

  lemma OneFed<M>(parse: seq<byte> -> Outcome<M>, limit: nat, buffer: seq<byte>, report: seq<byte>)
    requires StaysWithin(limit, buffer, [report])
    ensures FeedReports(parse, limit, buffer, [report]) == FeedReport(parse, limit, buffer, report)
    ensures Read(report).Body? ==> |buffer + Read(report).bytes| <= limit
  {
    hide Split, Read, Messages, LineErrors;
    assert [report][1..] == [];
  }

  /** While the limit is never hit, malformed reports contribute one error each
      and nothing else, and the accepted bodies are processed exactly as their
      concatenation split at CRLF; the errors of both kinds come in the order of
      the reports that cause them. */
  lemma DecoderRefinesSplit<M>(parse: seq<byte> -> Outcome<M>, limit: nat, buffer: seq<byte>, reports: seq<seq<byte>>)
    requires StaysWithin(limit, buffer, reports) && CrlfFree(buffer)
    ensures Refines(parse, buffer, Bodies(reports), Faults(reports), FeedReports(parse, limit, buffer, reports))
    ensures FeedReports(parse, limit, buffer, reports).errors == OrderedErrors(parse, buffer, reports)
  {
    hide *;
    BodiesRefine(parse, limit, buffer, reports);
    ErrorsInOrder(parse, limit, buffer, reports);
  }

  /** An overflow always leaves an error. */
  lemma {:induction false} OverflowShows<M>(parse: seq<byte> -> Outcome<M>, limit: nat, buffer: seq<byte>, reports: seq<seq<byte>>)
    requires !StaysWithin(limit, buffer, reports)
    ensures FeedReports(parse, limit, buffer, reports).errors != []
    decreases |reports|
  {
    hide Split, Read;
    if Read(reports[0]).Malformed? || |buffer| + |Read(reports[0]).bytes| <= limit {
      OverflowShows(parse, limit, FeedReport(parse, limit, buffer, reports[0]).buffer, reports[1..]);
    }
  }
}
