/** Which histories of a log file are followed correctly, told from the files
    alone. */
module RolloutFiles {
  import opened Bytes
  import opened Lifecycle
  import opened RolloutTail

  /** How much of a file its complete lines make up, up to the first that cannot
      be read. */
  function ReadLength(reader: Reader, s: seq<byte>): (length: nat)
    ensures length <= |s|
    decreases |s|
  {
    var n := LineLength(s);
    if n == 0 || reader(s[..n]).Unreadable? then 0 else n + ReadLength(reader, s[n..])
  }

  lemma {:induction false} ConsumesReadLength(reader: Reader, thread: string, c: Cursor, s: seq<byte>)
    ensures Consume(reader, thread, c, s).offset == c.offset + ReadLength(reader, s)
    decreases |s|
  {
    hide Consume, Apply;
    ConsumeStep(reader, thread, c, s);
    var n := LineLength(s);
    if n > 0 && !reader(s[..n]).Unreadable? {
      ConsumesReadLength(reader, thread, ObserveLine(reader, thread, c, s[..n]), s[n..]);
    }
  }

  /** Each sighting of the file extends the one before; it may be missing or
      fail to open at any time. */
  predicate AppendOnly(before: seq<byte>, seen: seq<Sighting>)
    decreases |seen|
  {
    seen == [] ||
    match seen[0]
    case Missing => AppendOnly(before, seen[1..])
    case Present(content, _) => before <= content && AppendOnly(content, seen[1..])
  }

  /** The same with truncation: a sighting may also be any beginning of the one
      before, or, once that one has been read, any content at all that is shorter
      than its complete lines. */
  predicate Revised(reader: Reader, before: seq<byte>, read: bool, seen: seq<Sighting>)
    decreases |seen|
  {
    seen == [] ||
    match seen[0]
    case Missing => Revised(reader, before, read, seen[1..])
    case Present(content, opens) =>
      && (before <= content || content <= before || (read && |content| < ReadLength(reader, before)))
      && Revised(reader, content, opens, seen[1..])
  }

  lemma {:induction false} AppendOnlyIsRevised(reader: Reader, before: seq<byte>, read: bool, seen: seq<Sighting>)
    requires AppendOnly(before, seen)
    ensures Revised(reader, before, read, seen)
    decreases |seen|
  {
    if seen == [] {
    } else {
      match seen[0]
      case Missing => AppendOnlyIsRevised(reader, before, read, seen[1..]);
      case Present(content, opens) => AppendOnlyIsRevised(reader, content, opens, seen[1..]);
    }
  }

  /** What a cursor knows of the last content sighted. */
  ghost predicate Knows(reader: Reader, path: string, c: Cursor, consumed: seq<byte>, before: seq<byte>, read: bool) {
    && (c.path == path ==> consumed <= before && c.offset == |consumed|)
    && (read ==> c.path == path && c.offset == ReadLength(reader, before))
  }

  /** Histories of files that are only appended to or truncated are honest,
      whatever the cursor has read of them. */
  lemma {:induction false} RevisedIsHonest(
    reader: Reader, thread: string, path: string, c: Cursor, consumed: seq<byte>, before: seq<byte>, read: bool, seen: seq<Sighting>)
    requires Faithful(reader, thread, path, c, consumed) && Knows(reader, path, c, consumed, before, read)
    requires Revised(reader, before, read, seen)
    ensures Honest(reader, thread, path, c, consumed, seen)
    decreases |seen|
  {
    hide Consume, Faithful, ReadLength;
    if seen == [] {
    } else {
      var d := Refresh(reader, thread, c, path, seen[0]);
      match seen[0]
      case Missing => RevisedIsHonest(reader, thread, path, c, consumed, before, read, seen[1..]);
      case Present(content, opens) =>
        if c.path == path && content <= before && |content| >= c.offset {
          assert consumed == before[..|consumed|] == content[..|consumed|];
        }
        RefreshReplays(reader, thread, path, c, consumed, content, opens);
        if opens { ConsumesReadLength(reader, thread, Fresh(path), content); }
        RevisedIsHonest(reader, thread, path, d, content[..d.offset], content, opens, seen[1..]);
    }
  }

  /** Put together, with no mention of cursors: for a log that is only appended
      to, cut anywhere, or truncated, and refreshed at any moments, the reported
      lifecycle after a sighting that opened is the replay of the records of the
      file that count for this thread. */
  lemma ReportedLifecycle(reader: Reader, thread: string, path: string, seen: seq<Sighting>)
    requires Revised(reader, [], false, seen)
    requires seen != [] && seen[|seen| - 1].Present? && seen[|seen| - 1].opens
    ensures var rs := RecordsOf(reader, seen[|seen| - 1].content);
      RefreshAll(reader, thread, path, Fresh(""), seen).lifecycle == Replay(EMPTY, Relevant(thread, rs, |rs|))
  {
    hide Consume, Honest, RefreshAll, Revised;
    NothingToRead(reader, thread, Fresh(path));
    RevisedIsHonest(reader, thread, path, Fresh(""), [], [], false, seen);
    HistoryReplays(reader, thread, path, Fresh(""), [], seen);
    ConsumeObserves(reader, thread, Fresh(path), seen[|seen| - 1].content);
    LifecycleOfRelevant(thread, path, RecordsOf(reader, seen[|seen| - 1].content));
  }

  lemma AppendedLifecycle(reader: Reader, thread: string, path: string, seen: seq<Sighting>)
    requires AppendOnly([], seen)
    requires seen != [] && seen[|seen| - 1].Present? && seen[|seen| - 1].opens
    ensures var rs := RecordsOf(reader, seen[|seen| - 1].content);
      RefreshAll(reader, thread, path, Fresh(""), seen).lifecycle == Replay(EMPTY, Relevant(thread, rs, |rs|))
  {
    hide AppendOnly, RefreshAll;
    AppendOnlyIsRevised(reader, [], false, seen);
    ReportedLifecycle(reader, thread, path, seen);
  }

  // ---- When the file is missing or cannot be opened ----

  /** The content last read: a failed open keeps it, unless the file has by then
      become shorter than its complete lines, which forgets everything. */
  function Remembered(reader: Reader, kept: seq<byte>, seen: seq<Sighting>): seq<byte>
    decreases |seen|
  {
    if seen == [] then kept
    else
      match seen[0]
      case Missing => Remembered(reader, kept, seen[1..])
      case Present(content, opens) =>
        var now := if opens then content else if |content| < ReadLength(reader, kept) then [] else kept;
        Remembered(reader, now, seen[1..])
  }

  /** The cursor is that of the remembered content, or has never seen the file. */
  ghost predicate Recalls(reader: Reader, thread: string, path: string, c: Cursor, kept: seq<byte>) {
    if c.path == path then c == Consume(reader, thread, Fresh(path), kept) else kept == [] && c.lifecycle == EMPTY
  }

  lemma RecallsNext(reader: Reader, thread: string, path: string, c: Cursor, consumed: seq<byte>, kept: seq<byte>, content: seq<byte>, opens: bool)
    requires Faithful(reader, thread, path, c, consumed) && Recalls(reader, thread, path, c, kept)
    requires c.path == path ==> |content| < c.offset || consumed <= content
    ensures Recalls(reader, thread, path, Refresh(reader, thread, c, path, Present(content, opens)),
      if opens then content else if |content| < ReadLength(reader, kept) then [] else kept)
  {
    hide Consume, Faithful, ReadLength;
    RefreshReplays(reader, thread, path, c, consumed, content, opens);
    NothingToRead(reader, thread, Fresh(path));
    ConsumesReadLength(reader, thread, Fresh(path), kept);
    if kept == [] { assert ReadLength(reader, kept) <= |kept|; }
  }

  lemma {:induction false} RunRecalls(
    reader: Reader, thread: string, path: string, c: Cursor, consumed: seq<byte>, before: seq<byte>, read: bool, kept: seq<byte>, seen: seq<Sighting>)
    requires Faithful(reader, thread, path, c, consumed) && Knows(reader, path, c, consumed, before, read)
    requires Revised(reader, before, read, seen) && Recalls(reader, thread, path, c, kept)
    ensures Recalls(reader, thread, path, RefreshAll(reader, thread, path, c, seen), Remembered(reader, kept, seen))
    decreases |seen|
  {
    hide Consume, Faithful, ReadLength, Recalls;
    if seen == [] {
    } else {
      var d := Refresh(reader, thread, c, path, seen[0]);
      match seen[0]
      case Missing => RunRecalls(reader, thread, path, c, consumed, before, read, kept, seen[1..]);
      case Present(content, opens) =>
        if c.path == path && content <= before && |content| >= c.offset {
          assert consumed == before[..|consumed|] == content[..|consumed|];
        }
        RefreshReplays(reader, thread, path, c, consumed, content, opens);
        RecallsNext(reader, thread, path, c, consumed, kept, content, opens);
        if opens { ConsumesReadLength(reader, thread, Fresh(path), content); }
        var now := if opens then content else if |content| < ReadLength(reader, kept) then [] else kept;
        RunRecalls(reader, thread, path, d, content[..d.offset], content, opens, now, seen[1..]);
    }
  }

  /** Whatever the last sighting was, the reported lifecycle is the replay of the
      records that count in the content remembered. */
  lemma RememberedLifecycle(reader: Reader, thread: string, path: string, seen: seq<Sighting>)
    requires Revised(reader, [], false, seen)
    ensures var rs := RecordsOf(reader, Remembered(reader, [], seen));
      RefreshAll(reader, thread, path, Fresh(""), seen).lifecycle == Replay(EMPTY, Relevant(thread, rs, |rs|))
  {
    hide Consume, RefreshAll, Revised, Remembered, Relevant;
    NothingToRead(reader, thread, Fresh(path));
    RunRecalls(reader, thread, path, Fresh(""), [], [], false, [], seen);
    var kept := Remembered(reader, [], seen);
    ConsumeObserves(reader, thread, Fresh(path), kept);
    LifecycleOfRelevant(thread, path, RecordsOf(reader, kept));
  }

  // ---- Files that no reading tells apart ----

  lemma ApplyTwice(l: Lifecycle, r: Record)
    ensures Apply(Apply(l, r), r) == Apply(l, r)
  {
    hide ApprovalPrompt, Contains;
  }

  lemma ObserveTwice(thread: string, c: Cursor, r: Record)
    ensures Observe(thread, Observe(thread, c, r), r) == Observe(thread, c, r)
  {
    hide Apply;
    ApplyTwice(c.lifecycle, r);
  }

  lemma ObserveFrame(thread: string, c: Cursor, r: Record, offset: nat)
    ensures Observe(thread, c.(offset := offset), r) == Observe(thread, c, r).(offset := offset)
  {
    hide Apply;
  }

  /** Seeing a line twice in a row is seeing it once, further on. */
  lemma LineTwice(reader: Reader, thread: string, c: Cursor, line: seq<byte>)
    ensures var d := ObserveLine(reader, thread, c, line);
      ObserveLine(reader, thread, d, line) == d.(offset := d.offset + |line|)
  {
    hide Observe;
    if reader(line).Json? {
      var r := reader(line).record;
      var e := c.(offset := c.offset + |line|);
      ObserveTwice(thread, e, r);
      ObserveFrame(thread, Observe(thread, e, r), r, Observe(thread, e, r).offset + |line|);
    }
  }

  lemma ThreeLines(reader: Reader, thread: string, c: Cursor, x: seq<byte>, y: seq<byte>, z: seq<byte>)
    requires LineLength(x) == |x| > 0 && LineLength(y) == |y| > 0 && LineLength(z) == |z| > 0
    requires !reader(x).Unreadable? && !reader(y).Unreadable? && !reader(z).Unreadable?
    ensures Consume(reader, thread, c, x + (y + z))
      == ObserveLine(reader, thread, ObserveLine(reader, thread, ObserveLine(reader, thread, c, x), y), z)
  {
    hide Consume, ObserveLine, LineLength;
    OneMore(reader, thread, c, x, y + z);
    OneMore(reader, thread, ObserveLine(reader, thread, c, x), y, z);
    assert z + [] == z;
    OneMore(reader, thread, ObserveLine(reader, thread, ObserveLine(reader, thread, c, x), y), z, []);
    NothingToRead(reader, thread, ObserveLine(reader, thread, ObserveLine(reader, thread, ObserveLine(reader, thread, c, x), y), z));
  }

  lemma OneMore(reader: Reader, thread: string, c: Cursor, line: seq<byte>, later: seq<byte>)
    requires LineLength(line) == |line| > 0 && !reader(line).Unreadable?
    ensures Consume(reader, thread, c, line + later) == Consume(reader, thread, ObserveLine(reader, thread, c, line), later)
  {
    hide Consume, ObserveLine;
    var s := line + later;
    assert s[..|line|] == line && s[|line|..] == later;
    assert forall i | 0 <= i < |line| :: s[i] == line[i];
    LineLengthIs(s, |line|);
    ConsumeStep(reader, thread, c, s);
  }

  /** Why no condition on the contents decides when a replacement does no harm:
      repeating the first or the second of two lines of one length gives
      different files with the same cursor, however the lines are read. */
  lemma Indistinguishable(reader: Reader, thread: string, path: string, x: seq<byte>, y: seq<byte>)
    requires LineLength(x) == |x| > 0 && LineLength(y) == |y| == |x|
    requires !reader(x).Unreadable? && !reader(y).Unreadable?
    ensures Consume(reader, thread, Fresh(path), x + (x + y)) == Consume(reader, thread, Fresh(path), x + (y + y))
  {
    hide Consume, LineLength, Observe;
    var c := Fresh(path);
    ThreeLines(reader, thread, c, x, x, y);
    ThreeLines(reader, thread, c, x, y, y);
    var a := ObserveLine(reader, thread, c, x);
    LineTwice(reader, thread, c, x);
    LineTwice(reader, thread, a, y);
    LineFrame(reader, thread, a, y, a.offset + |x|);
    LineFrame(reader, thread, a, y, a.offset);
    assert a.(offset := a.offset) == a;
  }

  lemma LineFrame(reader: Reader, thread: string, c: Cursor, line: seq<byte>, offset: nat)
    ensures ObserveLine(reader, thread, c.(offset := offset), line)
      == ObserveLine(reader, thread, c, line).(offset := offset + |line|)
  {
    hide Observe;
    if reader(line).Json? {
      ObserveFrame(thread, c.(offset := c.offset + |line|), reader(line).record, offset + |line|);
    }
  }
}
