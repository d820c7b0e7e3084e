/** Reading only the new complete lines of an append-only session log, and why
    that agrees with replaying the whole file. */
module RolloutTail {
  import opened Bytes
  import opened Lifecycle

  const NEWLINE: byte := 0x0a

  /** UTF-8 and JSON decoding of one complete line, left abstract. */
  datatype LineView = Unreadable | NotJson | Json(record: Record)

  type Reader = seq<byte> -> LineView

  datatype Cursor = Cursor(path: string, offset: nat, lifecycle: Lifecycle, verified: Option<bool>)

  function Fresh(path: string): Cursor {
    Cursor(path, 0, EMPTY, None)
  }

  /** The thread a session log says it belongs to. */
  function RolloutThreadId(r: Record): Option<string> {
    if r.kind == Some("session_meta") && r.payload.Some? then r.payload.value.id else None
  }

  predicate Matches(thread: string, r: Record) {
    RolloutThreadId(r) == Some(thread)
  }

  predicate Mismatches(thread: string, r: Record) {
    RolloutThreadId(r).Some? && !Matches(thread, r)
  }

  /** What one record does to identity and lifecycle. */
  function Observe(thread: string, c: Cursor, r: Record): Cursor {
    if Matches(thread, r) then c.(verified := Some(true))
    else if Mismatches(thread, r) then c.(verified := Some(false), lifecycle := EMPTY)
    else if c.verified == Some(true) then c.(lifecycle := Apply(c.lifecycle, r))
    else c
  }

  /** The length of the first complete line, newline included; 0 if none. */
  function LineLength(s: seq<byte>): (n: nat)
    ensures n <= |s|
    ensures n > 0 ==> s[n - 1] == NEWLINE
    ensures forall i | 0 <= i < (if n > 0 then n - 1 else |s|) :: s[i] != NEWLINE
    decreases |s|
  {
    if s == [] then 0
    else if s[0] == NEWLINE then 1
    else
      var n := LineLength(s[1..]);
      if n == 0 then 0 else n + 1
  }

  lemma LineLengthIs(s: seq<byte>, n: nat)
    requires 0 < n <= |s| && s[n - 1] == NEWLINE
    requires forall i | 0 <= i < n - 1 :: s[i] != NEWLINE
    ensures LineLength(s) == n
  {}

  function ObserveLine(reader: Reader, thread: string, c: Cursor, line: seq<byte>): Cursor {
    var d := c.(offset := c.offset + |line|);
    if reader(line).Json? then Observe(thread, d, reader(line).record) else d
  }

  /** Consumes the complete lines of the unread bytes `s`, up to the first that
      cannot be read at all. */
  function Consume(reader: Reader, thread: string, c: Cursor, s: seq<byte>): (d: Cursor)
    ensures c.offset <= d.offset <= c.offset + |s|
    decreases |s|
  {
    var n := LineLength(s);
    if n == 0 || reader(s[..n]).Unreadable? then c
    else Consume(reader, thread, ObserveLine(reader, thread, c, s[..n]), s[n..])
  }

  /** One turn of the line loop, for use where the definition is hidden. */
  lemma ConsumeStep(reader: Reader, thread: string, c: Cursor, s: seq<byte>)
    ensures var n := LineLength(s);
      if n == 0 || reader(s[..n]).Unreadable? then Consume(reader, thread, c, s) == c
      else
        var d := ObserveLine(reader, thread, c, s[..n]);
        && Consume(reader, thread, c, s) == Consume(reader, thread, d, s[n..])
        && d.offset == c.offset + n && d.path == c.path
  {
    hide LineLength, Apply;
  }

  /** What a refresh finds on disk: nothing, or a file that may fail to open. */
  datatype Sighting = Missing | Present(content: seq<byte>, opens: bool)

  function Restarted(c: Cursor, path: string, size: nat): Cursor {
    if c.path != path || size < c.offset then Fresh(path) else c
  }

  function Refresh(reader: Reader, thread: string, c: Cursor, path: string, seen: Sighting): Cursor {
    match seen
    case Missing => c
    case Present(content, opens) =>
      var d := Restarted(c, path, |content|);
      if |content| == d.offset || !opens then d
      else Consume(reader, thread, d, content[d.offset..])
  }

  /** One cursor per thread, kept between refreshes. */
  class CodexStateCache {
    var rollouts: map<string, Cursor>

    constructor ()
      ensures rollouts == map[]
    {
      rollouts := map[];
    }

    function CursorOf(thread: string): Cursor
      reads this
    {
      if thread in rollouts then rollouts[thread] else Fresh("")
    }

    method RefreshRollout(reader: Reader, thread: string, path: string, seen: Sighting)
      returns (lifecycle: Lifecycle)
      modifies this
      ensures rollouts == old(rollouts)[thread := Refresh(reader, thread, old(CursorOf(thread)), path, seen)]
      ensures lifecycle == rollouts[thread].lifecycle
    {
      hide Consume;
      var cursor := CursorOf(thread);
      rollouts := rollouts[thread := cursor];
      if seen.Missing? {
        return cursor.lifecycle;
      }
      if cursor.path != path || |seen.content| < cursor.offset {
        cursor := Fresh(path);
        rollouts := rollouts[thread := cursor];
      }
      if |seen.content| == cursor.offset || !seen.opens {
        return cursor.lifecycle;
      }
      cursor := ReadLines(reader, thread, cursor, seen.content);
      rollouts := rollouts[thread := cursor];
      return cursor.lifecycle;
    }
  }

  method ObserveRecord(thread: string, c: Cursor, record: Record) returns (d: Cursor)
    ensures d == Observe(thread, c, record)
  {
    hide Apply;
    d := c;
    if RolloutThreadId(record).Some? {
      var matches := RolloutThreadId(record).value == thread;
      d := d.(verified := Some(matches));
      if !matches {
        d := d.(lifecycle := EMPTY);
      }
    } else if d.verified == Some(true) {
      d := d.(lifecycle := Apply(d.lifecycle, record));
    }
  }

  /** The line loop. */
  method ReadLines(reader: Reader, thread: string, start: Cursor, content: seq<byte>) returns (cursor: Cursor)
    requires start.offset <= |content|
    ensures cursor == Consume(reader, thread, start, content[start.offset..])
  {
    hide LineLength, Observe, Consume;
    cursor := start;
    while true
      invariant cursor.offset <= |content|
      invariant Consume(reader, thread, cursor, content[cursor.offset..])
        == Consume(reader, thread, start, content[start.offset..])
      decreases |content| - cursor.offset
    {
      var unread := content[cursor.offset..];
      ConsumeStep(reader, thread, cursor, unread);
      var length := LineLength(unread);
      if length == 0 {
        break;
      }
      var view := reader(unread[..length]);
      if view.Unreadable? {
        break;
      }
      cursor := cursor.(offset := cursor.offset + length);
      if view.Json? {
        cursor := ObserveRecord(thread, cursor, view.record);
      }
      assert content[cursor.offset..] == unread[length..];
    }
  }

  // ---- Incremental reading agrees with replaying the file ----

  /** Reading stops at a line boundary, in front of an incomplete or unreadable
      line. */
  lemma {:induction false} StopsAtLine(reader: Reader, thread: string, c: Cursor, s: seq<byte>)
    ensures var k := Consume(reader, thread, c, s).offset - c.offset;
      && (k == 0 || s[k - 1] == NEWLINE)
      && (LineLength(s[k..]) == 0 || reader(s[k..][..LineLength(s[k..])]).Unreadable?)
      && Consume(reader, thread, c, s).path == c.path
    decreases |s|
  {
    hide LineLength, ObserveLine, Consume;
    ConsumeStep(reader, thread, c, s);
    var n := LineLength(s);
    if n == 0 || reader(s[..n]).Unreadable? {
      assert s[0..] == s;
    } else {
      LineEnds(s);
      var d := ObserveLine(reader, thread, c, s[..n]);
      StopsAtLine(reader, thread, d, s[n..]);
      var k := Consume(reader, thread, d, s[n..]).offset - d.offset;
      assert s[n..][k..] == s[n + k..];
      assert k > 0 ==> s[n..][k - 1] == s[n + k - 1];
    }
  }

  lemma LineEnds(s: seq<byte>)
    ensures LineLength(s) > 0 ==> s[LineLength(s) - 1] == NEWLINE
  {}

  /** The consumed bytes determine the cursor: any file that starts with them
      is read on from there as if it had been read from the beginning. */
  lemma {:induction false} Resume(reader: Reader, thread: string, c: Cursor, s: seq<byte>, t: seq<byte>)
    requires var k := Consume(reader, thread, c, s).offset - c.offset;
      k <= |t| && s[..k] == t[..k]
    ensures var d := Consume(reader, thread, c, s);
      Consume(reader, thread, c, t) == Consume(reader, thread, d, t[d.offset - c.offset..])
    decreases |s|
  {
    hide LineLength, ObserveLine, Consume;
    ConsumeStep(reader, thread, c, s);
    var n := LineLength(s);
    if n == 0 || reader(s[..n]).Unreadable? {
      assert t[0..] == t;
    } else {
      var d := ObserveLine(reader, thread, c, s[..n]);
      var k := Consume(reader, thread, d, s[n..]).offset - d.offset;
      SharedPrefix(s, t, n, k);
      SameFirstLine(s, t);
      ConsumeStep(reader, thread, c, t);
      Resume(reader, thread, d, s[n..], t[n..]);
      assert t[n..][k..] == t[n + k..];
    }
  }

  lemma SharedPrefix(s: seq<byte>, t: seq<byte>, n: nat, k: nat)
    requires n + k <= |s| && n + k <= |t| && s[..n + k] == t[..n + k]
    ensures s[..n] == t[..n] && s[n..][..k] == t[n..][..k]
  {
    assert s[..n] == s[..n + k][..n] && t[..n] == t[..n + k][..n];
    assert s[n..][..k] == s[..n + k][n..] && t[n..][..k] == t[..n + k][n..];
  }

  lemma SameFirstLine(s: seq<byte>, t: seq<byte>)
    requires var n := LineLength(s); 0 < n <= |t| && s[..n] == t[..n]
    ensures LineLength(t) == LineLength(s)
  {
    var n := LineLength(s);
    assert forall i | 0 <= i < n :: t[i] == s[..n][i];
    LineLengthIs(t, n);
  }

  /** The cursor is what reading exactly these bytes from a fresh start gives. */
  ghost predicate Faithful(reader: Reader, thread: string, path: string, c: Cursor, consumed: seq<byte>) {
    c.path == path ==> c.offset == |consumed| && c == Consume(reader, thread, Fresh(path), consumed)
  }

  lemma NothingToRead(reader: Reader, thread: string, c: Cursor)
    ensures Consume(reader, thread, c, []) == c
  {}

  lemma WholeIsFaithful(reader: Reader, thread: string, path: string, content: seq<byte>)
    ensures var d := Consume(reader, thread, Fresh(path), content);
      d.path == path && Faithful(reader, thread, path, d, content[..d.offset])
  {
    hide Consume;
    var d := Consume(reader, thread, Fresh(path), content);
    StopsAtLine(reader, thread, Fresh(path), content);
    var consumed := content[..d.offset];
    assert consumed[..d.offset] == content[..d.offset];
    Resume(reader, thread, Fresh(path), content, consumed);
    assert consumed[d.offset..] == [];
    NothingToRead(reader, thread, d);
  }

  /** One refresh of a file that still starts with the consumed bytes, or has
      become shorter than them, or is a different file: once it has been read,
      the cursor is that of a full replay. */
  lemma RefreshReplays(reader: Reader, thread: string, path: string, c: Cursor, consumed: seq<byte>, content: seq<byte>, opens: bool)
    requires Faithful(reader, thread, path, c, consumed)
    requires c.path == path ==> |content| < c.offset || consumed <= content
    ensures var d := Refresh(reader, thread, c, path, Present(content, opens));
      && d.path == path && d.offset <= |content|
      && Faithful(reader, thread, path, d, content[..d.offset])
      && (opens ==> d == Consume(reader, thread, Fresh(path), content))
  {
    hide Consume, Faithful;
    var r := Restarted(c, path, |content|);
    var d := Refresh(reader, thread, c, path, Present(content, opens));
    if r == Fresh(path) {
      assert content[0..] == content && content[..0] == [];
      FreshIsFaithful(reader, thread, path);
      NothingToRead(reader, thread, r);
      WholeIsFaithful(reader, thread, path, content);
      if |content| == 0 { assert content == []; }
    } else {
      FaithfulOffset(reader, thread, path, c, consumed);
      assert consumed[..|consumed|] == content[..|consumed|];
      assert content[..c.offset] == consumed;
      NothingToRead(reader, thread, c);
      Resume(reader, thread, Fresh(path), consumed, content);
      WholeIsFaithful(reader, thread, path, content);
      if |content| == c.offset { assert content[c.offset..] == []; }
    }
  }

  lemma FreshIsFaithful(reader: Reader, thread: string, path: string)
    ensures Faithful(reader, thread, path, Fresh(path), [])
  {
    NothingToRead(reader, thread, Fresh(path));
  }

  lemma FaithfulOffset(reader: Reader, thread: string, path: string, c: Cursor, consumed: seq<byte>)
    requires c.path == path && Faithful(reader, thread, path, c, consumed)
    ensures c.offset == |consumed| && c == Consume(reader, thread, Fresh(path), consumed)
  {
    hide Consume;
  }

  function RefreshAll(reader: Reader, thread: string, path: string, c: Cursor, seen: seq<Sighting>): Cursor
    decreases |seen|
  {
    if seen == [] then c else RefreshAll(reader, thread, path, Refresh(reader, thread, c, path, seen[0]), seen[1..])
  }

  /** Every file seen along the way still starts with what had been consumed by
      then, or is shorter. Appending, truncating and deleting are all allowed;
      so are cuts in the middle of a line. */
  predicate Honest(reader: Reader, thread: string, path: string, c: Cursor, consumed: seq<byte>, seen: seq<Sighting>)
    decreases |seen|
  {
    seen == [] ||
    var d := Refresh(reader, thread, c, path, seen[0]);
    match seen[0]
    case Missing => Honest(reader, thread, path, d, consumed, seen[1..])
    case Present(content, _) =>
      && (c.path == path ==> |content| < c.offset || consumed <= content)
      && d.offset <= |content| && Honest(reader, thread, path, d, content[..d.offset], seen[1..])
  }

  /** Over any such history of sightings and refreshes, whenever the last one
      could be read, the cursor equals a from-scratch replay of that file. */
  lemma {:induction false} HistoryReplays(reader: Reader, thread: string, path: string, c: Cursor, consumed: seq<byte>, seen: seq<Sighting>)
    requires Faithful(reader, thread, path, c, consumed)
    requires Honest(reader, thread, path, c, consumed, seen)
    requires seen != [] && seen[|seen| - 1].Present? && seen[|seen| - 1].opens
    ensures RefreshAll(reader, thread, path, c, seen)
      == Consume(reader, thread, Fresh(path), seen[|seen| - 1].content)
    decreases |seen|
  {
    hide Consume, Faithful;
    var d := Refresh(reader, thread, c, path, seen[0]);
    match seen[0]
    case Missing =>
      HistoryReplays(reader, thread, path, d, consumed, seen[1..]);
    case Present(content, opens) =>
      RefreshReplays(reader, thread, path, c, consumed, content, opens);
      if |seen| > 1 {
        HistoryReplays(reader, thread, path, d, content[..d.offset], seen[1..]);
      }
  }

  // ---- Outside that promise: a file replaced by other content ----

  const EMPTY_PAYLOAD: Payload := Payload(None, None, None, None, None, None, None)

  /** Reads the line "m" as the identity of thread "t" and "s" as a start. */
  function LetterReader(line: seq<byte>): LineView {
    if line == [0x6d, NEWLINE] then Json(Record(Some("session_meta"), Some(EMPTY_PAYLOAD.(id := Some("t")))))
    else if line == [0x73, NEWLINE] then Json(Record(Some("event_msg"), Some(EMPTY_PAYLOAD.(kind := Some("task_started")))))
    else NotJson
  }

  lemma TwoLines(x: byte)
    requires x != NEWLINE
    ensures Consume(LetterReader, "t", Fresh("p"), [0x6d, NEWLINE, x, NEWLINE])
      == Cursor("p", 4, if x == 0x73 then EMPTY.(state := Some(Running)) else EMPTY, Some(true))
  {
    hide Consume;
    var s := [0x6d, NEWLINE, x, NEWLINE];
    LineLengthIs(s, 2);
    assert s[..2] == [0x6d, NEWLINE] && s[2..] == [x, NEWLINE];
    ConsumeStep(LetterReader, "t", Fresh("p"), s);
    var c := ObserveLine(LetterReader, "t", Fresh("p"), s[..2]);
    LineLengthIs(s[2..], 2);
    assert s[2..][..2] == [x, NEWLINE] && s[2..][2..] == [];
    ConsumeStep(LetterReader, "t", c, s[2..]);
    NothingToRead(LetterReader, "t", ObserveLine(LetterReader, "t", c, [x, NEWLINE]));
  }

  /** A file replaced by other content of the length already consumed is not
      read again: the refresh reports a running task that the file no longer
      mentions. No condition on the two contents alone decides when this goes
      well, since different contents may fold to the same cursor under every
      reading of their lines. */
  lemma ReplacementMissed()
    ensures var seen := [Present([0x6d, NEWLINE, 0x73, NEWLINE], true), Present([0x6d, NEWLINE, 0x78, NEWLINE], true)];
      && RefreshAll(LetterReader, "t", "p", Fresh(""), seen).lifecycle.state == Some(Running)
      && Consume(LetterReader, "t", Fresh("p"), seen[1].content).lifecycle == EMPTY
  {
    hide Consume, LetterReader;
    var first: Sighting := Present([0x6d, NEWLINE, 0x73, NEWLINE], true);
    var second: Sighting := Present([0x6d, NEWLINE, 0x78, NEWLINE], true);
    TwoLines(0x73);
    TwoLines(0x78);
    assert first.content[0..] == first.content;
    var c := Refresh(LetterReader, "t", Fresh(""), "p", first);
    assert Refresh(LetterReader, "t", c, "p", second) == c;
    assert [first, second][1..] == [second] && [second][1..] == [];
    assert RefreshAll(LetterReader, "t", "p", Fresh(""), [first, second]) == RefreshAll(LetterReader, "t", "p", c, [second]);
    assert RefreshAll(LetterReader, "t", "p", c, [second]) == RefreshAll(LetterReader, "t", "p", c, []);
  }

  // ---- Which records count ----

  /** The records in the readable complete lines of a file. */
  function RecordsOf(reader: Reader, s: seq<byte>): seq<Record>
    decreases |s|
  {
    var n := LineLength(s);
    if n == 0 || reader(s[..n]).Unreadable? then []
    else (if reader(s[..n]).Json? then [reader(s[..n]).record] else []) + RecordsOf(reader, s[n..])
  }

  function ObserveAll(thread: string, c: Cursor, rs: seq<Record>): Cursor
    decreases |rs|
  {
    if rs == [] then c else Observe(thread, ObserveAll(thread, c, rs[..|rs| - 1]), rs[|rs| - 1])
  }

  lemma {:induction false} ObserveFirst(thread: string, c: Cursor, r: Record, rs: seq<Record>)
    ensures ObserveAll(thread, c, [r] + rs) == ObserveAll(thread, Observe(thread, c, r), rs)
    decreases |rs|
  {
    hide Observe;
    var all := [r] + rs;
    if rs == [] {
      assert all[..0] == [];
    } else {
      assert all[..|all| - 1] == [r] + rs[..|rs| - 1];
      ObserveFirst(thread, c, r, rs[..|rs| - 1]);
    }
  }

  lemma {:induction false} ObserveMoved(thread: string, c: Cursor, rs: seq<Record>, offset: nat)
    ensures ObserveAll(thread, c.(offset := offset), rs) == ObserveAll(thread, c, rs).(offset := offset)
    decreases |rs|
  {
    if rs == [] {
    } else {
      ObserveMoved(thread, c, rs[..|rs| - 1], offset);
    }
  }

  lemma {:induction false} ConsumeObserves(reader: Reader, thread: string, c: Cursor, s: seq<byte>)
    ensures var d := Consume(reader, thread, c, s);
      d == ObserveAll(thread, c, RecordsOf(reader, s)).(offset := d.offset)
    decreases |s|
  {
    hide LineLength, Observe, ObserveAll;
    var n := LineLength(s);
    if n == 0 || reader(s[..n]).Unreadable? {
      assert ObserveAll(thread, c, []) == c by { ObserveNothing(thread, c); }
    } else {
      var line, moved := s[..n], c.(offset := c.offset + n);
      var d := ObserveLine(reader, thread, c, line);
      var later := RecordsOf(reader, s[n..]);
      ConsumeObserves(reader, thread, d, s[n..]);
      if reader(line).Json? {
        ObserveFirst(thread, moved, reader(line).record, later);
      } else {
        assert RecordsOf(reader, s) == later;
      }
      ObserveMoved(thread, c, RecordsOf(reader, s), c.offset + n);
    }
  }

  lemma ObserveNothing(thread: string, c: Cursor)
    ensures ObserveAll(thread, c, []) == c
  {}

  /** Some record before i identifies the log as this thread's, and no record
      after that one identifies it as another's. */
  ghost predicate Vouched(thread: string, rs: seq<Record>, i: nat) {
    exists j: nat :: j < i && j < |rs| && Matches(thread, rs[j]) && UndisputedSince(thread, rs, j)
  }

  ghost predicate UndisputedSince(thread: string, rs: seq<Record>, j: nat) {
    forall k | j < k < |rs| :: !Mismatches(thread, rs[k])
  }

  ghost predicate Counts(thread: string, rs: seq<Record>, i: nat)
    requires i < |rs|
  {
    RolloutThreadId(rs[i]).None? && Vouched(thread, rs, i)
  }

  /** The records that count, among the first n, judged by the whole log. */
  ghost function Relevant(thread: string, rs: seq<Record>, n: nat): seq<Record>
    requires n <= |rs|
    decreases n
  {
    if n == 0 then []
    else Relevant(thread, rs, n - 1) + (if Counts(thread, rs, n - 1) then [rs[n - 1]] else [])
  }

  lemma VouchedGrows(thread: string, rs: seq<Record>, last: Record, i: nat)
    requires i <= |rs|
    ensures Vouched(thread, rs + [last], i) <==> Vouched(thread, rs, i) && !Mismatches(thread, last)
  {
    hide Matches, Mismatches;
    var all := rs + [last];
    if Vouched(thread, all, i) {
      var j: nat :| j < i && j < |all| && Matches(thread, all[j]) && UndisputedSince(thread, all, j);
      assert forall k | j < k < |rs| :: all[k] == rs[k];
      assert all[|rs|] == last && all[j] == rs[j];
      assert UndisputedSince(thread, rs, j);
    }
    if Vouched(thread, rs, i) && !Mismatches(thread, last) {
      var j: nat :| j < i && j < |rs| && Matches(thread, rs[j]) && UndisputedSince(thread, rs, j);
      assert all[j] == rs[j] && UndisputedSince(thread, all, j);
    }
  }

  lemma {:induction false} RelevantGrows(thread: string, rs: seq<Record>, last: Record, n: nat)
    requires n <= |rs|
    ensures Relevant(thread, rs + [last], n)
      == if Mismatches(thread, last) then [] else Relevant(thread, rs, n)
    decreases n
  {
    hide Matches, Mismatches, Vouched;
    if n == 0 {
    } else {
      assert (rs + [last])[n - 1] == rs[n - 1];
      VouchedGrows(thread, rs, last, n - 1);
      RelevantGrows(thread, rs, last, n - 1);
    }
  }

  lemma VouchedAtEnd(thread: string, rs: seq<Record>, last: Record)
    ensures Vouched(thread, rs + [last], |rs| + 1)
      <==> Matches(thread, last) || (Vouched(thread, rs, |rs|) && !Mismatches(thread, last))
  {
    var all := rs + [last];
    VouchedGrows(thread, rs, last, |rs|);
    if Matches(thread, last) {
      assert all[|rs|] == last && UndisputedSince(thread, all, |rs|);
    }
    if Vouched(thread, all, |rs| + 1) && !Matches(thread, last) {
      var j: nat :| j < |rs| + 1 && j < |all| && Matches(thread, all[j]) && UndisputedSince(thread, all, j);
      assert all[|rs|] == last;
    }
  }

  /** The lifecycle kept for a log is the replay of exactly the records that
      count: those after a matching identity with no mismatching one since. */
  lemma {:induction false} LifecycleOfRelevant(thread: string, path: string, rs: seq<Record>)
    ensures ObserveAll(thread, Fresh(path), rs).lifecycle == Replay(EMPTY, Relevant(thread, rs, |rs|))
    ensures ObserveAll(thread, Fresh(path), rs).verified == Some(true) <==> Vouched(thread, rs, |rs|)
    decreases |rs|
  {
    hide Vouched, Apply, RolloutThreadId;
    if rs == [] {
      NotVouched(thread);
    } else {
      var before, last := rs[..|rs| - 1], rs[|rs| - 1];
      assert rs == before + [last];
      LifecycleOfRelevant(thread, path, before);
      RelevantGrows(thread, before, last, |before|);
      VouchedGrows(thread, before, last, |before|);
      VouchedAtEnd(thread, before, last);
      assert Relevant(thread, before, |before|) + [] == Relevant(thread, before, |before|);
      assert Replay(EMPTY, []) == EMPTY;
      if Counts(thread, rs, |before|) {
        ReplaySnoc(EMPTY, Relevant(thread, before, |before|), last);
      }
    }
  }

  lemma NotVouched(thread: string)
    ensures !Vouched(thread, [], 0)
  {}

  lemma ReplaySnoc(l: Lifecycle, rs: seq<Record>, r: Record)
    ensures Replay(l, rs + [r]) == Apply(Replay(l, rs), r)
  {
    assert (rs + [r])[..|rs|] == rs;
  }
}
