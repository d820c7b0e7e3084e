/** Task lifecycle as derived from a session log's records. */
module Lifecycle {
  import opened Bytes
  import opened Text

  datatype TaskState = Running | Completed | Paused

  /** The fields of a record's payload object that are read. A field of another
      JSON type than the one expected counts as absent. */
  datatype Payload = Payload(
    id: Option<string>,
    kind: Option<string>,
    input: Option<string>,
    callId: Option<string>,
    turnId: Option<string>,
    startedAt: Option<nat>,
    completedAt: Option<nat>)

  datatype Record = Record(kind: Option<string>, payload: Option<Payload>)

  datatype Lifecycle = Lifecycle(
    state: Option<TaskState>,
    startedAtMs: Option<nat>,
    finishedAtMs: Option<nat>,
    activeTurnId: Option<string>,
    pendingApprovals: map<string, string>)

  const EMPTY: Lifecycle := Lifecycle(None, None, None, None, map[])

  // ---- Strings ----

  predicate OccursAt(s: string, needle: string, i: nat) {
    i + |needle| <= |s| && s[i..i + |needle|] == needle
  }

  predicate Contains(s: string, needle: string) {
    exists i: nat | i <= |s| :: OccursAt(s, needle, i)
  }

  /** What follows the first occurrence of `needle`. */
  function After(s: string, needle: string): Option<string>
    decreases |s|
  {
    if OccursAt(s, needle, 0) then Some(s[|needle|..])
    else if s == [] then None
    else After(s[1..], needle)
  }

  predicate IsSpace(c: char) {
    || '\U{9}' <= c <= '\U{d}' || c == ' ' || c == '\U{85}' || c == '\U{a0}' || c == '\U{1680}'
    || '\U{2000}' <= c <= '\U{200a}' || c == '\U{2028}' || c == '\U{2029}' || c == '\U{202f}'
    || c == '\U{205f}' || c == '\U{3000}'
  }

  function UpTo(s: string, quote: char): string
    decreases |s|
  {
    if s == [] || s[0] == quote then [] else [s[0]] + UpTo(s[1..], quote)
  }

  const DEFAULT_PROMPT: string := "Approval required in Codex"

  /** The quoted justification in a tool call's input, cut to 160 characters. */
  function ApprovalPrompt(input: string): (prompt: string)
    ensures 0 < |prompt| <= 160
  {
    match After(input, "justification")
    case None => DEFAULT_PROMPT
    case Some(remainder) =>
      match After(remainder, ":")
      case None => DEFAULT_PROMPT
      case Some(raw) =>
        var value := TrimStart(IsSpace, raw);
        if value == [] || (value[0] != '\"' && value[0] != '\'') then DEFAULT_PROMPT
        else
          var prompt := TrimEnd(IsSpace, TrimStart(IsSpace, UpTo(value[1..], value[0])));
          if prompt == [] then DEFAULT_PROMPT
          else if |prompt| > 160 then prompt[..160] else prompt
  }

  /** The text after the first occurrence. */
  lemma {:induction false} AfterFirst(before: string, needle: string, later: string)
    requires forall i | 0 <= i < |before| :: !OccursAt(before + needle + later, needle, i)
    ensures After(before + needle + later, needle) == Some(later)
    decreases |before|
  {
    var s := before + needle + later;
    if before == [] {
      assert s[0..|needle|] == needle && s[|needle|..] == later;
      assert OccursAt(s, needle, 0);
    } else {
      assert !OccursAt(s, needle, 0);
      assert s[1..] == before[1..] + needle + later;
      forall i | 0 <= i < |before[1..]| ensures !OccursAt(s[1..], needle, i) {
        assert !OccursAt(s, needle, i + 1);
      }
      AfterFirst(before[1..], needle, later);
    }
  }

  lemma {:induction false} UpToQuote(text: string, rest: string, quote: char)
    requires quote !in text && (rest == [] || rest[0] == quote)
    ensures UpTo(text + rest, quote) == text
    decreases |text|
  {
    if text == [] {
      assert text + rest == rest;
    } else {
      assert text[0] in text && forall c | c in text[1..] :: c in text;
      assert (text + rest)[1..] == text[1..] + rest;
      UpToQuote(text[1..], rest, quote);
      assert text == [text[0]] + text[1..];
    }
  }

  lemma {:induction false} SpaceTrimmed(space: string, value: string)
    requires forall i | 0 <= i < |space| :: IsSpace(space[i])
    requires value != [] && !IsSpace(value[0])
    ensures TrimStart(IsSpace, space + value) == value
    decreases |space|
  {
    if space == [] {
      assert space + value == value;
    } else {
      assert (space + value)[1..] == space[1..] + value;
      SpaceTrimmed(space[1..], value);
    }
  }

  lemma ColonIsFirst(between: string, later: string)
    requires ':' !in between
    ensures After(between + ":" + later, ":") == Some(later)
  {
    forall i | 0 <= i < |between| ensures !OccursAt(between + ":" + later, ":", i) {
      assert between[i] in between;
      assert (between + ":" + later)[i..i + 1] == [between[i]];
    }
    AfterFirst(between, ":", later);
  }

  /** The prompt is the trimmed text between the quotes that follow the first
      mention of a justification and its colon, closed or not, cut to 160
      characters; the default when nothing is quoted. */
  lemma PromptQuoted(before: string, between: string, space: string, quote: char, text: string, rest: string)
    requires var input := before + "justification" + (between + ":" + (space + ([quote] + (text + rest))));
      forall i | 0 <= i < |before| :: !OccursAt(input, "justification", i)
    requires ':' !in between && (quote == '\"' || quote == '\'') && quote !in text
    requires forall i | 0 <= i < |space| :: IsSpace(space[i])
    requires rest == [] || rest[0] == quote
    ensures var input := before + "justification" + (between + ":" + (space + ([quote] + (text + rest))));
      var trimmed := TrimEnd(IsSpace, TrimStart(IsSpace, text));
      ApprovalPrompt(input) == if trimmed == [] then DEFAULT_PROMPT else if |trimmed| > 160 then trimmed[..160] else trimmed
  {
    hide After, TrimStart, TrimEnd, UpTo, OccursAt;
    var value := [quote] + (text + rest);
    AfterFirst(before, "justification", between + ":" + (space + value));
    ColonIsFirst(between, space + value);
    SpaceTrimmed(space, value);
    assert value[1..] == text + rest && value[0] == quote;
    UpToQuote(text, rest, quote);
  }

  // ---- Events ----

  predicate IsItem(r: Record, kind: string) {
    r.kind == Some("response_item") && r.payload.Some? && r.payload.value.kind == Some(kind)
  }

  predicate IsEvent(r: Record, kind: string) {
    r.kind == Some("event_msg") && r.payload.Some? && r.payload.value.kind == Some(kind)
  }

  predicate Escalated(input: string) {
    Contains(input, "require_escalated")
    || (Contains(input, "sandbox_permissions") && Contains(input, "escalated"))
  }

  /** An escalated tool call with this call id. */
  predicate Opens(r: Record, id: string) {
    IsItem(r, "custom_tool_call") && r.payload.value.callId == Some(id)
    && r.payload.value.input.Some? && Escalated(r.payload.value.input.value)
  }

  /** The result of the tool call with this id. */
  predicate Closes(r: Record, id: string) {
    IsItem(r, "custom_tool_call_output") && r.payload.value.callId == Some(id)
  }

  predicate Starts(r: Record) {
    IsEvent(r, "task_started")
  }

  predicate Terminates(r: Record) {
    IsEvent(r, "task_complete") || IsEvent(r, "turn_aborted")
  }

  function TurnId(p: Payload): Option<string> {
    if p.turnId.Some? && p.turnId.value != [] then p.turnId else None
  }

  function Millis(seconds: Option<nat>): Option<nat> {
    if seconds.Some? then Some(seconds.value * 1000) else None
  }

  predicate Differ<T(==)>(a: Option<T>, b: Option<T>) {
    a.Some? && b.Some? && a != b
  }

  predicate Stale(l: Lifecycle, p: Payload) {
    Differ(l.activeTurnId, TurnId(p)) || Differ(l.startedAtMs, Millis(p.startedAt))
  }

  function Or<T>(a: Option<T>, b: Option<T>): Option<T> {
    if a.Some? then a else b
  }

  function Terminate(l: Lifecycle, p: Payload, state: TaskState): Lifecycle {
    if Stale(l, p) then l
    else l.(state := Some(state),
            startedAtMs := Or(Millis(p.startedAt), l.startedAtMs),
            finishedAtMs := Millis(p.completedAt),
            activeTurnId := Or(TurnId(p), l.activeTurnId))
  }

  function Apply(l: Lifecycle, r: Record): Lifecycle {
    if r.payload.None? then l
    else
      var p := r.payload.value;
      if r.kind == Some("response_item") then
        if p.kind == Some("custom_tool_call") then
          if p.input.None? || !Escalated(p.input.value) || p.callId.None? then l
          else l.(pendingApprovals := l.pendingApprovals[p.callId.value := ApprovalPrompt(p.input.value)])
        else if p.kind == Some("custom_tool_call_output") then
          if p.callId.None? then l else l.(pendingApprovals := l.pendingApprovals - {p.callId.value})
        else l
      else if r.kind != Some("event_msg") then l
      else if p.kind == Some("task_started") then
        l.(state := Some(Running), startedAtMs := Millis(p.startedAt), finishedAtMs := None, activeTurnId := TurnId(p))
      else if p.kind == Some("task_complete") then Terminate(l, p, Completed)
      else if p.kind == Some("turn_aborted") then Terminate(l, p, Paused)
      else l
  }

  function Replay(l: Lifecycle, rs: seq<Record>): Lifecycle
    decreases |rs|
  {
    if rs == [] then l else Apply(Replay(l, rs[..|rs| - 1]), rs[|rs| - 1])
  }

  // ---- A started turn runs until a terminal event of its own ----

  /** A terminal event that names another turn, or another start time, than the
      given start event. */
  predicate OfAnotherTurn(start: Record, r: Record)
    requires Starts(start) && Terminates(r)
  {
    Differ(TurnId(start.payload.value), TurnId(r.payload.value))
    || Differ(Millis(start.payload.value.startedAt), Millis(r.payload.value.startedAt))
  }

  ghost predicate StillRunning(start: Record, l: Lifecycle)
    requires Starts(start)
  {
    && l.state == Some(Running) && l.finishedAtMs == None
    && l.startedAtMs == Millis(start.payload.value.startedAt)
    && l.activeTurnId == TurnId(start.payload.value)
  }

  lemma RunningStep(start: Record, l: Lifecycle, r: Record)
    requires Starts(start) && !Starts(r) && StillRunning(start, l)
    ensures if Terminates(r) && !OfAnotherTurn(start, r) then Apply(l, r).state != Some(Running)
            else StillRunning(start, Apply(l, r)) && Apply(l, r).state == Some(Running)
  {
    hide Escalated, ApprovalPrompt;
  }

  lemma StoppedStep(l: Lifecycle, r: Record)
    requires !Starts(r) && l.state != Some(Running)
    ensures Apply(l, r).state != Some(Running)
  {
    hide Escalated, ApprovalPrompt;
  }

  ghost predicate AllOfOtherTurns(start: Record, rs: seq<Record>)
    requires Starts(start)
  {
    forall i | 0 <= i < |rs| && Terminates(rs[i]) :: OfAnotherTurn(start, rs[i])
  }

  /** After a start, and as long as no other start follows, the state is Running
      if and only if every terminal event since belongs to another turn; and
      then nothing the start recorded has changed. */
  lemma {:induction false} RunningExactly(l: Lifecycle, start: Record, rs: seq<Record>)
    requires Starts(start)
    requires forall i | 0 <= i < |rs| :: !Starts(rs[i])
    ensures var now := Replay(Apply(l, start), rs);
      && (now.state == Some(Running) <==> AllOfOtherTurns(start, rs))
      && (now.state == Some(Running) ==> StillRunning(start, now))
    decreases |rs|
  {
    if rs == [] {
      hide Escalated, ApprovalPrompt;
    } else {
      hide Apply, Starts, Terminates, StillRunning, OfAnotherTurn;
      var before, last := rs[..|rs| - 1], rs[|rs| - 1];
      RunningExactly(l, start, before);
      var mid := Replay(Apply(l, start), before);
      if mid.state == Some(Running) {
        RunningStep(start, mid, last);
        assert AllOfOtherTurns(start, rs) <==> !(Terminates(last) && !OfAnotherTurn(start, last)) by {
          assert forall i | 0 <= i < |before| :: rs[i] == before[i];
        }
      } else {
        StoppedStep(mid, last);
        assert !AllOfOtherTurns(start, rs) by {
          assert forall i | 0 <= i < |before| :: rs[i] == before[i];
        }
      }
    }
  }

  // ---- Open approvals ----

  /** What the first terminal event of the turn itself leads to, whatever came
      between: the state by its kind and the finish time it names. The start time
      stays what the start event said, or becomes what this event says when the
      start event named none; so does the turn. */
  lemma FirstTerminalDecides(l: Lifecycle, start: Record, rs: seq<Record>, last: Record)
    requires Starts(start) && (forall i | 0 <= i < |rs| :: !Starts(rs[i])) && AllOfOtherTurns(start, rs)
    requires Terminates(last) && !OfAnotherTurn(start, last)
    ensures var now, p := Replay(Apply(l, start), rs + [last]), last.payload.value;
      && now.state == Some(if IsEvent(last, "task_complete") then Completed else Paused)
      && now.finishedAtMs == Millis(p.completedAt)
      && now.startedAtMs == Or(Millis(start.payload.value.startedAt), Millis(p.startedAt))
      && now.activeTurnId == Or(TurnId(start.payload.value), TurnId(p))
  {
    hide Apply, StillRunning, OfAnotherTurn, Starts, Terminates, IsEvent;
    RunningExactly(l, start, rs);
    assert (rs + [last])[..|rs|] == rs;
    OwnTerminal(Replay(Apply(l, start), rs), start, last);
  }

  lemma OwnTerminal(l: Lifecycle, start: Record, last: Record)
    requires Starts(start) && Terminates(last) && !OfAnotherTurn(start, last) && StillRunning(start, l)
    ensures var now, p := Apply(l, last), last.payload.value;
      && now.state == Some(if IsEvent(last, "task_complete") then Completed else Paused)
      && now.finishedAtMs == Millis(p.completedAt)
      && now.startedAtMs == Or(Millis(start.payload.value.startedAt), Millis(p.startedAt))
      && now.activeTurnId == Or(TurnId(start.payload.value), TurnId(p))
  {
    hide ApprovalPrompt, Escalated;
  }

  /** Some escalated call with this id has had no result since. */
  ghost predicate OpenAt(rs: seq<Record>, id: string, i: nat) {
    i < |rs| && Opens(rs[i], id) && forall j | i < j < |rs| :: !Closes(rs[j], id)
  }

  /** The last opening of an approval decides its prompt. */
  ghost predicate LastOpening(rs: seq<Record>, id: string, i: nat) {
    OpenAt(rs, id, i) && forall j | i < j < |rs| :: !Opens(rs[j], id)
  }

  function PromptOf(r: Record): string {
    if r.payload.Some? && r.payload.value.input.Some? then ApprovalPrompt(r.payload.value.input.value)
    else DEFAULT_PROMPT
  }

  lemma OpenAtGrows(rs: seq<Record>, last: Record, id: string, i: nat)
    ensures OpenAt(rs + [last], id, i) <==>
      (i < |rs| && OpenAt(rs, id, i) && !Closes(last, id)) || (i == |rs| && Opens(last, id))
  {
    hide Opens, Closes;
    var all := rs + [last];
    if OpenAt(all, id, i) && i < |rs| {
      assert all[|rs|] == last;
      forall j | i < j < |rs| ensures !Closes(rs[j], id) { assert all[j] == rs[j]; }
    }
  }

  lemma ApplyApprovals(l: Lifecycle, r: Record, id: string)
    ensures id in Apply(l, r).pendingApprovals <==> Opens(r, id) || (id in l.pendingApprovals && !Closes(r, id))
    ensures Opens(r, id) ==> Apply(l, r).pendingApprovals[id] == PromptOf(r)
    ensures !Opens(r, id) && id in Apply(l, r).pendingApprovals && id in l.pendingApprovals ==>
      Apply(l, r).pendingApprovals[id] == l.pendingApprovals[id]
  {
    hide Escalated, ApprovalPrompt;
  }

  /** The pending keys are exactly the escalated calls with no later result, and
      each carries the prompt of its last opening. */
  lemma {:induction false} ApprovalsExactly(rs: seq<Record>, id: string)
    ensures id in Replay(EMPTY, rs).pendingApprovals <==> exists i: nat :: OpenAt(rs, id, i)
    ensures id in Replay(EMPTY, rs).pendingApprovals ==>
      exists i: nat :: LastOpening(rs, id, i)
        && Replay(EMPTY, rs).pendingApprovals[id] == PromptOf(rs[i])
    decreases |rs|
  {
    hide PromptOf, Apply, Opens, Closes, OpenAt;
    if rs == [] {
      NothingOpen(id);
    } else {
      var before, last := rs[..|rs| - 1], rs[|rs| - 1];
      assert rs == before + [last];
      ApprovalsExactly(before, id);
      ApplyApprovals(Replay(EMPTY, before), last, id);
      forall i: nat ensures OpenAt(rs, id, i) <==>
        (i < |before| && OpenAt(before, id, i) && !Closes(last, id)) || (i == |before| && Opens(last, id))
      {
        OpenAtGrows(before, last, id, i);
      }
      assert forall i: nat | OpenAt(before, id, i) :: i < |before| by { OpenIsInside(before, id); }
      if id in Replay(EMPTY, rs).pendingApprovals {
        if Opens(last, id) {
          assert LastOpening(rs, id, |before|);
        } else {
          var i: nat :| LastOpening(before, id, i)
            && Replay(EMPTY, before).pendingApprovals[id] == PromptOf(before[i]);
          assert rs[i] == before[i];
          assert LastOpening(rs, id, i);
        }
      }
    }
  }

  lemma NothingOpen(id: string)
    ensures forall i: nat :: !OpenAt([], id, i)
  {}

  lemma OpenIsInside(rs: seq<Record>, id: string)
    ensures forall i: nat | OpenAt(rs, id, i) :: i < |rs|
  {}
}
