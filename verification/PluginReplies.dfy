/** The bridge's end of a plugin session: the inbound channel is drained in
    order and every new-task message is answered once. */
module PluginReplies {
  import opened Bytes
  import opened Agents

  const MAX_PLUGIN_TASK_SLOTS: nat := 64

  /** A parsed plugin line. An event carries what parsing it yields; in a pin the
      slot is None when its key is not a number, the agent when its name is
      unknown. */
  datatype Message<E> =
    | Event(event: Option<E>)
    | Capacity(slots: Option<nat>, pins: Option<seq<Pin>>)
    | Ping(timestamp: string)
    | NewTask
    | Unknown

  datatype Pin = Pin(slot: Option<nat>, agent: Option<AgentId>)

  datatype Outbound = Pong(timestamp: string) | NewTaskResult(handled: bool) | Render(body: string)

  /** What is in front of the user when a request is handled. */
  datatype Foreground = ZCode | Hermes(started: bool) | Neither

  predicate Verdict(f: Foreground) {
    f.ZCode? || (f.Hermes? && f.started)
  }

  /** What a message finds when it is handled: whether the writer's channel is
      still open, and the foreground window. */
  datatype Moment = Moment(alive: bool, front: Foreground)

  /** `verdicts` is history: the verdict on each new-task message handled. */
  datatype Side = Side(
    written: seq<Outbound>,
    disconnected: bool,
    taskSlots: nat,
    slotAgents: map<nat, AgentId>,
    verdicts: seq<bool>)

  function Fresh(taskSlots: nat): Side {
    Side([], false, Capped(taskSlots), map[], [])
  }

  function Capped(slots: nat): (r: nat)
    ensures r <= slots && r <= MAX_PLUGIN_TASK_SLOTS
    ensures r == slots || r == MAX_PLUGIN_TASK_SLOTS
  {
    if slots < MAX_PLUGIN_TASK_SLOTS then slots else MAX_PLUGIN_TASK_SLOTS
  }

  /** A reply that cannot be sent marks the session disconnected, and a
      disconnected session sends nothing any more. */
  function Reply(s: Side, o: Outbound, alive: bool): Side {
    if !s.disconnected && alive then s.(written := s.written + [o]) else s.(disconnected := true)
  }

  /** Later pins win; slots out of range and unreadable pins are skipped. */
  function Pinned(taskSlots: nat, pins: seq<Pin>): map<nat, AgentId>
    decreases |pins|
  {
    if pins == [] then map[]
    else
      var last := pins[|pins| - 1];
      var before := Pinned(taskSlots, pins[..|pins| - 1]);
      if last.slot.Some? && last.slot.value < taskSlots && last.agent.Some? then before[last.slot.value := last.agent.value]
      else before
  }

  function Handle<E>(s: Side, m: Message<E>, at: Moment): Side {
    match m
    case Event(_) => s
    case Capacity(slots, pins) =>
      var t := if slots.Some? then s.(taskSlots := Capped(slots.value)) else s;
      if pins.Some? then t.(slotAgents := Pinned(t.taskSlots, pins.value)) else t
    case Ping(timestamp) => Reply(s, Pong(timestamp), at.alive)
    case NewTask =>
      Reply(s, NewTaskResult(Verdict(at.front)), at.alive).(verdicts := s.verdicts + [Verdict(at.front)])
    case Unknown => s
  }

  function HandleAll<E>(s: Side, ms: seq<Message<E>>, ats: seq<Moment>): Side
    requires |ats| == |ms|
    decreases |ms|
  {
    if ms == [] then s else HandleAll(Handle(s, ms[0], ats[0]), ms[1..], ats[1..])
  }

  function Events<E>(ms: seq<Message<E>>): seq<E>
    decreases |ms|
  {
    if ms == [] then []
    else (if ms[0].Event? && ms[0].event.Some? then [ms[0].event.value] else []) + Events(ms[1..])
  }

  // ---- Properties ----

  /** The new-task answers among the lines written, in order. */
  function Answers(written: seq<Outbound>): seq<bool>
    decreases |written|
  {
    if written == [] then []
    else
      var last := written[|written| - 1];
      Answers(written[..|written| - 1]) + if last.NewTaskResult? then [last.handled] else []
  }

  /** The answers written are those to the first requests handled, in order and
      with no gap; none is missing while the session is connected. */
  ghost predicate Answering(s: Side) {
    && Answers(s.written) <= s.verdicts
    && (!s.disconnected ==> Answers(s.written) == s.verdicts)
    && s.taskSlots <= MAX_PLUGIN_TASK_SLOTS
  }

  /** The verdicts on the new-task messages among ms, in order. */
  function Verdicts<E>(ms: seq<Message<E>>, ats: seq<Moment>): seq<bool>
    requires |ats| == |ms|
    decreases |ms|
  {
    if ms == [] then [] else (if ms[0].NewTask? then [Verdict(ats[0].front)] else []) + Verdicts(ms[1..], ats[1..])
  }

  lemma AnswersOneMore(written: seq<Outbound>, o: Outbound)
    ensures Answers(written + [o]) == Answers(written) + if o.NewTaskResult? then [o.handled] else []
  {
    assert (written + [o])[..|written|] == written;
  }

  lemma HandleKeepsAnswering<E>(s: Side, m: Message<E>, at: Moment)
    requires Answering(s)
    ensures Answering(Handle(s, m, at))
    ensures Handle(s, m, at).verdicts == s.verdicts + if m.NewTask? then [Verdict(at.front)] else []
  {
    hide Answers;
    match m
    case Ping(timestamp) => AnswersOneMore(s.written, Pong(timestamp));
    case NewTask => AnswersOneMore(s.written, NewTaskResult(Verdict(at.front)));
    case _ =>
  }

  /** A reply that the writer's channel no longer takes. */
  predicate FailedSend<E>(m: Message<E>, at: Moment) {
    (m.Ping? || m.NewTask?) && !at.alive
  }

  /** How many messages come before the first failed send. */
  function Sendable<E>(ms: seq<Message<E>>, ats: seq<Moment>): (n: nat)
    requires |ats| == |ms|
    ensures n <= |ms|
    decreases |ms|
  {
    if ms == [] || FailedSend(ms[0], ats[0]) then 0 else 1 + Sendable(ms[1..], ats[1..])
  }

  lemma {:induction false} AllSendable<E>(ms: seq<Message<E>>, ats: seq<Moment>)
    requires |ats| == |ms|
    ensures Sendable(ms, ats) == |ms| <==> forall k | 0 <= k < |ms| :: !FailedSend(ms[k], ats[k])
    decreases |ms|
  {
    hide FailedSend;
    if ms == [] {
    } else {
      AllSendable(ms[1..], ats[1..]);
      assert forall k | 0 < k < |ms| :: ms[k] == ms[1..][k - 1] && ats[k] == ats[1..][k - 1];
    }
  }

  /** A disconnected session stays so and writes nothing more. */
  lemma {:induction false} SilentOnce<E>(s: Side, ms: seq<Message<E>>, ats: seq<Moment>)
    requires s.disconnected && |ats| == |ms|
    ensures HandleAll(s, ms, ats).disconnected && HandleAll(s, ms, ats).written == s.written
    decreases |ms|
  {
    hide Pinned, Capped;
    if ms == [] {
    } else {
      SilentOnce(Handle(s, ms[0], ats[0]), ms[1..], ats[1..]);
    }
  }

  lemma HandleSends<E>(s: Side, m: Message<E>, at: Moment)
    requires !s.disconnected
    ensures Handle(s, m, at).disconnected <==> FailedSend(m, at)
    ensures Answers(Handle(s, m, at).written)
      == Answers(s.written) + if m.NewTask? && at.alive then [Verdict(at.front)] else []
  {
    hide Answers, Pinned, Capped;
    match m
    case Ping(timestamp) => AnswersOneMore(s.written, Pong(timestamp));
    case NewTask => AnswersOneMore(s.written, NewTaskResult(Verdict(at.front)));
    case _ =>
  }

  lemma FirstVerdict<E>(ms: seq<Message<E>>, ats: seq<Moment>, n: nat)
    requires 0 < n <= |ms| == |ats|
    ensures Verdicts(ms[..n], ats[..n])
      == (if ms[0].NewTask? then [Verdict(ats[0].front)] else []) + Verdicts(ms[1..][..n - 1], ats[1..][..n - 1])
  {
    assert ms[..n][1..] == ms[1..][..n - 1] && ats[..n][1..] == ats[1..][..n - 1];
  }

  /** A connected poll answers, in order and once each, exactly the requests that
      come before the first failed send, and it ends connected if and only if no
      send failed; so then it answers all of them. */
  lemma {:induction false} PollAnswersAll<E>(s: Side, ms: seq<Message<E>>, ats: seq<Moment>)
    requires !s.disconnected && |ats| == |ms|
    ensures var d, n := HandleAll(s, ms, ats), Sendable(ms, ats);
      && Answers(d.written) == Answers(s.written) + Verdicts(ms[..n], ats[..n])
      && (d.disconnected <==> exists k :: 0 <= k < |ms| && FailedSend(ms[k], ats[k]))
      && (!d.disconnected ==> Answers(d.written) == Answers(s.written) + Verdicts(ms, ats))
    decreases |ms|
  {
    hide Handle, FailedSend, Answers, Verdicts;
    AllSendable(ms, ats);
    if ms == [] {
      NoVerdicts(ms, ats);
    } else {
      var d := Handle(s, ms[0], ats[0]);
      HandleSends(s, ms[0], ats[0]);
      if FailedSend(ms[0], ats[0]) {
        FailedIsSilent(ms[0], ats[0]);
        SilentOnce(d, ms[1..], ats[1..]);
        NoVerdicts(ms[..0], ats[..0]);
      } else {
        PollAnswersAll(d, ms[1..], ats[1..]);
        AllSendable(ms[1..], ats[1..]);
        SentIsAlive(ms[0], ats[0]);
        FirstVerdict(ms, ats, Sendable(ms, ats));
      }
    }
    assert ms[..|ms|] == ms && ats[..|ms|] == ats;
  }

  lemma NoVerdicts<E>(ms: seq<Message<E>>, ats: seq<Moment>)
    requires ms == [] && ats == []
    ensures Verdicts(ms, ats) == [] && Verdicts(ms[..0], ats[..0]) == []
  {}

  lemma FailedIsSilent<E>(m: Message<E>, at: Moment)
    requires FailedSend(m, at)
    ensures !(m.NewTask? && at.alive)
  {}

  lemma SentIsAlive<E>(m: Message<E>, at: Moment)
    requires !FailedSend(m, at)
    ensures m.NewTask? ==> at.alive
  {}

  /** Over any number of polls: the answers written are those to the first
      requests handled, and all of them while connected. */
  lemma {:induction false} PollKeepsAnswering<E>(s: Side, ms: seq<Message<E>>, ats: seq<Moment>)
    requires Answering(s) && |ats| == |ms|
    ensures Answering(HandleAll(s, ms, ats))
    ensures HandleAll(s, ms, ats).verdicts == s.verdicts + Verdicts(ms, ats)
    decreases |ms|
  {
    hide Answering, Handle, Verdicts, Verdict;
    if ms == [] {
      NoVerdicts(ms, ats);
      assert s.verdicts + [] == s.verdicts;
    } else {
      var first := if ms[0].NewTask? then [Verdict(ats[0].front)] else [];
      HandleKeepsAnswering(s, ms[0], ats[0]);
      PollKeepsAnswering(Handle(s, ms[0], ats[0]), ms[1..], ats[1..]);
      VerdictsFront(ms, ats);
      assert (s.verdicts + first) + Verdicts(ms[1..], ats[1..]) == s.verdicts + (first + Verdicts(ms[1..], ats[1..]));
    }
  }

  lemma VerdictsFront<E>(ms: seq<Message<E>>, ats: seq<Moment>)
    requires |ats| == |ms| > 0
    ensures Verdicts(ms, ats)
      == (if ms[0].NewTask? then [Verdict(ats[0].front)] else []) + Verdicts(ms[1..], ats[1..])
  {}

  /** Pins only name slots in range. */
  lemma {:induction false} PinsInRange(taskSlots: nat, pins: seq<Pin>)
    ensures forall slot :: slot in Pinned(taskSlots, pins) <==>
      slot < taskSlots && exists k :: 0 <= k < |pins| && pins[k].slot == Some(slot) && pins[k].agent.Some?
    decreases |pins|
  {
    if pins == [] {
    } else {
      var n := |pins| - 1;
      PinsInRange(taskSlots, pins[..n]);
      assert forall k | 0 <= k < n :: pins[..n][k] == pins[k];
      forall slot
        ensures slot in Pinned(taskSlots, pins) <==>
          slot < taskSlots && exists k :: 0 <= k < |pins| && pins[k].slot == Some(slot) && pins[k].agent.Some?
      {
        if slot < taskSlots && slot in Pinned(taskSlots, pins[..n]) {
          var k :| 0 <= k < n && pins[..n][k].slot == Some(slot) && pins[..n][k].agent.Some?;
          assert pins[k].slot == Some(slot);
        }
      }
    }
  }

  // ---- The controller ----

  class PluginController<E> {
    var inbox: seq<Message<E>>
    var closed: bool
    var written: seq<Outbound>
    var taskSlots: nat
    var slotAgents: map<nat, AgentId>
    var disconnected: bool
    ghost var verdicts: seq<bool>

    ghost function View(): Side
      reads this
    {
      Side(written, disconnected, taskSlots, slotAgents, verdicts)
    }

    constructor (slots: nat)
      ensures View() == Fresh(slots) && inbox == [] && !closed
    {
      inbox, closed, written, disconnected := [], false, [], false;
      taskSlots, slotAgents, verdicts := Capped(slots), map[], [];
    }

    /** `alive` is whether the writer's channel is still open at this send. */
    method Send(alive: bool, o: Outbound) returns (ok: bool)
      modifies this`written
      ensures ok == (!disconnected && alive)
      ensures written == old(written) + if ok then [o] else []
    {
      if disconnected { return false; }
      if alive { written := written + [o]; }
      return alive;
    }

    method ApplyPins(pins: seq<Pin>)
      modifies this`slotAgents
      ensures slotAgents == Pinned(taskSlots, pins)
    {
      slotAgents := map[];
      var i := 0;
      while i < |pins|
        invariant i <= |pins| && slotAgents == Pinned(taskSlots, pins[..i])
      {
        assert pins[..i + 1][..i] == pins[..i];
        var pin := pins[i];
        i := i + 1;
        if pin.slot.None? || pin.slot.value >= taskSlots { continue; }
        if pin.agent.None? { continue; }
        slotAgents := slotAgents[pin.slot.value := pin.agent.value];
      }
      assert pins[..|pins|] == pins;
    }

    method HandleInbound(m: Message<E>, at: Moment) returns (event: Option<E>)
      modifies this`written, this`taskSlots, this`slotAgents, this`disconnected, this`verdicts
      ensures View() == Handle(old(View()), m, at)
      ensures event == if m.Event? then m.event else None
    {
      event := None;
      match m
      case Event(e) => event := e;
      case Capacity(slots, pins) =>
        if slots.Some? { taskSlots := Capped(slots.value); }
        if pins.Some? { ApplyPins(pins.value); }
      case Ping(timestamp) =>
        var ok := Send(at.alive, Pong(timestamp));
        if !ok { disconnected := true; }
      case NewTask =>
        var handled := Verdict(at.front);
        verdicts := verdicts + [handled];
        var ok := Send(at.alive, NewTaskResult(handled));
        if !ok { disconnected := true; }
      case Unknown =>
    }

    /** Drains the inbox. Once the reader is gone the poll fails, and its events
        are dropped, but what was in the inbox has still been handled. */
    method Poll(ats: seq<Moment>) returns (events: Option<seq<E>>)
      requires |ats| == |inbox|
      modifies this
      ensures inbox == [] && closed == old(closed)
      ensures closed ==> events == None && disconnected
      ensures !closed ==> events == Some(Events(old(inbox)))
      ensures var s := HandleAll(old(View()), old(inbox), ats);
        View() == if closed then s.(disconnected := true) else s
    {
      hide Handle;
      var found, i := [], 0;
      while inbox != []
        invariant i + |inbox| == |ats| && closed == old(closed)
        invariant found + Events(inbox) == Events(old(inbox))
        invariant HandleAll(View(), inbox, ats[i..]) == HandleAll(old(View()), old(inbox), ats)
        decreases |inbox|
      {
        var message := inbox[0];
        var event := HandleInbound(message, ats[i]);
        assert ats[i..][1..] == ats[i + 1..];
        inbox := inbox[1..];
        i := i + 1;
        if event.Some? { found := found + [event.value]; }
      }
      if closed {
        disconnected := true;
        return None;
      }
      assert found + [] == found;
      return Some(found);
    }
  }
}
