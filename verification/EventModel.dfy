/** Event delivery and long polls as a state machine on values. */
module EventModel {
  import opened Bytes
  import opened Agents

  const QUEUE_CAPACITY: nat := 256
  const MAX_TIMEOUT_MS: nat := 25_000

  type Event = string

  datatype Session = Session(agent: Option<AgentId>, events: seq<Event>)

  datatype Poll = Poll(session: nat, agent: AgentId, deadline: nat, request: string)

  /** What is sent to a session for a poll request: events, with the deadline
      the poll had if its answer was deferred, or a refusal because the session
      has not said which agent it is. */
  datatype Response =
    | Polled(session: nat, agent: AgentId, request: string, events: seq<Event>, at: nat, deadline: Option<nat>)
    | Refused(session: nat, request: string)

  /** Events wait in one of these. */
  datatype Source = OfSession(id: nat) | OfAgent(agent: AgentId)

  datatype Fate = Answered(response: nat) | Evicted | Gone

  datatype Entry = Entry(event: Event, fate: Fate)

  datatype Request = Request(session: nat, id: string)

  /** `nextSession`, `sessions`, `polls` and `queues` are the daemon's memory.
      The others record its history: the responses sent, every event ever
      queued at a source, the fate of each that has left its queue, how many
      events had ever been queued at a source each time it was emptied, every
      poll request, and those that will never be answered. */
  datatype Hub = Hub(
    nextSession: nat,
    sessions: map<nat, Session>,
    polls: seq<Poll>,
    queues: seq<seq<Event>>,
    outbox: seq<Response>,
    pushed: map<Source, seq<Event>>,
    consumed: map<Source, seq<Entry>>,
    emptied: map<Source, seq<nat>>,
    asked: multiset<Request>,
    dropped: multiset<Request>)

  const STARTED: Hub := Hub(1, map[], [], [[], [], [], []], [], map[], map[], map[], multiset{}, multiset{})

  datatype Op =
    | Connect
    | Hello(session: nat, agent: AgentId)
    | Ask(session: nat, request: string, timeoutMs: nat, now: nat)
    | PushSession(session: nat, event: Event, capped: bool)
    | Route(agent: AgentId, event: Event)
    | Resolve(now: nat)
    | Disconnect(session: nat)

  function At<K, V>(m: map<K, seq<V>>, k: K): seq<V> {
    if k in m then m[k] else []
  }

  function Label(events: seq<Event>, fate: Fate): (entries: seq<Entry>)
    ensures |entries| == |events|
    ensures forall i | 0 <= i < |events| :: entries[i] == Entry(events[i], fate)
  {
    seq(|events|, i requires 0 <= i < |events| => Entry(events[i], fate))
  }

  /** Records what became of events taken off the front of a queue. */
  function Settle(consumed: map<Source, seq<Entry>>, source: Source, events: seq<Event>, fate: Fate): map<Source, seq<Entry>> {
    consumed[source := At(consumed, source) + Label(events, fate)]
  }

  function Queue(h: Hub, source: Source): seq<Event> {
    match source
    case OfSession(id) => if id in h.sessions then h.sessions[id].events else []
    case OfAgent(agent) => if Index(agent) < |h.queues| then h.queues[Index(agent)] else []
  }

  function SetQueue(h: Hub, source: Source, events: seq<Event>): Hub {
    match source
    case OfSession(id) =>
      if id in h.sessions then h.(sessions := h.sessions[id := h.sessions[id].(events := events)]) else h
    case OfAgent(agent) =>
      if Index(agent) < |h.queues| then h.(queues := h.queues[Index(agent) := events]) else h
  }

  /** Empties a queue. */
  function Take(h: Hub, source: Source, fate: Fate): Hub {
    SetQueue(h, source, []).(
      consumed := Settle(h.consumed, source, Queue(h, source), fate),
      emptied := h.emptied[source := At(h.emptied, source) + [|At(h.pushed, source)|]])
  }

  /** Appends to a queue; at the cap, the oldest event makes room. */
  function Push(h: Hub, source: Source, event: Event, capped: bool): Hub {
    var q := Queue(h, source);
    var full := capped && |q| >= QUEUE_CAPACITY;
    var kept := if full then q[1..] else q;
    SetQueue(h, source, kept + [event]).(
      pushed := h.pushed[source := At(h.pushed, source) + [event]],
      consumed := if full then Settle(h.consumed, source, q[..1], Evicted) else h.consumed)
  }

  /** Takes everything waiting for a poll and answers it: session events first,
      then the agent's. A session that is no longer there gets nothing. */
  function Answer(h: Hub, session: nat, agent: AgentId, request: string, at: nat, deadline: Option<nat>): Hub {
    if session !in h.sessions then
      Take(h, OfAgent(agent), Gone).(dropped := h.dropped + multiset{Request(session, request)})
    else
      var fate := Answered(|h.outbox|);
      var events := Queue(h, OfSession(session)) + Queue(h, OfAgent(agent));
      Take(Take(h, OfSession(session), fate), OfAgent(agent), fate).(
        outbox := h.outbox + [Polled(session, agent, request, events, at, deadline)])
  }

  function Without(polls: seq<Poll>, session: nat): seq<Poll>
    decreases |polls|
  {
    if polls == [] then []
    else (if polls[0].session != session then [polls[0]] else []) + Without(polls[1..], session)
  }

  function RequestsOf(polls: seq<Poll>, session: nat): multiset<Request>
    decreases |polls|
  {
    if polls == [] then multiset{}
    else if polls[0].session == session then
      multiset{Request(session, polls[0].request)} + RequestsOf(polls[1..], session)
    else RequestsOf(polls[1..], session)
  }

  /** A poll request: answered at once when something waits or no wait was asked
      for, otherwise deferred, replacing an earlier deferred poll of the same
      session. */
  function AskPoll(before: Hub, session: nat, request: string, timeoutMs: nat, now: nat): Hub {
    var h := before.(asked := before.asked + multiset{Request(session, request)});
    if session !in h.sessions then h.(dropped := h.dropped + multiset{Request(session, request)})
    else if h.sessions[session].agent.None? then h.(outbox := h.outbox + [Refused(session, request)])
    else
      var agent, wait := h.sessions[session].agent.value, Min(timeoutMs, MAX_TIMEOUT_MS);
      if Queue(h, OfSession(session)) == [] && Queue(h, OfAgent(agent)) == [] && wait > 0 then
        h.(polls := Without(h.polls, session) + [Poll(session, agent, now + wait, request)],
           dropped := h.dropped + RequestsOf(h.polls, session))
      else Answer(h, session, agent, request, now, None)
  }

  predicate Ready(h: Hub, p: Poll, now: nat) {
    Queue(h, OfSession(p.session)) != [] || Queue(h, OfAgent(p.agent)) != [] || now >= p.deadline
  }

  /** Goes through the pending polls in order; `h.polls` holds those kept so
      far. */
  function ResolveEach(h: Hub, todo: seq<Poll>, now: nat): Hub
    decreases |todo|
  {
    if todo == [] then h
    else
      var p := todo[0];
      var next := if Ready(h, p, now) then Answer(h, p.session, p.agent, p.request, now, Some(p.deadline))
                  else h.(polls := h.polls + [p]);
      ResolveEach(next, todo[1..], now)
  }

  function Next(h: Hub, op: Op): Hub {
    match op
    case Connect =>
      h.(sessions := h.sessions[h.nextSession := Session(None, [])], nextSession := h.nextSession + 1)
    case Hello(session, agent) =>
      if session in h.sessions then h.(sessions := h.sessions[session := h.sessions[session].(agent := Some(agent))])
      else h
    case Ask(session, request, timeoutMs, now) => AskPoll(h, session, request, timeoutMs, now)
    case PushSession(session, event, capped) =>
      if session in h.sessions then Push(h, OfSession(session), event, capped) else h
    case Route(agent, event) => Push(h, OfAgent(agent), event, true)
    case Resolve(now) => ResolveEach(h.(polls := []), h.polls, now)
    case Disconnect(session) =>
      if session in h.sessions then
        var t := Take(h, OfSession(session), Gone);
        t.(sessions := t.sessions - {session},
           polls := Without(t.polls, session),
           dropped := t.dropped + RequestsOf(t.polls, session))
      else h.(polls := Without(h.polls, session), dropped := h.dropped + RequestsOf(h.polls, session))
  }

  function Run(h: Hub, ops: seq<Op>): Hub
    decreases |ops|
  {
    if ops == [] then h else Run(Next(h, ops[0]), ops[1..])
  }

  // ---- The invariants ----

  function Events(entries: seq<Entry>): (events: seq<Event>)
    ensures |events| == |entries|
    ensures forall i | 0 <= i < |entries| :: events[i] == entries[i].event
  {
    seq(|entries|, i requires 0 <= i < |entries| => entries[i].event)
  }

  /** The events that went out in response number k, in queue order. */
  function Part(entries: seq<Entry>, k: nat): seq<Event>
    decreases |entries|
  {
    if entries == [] then []
    else (if entries[0].fate == Answered(k) then [entries[0].event] else []) + Part(entries[1..], k)
  }

  /** Every event ever queued at a source has left with exactly one fate, oldest
      first, or is still queued behind those. */
  ghost predicate Conserved(h: Hub) {
    forall source: Source ::
      Events(At(h.consumed, source)) + Queue(h, source) == At(h.pushed, source)
  }

  predicate Known(entries: seq<Entry>, responses: nat) {
    forall i | 0 <= i < |entries| :: entries[i].fate.Answered? ==> entries[i].fate.response < responses
  }

  /** Fates only name responses that were sent. */
  ghost predicate FatesKnown(h: Hub) {
    forall source: Source :: Known(At(h.consumed, source), |h.outbox|)
  }

  /** The part of response k that came from one source. */
  function From(h: Hub, source: Source, k: nat): seq<Event> {
    Part(At(h.consumed, source), k)
  }

  predicate Feeds(r: Response, source: Source) {
    r.Polled? && (source == OfSession(r.session) || source == OfAgent(r.agent))
  }

  /** Response k consists of the events with that fate: the session's, then the
      agent's, and of no other source. */
  ghost predicate ResponseExplained(h: Hub, k: nat)
    requires k < |h.outbox|
  {
    var r := h.outbox[k];
    && (r.Polled? ==> From(h, OfSession(r.session), k) + From(h, OfAgent(r.agent), k) == r.events)
    && (forall source: Source | !Feeds(r, source) :: From(h, source, k) == [])
  }

  ghost predicate Explained(h: Hub) {
    FatesKnown(h) && forall k: nat | k < |h.outbox| :: ResponseExplained(h, k)
  }

  ghost predicate Shape(h: Hub) {
    && |h.queues| == AGENT_COUNT
    && (forall id | id in h.sessions :: id < h.nextSession)
    && (forall source: Source :: source.OfSession? && source.id >= h.nextSession ==>
          At(h.pushed, source) == [])
    && (forall i | 0 <= i < |h.queues| :: |h.queues[i]| <= QUEUE_CAPACITY)
  }

  /** At most one pending poll per session, and only for live sessions. */
  ghost predicate PollsDistinct(h: Hub, polls: seq<Poll>) {
    && (forall i | 0 <= i < |polls| :: polls[i].session in h.sessions)
    && (forall i, j | 0 <= i < j < |polls| :: polls[i].session != polls[j].session)
  }

  function RequestOf(r: Response): Request {
    Request(r.session, r.request)
  }

  function AnsweredRequests(outbox: seq<Response>): multiset<Request>
    decreases |outbox|
  {
    if outbox == [] then multiset{}
    else AnsweredRequests(outbox[..|outbox| - 1]) + multiset{RequestOf(outbox[|outbox| - 1])}
  }

  function PendingRequests(polls: seq<Poll>): multiset<Request>
    decreases |polls|
  {
    if polls == [] then multiset{}
    else multiset{Request(polls[0].session, polls[0].request)} + PendingRequests(polls[1..])
  }

  /** Each poll request was answered once, is pending, or was dropped. */
  ghost predicate Accounted(h: Hub, polls: seq<Poll>) {
    h.asked == AnsweredRequests(h.outbox) + PendingRequests(polls) + h.dropped
  }

  /** A deferred poll is answered with nothing only from its deadline on. */
  ghost predicate NoEarlyEmpty(h: Hub) {
    forall r | r in h.outbox ::
      r.Polled? && r.deadline.Some? && r.events == [] ==> r.at >= r.deadline.value
  }

  /** A queue was emptied after its event number i and before more than 256
      others had followed it. */
  ghost predicate Saved(emptied: seq<nat>, i: nat) {
    exists k | 0 <= k < |emptied| :: i < emptied[k] <= i + QUEUE_CAPACITY
  }

  /** What the fates at one source mean. An evicted event was followed by at
      least 256 others before its queue was emptied; an event of an agent that
      was not evicted went out in a response; and only the events of a session
      that has left can have gone with it. */
  ghost predicate SourceFates(h: Hub, source: Source) {
    var entries, emptied := At(h.consumed, source), At(h.emptied, source);
    && (forall k | 0 <= k < |emptied| :: emptied[k] <= |entries|)
    && (forall i: nat | i < |entries| && entries[i].fate.Evicted? ::
          i + QUEUE_CAPACITY < |At(h.pushed, source)| && !Saved(emptied, i))
    && (source.OfAgent? ==> forall i: nat | i < |entries| && !entries[i].fate.Evicted? ::
          entries[i].fate.Answered? && Saved(emptied, i))
    && (source.OfSession? ==> forall i: nat | i < |entries| && entries[i].fate.Gone? ::
          source.id < h.nextSession && source.id !in h.sessions)
  }

  ghost predicate FatesRight(h: Hub) {
    forall source: Source :: SourceFates(h, source)
  }

  // ---- When a poll goes unanswered ----

  /** How often a request was made and is neither answered nor pending. */
  function Unanswered(h: Hub): multiset<Request> {
    h.asked - AnsweredRequests(h.outbox) - PendingRequests(h.polls)
  }

  /** A poll that is put off: nothing is waiting for it, and it may wait. */
  predicate Defers(h: Hub, session: nat, timeoutMs: nat) {
    && session in h.sessions && h.sessions[session].agent.Some?
    && Queue(h, OfSession(session)) == [] && Queue(h, OfAgent(h.sessions[session].agent.value)) == []
    && Min(timeoutMs, MAX_TIMEOUT_MS) > 0
  }

  /** The two steps that end a session's pending poll without an answer. */
  predicate Cancels(h: Hub, op: Op, session: nat) {
    (op.Ask? && op.session == session && Defers(h, session, op.timeoutMs)) || op == Disconnect(session)
  }

  /** Some response from number `from` on answers the deferred poll. */
  predicate AnswerSince(h: Hub, from: nat, p: Poll) {
    exists k: nat | from <= k < |h.outbox| :: Answers(h.outbox[k], p)
  }

  predicate Answers(r: Response, p: Poll) {
    r.Polled? && r.session == p.session && r.agent == p.agent && r.request == p.request && r.deadline == Some(p.deadline)
  }
}
