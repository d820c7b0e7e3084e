/** What every step of event delivery keeps: conservation of events, responses
    explained by them, and the account of requests. */
module EventDelivery {
  import opened Bytes
  import opened Agents
  import opened EventModel

  /** Events and responses. */
  ghost predicate Steady(h: Hub) {
    Shape(h) && Conserved(h) && Explained(h) && NoEarlyEmpty(h)
  }

  /** Pending polls and requests. */
  ghost predicate Counted(h: Hub) {
    PollsDistinct(h, h.polls) && Accounted(h, h.polls)
  }

  ghost predicate Good(h: Hub) {
    Steady(h) && Counted(h)
  }

  // ---- Entries and their fates ----

  lemma {:induction false} PartAppend(xs: seq<Entry>, ys: seq<Entry>, k: nat)
    ensures Part(xs + ys, k) == Part(xs, k) + Part(ys, k)
    decreases |xs|
  {
    if xs == [] {
      assert xs + ys == ys;
    } else {
      assert (xs + ys)[1..] == xs[1..] + ys;
      PartAppend(xs[1..], ys, k);
    }
  }

  lemma {:induction false} PartOfLabel(events: seq<Event>, fate: Fate, k: nat)
    ensures Part(Label(events, fate), k) == if fate == Answered(k) then events else []
    decreases |events|
  {
    if events == [] {
    } else {
      assert Label(events, fate)[1..] == Label(events[1..], fate);
      PartOfLabel(events[1..], fate, k);
    }
  }

  lemma {:induction false} NoPart(entries: seq<Entry>, k: nat)
    requires forall i | 0 <= i < |entries| && entries[i].fate.Answered? :: entries[i].fate.response < k
    ensures Part(entries, k) == []
    decreases |entries|
  {
    if entries == [] {
    } else {
      NoPart(entries[1..], k);
    }
  }

  lemma SettledPart(consumed: map<Source, seq<Entry>>, source: Source, events: seq<Event>, fate: Fate, other: Source, k: nat)
    ensures Part(At(Settle(consumed, source, events, fate), other), k)
      == Part(At(consumed, other), k) + if other == source && fate == Answered(k) then events else []
  {
    PartAppend(At(consumed, source), Label(events, fate), k);
    PartOfLabel(events, fate, k);
  }

  lemma SettledEvents(consumed: map<Source, seq<Entry>>, source: Source, events: seq<Event>, fate: Fate, other: Source)
    ensures Events(At(Settle(consumed, source, events, fate), other))
      == Events(At(consumed, other)) + if other == source then events else []
  {}

  lemma SettledKnown(consumed: map<Source, seq<Entry>>, source: Source, events: seq<Event>, fate: Fate, other: Source, n: nat, m: nat)
    requires Known(At(consumed, other), n) && n <= m
    requires fate.Answered? ==> fate.response < m
    ensures Known(At(Settle(consumed, source, events, fate), other), m)
  {}

  // ---- Taking and pushing ----

  /** A queue that can hold events: the source exists. */
  predicate Exists(h: Hub, source: Source) {
    match source
    case OfSession(id) => id in h.sessions
    case OfAgent(agent) => Index(agent) < |h.queues|
  }

  lemma SetQueueEffect(h: Hub, source: Source, events: seq<Event>, other: Source)
    requires Exists(h, source)
    ensures Queue(SetQueue(h, source, events), other) == if other == source then events else Queue(h, other)
  {
    if source.OfAgent? && other.OfAgent? && Index(source.agent) == Index(other.agent) {
      IndexInjective(source.agent, other.agent);
    }
  }

  lemma SetQueueShape(h: Hub, source: Source, events: seq<Event>)
    requires Shape(h) && Exists(h, source)
    requires source.OfAgent? ==> |events| <= QUEUE_CAPACITY
    ensures Shape(SetQueue(h, source, events))
    ensures SetQueue(h, source, events).sessions.Keys == h.sessions.Keys
    ensures SetQueue(h, source, events) ==
      h.(sessions := SetQueue(h, source, events).sessions, queues := SetQueue(h, source, events).queues)
  {}

  lemma TakeConserves(h: Hub, source: Source, fate: Fate)
    requires Conserved(h) && Exists(h, source)
    ensures Conserved(Take(h, source, fate))
  {
    hide SetQueue, Queue, Settle;
    var t := Take(h, source, fate);
    forall other: Source
      ensures Events(At(t.consumed, other)) + Queue(t, other) == At(t.pushed, other)
    {
      SetQueueOnly(h, source, []);
      SetQueueEffect(h, source, [], other);
      QueueOf(SetQueue(h, source, []), t, other);
      SettledEvents(h.consumed, source, Queue(h, source), fate, other);
      assert Events(At(h.consumed, other)) + Queue(h, other) == At(h.pushed, other);
    }
  }

  lemma SetQueueOnly(h: Hub, source: Source, events: seq<Event>)
    ensures SetQueue(h, source, events) ==
      h.(sessions := SetQueue(h, source, events).sessions, queues := SetQueue(h, source, events).queues)
  {}

  lemma QueueOf(h: Hub, g: Hub, source: Source)
    requires h.sessions == g.sessions && h.queues == g.queues
    ensures Queue(h, source) == Queue(g, source)
  {}

  lemma PushConserves(h: Hub, source: Source, event: Event, capped: bool)
    requires Conserved(h) && Exists(h, source)
    ensures Conserved(Push(h, source, event, capped))
  {
    hide SetQueue, Queue, Settle, Events;
    var t := Push(h, source, event, capped);
    var q := Queue(h, source);
    var full := capped && |q| >= QUEUE_CAPACITY;
    var next := (if full then q[1..] else q) + [event];
    SetQueueOnly(h, source, next);
    forall other: Source
      ensures Events(At(t.consumed, other)) + Queue(t, other) == At(t.pushed, other)
    {
      SetQueueEffect(h, source, next, other);
      QueueOf(SetQueue(h, source, next), t, other);
      assert Events(At(h.consumed, other)) + Queue(h, other) == At(h.pushed, other);
      if full {
        SettledEvents(h.consumed, source, q[..1], Evicted, other);
      }
      if other == source {
        MovedUp(Events(At(h.consumed, source)), q, event);
      }
    }
  }

  /** One more event at the end, with or without the first one moved on. */
  lemma MovedUp(gone: seq<Event>, q: seq<Event>, event: Event)
    ensures gone + (q + [event]) == (gone + q) + [event]
    ensures q != [] ==> (gone + q[..1]) + (q[1..] + [event]) == (gone + q) + [event]
  {
    if q != [] { assert q == q[..1] + q[1..]; }
  }

  /** The responses sent so far stay explained when only other fates are added. */
  lemma SettleExplained(h: Hub, t: Hub, source: Source, events: seq<Event>, fate: Fate)
    requires Explained(h) && !fate.Answered?
    requires t.consumed == Settle(h.consumed, source, events, fate) && t.outbox == h.outbox
    ensures Explained(t)
  {
    hide Part, Settle, Known;
    forall k: nat | k < |t.outbox|
      ensures ResponseExplained(t, k)
    {
      assert ResponseExplained(h, k);
      forall other: Source ensures From(t, other, k) == From(h, other, k) {
        SettledPart(h.consumed, source, events, fate, other, k);
      }
    }
    forall other: Source ensures Known(At(t.consumed, other), |t.outbox|) {
      SettledKnown(h.consumed, source, events, fate, other, |h.outbox|, |h.outbox|);
    }
  }

  lemma PushExplained(h: Hub, source: Source, event: Event, capped: bool)
    requires Explained(h)
    ensures Explained(Push(h, source, event, capped))
  {
    hide Explained, Settle, Queue, SetQueue;
    var t := Push(h, source, event, capped);
    var q := Queue(h, source);
    var full := capped && |q| >= QUEUE_CAPACITY;
    SetQueueOnly(h, source, (if full then q[1..] else q) + [event]);
    if full {
      SettleExplained(h, t, source, q[..1], Evicted);
    } else {
      SameExplained(h, t);
    }
  }

  lemma SameExplained(h: Hub, t: Hub)
    requires Explained(h) && t.consumed == h.consumed && t.outbox == h.outbox
    ensures Explained(t)
  {
    hide Part;
    forall k: nat | k < |t.outbox| ensures ResponseExplained(t, k) {
      assert ResponseExplained(h, k);
    }
  }

  lemma AnswerConsumes(h: Hub, session: nat, agent: AgentId, request: string, at: nat, deadline: Option<nat>)
    requires session in h.sessions
    ensures var t, s, a, fate := Answer(h, session, agent, request, at, deadline), OfSession(session), OfAgent(agent), Answered(|h.outbox|);
      && t.consumed == Settle(Settle(h.consumed, s, Queue(h, s), fate), a, Queue(h, a), fate)
      && t.outbox == h.outbox + [Polled(session, agent, request, Queue(h, s) + Queue(h, a), at, deadline)]
  {
    hide Settle, SetQueue, Queue;
    var s, a, fate := OfSession(session), OfAgent(agent), Answered(|h.outbox|);
    var mid := Take(h, s, fate);
    SetQueueOnly(h, s, []);
    SetQueueOnly(mid, a, []);
    SetQueueEffectElsewhere(h, s, a);
    QueueOf(SetQueue(h, s, []), mid, a);
  }

  /** A new response is explained by the two queues it empties, and the earlier
      ones stay explained. */
  lemma AnswerExplained(h: Hub, session: nat, agent: AgentId, request: string, at: nat, deadline: Option<nat>)
    requires Explained(h) && session in h.sessions
    ensures Explained(Answer(h, session, agent, request, at, deadline))
  {
    hide Part, Settle, SetQueue, Queue, Answer, Known, FatesKnown;
    var n, fate := |h.outbox|, Answered(|h.outbox|);
    var s, a := OfSession(session), OfAgent(agent);
    var t := Answer(h, session, agent, request, at, deadline);
    AnswerConsumes(h, session, agent, request, at, deadline);
    var events, more := Queue(h, s), Queue(h, a);
    forall k: nat, other: Source
      ensures From(t, other, k) == From(h, other, k)
        + (if k != n then [] else if other == s then events else if other == a then more else [])
    {
      SettledPart(h.consumed, s, events, fate, other, k);
      SettledPart(Settle(h.consumed, s, events, fate), a, more, fate, other, k);
    }
    forall k: nat | k < |t.outbox|
      ensures ResponseExplained(t, k)
    {
      if k < n {
        assert ResponseExplained(h, k) && t.outbox[k] == h.outbox[k];
      } else {
        forall other: Source ensures From(h, other, n) == [] { NothingYet(h, other); }
      }
    }
    FatesAfterAnswer(h, t, s, events, a, more);
  }

  lemma NothingYet(h: Hub, source: Source)
    requires FatesKnown(h)
    ensures From(h, source, |h.outbox|) == []
  {
    NoPart(At(h.consumed, source), |h.outbox|);
  }

  lemma SetQueueEffectElsewhere(h: Hub, source: Source, other: Source)
    requires source != other
    ensures Queue(SetQueue(h, source, []), other) == Queue(h, other)
  {
    if source.OfAgent? && other.OfAgent? && Index(source.agent) == Index(other.agent) {
      IndexInjective(source.agent, other.agent);
    }
  }

  lemma FatesAfterAnswer(h: Hub, t: Hub, s: Source, events: seq<Event>, a: Source, more: seq<Event>)
    requires FatesKnown(h) && |t.outbox| == |h.outbox| + 1
    requires t.consumed == Settle(Settle(h.consumed, s, events, Answered(|h.outbox|)), a, more, Answered(|h.outbox|))
    ensures FatesKnown(t)
  {
    hide Settle, Known;
    var n := |h.outbox|;
    forall other: Source ensures Known(At(t.consumed, other), n + 1) {
      SettledKnown(h.consumed, s, events, Answered(n), other, n, n + 1);
      SettledKnown(Settle(h.consumed, s, events, Answered(n)), a, more, Answered(n), other, n + 1, n + 1);
    }
  }

  lemma RefusalExplained(h: Hub, t: Hub, r: Response)
    requires Explained(h) && r.Refused? && t.consumed == h.consumed && t.outbox == h.outbox + [r]
    ensures Explained(t)
  {
    hide Part;
    forall k: nat | k < |t.outbox| ensures ResponseExplained(t, k) {
      if k < |h.outbox| {
        assert ResponseExplained(h, k) && t.outbox[k] == h.outbox[k];
      } else {
        forall other: Source ensures From(t, other, k) == [] { NothingYet(h, other); }
      }
    }
    forall other: Source ensures Known(At(t.consumed, other), |t.outbox|) {
      assert Known(At(h.consumed, other), |h.outbox|);
    }
  }

  // ---- Requests ----

  lemma AnsweredSnoc(outbox: seq<Response>, r: Response)
    ensures AnsweredRequests(outbox + [r]) == AnsweredRequests(outbox) + multiset{RequestOf(r)}
  {
    assert (outbox + [r])[..|outbox|] == outbox;
  }

  lemma {:induction false} PendingAppend(xs: seq<Poll>, ys: seq<Poll>)
    ensures PendingRequests(xs + ys) == PendingRequests(xs) + PendingRequests(ys)
    decreases |xs|
  {
    if xs == [] {
      assert xs + ys == ys;
    } else {
      assert (xs + ys)[1..] == xs[1..] + ys;
      PendingAppend(xs[1..], ys);
    }
  }

  lemma {:induction false} WithoutSplits(polls: seq<Poll>, session: nat)
    ensures PendingRequests(polls) == PendingRequests(Without(polls, session)) + RequestsOf(polls, session)
    ensures forall p | p in Without(polls, session) :: p in polls && p.session != session
    decreases |polls|
  {
    if polls == [] {
    } else {
      WithoutSplits(polls[1..], session);
      assert forall p | p in polls[1..] :: p in polls;
      if polls[0].session != session {
        assert Without(polls, session) == [polls[0]] + Without(polls[1..], session);
        assert Without(polls, session)[1..] == Without(polls[1..], session);
      } else {
        assert Without(polls, session) == Without(polls[1..], session);
      }
    }
  }

  ghost predicate Distinct(polls: seq<Poll>) {
    forall i, j | 0 <= i < j < |polls| :: polls[i].session != polls[j].session
  }

  lemma {:induction false} WithoutDistinct(polls: seq<Poll>, session: nat)
    requires Distinct(polls)
    ensures Distinct(Without(polls, session))
    decreases |polls|
  {
    if polls == [] {
    } else {
      assert Distinct(polls[1..]);
      WithoutDistinct(polls[1..], session);
      WithoutSplits(polls[1..], session);
      if polls[0].session != session {
        assert Without(polls, session) == [polls[0]] + Without(polls[1..], session);
      }
    }
  }

  lemma WithoutPolls(h: Hub, session: nat)
    requires PollsDistinct(h, h.polls)
    ensures forall i | 0 <= i < |Without(h.polls, session)| ::
      Without(h.polls, session)[i].session in h.sessions && Without(h.polls, session)[i].session != session
    ensures Distinct(Without(h.polls, session))
  {
    var w := Without(h.polls, session);
    WithoutSplits(h.polls, session);
    WithoutDistinct(h.polls, session);
    forall i | 0 <= i < |w| ensures w[i].session in h.sessions && w[i].session != session {
      assert w[i] in w;
    }
  }

  // ---- Answering keeps everything ----

  lemma AnswerShape(h: Hub, session: nat, agent: AgentId, request: string, at: nat, deadline: Option<nat>)
    requires Shape(h) && session in h.sessions
    ensures var t := Answer(h, session, agent, request, at, deadline);
      Shape(t) && t.sessions.Keys == h.sessions.Keys && t.polls == h.polls && t.asked == h.asked
      && t.dropped == h.dropped && |t.outbox| == |h.outbox| + 1 && t.outbox[..|h.outbox|] == h.outbox
      && t.outbox[|h.outbox|] == Polled(session, agent, request,
           Queue(h, OfSession(session)) + Queue(h, OfAgent(agent)), at, deadline)
  {
    hide SetQueue, Queue, Settle;
    var s, a, fate := OfSession(session), OfAgent(agent), Answered(|h.outbox|);
    SetQueueShape(h, s, []);
    var mid := Take(h, s, fate);
    assert Shape(mid);
    SetQueueShape(mid, a, []);
  }

  lemma AnswerConserves(h: Hub, session: nat, agent: AgentId, request: string, at: nat, deadline: Option<nat>)
    requires Shape(h) && Conserved(h) && session in h.sessions
    ensures Conserved(Answer(h, session, agent, request, at, deadline))
  {
    hide SetQueue, Queue, Settle, Conserved;
    var s, a, fate := OfSession(session), OfAgent(agent), Answered(|h.outbox|);
    SetQueueShape(h, s, []);
    TakeConserves(h, s, fate);
    var mid := Take(h, s, fate);
    TakeConserves(mid, a, fate);
    SameConserved(Take(mid, a, fate), Answer(h, session, agent, request, at, deadline));
  }

  lemma SameConserved(h: Hub, t: Hub)
    requires Conserved(h) && t.sessions == h.sessions && t.queues == h.queues
    requires t.pushed == h.pushed && t.consumed == h.consumed
    ensures Conserved(t)
  {
    forall source: Source
      ensures Events(At(t.consumed, source)) + Queue(t, source) == At(t.pushed, source)
    {
      assert Events(At(h.consumed, source)) + Queue(h, source) == At(h.pushed, source);
    }
  }

  lemma AnswerSteady(h: Hub, session: nat, agent: AgentId, request: string, at: nat, deadline: Option<nat>)
    requires Steady(h) && session in h.sessions
    requires deadline.Some? && Queue(h, OfSession(session)) == [] && Queue(h, OfAgent(agent)) == [] ==> at >= deadline.value
    ensures var t := Answer(h, session, agent, request, at, deadline);
      Steady(t) && AnsweredRequests(t.outbox) == AnsweredRequests(h.outbox) + multiset{Request(session, request)}
  {
    hide Shape, Conserved, Explained, Answer, Queue;
    var t := Answer(h, session, agent, request, at, deadline);
    AnswerShape(h, session, agent, request, at, deadline);
    AnswerConserves(h, session, agent, request, at, deadline);
    AnswerExplained(h, session, agent, request, at, deadline);
    assert t.outbox == h.outbox + [t.outbox[|h.outbox|]];
    AnsweredSnoc(h.outbox, t.outbox[|h.outbox|]);
  }

  // ---- Resolving ----

  /** A pending request that gets answered moves from one side to the other. */
  lemma AnsweredFromPending(h: Hub, t: Hub, xs: seq<Poll>, p: Poll, ys: seq<Poll>)
    requires PollsDistinct(h, xs + ([p] + ys)) && Accounted(h, xs + ([p] + ys))
    requires t.sessions.Keys == h.sessions.Keys && t.asked == h.asked && t.dropped == h.dropped
    requires AnsweredRequests(t.outbox) == AnsweredRequests(h.outbox) + multiset{Request(p.session, p.request)}
    ensures PollsDistinct(t, xs + ys) && Accounted(t, xs + ys)
  {
    hide PendingRequests, AnsweredRequests;
    PendingAppend(xs, [p] + ys);
    PendingAppend([p], ys);
    PendingAppend(xs, ys);
    PendingOne(p);
    RemovedDistinct(xs, p, ys);
    forall i | 0 <= i < |xs + ys| ensures (xs + ys)[i].session in t.sessions {
      assert (xs + ys)[i] in xs + ([p] + ys);
    }
  }

  lemma {:induction false} ResolveKeeps(h: Hub, todo: seq<Poll>, now: nat)
    requires Steady(h) && PollsDistinct(h, h.polls + todo) && Accounted(h, h.polls + todo)
    ensures Good(ResolveEach(h, todo, now))
    decreases |todo|
  {
    hide Steady, Answer, Ready, PendingRequests, AnsweredRequests;
    if todo == [] {
      assert h.polls + todo == h.polls;
    } else {
      var p, later := todo[0], todo[1..];
      assert (h.polls + todo)[|h.polls|] == p;
      assert h.polls + todo == h.polls + ([p] + later);
      if Ready(h, p, now) {
        var t := Answer(h, p.session, p.agent, p.request, now, Some(p.deadline));
        ReadyMeans(h, p, now);
        AnswerSteady(h, p.session, p.agent, p.request, now, Some(p.deadline));
        AnswerKeeps(h, p.session, p.agent, p.request, now, Some(p.deadline));
        AnsweredFromPending(h, t, h.polls, p, later);
        ResolveKeeps(t, later, now);
      } else {
        var t := h.(polls := h.polls + [p]);
        SteadyFrame(h, t);
        assert t.polls + later == h.polls + todo;
        ResolveKeeps(t, later, now);
      }
    }
  }

  lemma ReadyMeans(h: Hub, p: Poll, now: nat)
    requires Ready(h, p, now)
    ensures Queue(h, OfSession(p.session)) == [] && Queue(h, OfAgent(p.agent)) == [] ==> now >= p.deadline
  {}

  lemma RemovedDistinct(xs: seq<Poll>, p: Poll, ys: seq<Poll>)
    requires Distinct(xs + ([p] + ys))
    ensures Distinct(xs + ys)
    ensures forall i | 0 <= i < |xs + ys| :: (xs + ys)[i] in xs + ([p] + ys)
  {
    var all, some := xs + ([p] + ys), xs + ys;
    forall i | 0 <= i < |some|
      ensures some[i] == all[if i < |xs| then i else i + 1]
    {}
  }

  /** Changing only the list of pending polls, requests asked and dropped. */
  lemma SteadyFrame(h: Hub, t: Hub)
    requires Steady(h)
    requires t == h.(polls := t.polls, asked := t.asked, dropped := t.dropped)
    ensures Steady(t)
  {
    SameConserved(h, t);
    SameExplained(h, t);
  }

  /** After a resolve, whoever still waits has nothing queued at either source
      and a deadline in the future. */
  ghost predicate Waiting(h: Hub, now: nat) {
    forall p | p in h.polls :: !Ready(h, p, now)
  }

  lemma TakeOnlyEmpties(h: Hub, source: Source, fate: Fate, other: Source)
    requires Queue(h, other) == []
    ensures Queue(Take(h, source, fate), other) == []
  {
    hide Settle;
  }

  lemma AnswerOnlyEmpties(h: Hub, session: nat, agent: AgentId, request: string, at: nat, deadline: Option<nat>, source: Source)
    requires Queue(h, source) == []
    ensures Queue(Answer(h, session, agent, request, at, deadline), source) == []
  {
    hide Queue, Take;
    var t := Answer(h, session, agent, request, at, deadline);
    if session !in h.sessions {
      TakeOnlyEmpties(h, OfAgent(agent), Gone, source);
      QueueOf(Take(h, OfAgent(agent), Gone), t, source);
    } else {
      var fate := Answered(|h.outbox|);
      var mid := Take(h, OfSession(session), fate);
      TakeOnlyEmpties(h, OfSession(session), fate, source);
      TakeOnlyEmpties(mid, OfAgent(agent), fate, source);
      QueueOf(Take(mid, OfAgent(agent), fate), t, source);
    }
  }

  lemma AnswerKeepsPolls(h: Hub, session: nat, agent: AgentId, request: string, at: nat, deadline: Option<nat>)
    ensures Answer(h, session, agent, request, at, deadline).polls == h.polls
  {
    hide Settle, Queue;
  }

  lemma AnswerKeepsWaiting(h: Hub, p: Poll, now: nat)
    requires Waiting(h, now)
    ensures Waiting(Answer(h, p.session, p.agent, p.request, now, Some(p.deadline)), now)
  {
    hide Answer, Queue;
    var t := Answer(h, p.session, p.agent, p.request, now, Some(p.deadline));
    AnswerKeepsPolls(h, p.session, p.agent, p.request, now, Some(p.deadline));
    forall q | q in t.polls ensures !Ready(t, q, now) {
      assert !Ready(h, q, now);
      AnswerOnlyEmpties(h, p.session, p.agent, p.request, now, Some(p.deadline), OfSession(q.session));
      AnswerOnlyEmpties(h, p.session, p.agent, p.request, now, Some(p.deadline), OfAgent(q.agent));
    }
  }

  lemma {:induction false} ResolveSettles(h: Hub, todo: seq<Poll>, now: nat)
    requires Waiting(h, now)
    ensures Waiting(ResolveEach(h, todo, now), now)
    decreases |todo|
  {
    hide Answer, Queue;
    if todo == [] {
    } else {
      var p := todo[0];
      if Ready(h, p, now) {
        AnswerKeepsWaiting(h, p, now);
        ResolveSettles(Answer(h, p.session, p.agent, p.request, now, Some(p.deadline)), todo[1..], now);
      } else {
        var t := h.(polls := h.polls + [p]);
        forall q | q in t.polls ensures !Ready(t, q, now) {
          assert !Ready(h, q, now);
          QueueOf(h, t, OfSession(q.session));
          QueueOf(h, t, OfAgent(q.agent));
        }
        ResolveSettles(t, todo[1..], now);
      }
    }
  }

  /** Nobody is kept waiting past a deadline or beside a queued event. */
  lemma ResolveLeavesWaiting(h: Hub, now: nat)
    ensures Waiting(Next(h, Resolve(now)), now)
  {
    hide ResolveEach, Ready;
    ResolveSettles(h.(polls := []), h.polls, now);
  }

  // ---- Every operation ----

  lemma ResolveKeepsGood(h: Hub, now: nat)
    requires Good(h)
    ensures Good(Next(h, Resolve(now)))
  {
    hide Steady, ResolveEach;
    SteadyFrame(h, h.(polls := []));
    assert [] + h.polls == h.polls;
    ResolveKeeps(h.(polls := []), h.polls, now);
  }

  lemma DeferKeepsCounted(h: Hub, t: Hub, p: Poll)
    requires Counted(h) && p.session in h.sessions
    requires t == h.(
      polls := Without(h.polls, p.session) + [p],
      asked := h.asked + multiset{Request(p.session, p.request)},
      dropped := h.dropped + RequestsOf(h.polls, p.session))
    ensures Counted(t)
  {
    hide PendingRequests, AnsweredRequests, Without, RequestsOf;
    WithoutPolls(h, p.session);
    WithoutSplits(h.polls, p.session);
    PendingAppend(Without(h.polls, p.session), [p]);
    PendingOne(p);
  }

  lemma AnsweredKeepsCounted(h: Hub, t: Hub, r: Request)
    requires Counted(h) && t.sessions.Keys == h.sessions.Keys && t.polls == h.polls && t.dropped == h.dropped
    requires t.asked == h.asked + multiset{r}
    requires AnsweredRequests(t.outbox) == AnsweredRequests(h.outbox) + multiset{r}
    ensures Counted(t)
  {
    hide PendingRequests, AnsweredRequests;
  }

  lemma DroppedKeepsCounted(h: Hub, t: Hub, r: Request)
    requires Counted(h)
    requires t == h.(asked := h.asked + multiset{r}, dropped := h.dropped + multiset{r})
    ensures Counted(t)
  {
    hide PendingRequests, AnsweredRequests;
  }

  lemma AskKeepsGood(h: Hub, session: nat, request: string, timeoutMs: nat, now: nat)
    requires Good(h)
    ensures Good(AskPoll(h, session, request, timeoutMs, now))
  {
    hide Steady, Counted, Answer, Queue, Without, RequestsOf, AnsweredRequests;
    var r := Request(session, request);
    var g := h.(asked := h.asked + multiset{r});
    SteadyFrame(h, g);
    var t := AskPoll(h, session, request, timeoutMs, now);
    if session !in h.sessions {
      SteadyFrame(g, t);
      DroppedKeepsCounted(h, t, r);
    } else if h.sessions[session].agent.None? {
      RefusalKeeps(g, t, session, request);
      AnsweredKeepsCounted(h, t, r);
    } else {
      var agent, wait := h.sessions[session].agent.value, Min(timeoutMs, MAX_TIMEOUT_MS);
      if Queue(g, OfSession(session)) == [] && Queue(g, OfAgent(agent)) == [] && wait > 0 {
        SteadyFrame(g, t);
        DeferKeepsCounted(h, t, Poll(session, agent, now + wait, request));
      } else {
        AnswerSteady(g, session, agent, request, now, None);
        AnswerKeeps(g, session, agent, request, now, None);
        AnsweredKeepsCounted(h, t, r);
      }
    }
  }

  lemma AnswerKeeps(h: Hub, session: nat, agent: AgentId, request: string, at: nat, deadline: Option<nat>)
    requires Steady(h) && session in h.sessions
    ensures var t := Answer(h, session, agent, request, at, deadline);
      t.sessions.Keys == h.sessions.Keys && t.polls == h.polls && t.asked == h.asked && t.dropped == h.dropped
  {
    hide Answer, Shape, Conserved, Explained, NoEarlyEmpty;
    AnswerShape(h, session, agent, request, at, deadline);
  }

  lemma PendingOne(p: Poll)
    ensures PendingRequests([p]) == multiset{Request(p.session, p.request)}
  {
    assert [p][1..] == [];
  }

  lemma RefusalKeeps(g: Hub, t: Hub, session: nat, request: string)
    requires Steady(g) && t == g.(outbox := g.outbox + [Refused(session, request)])
    ensures Steady(t)
    ensures AnsweredRequests(t.outbox) == AnsweredRequests(g.outbox) + multiset{Request(session, request)}
  {
    hide Conserved, Explained;
    SameConserved(g, t);
    RefusalExplained(g, t, Refused(session, request));
    AnsweredSnoc(g.outbox, Refused(session, request));
  }

  /** Nothing about requests changes when polls, responses and the set of live
      sessions stay. */
  lemma CountedFrame(h: Hub, t: Hub)
    requires Counted(h) && h.sessions.Keys <= t.sessions.Keys
    requires t.polls == h.polls && t.outbox == h.outbox && t.asked == h.asked && t.dropped == h.dropped
    ensures Counted(t)
  {
    hide PendingRequests, AnsweredRequests;
  }

  lemma PushKeepsGood(h: Hub, source: Source, event: Event, capped: bool)
    requires Good(h) && Exists(h, source)
    requires source.OfAgent? ==> capped
    ensures Good(Push(h, source, event, capped))
  {
    hide Conserved, Explained, NoEarlyEmpty, Counted, SetQueue, Settle, Shape;
    PushConserves(h, source, event, capped);
    PushExplained(h, source, event, capped);
    var t := Push(h, source, event, capped);
    PushShape(h, source, event, capped);
    NoEarlyFrame(h, t);
    CountedFrame(h, t);
  }

  lemma PushShape(h: Hub, source: Source, event: Event, capped: bool)
    requires Shape(h) && Exists(h, source)
    requires source.OfAgent? ==> capped
    ensures var t := Push(h, source, event, capped);
      && Shape(t) && t.sessions.Keys == h.sessions.Keys
      && t.polls == h.polls && t.outbox == h.outbox && t.asked == h.asked && t.dropped == h.dropped
  {
    hide SetQueue, Settle;
    var q := Queue(h, source);
    var next := (if capped && |q| >= QUEUE_CAPACITY then q[1..] else q) + [event];
    SetQueueShape(h, source, next);
  }

  lemma NoEarlyFrame(h: Hub, t: Hub)
    requires NoEarlyEmpty(h) && t.outbox == h.outbox
    ensures NoEarlyEmpty(t)
  {}

  lemma SameQueues(h: Hub, t: Hub)
    requires Conserved(h) && t.pushed == h.pushed && t.consumed == h.consumed
    requires forall source: Source :: Queue(t, source) == Queue(h, source)
    ensures Conserved(t)
  {
    hide Queue;
    forall source: Source
      ensures Events(At(t.consumed, source)) + Queue(t, source) == At(t.pushed, source)
    {
      assert Events(At(h.consumed, source)) + Queue(h, source) == At(h.pushed, source);
    }
  }

  lemma ConnectShape(h: Hub)
    requires Shape(h)
    ensures var t := Next(h, Connect);
      Shape(t) && h.sessions.Keys <= t.sessions.Keys && forall source: Source :: Queue(t, source) == Queue(h, source)
  {}

  lemma ConnectKeepsGood(h: Hub)
    requires Good(h)
    ensures Good(Next(h, Connect))
  {
    hide Shape, Conserved, Explained, NoEarlyEmpty, Counted, Queue;
    var t := Next(h, Connect);
    ConnectShape(h);
    SameQueues(h, t);
    SameExplained(h, t);
    NoEarlyFrame(h, t);
    CountedFrame(h, t);
  }

  lemma HelloShape(h: Hub, session: nat, agent: AgentId)
    requires Shape(h)
    ensures var t := Next(h, Hello(session, agent));
      && Shape(t) && h.sessions.Keys <= t.sessions.Keys
      && t == h.(sessions := t.sessions)
      && forall source: Source :: Queue(t, source) == Queue(h, source)
  {}

  lemma HelloKeepsGood(h: Hub, session: nat, agent: AgentId)
    requires Good(h)
    ensures Good(Next(h, Hello(session, agent)))
  {
    hide Shape, Conserved, Explained, NoEarlyEmpty, Counted, Queue, Next;
    var t := Next(h, Hello(session, agent));
    HelloShape(h, session, agent);
    SameQueues(h, t);
    SameExplained(h, t);
    NoEarlyFrame(h, t);
    CountedFrame(h, t);
  }

  lemma LeaveQueues(h: Hub, t: Hub, session: nat)
    requires Shape(h) && Queue(h, OfSession(session)) == []
    requires t.sessions == h.sessions - {session} && t.queues == h.queues
    requires t.nextSession == h.nextSession && t.pushed == h.pushed
    ensures Shape(t) && forall source: Source :: Queue(t, source) == Queue(h, source)
  {}

  lemma LeaveKeepsCounted(h: Hub, t: Hub, session: nat)
    requires Counted(h) && t.sessions.Keys == h.sessions.Keys - {session}
    requires t.polls == Without(h.polls, session) && t.dropped == h.dropped + RequestsOf(h.polls, session)
    requires t.asked == h.asked && t.outbox == h.outbox
    ensures Counted(t)
  {
    hide PendingRequests, AnsweredRequests, Without, RequestsOf;
    WithoutPolls(h, session);
    WithoutSplits(h.polls, session);
  }

  lemma DisconnectKeepsGood(h: Hub, session: nat)
    requires Good(h)
    ensures Good(Next(h, Disconnect(session)))
  {
    hide Shape, Conserved, Explained, NoEarlyEmpty, Counted, Settle, SetQueue, Queue, Without, RequestsOf;
    var t, s := Next(h, Disconnect(session)), OfSession(session);
    if session in h.sessions {
      var mid := Take(h, s, Gone);
      SetQueueShape(h, s, []);
      SetQueueEffect(h, s, [], s);
      QueueOf(SetQueue(h, s, []), mid, s);
      ShapeFrame(SetQueue(h, s, []), mid);
      TakeConserves(h, s, Gone);
      LeaveQueues(mid, t, session);
      SameQueues(mid, t);
      SettleExplained(h, t, s, Queue(h, s), Gone);
    } else {
      SameConserved(h, t);
      SameExplained(h, t);
      ShapeFrame(h, t);
    }
    NoEarlyFrame(h, t);
    LeaveKeepsCounted(h, t, session);
  }

  lemma ShapeFrame(h: Hub, t: Hub)
    requires Shape(h) && t.sessions == h.sessions && t.queues == h.queues
    requires t.nextSession == h.nextSession && t.pushed == h.pushed
    ensures Shape(t)
  {}

  lemma NextKeepsGood(h: Hub, op: Op)
    requires Good(h)
    ensures Good(Next(h, op))
  {
    match op
    case Connect => hide *; ConnectKeepsGood(h);
    case Hello(session, agent) => hide *; HelloKeepsGood(h, session, agent);
    case Ask(session, request, timeoutMs, now) =>
      hide Good, AskPoll;
      AskKeepsGood(h, session, request, timeoutMs, now);
    case PushSession(session, event, capped) =>
      hide Steady, Counted, Push;
      if session in h.sessions { PushKeepsGood(h, OfSession(session), event, capped); }
    case Route(agent, event) =>
      hide Conserved, Explained, NoEarlyEmpty, Counted, Push;
      PushKeepsGood(h, OfAgent(agent), event, true);
    case Resolve(now) => hide *; ResolveKeepsGood(h, now);
    case Disconnect(session) => hide *; DisconnectKeepsGood(h, session);
  }

  lemma {:induction false} RunKeepsGood(h: Hub, ops: seq<Op>)
    requires Good(h)
    ensures Good(Run(h, ops))
    decreases |ops|
  {
    hide Good, Next;
    if ops == [] {
    } else {
      NextKeepsGood(h, ops[0]);
      RunKeepsGood(Next(h, ops[0]), ops[1..]);
    }
  }

  lemma StartedGood()
    ensures Good(STARTED)
  {
    assert PendingRequests([]) == multiset{} && AnsweredRequests([]) == multiset{};
  }
}
