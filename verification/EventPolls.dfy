/** Exactly when a pending poll is left unanswered. */
module EventPolls {
  import opened Bytes
  import opened Agents
  import opened EventModel
  import opened EventDelivery

  /** The requests that a step leaves unanswered for good. */
  function Lost(h: Hub, op: Op): multiset<Request> {
    match op
    case Ask(session, request, timeoutMs, _) =>
      if session !in h.sessions then multiset{Request(session, request)}
      else if Defers(h, session, timeoutMs) then RequestsOf(h.polls, session)
      else multiset{}
    case Disconnect(session) => RequestsOf(h.polls, session)
    case _ => multiset{}
  }

  /** Every step loses exactly those requests. */
  lemma LostExactly(h: Hub, op: Op)
    requires Good(h)
    ensures Unanswered(Next(h, op)) == Unanswered(h) + Lost(h, op)
  {
    hide Next, Steady, Lost, AnsweredRequests, PendingRequests;
    NextKeepsGood(h, op);
    Undropped(h);
    Undropped(Next(h, op));
    DroppedIsLost(h, op);
  }

  lemma Undropped(h: Hub)
    requires Good(h)
    ensures Unanswered(h) == h.dropped
  {
    hide Steady, AnsweredRequests, PendingRequests;
  }

  lemma DroppedIsLost(h: Hub, op: Op)
    requires Good(h)
    ensures Next(h, op).dropped == h.dropped + Lost(h, op)
  {
    hide Steady, Counted, Answer, Push, ResolveEach, Queue, Take, Without, RequestsOf;
    match op
    case Ask(session, request, timeoutMs, now) =>
      if session in h.sessions && h.sessions[session].agent.Some? {
        AskKeepsDropped(h, session, request, timeoutMs, now);
      }
    case PushSession(session, event, capped) =>
      if session in h.sessions { PushKeepsPolls(h, OfSession(session), event, capped); }
    case Route(agent, event) => PushKeepsPolls(h, OfAgent(agent), event, true);
    case Resolve(now) => ResolveDropsNone(h, now);
    case Disconnect(session) => DisconnectDrops(h, session);
    case _ =>
  }

  lemma SameQueue(h: Hub, g: Hub, session: nat, timeoutMs: nat)
    requires g.sessions == h.sessions && g.queues == h.queues
    ensures Defers(g, session, timeoutMs) <==> Defers(h, session, timeoutMs)
  {
    QueueOf(h, g, OfSession(session));
    forall agent: AgentId ensures Queue(g, OfAgent(agent)) == Queue(h, OfAgent(agent)) {
      QueueOf(h, g, OfAgent(agent));
    }
  }

  lemma AskKeepsDropped(h: Hub, session: nat, request: string, timeoutMs: nat, now: nat)
    requires Good(h) && session in h.sessions && h.sessions[session].agent.Some?
    ensures var t, agent := AskPoll(h, session, request, timeoutMs, now), h.sessions[session].agent.value;
      if Defers(h, session, timeoutMs) then
        && t.polls == Without(h.polls, session) + [Poll(session, agent, now + Min(timeoutMs, MAX_TIMEOUT_MS), request)]
        && t.dropped == h.dropped + RequestsOf(h.polls, session) && t.outbox == h.outbox
      else
        && t.polls == h.polls && t.dropped == h.dropped && |t.outbox| == |h.outbox| + 1
        && RequestOf(t.outbox[|h.outbox|]) == Request(session, request)
  {
    hide Conserved, Explained, NoEarlyEmpty, Counted, Answer, Queue, Without, RequestsOf;
    var g := h.(asked := h.asked + multiset{Request(session, request)});
    SteadyFrame(h, g);
    SameQueue(h, g, session, timeoutMs);
    AnswerShape(g, session, h.sessions[session].agent.value, request, now, None);
  }

  lemma PushKeepsPolls(h: Hub, source: Source, event: Event, capped: bool)
    ensures var t := Push(h, source, event, capped);
      t.polls == h.polls && t.outbox == h.outbox && t.dropped == h.dropped
  {
    hide Settle, Queue;
  }

  lemma DisconnectDrops(h: Hub, session: nat)
    ensures var t := Next(h, Disconnect(session));
      && t.outbox == h.outbox && t.polls == Without(h.polls, session)
      && t.dropped == h.dropped + RequestsOf(h.polls, session)
  {
    hide Settle, Queue, Without, RequestsOf;
  }

  /** Each pending poll is answered or kept by a resolve, and none is dropped. */
  lemma {:induction false} ResolveServes(h: Hub, todo: seq<Poll>, now: nat)
    requires Steady(h) && forall p | p in todo :: p.session in h.sessions
    ensures var t := ResolveEach(h, todo, now);
      && t.dropped == h.dropped && h.polls <= t.polls && h.outbox <= t.outbox
      && forall p | p in todo :: p in t.polls || AnswerSince(t, |h.outbox|, p)
    decreases |todo|
  {
    hide Answer, Ready, Conserved, Explained, Shape, NoEarlyEmpty;
    if todo == [] {
    } else {
      var p, later := todo[0], todo[1..];
      assert forall q | q in todo :: q == p || q in later;
      if Ready(h, p, now) {
        var next := Answer(h, p.session, p.agent, p.request, now, Some(p.deadline));
        ReadyMeans(h, p, now);
        AnswerSteady(h, p.session, p.agent, p.request, now, Some(p.deadline));
        AnswerKeeps(h, p.session, p.agent, p.request, now, Some(p.deadline));
        AnswerSends(h, p, now);
        ResolveServes(next, later, now);
        var t := ResolveEach(next, later, now);
        assert t.outbox[|h.outbox|] == next.outbox[|h.outbox|];
      } else {
        var next := h.(polls := h.polls + [p]);
        SteadyFrame(h, next);
        ResolveServes(next, later, now);
        assert p in next.polls;
      }
    }
  }

  lemma AnswerSends(h: Hub, p: Poll, now: nat)
    requires p.session in h.sessions && Shape(h)
    ensures var t := Answer(h, p.session, p.agent, p.request, now, Some(p.deadline));
      |t.outbox| == |h.outbox| + 1 && h.outbox <= t.outbox && Answers(t.outbox[|h.outbox|], p)
  {
    hide Answer, Shape;
    AnswerShape(h, p.session, p.agent, p.request, now, Some(p.deadline));
  }

  lemma ResolveDropsNone(h: Hub, now: nat)
    requires Good(h)
    ensures var t := Next(h, Resolve(now));
      t.dropped == h.dropped && h.outbox <= t.outbox && forall p | p in h.polls :: p in t.polls || AnswerSince(t, |h.outbox|, p)
  {
    hide Steady, ResolveEach;
    SteadyFrame(h, h.(polls := []));
    ResolveServes(h.(polls := []), h.polls, now);
  }

  // ---- One pending poll ----

  lemma {:induction false} RequestOfOne(polls: seq<Poll>, p: Poll)
    requires Distinct(polls) && p in polls
    ensures RequestsOf(polls, p.session) == multiset{Request(p.session, p.request)}
    decreases |polls|
  {
    assert Distinct(polls[1..]);
    if polls[0] == p {
      NoRequests(polls[1..], p.session);
    } else {
      assert p in polls[1..];
      RequestOfOne(polls[1..], p);
      var k :| 0 <= k < |polls[1..]| && polls[1..][k] == p;
      assert polls[k + 1] == p;
    }
  }

  lemma {:induction false} NoRequests(polls: seq<Poll>, session: nat)
    requires forall i | 0 <= i < |polls| :: polls[i].session != session
    ensures RequestsOf(polls, session) == multiset{} && Without(polls, session) == polls
    decreases |polls|
  {
    if polls == [] {
    } else {
      NoRequests(polls[1..], session);
    }
  }

  lemma {:induction false} RequestsAreOf(polls: seq<Poll>, session: nat)
    ensures forall r | r in RequestsOf(polls, session) :: r.session == session
    decreases |polls|
  {
    if polls == [] {
    } else {
      RequestsAreOf(polls[1..], session);
    }
  }

  lemma {:induction false} OthersStay(polls: seq<Poll>, session: nat, p: Poll)
    requires p in polls && p.session != session
    ensures p in Without(polls, session)
    decreases |polls|
  {
    if polls[0] != p { OthersStay(polls[1..], session, p); }
  }

  /** No poll of the session is pending but one that the step has just put off. */
  predicate OnlyTheNewPoll(t: Hub, op: Op, session: nat) {
    forall q | q in t.polls && q.session == session ::
      op.Ask? && q.request == op.request && q.deadline == op.now + Min(op.timeoutMs, MAX_TIMEOUT_MS)
  }

  /** A pending poll's request is left unanswered by a step if and only if the
      step defers another poll of its own session or disconnects that session.
      Then nothing is sent, and no earlier poll of the session is pending any
      more. Otherwise the poll is still pending or has just been answered. */
  lemma UnansweredExactly(h: Hub, op: Op, p: Poll)
    requires Good(h) && p in h.polls
    ensures var t, r := Next(h, op), Request(p.session, p.request);
      && (Cancels(h, op, p.session) <==> Unanswered(t)[r] > Unanswered(h)[r])
      && (Cancels(h, op, p.session) ==> t.outbox == h.outbox && OnlyTheNewPoll(t, op, p.session))
      && (!Cancels(h, op, p.session) ==> p in t.polls || AnswerSince(t, |h.outbox|, p))
  {
    hide Steady, Next, Unanswered, Defers, RequestsOf, Without, Answers;
    LostExactly(h, op);
    RequestOfOne(h.polls, p);
    if op.Ask? || op.Disconnect? { RequestsAreOf(h.polls, op.session); }
    if Cancels(h, op, p.session) {
      CancelSendsNothing(h, op, p.session);
    } else {
      OtherwiseServed(h, op, p);
    }
  }

  lemma CancelSendsNothing(h: Hub, op: Op, session: nat)
    requires Good(h) && Cancels(h, op, session)
    ensures Next(h, op).outbox == h.outbox && OnlyTheNewPoll(Next(h, op), op, session)
  {
    hide Good, AskPoll, Without, RequestsOf, Queue, Take;
    WithoutSplits(h.polls, session);
    if op.Ask? {
      AskKeepsDropped(h, op.session, op.request, op.timeoutMs, op.now);
    } else {
      DisconnectDrops(h, session);
    }
  }

  lemma OtherwiseServed(h: Hub, op: Op, p: Poll)
    requires Good(h) && p in h.polls && !Cancels(h, op, p.session)
    ensures var t := Next(h, op);
      h.outbox <= t.outbox && (p in t.polls || AnswerSince(t, |h.outbox|, p))
  {
    hide Good, AskPoll, Without, RequestsOf, Queue, Take, Push, ResolveEach, Answers, Defers;
    match op
    case Ask(session, request, timeoutMs, now) => AskServesOthers(h, session, request, timeoutMs, now, p);
    case PushSession(session, event, capped) =>
      if session in h.sessions { PushKeepsPolls(h, OfSession(session), event, capped); }
    case Route(agent, event) => PushKeepsPolls(h, OfAgent(agent), event, true);
    case Resolve(now) => ResolveDropsNone(h, now);
    case Disconnect(session) =>
      DisconnectDrops(h, session);
      OthersStay(h.polls, session, p);
    case _ =>
  }

  lemma AskServesOthers(h: Hub, session: nat, request: string, timeoutMs: nat, now: nat, p: Poll)
    requires Good(h) && p in h.polls && !(session == p.session && Defers(h, session, timeoutMs))
    ensures var t := AskPoll(h, session, request, timeoutMs, now);
      h.outbox <= t.outbox && p in t.polls
  {
    hide Good, Without, RequestsOf, Answer, Queue;
    if session in h.sessions && h.sessions[session].agent.Some? {
      AskKeepsDropped(h, session, request, timeoutMs, now);
      AskOutboxGrows(h, session, request, timeoutMs, now);
      if session != p.session { OthersStay(h.polls, session, p); }
    }
  }

  lemma AskOutboxGrows(h: Hub, session: nat, request: string, timeoutMs: nat, now: nat)
    requires Good(h)
    ensures h.outbox <= AskPoll(h, session, request, timeoutMs, now).outbox
  {
    hide Conserved, Explained, NoEarlyEmpty, Counted, Answer, Queue, Without, RequestsOf;
    if session in h.sessions && h.sessions[session].agent.Some? {
      var g := h.(asked := h.asked + multiset{Request(session, request)});
      SteadyFrame(h, g);
      AnswerShape(g, session, h.sessions[session].agent.value, request, now, None);
    }
  }

  // ---- Whole runs ----

  /** No step of the run ends the session's pending poll without an answer. */
  predicate Undisturbed(h: Hub, ops: seq<Op>, session: nat)
    decreases |ops|
  {
    ops == [] || (!Cancels(h, ops[0], session) && Undisturbed(Next(h, ops[0]), ops[1..], session))
  }

  lemma OutboxGrows(h: Hub, op: Op)
    requires Good(h)
    ensures h.outbox <= Next(h, op).outbox
  {
    hide Good, AskPoll, Without, RequestsOf, Queue, Take, Push, ResolveEach;
    match op
    case Ask(session, request, timeoutMs, now) => AskOutboxGrows(h, session, request, timeoutMs, now);
    case PushSession(session, event, capped) =>
      if session in h.sessions { PushKeepsPolls(h, OfSession(session), event, capped); }
    case Route(agent, event) => PushKeepsPolls(h, OfAgent(agent), event, true);
    case Resolve(now) => ResolveDropsNone(h, now);
    case Disconnect(session) => DisconnectDrops(h, session);
    case _ =>
  }

  lemma AnswerStays(h: Hub, t: Hub, from: nat, p: Poll)
    requires AnswerSince(h, from, p) && h.outbox <= t.outbox
    ensures AnswerSince(t, from, p)
  {
    hide Answers;
    var k: nat :| from <= k < |h.outbox| && Answers(h.outbox[k], p);
    assert t.outbox[k] == h.outbox[k];
  }

  lemma {:induction false} OutboxGrowsOverRun(h: Hub, ops: seq<Op>)
    requires Good(h)
    ensures h.outbox <= Run(h, ops).outbox
    decreases |ops|
  {
    hide Good, Next;
    if ops == [] {
    } else {
      OutboxGrows(h, ops[0]);
      NextKeepsGood(h, ops[0]);
      OutboxGrowsOverRun(Next(h, ops[0]), ops[1..]);
    }
  }

  /** A pending poll that nothing cancels stays pending until it is answered. */
  lemma {:induction false} PendingIsServed(h: Hub, ops: seq<Op>, p: Poll)
    requires Good(h) && p in h.polls && Undisturbed(h, ops, p.session)
    ensures p in Run(h, ops).polls || AnswerSince(Run(h, ops), |h.outbox|, p)
    decreases |ops|
  {
    hide Good, Next, Cancels, AnswerSince;
    if ops == [] {
    } else {
      var t := Next(h, ops[0]);
      NextKeepsGood(h, ops[0]);
      OutboxGrows(h, ops[0]);
      OtherwiseServed(h, ops[0], p);
      if p in t.polls {
        PendingIsServed(t, ops[1..], p);
        if AnswerSince(Run(t, ops[1..]), |t.outbox|, p) {
          SinceEarlier(Run(t, ops[1..]), |h.outbox|, |t.outbox|, p);
        }
      } else {
        OutboxGrowsOverRun(t, ops[1..]);
        AnswerStays(t, Run(t, ops[1..]), |h.outbox|, p);
      }
    }
  }

  lemma SinceEarlier(h: Hub, from: nat, later: nat, p: Poll)
    requires from <= later && AnswerSince(h, later, p)
    ensures AnswerSince(h, from, p)
  {
    hide Answers;
  }

  lemma {:induction false} RunSplit(h: Hub, xs: seq<Op>, ys: seq<Op>)
    ensures Run(h, xs + ys) == Run(Run(h, xs), ys)
    decreases |xs|
  {
    hide Next;
    if xs == [] {
      assert xs + ys == ys;
    } else {
      assert (xs + ys)[1..] == xs[1..] + ys;
      RunSplit(Next(h, xs[0]), xs[1..], ys);
    }
  }

  /** In every run: a poll that is put off is pending with its capped deadline,
      and from then on, as long as its session neither has another poll put off
      nor disconnects, it is still pending or has been answered. */
  lemma DeferredIsServed(before: seq<Op>, session: nat, request: string, timeoutMs: nat, now: nat, after: seq<Op>)
    requires var h := Run(STARTED, before);
      && Defers(h, session, timeoutMs)
      && Undisturbed(Next(h, Ask(session, request, timeoutMs, now)), after, session)
    ensures var h, op := Run(STARTED, before), Ask(session, request, timeoutMs, now);
      var p := Poll(session, h.sessions[session].agent.value, now + Min(timeoutMs, MAX_TIMEOUT_MS), request);
      var t := Run(STARTED, before + [op] + after);
      p in t.polls || AnswerSince(t, |h.outbox|, p)
  {
    hide Good, AskPoll, Defers, AnswerSince, Run, Undisturbed, Without, RequestsOf;
    StartedGood();
    RunKeepsGood(STARTED, before);
    var h, op := Run(STARTED, before), Ask(session, request, timeoutMs, now);
    DeferredAgent(h, session, timeoutMs);
    AskKeepsDropped(h, session, request, timeoutMs, now);
    NextKeepsGood(h, op);
    var p := Poll(session, h.sessions[session].agent.value, now + Min(timeoutMs, MAX_TIMEOUT_MS), request);
    PendingIsServed(Next(h, op), after, p);
    RunSplit(STARTED, before + [op], after);
    RunSplit(STARTED, before, [op]);
    RunOne(h, op);
  }

  lemma DeferredAgent(h: Hub, session: nat, timeoutMs: nat)
    requires Defers(h, session, timeoutMs)
    ensures session in h.sessions && h.sessions[session].agent.Some?
  {
    hide Queue;
  }

  lemma RunOne(h: Hub, op: Op)
    ensures Run(h, [op]) == Next(h, op)
  {
    hide Next;
    assert [op][1..] == [];
  }

  /** Once a resolve happens at or after its deadline, it has been answered. */
  lemma AnsweredByDeadline(h: Hub, ops: seq<Op>, p: Poll, now: nat)
    requires Good(h) && p in h.polls && Undisturbed(h, ops + [Resolve(now)], p.session) && now >= p.deadline
    ensures AnswerSince(Run(h, ops + [Resolve(now)]), |h.outbox|, p)
  {
    hide Good, Next, Run, Undisturbed, AnswerSince;
    PendingIsServed(h, ops + [Resolve(now)], p);
    RunSplit(h, ops, [Resolve(now)]);
    RunOne(Run(h, ops), Resolve(now));
    ResolveLeavesWaiting(Run(h, ops), now);
  }

  /** A later poll silently takes the place of an earlier one. */
  lemma PollDropped()
    ensures var h := Run(STARTED, [Connect, Hello(1, Codex), Ask(1, "a", 1000, 0), Ask(1, "b", 1000, 1)]);
      && h.polls == [Poll(1, Codex, 1001, "b")] && h.outbox == []
      && Unanswered(h) == multiset{Request(1, "a")}
  {
    hide Run, Next;
    var ops := [Connect, Hello(1, Codex)];
    var a, b := Ask(1, "a", 1000, 0), Ask(1, "b", 1000, 1);
    assert [Connect, Hello(1, Codex), a, b] == (([Connect] + [Hello(1, Codex)]) + [a]) + [b];
    RunSplit(STARTED, ([Connect] + [Hello(1, Codex)]) + [a], [b]);
    RunSplit(STARTED, [Connect] + [Hello(1, Codex)], [a]);
    RunSplit(STARTED, [Connect], [Hello(1, Codex)]);
    RunOne(STARTED, Connect);
    var one := Next(STARTED, Connect);
    RunOne(one, Hello(1, Codex));
    var two := Next(one, Hello(1, Codex));
    RunOne(two, a);
    var three := Next(two, a);
    RunOne(three, b);
    TwoConnected();
    TwoPolls(two);
  }

  lemma TwoConnected()
    ensures Next(Next(STARTED, Connect), Hello(1, Codex))
      == STARTED.(nextSession := 2, sessions := map[1 := Session(Some(Codex), [])])
  {}

  lemma FirstPoll(two: Hub)
    requires two == STARTED.(nextSession := 2, sessions := map[1 := Session(Some(Codex), [])])
    ensures Next(two, Ask(1, "a", 1000, 0))
      == two.(polls := [Poll(1, Codex, 1000, "a")], asked := multiset{Request(1, "a")})
  {
    hide Answer;
    assert two.polls == [];
  }

  lemma SecondPoll(one: Hub, p: Poll)
    requires one.sessions == map[1 := Session(Some(Codex), [])] && one.queues == [[], [], [], []]
    requires one.polls == [p] && p.session == 1
    ensures var h := Next(one, Ask(1, "b", 1000, 1));
      && h.polls == [Poll(1, Codex, 1001, "b")] && h.outbox == one.outbox
      && h.asked == one.asked + multiset{Request(1, "b")}
  {
    hide Answer, RequestsOf;
    assert one.polls[1..] == [];
    assert Without(one.polls, 1) == [];
    assert [] + [Poll(1, Codex, 1001, "b")] == [Poll(1, Codex, 1001, "b")];
  }

  lemma TwoPolls(two: Hub)
    requires two == STARTED.(nextSession := 2, sessions := map[1 := Session(Some(Codex), [])])
    ensures var h := Next(Next(two, Ask(1, "a", 1000, 0)), Ask(1, "b", 1000, 1));
      && h.polls == [Poll(1, Codex, 1001, "b")] && h.outbox == []
      && Unanswered(h) == multiset{Request(1, "a")}
  {
    hide Next;
    FirstPoll(two);
    SecondPoll(Next(two, Ask(1, "a", 1000, 0)), Poll(1, Codex, 1000, "a"));
    PendingOne(Poll(1, Codex, 1001, "b"));
    var h := Next(Next(two, Ask(1, "a", 1000, 0)), Ask(1, "b", 1000, 1));
    assert AnsweredRequests(h.outbox) == multiset{};
    assert h.asked == multiset{Request(1, "a")} + multiset{Request(1, "b")};
  }
}
