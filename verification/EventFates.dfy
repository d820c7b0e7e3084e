/** What became of every event: evictions happen only, and for agents exactly,
    when 256 later events arrive before the queue is emptied. */
module EventFates {
  import opened Bytes
  import opened Agents
  import opened EventModel
  import opened EventDelivery

  /** Only the sessions may differ, and none that has left comes back. */
  lemma SameFates(h: Hub, t: Hub)
    requires FatesRight(h)
    requires t.consumed == h.consumed && t.emptied == h.emptied && t.pushed == h.pushed
    requires h.nextSession <= t.nextSession
    requires forall id | id in t.sessions && id !in h.sessions :: id >= h.nextSession
    ensures FatesRight(t)
  {
    hide SourceFates;
    forall source: Source ensures SourceFates(t, source) {
      assert SourceFates(h, source);
      ElsewhereFates(h, t, source);
    }
  }

  /** Emptying the queue of `source`. */
  lemma TakeFates(h: Hub, t: Hub, source: Source, fate: Fate)
    requires FatesRight(h) && Conserved(h) && Shape(h)
    requires t.consumed == Settle(h.consumed, source, Queue(h, source), fate) && t.pushed == h.pushed
    requires t.emptied == h.emptied[source := At(h.emptied, source) + [|At(h.pushed, source)|]]
    requires t.nextSession == h.nextSession && t.sessions.Keys <= h.sessions.Keys
    requires !fate.Evicted?
    requires fate.Gone? ==> source.OfSession? && source.id !in t.sessions && source.id < t.nextSession
    ensures FatesRight(t)
  {
    hide Queue, Settle, Saved, Shape, SourceFates;
    forall other: Source ensures SourceFates(t, other) {
      assert SourceFates(h, other);
      if other == source {
        SettledEntries(h.consumed, source, Queue(h, source), fate);
        QueueWithinCap(h, source);
        assert Events(At(h.consumed, source)) + Queue(h, source) == At(h.pushed, source);
        TakenFates(h, t, source, fate);
      } else {
        SettledElsewhere(h.consumed, source, Queue(h, source), fate, other);
        ElsewhereFates(h, t, other);
      }
    }
  }

  /** Nothing happened at this source, but sessions may have come or gone. */
  lemma ElsewhereFates(h: Hub, t: Hub, other: Source)
    requires SourceFates(h, other)
    requires At(t.consumed, other) == At(h.consumed, other) && At(t.emptied, other) == At(h.emptied, other)
    requires At(t.pushed, other) == At(h.pushed, other)
    requires h.nextSession <= t.nextSession && (forall id | id in t.sessions && id !in h.sessions :: id >= h.nextSession)
    ensures SourceFates(t, other)
  {
    hide Saved;
  }

  lemma QueueWithinCap(h: Hub, source: Source)
    requires Shape(h)
    ensures source.OfAgent? ==> |Queue(h, source)| <= QUEUE_CAPACITY
  {}

  lemma SettledEntries(consumed: map<Source, seq<Entry>>, source: Source, events: seq<Event>, fate: Fate)
    ensures At(Settle(consumed, source, events, fate), source) == At(consumed, source) + Label(events, fate)
  {}

  lemma SettledElsewhere(consumed: map<Source, seq<Entry>>, source: Source, events: seq<Event>, fate: Fate, other: Source)
    requires other != source
    ensures At(Settle(consumed, source, events, fate), other) == At(consumed, other)
  {}

  lemma TakenFates(h: Hub, t: Hub, source: Source, fate: Fate)
    requires SourceFates(h, source) && !fate.Evicted?
    requires At(t.consumed, source) == At(h.consumed, source) + Label(Queue(h, source), fate)
    requires |At(h.consumed, source)| + |Queue(h, source)| == |At(h.pushed, source)| && t.pushed == h.pushed
    requires At(t.emptied, source) == At(h.emptied, source) + [|At(h.pushed, source)|]
    requires source.OfAgent? ==> |Queue(h, source)| <= QUEUE_CAPACITY && fate.Answered?
    requires source.OfSession? && fate.Gone? ==> source.id !in t.sessions && source.id < t.nextSession
    requires t.nextSession == h.nextSession && t.sessions.Keys <= h.sessions.Keys
    ensures SourceFates(t, source)
  {
    hide Queue, Saved;
    var entries, q, n := At(h.consumed, source), Queue(h, source), |At(h.pushed, source)|;
    var emptied := At(h.emptied, source);
    forall i: nat | i < n
      ensures Saved(emptied + [n], i) <==> Saved(emptied, i) || n <= i + QUEUE_CAPACITY
    {
      SavedOneMore(emptied, n, i);
    }
  }

  lemma SavedOneMore(emptied: seq<nat>, n: nat, i: nat)
    requires i < n
    ensures Saved(emptied + [n], i) <==> Saved(emptied, i) || n <= i + QUEUE_CAPACITY
  {
    var all := emptied + [n];
    assert all[|emptied|] == n;
    assert forall k | 0 <= k < |emptied| :: all[k] == emptied[k];
  }

  /** The event that makes room at a full queue. */
  lemma EvictedFates(h: Hub, t: Hub, source: Source, q: seq<Event>, event: Event)
    requires SourceFates(h, source) && |q| >= QUEUE_CAPACITY
    requires |At(h.consumed, source)| + |q| == |At(h.pushed, source)|
    requires At(t.consumed, source) == At(h.consumed, source) + Label(q[..1], Evicted)
    requires At(t.emptied, source) == At(h.emptied, source)
    requires At(t.pushed, source) == At(h.pushed, source) + [event]
    requires t.nextSession == h.nextSession && t.sessions.Keys == h.sessions.Keys
    ensures SourceFates(t, source)
  {
    var i := |At(h.consumed, source)|;
    assert !Saved(At(h.emptied, source), i);
    hide Saved;
  }

  lemma PushFates(h: Hub, source: Source, event: Event, capped: bool)
    requires FatesRight(h) && Conserved(h) && Shape(h) && Exists(h, source)
    ensures FatesRight(Push(h, source, event, capped))
  {
    hide SetQueue, Queue, Settle, SourceFates, Shape;
    var t := Push(h, source, event, capped);
    var q := Queue(h, source);
    var full := capped && |q| >= QUEUE_CAPACITY;
    SetQueueKeys(h, source, (if full then q[1..] else q) + [event]);
    forall other: Source ensures SourceFates(t, other) {
      assert SourceFates(h, other);
      if other != source {
        if full { SettledElsewhere(h.consumed, source, q[..1], Evicted, other); }
        ElsewhereFates(h, t, other);
      } else if full {
        assert Events(At(h.consumed, source)) + q == At(h.pushed, source);
        SettledEntries(h.consumed, source, q[..1], Evicted);
        EvictedFates(h, t, source, q, event);
      } else {
        LongerFates(h, t, source, event);
      }
    }
  }

  lemma LongerFates(h: Hub, t: Hub, source: Source, event: Event)
    requires SourceFates(h, source)
    requires At(t.consumed, source) == At(h.consumed, source) && At(t.emptied, source) == At(h.emptied, source)
    requires At(t.pushed, source) == At(h.pushed, source) + [event]
    requires t.nextSession == h.nextSession && t.sessions.Keys == h.sessions.Keys
    ensures SourceFates(t, source)
  {
    hide Saved;
  }

  lemma SetQueueKeys(h: Hub, source: Source, events: seq<Event>)
    ensures SetQueue(h, source, events).sessions.Keys == h.sessions.Keys
    ensures SetQueue(h, source, events) ==
      h.(sessions := SetQueue(h, source, events).sessions, queues := SetQueue(h, source, events).queues)
  {}

  lemma AnswerFates(h: Hub, session: nat, agent: AgentId, request: string, at: nat, deadline: Option<nat>)
    requires FatesRight(h) && Conserved(h) && Shape(h) && session in h.sessions
    ensures FatesRight(Answer(h, session, agent, request, at, deadline))
  {
    hide SetQueue, Queue, Settle, FatesRight, Conserved, Shape;
    var s, a, fate := OfSession(session), OfAgent(agent), Answered(|h.outbox|);
    var mid := Take(h, s, fate);
    SetQueueKeys(h, s, []);
    TakeShape(h, s, fate);
    TakeConserves(h, s, fate);
    TakeFates(h, mid, s, fate);
    SetQueueKeys(mid, a, []);
    TakeFates(mid, Answer(h, session, agent, request, at, deadline), a, fate);
  }

  lemma TakeShape(h: Hub, source: Source, fate: Fate)
    requires Shape(h) && Exists(h, source)
    ensures Shape(Take(h, source, fate))
    ensures Take(h, source, fate).sessions.Keys == h.sessions.Keys
  {
    hide SetQueue, Queue, Settle;
    SetQueueShape(h, source, []);
    ShapeFrame(SetQueue(h, source, []), Take(h, source, fate));
  }

  lemma {:induction false} ResolveFates(h: Hub, todo: seq<Poll>, now: nat)
    requires FatesRight(h) && Steady(h) && forall p | p in todo :: p.session in h.sessions
    ensures FatesRight(ResolveEach(h, todo, now))
    decreases |todo|
  {
    hide FatesRight, Answer, Ready, Conserved, Explained, Shape, NoEarlyEmpty;
    if todo == [] {
    } else {
      var p := todo[0];
      if Ready(h, p, now) {
        ReadyMeans(h, p, now);
        AnswerFates(h, p.session, p.agent, p.request, now, Some(p.deadline));
        AnswerSteady(h, p.session, p.agent, p.request, now, Some(p.deadline));
        AnswerKeeps(h, p.session, p.agent, p.request, now, Some(p.deadline));
        ResolveFates(Answer(h, p.session, p.agent, p.request, now, Some(p.deadline)), todo[1..], now);
      } else {
        var t := h.(polls := h.polls + [p]);
        SameFates(h, t);
        SteadyFrame(h, t);
        ResolveFates(t, todo[1..], now);
      }
    }
  }

  lemma DisconnectFates(h: Hub, session: nat)
    requires FatesRight(h) && Conserved(h) && Shape(h)
    ensures FatesRight(Next(h, Disconnect(session)))
  {
    hide FatesRight, Conserved, SetQueue, Queue, Settle, Without, RequestsOf;
    var t, s := Next(h, Disconnect(session)), OfSession(session);
    if session in h.sessions {
      SetQueueKeys(h, s, []);
      TakeFates(h, t, s, Gone);
    } else {
      SameFates(h, t);
    }
  }

  lemma NextKeepsFates(h: Hub, op: Op)
    requires Good(h) && FatesRight(h)
    ensures FatesRight(Next(h, op))
  {
    hide FatesRight, Conserved, Explained, NoEarlyEmpty, Accounted, Answer, Push, ResolveEach, Queue, Without, RequestsOf;
    match op
    case Connect => SameFates(h, Next(h, op));
    case Hello(session, agent) => SameFates(h, Next(h, op));
    case Ask(session, request, timeoutMs, now) => AskFates(h, session, request, timeoutMs, now);
    case PushSession(session, event, capped) =>
      if session in h.sessions { PushFates(h, OfSession(session), event, capped); }
    case Route(agent, event) => PushFates(h, OfAgent(agent), event, true);
    case Resolve(now) =>
      var t := h.(polls := []);
      SameFates(h, t);
      SteadyFrame(h, t);
      ResolveFates(t, h.polls, now);
    case Disconnect(session) => DisconnectFates(h, session);
  }

  lemma AskFates(h: Hub, session: nat, request: string, timeoutMs: nat, now: nat)
    requires Good(h) && FatesRight(h)
    ensures FatesRight(AskPoll(h, session, request, timeoutMs, now))
  {
    hide FatesRight, Conserved, Explained, NoEarlyEmpty, Counted, Shape, Answer, Queue, Without, RequestsOf;
    var g := h.(asked := h.asked + multiset{Request(session, request)});
    SameFates(h, g);
    SteadyFrame(h, g);
    var t := AskPoll(h, session, request, timeoutMs, now);
    if session in h.sessions && h.sessions[session].agent.Some? {
      AnswerFates(g, session, h.sessions[session].agent.value, request, now, None);
      if t.consumed == g.consumed && t.emptied == g.emptied && t.pushed == g.pushed
        && t.nextSession == g.nextSession && t.sessions == g.sessions {
        SameFates(g, t);
      }
    } else {
      SameFates(g, t);
    }
  }
}
