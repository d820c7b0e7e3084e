/** The daemon's sessions, pending polls and agent queues, updated in place. */
module EventHub {
  import opened Bytes
  import opened Agents
  import opened EventModel

  /** What answering does to the daemon's memory. */
  lemma AnswerMemory(h: Hub, session: nat, agent: AgentId, request: string, at: nat, deadline: Option<nat>)
    requires |h.queues| == AGENT_COUNT
    ensures var t := Answer(h, session, agent, request, at, deadline);
      && t.sessions == SetQueue(h, OfSession(session), []).sessions
      && t.queues == h.queues[Index(agent) := []]
      && t.polls == h.polls && t.nextSession == h.nextSession
      && t.outbox == h.outbox + if session in h.sessions then
           [Polled(session, agent, request, Queue(h, OfSession(session)) + h.queues[Index(agent)], at, deadline)]
         else []
  {
    hide Settle;
  }

  lemma DisconnectMemory(h: Hub, session: nat)
    ensures var t := Next(h, Disconnect(session));
      && t.sessions == h.sessions - {session} && t.queues == h.queues && t.nextSession == h.nextSession
      && t.polls == Without(h.polls, session)
  {
    hide Settle, Without, RequestsOf;
    if session in h.sessions {
      var t := Take(h, OfSession(session), Gone);
      assert t.sessions - {session} == h.sessions - {session};
    } else {
      assert h.sessions - {session} == h.sessions;
    }
  }

  class EventHub {
    var nextSession: nat
    var sessions: map<nat, Session>
    var polls: seq<Poll>
    var queues: seq<seq<Event>>
    // The same, with its history.
    ghost var hub: Hub

    ghost predicate Valid()
      reads this
    {
      && hub.nextSession == nextSession && hub.sessions == sessions && hub.polls == polls && hub.queues == queues
      && |queues| == AGENT_COUNT
    }

    constructor ()
      ensures Valid() && hub == STARTED
    {
      nextSession, sessions, polls := 1, map[], [];
      queues := [[], [], [], []];
      hub := STARTED;
    }

    method Connected() returns (session: nat)
      requires Valid()
      modifies this
      ensures Valid() && hub == Next(old(hub), Connect) && session == old(nextSession)
    {
      session := nextSession;
      sessions := sessions[session := Session(None, [])];
      nextSession := nextSession + 1;
      hub := Next(hub, Connect);
    }

    method HelloFrom(session: nat, agent: AgentId)
      requires Valid()
      modifies this
      ensures Valid() && hub == Next(old(hub), Hello(session, agent))
    {
      if session in sessions {
        sessions := sessions[session := sessions[session].(agent := Some(agent))];
      }
      hub := Next(hub, Hello(session, agent));
    }

    method DrainSession(session: nat) returns (events: seq<Event>)
      requires Valid()
      modifies this`sessions
      ensures events == Queue(old(hub), OfSession(session))
      ensures sessions == SetQueue(old(hub), OfSession(session), []).sessions
    {
      if session in sessions {
        events := sessions[session].events;
        sessions := sessions[session := sessions[session].(events := [])];
      } else {
        events := [];
      }
    }

    method DrainAgent(agent: AgentId) returns (events: seq<Event>)
      requires |queues| == AGENT_COUNT
      modifies this`queues
      ensures events == old(queues)[Index(agent)] && queues == old(queues)[Index(agent) := []]
    {
      events := queues[Index(agent)];
      queues := queues[Index(agent) := []];
    }

    /** Drains both sources of a poll and replies with whatever there is. */
    method Reply(session: nat, agent: AgentId, request: string, at: nat, deadline: Option<nat>)
      returns (sent: seq<Response>)
      requires Valid()
      modifies this
      ensures Valid() && hub == Answer(old(hub), session, agent, request, at, deadline)
      ensures hub.outbox == old(hub).outbox + sent
    {
      hide Answer;
      AnswerMemory(hub, session, agent, request, at, deadline);
      var events := DrainSession(session);
      var more := DrainAgent(agent);
      sent := if session in sessions then [Polled(session, agent, request, events + more, at, deadline)] else [];
      hub := Answer(hub, session, agent, request, at, deadline);
    }

    /** A poll_events call: answered now, or deferred and answered later. */
    method PollEvents(session: nat, request: string, timeoutMs: nat, now: nat) returns (sent: seq<Response>)
      requires Valid()
      modifies this
      ensures Valid() && hub == Next(old(hub), Ask(session, request, timeoutMs, now))
      ensures hub.outbox == old(hub).outbox + sent
    {
      hide Answer;
      sent := [];
      ghost var before := hub;
      hub := hub.(asked := hub.asked + multiset{Request(session, request)});
      if session !in sessions {
        hub := Next(before, Ask(session, request, timeoutMs, now));
        return;
      }
      if sessions[session].agent.None? {
        sent := [Refused(session, request)];
        hub := Next(before, Ask(session, request, timeoutMs, now));
        return;
      }
      var agent, wait := sessions[session].agent.value, Min(timeoutMs, MAX_TIMEOUT_MS);
      if sessions[session].events == [] && queues[Index(agent)] == [] && wait > 0 {
        polls := Without(polls, session) + [Poll(session, agent, now + wait, request)];
        hub := Next(before, Ask(session, request, timeoutMs, now));
      } else {
        sent := Reply(session, agent, request, now, None);
      }
    }

    method PushSessionEvent(session: nat, event: Event, capped: bool)
      requires Valid()
      modifies this
      ensures Valid() && hub == Next(old(hub), PushSession(session, event, capped))
    {
      hide Settle;
      if session in sessions {
        var events := sessions[session].events;
        if capped && |events| >= QUEUE_CAPACITY {
          events := events[1..];
        }
        sessions := sessions[session := sessions[session].(events := events + [event])];
      }
      hub := Next(hub, PushSession(session, event, capped));
    }

    method RouteEvent(agent: AgentId, event: Event)
      requires Valid()
      modifies this
      ensures Valid() && hub == Next(old(hub), Route(agent, event))
    {
      hide Settle;
      var queue := queues[Index(agent)];
      if |queue| >= QUEUE_CAPACITY {
        queue := queue[1..];
      }
      queues := queues[Index(agent) := queue + [event]];
      hub := Next(hub, Route(agent, event));
    }

    /** Goes once through the pending polls, keeping those that must wait. */
    method ResolvePendingPolls(now: nat) returns (sent: seq<Response>)
      requires Valid()
      modifies this
      ensures Valid() && hub == Next(old(hub), Resolve(now))
      ensures hub.outbox == old(hub).outbox + sent
    {
      hide Answer, SetQueue, AskPoll, Take, Push;
      sent := [];
      assert hub == old(hub);
      var todo := polls;
      ghost var result := Next(hub, Resolve(now));
      polls := [];
      hub := hub.(polls := []);
      var i := 0;
      assert todo[0..] == todo;
      while i < |todo|
        invariant i <= |todo| && Valid()
        invariant ResolveEach(hub, todo[i..], now) == result
        invariant hub.outbox == old(hub).outbox + sent
      {
        var poll := todo[i];
        assert todo[i..][0] == poll && todo[i..][1..] == todo[i + 1..];
        var waiting := poll.session in sessions && sessions[poll.session].events != [];
        if waiting || queues[Index(poll.agent)] != [] || now >= poll.deadline {
          assert Ready(hub, poll, now);
          var more := Reply(poll.session, poll.agent, poll.request, now, Some(poll.deadline));
          sent := sent + more;
        } else {
          assert !Ready(hub, poll, now);
          polls := polls + [poll];
          hub := hub.(polls := polls);
        }
        i := i + 1;
      }
    }

    method Disconnected(session: nat)
      requires Valid()
      modifies this
      ensures Valid() && hub == Next(old(hub), Disconnect(session))
    {
      hide Next;
      DisconnectMemory(hub, session);
      hub := Next(hub, Disconnect(session));
      sessions := sessions - {session};
      polls := Without(polls, session);
    }
  }
}
