/** What holds of event delivery in every run. */
module EventRuns {
  import opened Agents
  import opened EventModel
  import opened EventDelivery
  import opened EventFates

  lemma {:induction false} RunKeepsFates(h: Hub, ops: seq<Op>)
    requires Good(h) && FatesRight(h)
    ensures Good(Run(h, ops)) && FatesRight(Run(h, ops))
    decreases |ops|
  {
    hide Good, FatesRight, Next;
    if ops == [] {
    } else {
      NextKeepsGood(h, ops[0]);
      NextKeepsFates(h, ops[0]);
      RunKeepsFates(Next(h, ops[0]), ops[1..]);
    }
  }

  /** Event number i of this source has been evicted. */
  predicate EvictedAt(h: Hub, source: Source, i: nat) {
    i < |At(h.consumed, source)| && At(h.consumed, source)[i].fate.Evicted?
  }

  /** An agent's event is evicted if and only if 256 others followed it before
      its queue was next emptied. */
  lemma EvictedExactly(h: Hub, agent: AgentId, i: nat)
    requires Conserved(h) && Shape(h) && SourceFates(h, OfAgent(agent)) && i < |At(h.pushed, OfAgent(agent))|
    ensures EvictedAt(h, OfAgent(agent), i) <==>
      i + QUEUE_CAPACITY < |At(h.pushed, OfAgent(agent))| && !Saved(At(h.emptied, OfAgent(agent)), i)
  {
    hide Saved, Queue;
    var source := OfAgent(agent);
    assert Events(At(h.consumed, source)) + Queue(h, source) == At(h.pushed, source);
    QueueWithinCap(h, source);
  }

  /** An event leaves its queue without being sent only in two ways. It is
      evicted: then at least 256 later events followed before the queue was next
      emptied, and at an agent's queue exactly then. Or it goes with its session:
      then the source is a session that has left, never an agent. */
  ghost predicate FatesMean(h: Hub) {
    && (forall source: Source, i: nat | EvictedAt(h, source, i) ::
          i + QUEUE_CAPACITY < |At(h.pushed, source)| && !Saved(At(h.emptied, source), i))
    && (forall agent: AgentId, i: nat | i < |At(h.pushed, OfAgent(agent))| ::
          EvictedAt(h, OfAgent(agent), i) <==>
            i + QUEUE_CAPACITY < |At(h.pushed, OfAgent(agent))| && !Saved(At(h.emptied, OfAgent(agent)), i))
    && (forall source: Source, i: nat | i < |At(h.consumed, source)| && At(h.consumed, source)[i].fate.Gone? ::
          source.OfSession? && source.id < h.nextSession && source.id !in h.sessions)
  }

  lemma FatesExplained(h: Hub)
    requires FatesRight(h) && Conserved(h) && Shape(h)
    ensures FatesMean(h)
  {
    hide Saved, EvictedAt, Conserved, Shape;
    forall source: Source, i: nat | EvictedAt(h, source, i)
      ensures i + QUEUE_CAPACITY < |At(h.pushed, source)| && !Saved(At(h.emptied, source), i)
    {
      assert SourceFates(h, source);
      EvictedFate(h, source, i);
    }
    forall agent: AgentId, i: nat | i < |At(h.pushed, OfAgent(agent))|
      ensures EvictedAt(h, OfAgent(agent), i) <==>
        i + QUEUE_CAPACITY < |At(h.pushed, OfAgent(agent))| && !Saved(At(h.emptied, OfAgent(agent)), i)
    {
      assert SourceFates(h, OfAgent(agent));
      EvictedExactly(h, agent, i);
    }
    forall source: Source, i: nat | i < |At(h.consumed, source)| && At(h.consumed, source)[i].fate.Gone?
      ensures source.OfSession? && source.id < h.nextSession && source.id !in h.sessions
    {
      assert SourceFates(h, source);
    }
  }

  lemma EvictedFate(h: Hub, source: Source, i: nat)
    requires SourceFates(h, source) && EvictedAt(h, source, i)
    ensures i + QUEUE_CAPACITY < |At(h.pushed, source)| && !Saved(At(h.emptied, source), i)
  {
    hide Saved;
  }

  /** In every run: at most one pending poll per session, and only for live
      sessions; every poll request was answered once, is pending, or was dropped,
      and none is two of these; every event queued at a source, in order, has
      exactly one fate or still waits; each response is made of the events with
      its number as fate, the session's before the agent's; events leave unsent
      only by the cap, at an agent exactly when it says so, or with their session;
      and a deferred poll is answered empty only from its deadline on. */
  lemma EveryRun(ops: seq<Op>)
    ensures var h := Run(STARTED, ops);
      && PollsDistinct(h, h.polls)
      && h.asked == AnsweredRequests(h.outbox) + PendingRequests(h.polls) + h.dropped
      && (forall source: Source :: Events(At(h.consumed, source)) + Queue(h, source) == At(h.pushed, source))
      && (forall k: nat | k < |h.outbox| :: ResponseExplained(h, k))
      && FatesMean(h)
      && NoEarlyEmpty(h)
      && (forall agent: AgentId :: |Queue(h, OfAgent(agent))| <= QUEUE_CAPACITY)
  {
    hide Next, Run, ResponseExplained, NoEarlyEmpty, FatesRight, FatesMean;
    StartedGood();
    StartedFates();
    RunKeepsFates(STARTED, ops);
    FatesExplained(Run(STARTED, ops));
  }

  lemma StartedFates()
    ensures FatesRight(STARTED)
  {}

  /** So a request made once is answered at most once, and not while it is still
      pending. */
  lemma AnsweredAtMostOnce(ops: seq<Op>, r: Request)
    requires Run(STARTED, ops).asked[r] == 1
    ensures var h := Run(STARTED, ops);
      AnsweredRequests(h.outbox)[r] + PendingRequests(h.polls)[r] + h.dropped[r] == 1
  {
    hide Run, AnsweredRequests, PendingRequests, NoEarlyEmpty, ResponseExplained, FatesMean;
    EveryRun(ops);
  }
}
