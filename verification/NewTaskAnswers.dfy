/** Every result settles the request with its own number. */
module NewTaskAnswers {
  import opened Bytes
  import opened NewTaskModel
  import opened NewTaskPairing

  /** Result k of connection i has settled request k, which only its own timer
      can have done before. */
  ghost predicate SettledByResult(c: Client, i: nat, k: nat)
    requires i in c.conns && k < |c.conns[i].results|
  {
    var q := c.conns[i];
    && k < |q.requests| && q.requests[k] in c.settled
    && (c.settled[q.requests[k]] == ByReply(i, k, q.results[k]) || c.settled[q.requests[k]] == ByTimeout)
  }

  ghost predicate ResultsSettle(c: Client) {
    forall i, k: nat | i in c.conns && c.conns[i].unsolicited == 0 && k < |c.conns[i].results| :: SettledByResult(c, i, k)
  }

  /** Nobody waits twice, and whoever waits although settled has timed out. */
  ghost predicate WaitersFresh(c: Client) {
    && (forall x, y | 0 <= x < y < |c.waiters| :: c.waiters[x] != c.waiters[y])
    && (forall r | r in c.waiters && r in c.settled :: c.settled[r] == ByTimeout)
  }

  ghost predicate Answering(c: Client) {
    ResultsSettle(c) && WaitersFresh(c)
  }

  /** Settlements are final, results stay, and requests are only added. */
  ghost predicate Extends(c: Client, d: Client) {
    && (forall r | r in c.settled :: r in d.settled && d.settled[r] == c.settled[r])
    && (forall i | i in d.conns && d.conns[i].unsolicited == 0 && d.conns[i].results != [] ::
          i in c.conns && c.conns[i].unsolicited == 0
          && d.conns[i].results == c.conns[i].results && c.conns[i].requests <= d.conns[i].requests)
  }

  lemma ExtendsKeeps(c: Client, d: Client)
    requires ResultsSettle(c) && Extends(c, d)
    ensures ResultsSettle(d)
  {
    forall i, k: nat | i in d.conns && d.conns[i].unsolicited == 0 && k < |d.conns[i].results|
      ensures SettledByResult(d, i, k)
    {
      assert SettledByResult(c, i, k);
    }
  }

  // ---- One result ----

  lemma DeliverOneFresh(c: Client, conn: nat, handled: bool)
    requires WaitersFresh(c) && conn in c.conns
    ensures WaitersFresh(DeliverOne(c, conn, handled))
  {
    if c.waiters != [] {
      assert forall r | r in c.waiters[1..] :: r in c.waiters && r != c.waiters[0];
    }
  }

  lemma DeliverOneSettles(c: Client, conn: nat, handled: bool)
    requires Answering(c) && conn in c.conns && Queued(c.conns[conn], c.waiters)
    ensures ResultsSettle(DeliverOne(c, conn, handled))
  {
    hide Queued, SettledByResult;
    var d := DeliverOne(c, conn, handled);
    forall i, k: nat | i in d.conns && d.conns[i].unsolicited == 0 && k < |d.conns[i].results|
      ensures SettledByResult(d, i, k)
    {
      if i == conn && k == |c.conns[conn].results| {
        NewestSettles(c, conn, handled);
      } else {
        assert SettledByResult(c, i, k);
        EarlierStaySettled(c, conn, handled, i, k);
      }
    }
  }

  lemma NewestSettles(c: Client, conn: nat, handled: bool)
    requires WaitersFresh(c) && conn in c.conns && Queued(c.conns[conn], c.waiters)
    requires DeliverOne(c, conn, handled).conns[conn].unsolicited == 0
    ensures SettledByResult(DeliverOne(c, conn, handled), conn, |c.conns[conn].results|)
  {
    assert c.waiters[0] == c.conns[conn].requests[|c.conns[conn].results|];
    assert c.waiters[0] in c.waiters;
  }

  lemma EarlierStaySettled(c: Client, conn: nat, handled: bool, i: nat, k: nat)
    requires conn in c.conns && i in c.conns && k < |c.conns[i].results| && SettledByResult(c, i, k)
    ensures i in DeliverOne(c, conn, handled).conns && k < |DeliverOne(c, conn, handled).conns[i].results|
    ensures SettledByResult(DeliverOne(c, conn, handled), i, k)
  {
    hide DeliverOne;
    DeliverOneSettled(c, conn, handled, c.conns[i].requests[k]);
    DeliverOneHistory(c, conn, handled, i);
  }

  lemma {:induction false} DeliverSettlesEach(c: Client, conn: nat, results: seq<bool>)
    requires Answering(c) && Paired(c) && NoneLost(c) && c.socket == Some(conn)
    ensures conn in c.conns
    ensures Answering(Deliver(c, conn, results))
    decreases |results|
  {
    hide Paired, NoneLost, DeliverOne, ResultsSettle, WaitersFresh;
    PairedSocket(c);
    if results == [] {
    } else {
      OpenQueued(c, conn);
      DeliverOneFresh(c, conn, results[0]);
      DeliverOneSettles(c, conn, results[0]);
      DeliverOneKeeps(c, conn, results[0]);
      DeliverSettlesEach(DeliverOne(c, conn, results[0]), conn, results[1..]);
    }
  }

  lemma OpenQueued(c: Client, conn: nat)
    requires Paired(c) && c.socket == Some(conn)
    ensures conn in c.conns && Queued(c.conns[conn], c.waiters)
  {}

  // ---- Every event ----

  lemma ReceiveSettles(parse: Parser, c: Client, conn: nat, data: string)
    requires Answering(c) && Good(parse, c) && c.socket == Some(conn)
    ensures conn in c.conns
    ensures Answering(Receive(parse, c, conn, data))
  {
    hide CutLines, Results, Deliver, NoneLost;
    var mid := Appended(c, conn, data);
    AppendedKeeps(parse, c, conn, data);
    assert ResultsSettle(mid) by { ExtendsKeeps(c, mid); }
    DeliverSettlesEach(mid, conn, Results(parse, CutLines(c.buffer + data).lines));
  }

  lemma OpenAnswering(c: Client)
    requires Answering(c) && forall i | i in c.conns :: i < c.nextConn
    ensures Answering(Open(c))
  {
    ExtendsKeeps(c, Open(c));
  }

  /** Everyone who waited has been failed. */
  lemma FailAnswering(c: Client, d: Client)
    requires Answering(c) && d.settled == FailAll(c.settled, c.waiters) && d.waiters == [] && d.conns == c.conns
    ensures Answering(d)
  {
    FailAllEffect(c.settled, c.waiters);
    ExtendsKeeps(c, d);
  }

  lemma RequestAnswering(parse: Parser, c: Client)
    requires Answering(c) && Good(parse, c)
    ensures Answering(Next(parse, c, Request))
  {
    hide CutLines, Results, FirstNewline, Framed, ResultsSettle;
    var d := Next(parse, c, Request);
    RequestExtends(parse, c);
    ExtendsKeeps(c, d);
    forall x | 0 <= x < |c.waiters| ensures c.waiters[x] < c.nextRequest {
      assert c.waiters[x] in c.waiters;
    }
    assert WaitersFresh(d);
  }

  lemma RequestExtends(parse: Parser, c: Client)
    requires NoneLost(c)
    ensures Extends(c, Next(parse, c, Request))
  {
    hide CutLines, Results, FirstNewline, FailAll, Deliver;
  }

  lemma TimeoutAnswering(parse: Parser, c: Client, request: nat)
    requires Answering(c)
    ensures Answering(Next(parse, c, Timeout(request)))
  {
    hide Next, ResultsSettle;
    NextTimeout(parse, c, request);
    ExtendsKeeps(c, Next(parse, c, Timeout(request)));
  }

  lemma NextTimeout(parse: Parser, c: Client, request: nat)
    ensures Next(parse, c, Timeout(request)) ==
      if request < c.nextRequest then c.(settled := Settle(c.settled, request, ByTimeout)) else c
  {
    hide CutLines, Results, FirstNewline;
  }

  lemma FlagsAnswering(c: Client, d: Client)
    requires Answering(c) && d.settled == c.settled && d.waiters == c.waiters && d.conns == c.conns
    ensures Answering(d)
  {
    ExtendsKeeps(c, d);
  }

  lemma NextKeepsAnswering(parse: Parser, c: Client, e: Event)
    requires Answering(c) && Good(parse, c)
    ensures Answering(Next(parse, c, e))
  {
    hide Answering, Framed, NoneLost, Open, Receive, FailAll, RepliedRightly, Queued;
    match e
    case Start =>
      if c.stopped {
        FlagsAnswering(c, c.(stopped := false));
        OpenAnswering(c.(stopped := false));
      }
    case Stop => FailAnswering(c, Next(parse, c, e));
    case Reconnect =>
      if !c.stopped {
        FlagsAnswering(c, c.(reconnectDue := false));
        var f := c.(reconnectDue := false, buffer := "", connected := false, connecting := false);
        FlagsAnswering(c, f);
        OpenAnswering(f);
      }
    case ReconnectTimer =>
      if c.reconnectDue {
        FlagsAnswering(c, c.(reconnectDue := false));
        OpenAnswering(c.(reconnectDue := false));
      }
    case SocketConnect(conn) => FlagsAnswering(c, Next(parse, c, e));
    case SocketData(conn, data) =>
      if c.socket == Some(conn) { ReceiveSettles(parse, c, conn, data); }
    case SocketClose(conn) =>
      if c.socket == Some(conn) { FailAnswering(c, Next(parse, c, e)); }
    case Request => RequestAnswering(parse, c);
    case Timeout(request) => TimeoutAnswering(parse, c, request);
  }

  lemma {:induction false} RunKeepsAnswering(parse: Parser, c: Client, events: seq<Event>)
    requires Answering(c) && Good(parse, c)
    ensures Answering(Run(parse, c, events))
    decreases |events|
  {
    hide Answering, Good, Next;
    if events == [] {
    } else {
      NextKeepsAnswering(parse, c, events[0]);
      NextKeepsGood(parse, c, events[0]);
      RunKeepsAnswering(parse, Next(parse, c, events[0]), events[1..]);
    }
  }

  // ---- Only a request's own timer settles it as timed out ----

  predicate TimedOut(c: Client, r: nat) {
    r in c.settled && c.settled[r] == ByTimeout
  }

  lemma {:induction false} DeliverTimesNoneOut(c: Client, conn: nat, results: seq<bool>, r: nat)
    requires conn in c.conns && !TimedOut(c, r)
    ensures !TimedOut(Deliver(c, conn, results), r)
    decreases |results|
  {
    if results == [] {
    } else {
      DeliverTimesNoneOut(DeliverOne(c, conn, results[0]), conn, results[1..], r);
    }
  }

  lemma OnlyItsTimer(parse: Parser, c: Client, e: Event, r: nat)
    requires !TimedOut(c, r) && e != Timeout(r)
    ensures !TimedOut(Next(parse, c, e), r)
  {
    hide CutLines, Results, Deliver, FailAll;
    FailAllEffect(c.settled, c.waiters);
    if e.SocketData? && c.socket == Some(e.conn) && e.conn in c.conns {
      DeliverTimesNoneOut(Appended(c, e.conn, e.data), e.conn, Results(parse, CutLines(c.buffer + e.data).lines), r);
    }
  }

  lemma {:induction false} TimedOutByTimer(parse: Parser, c: Client, events: seq<Event>, r: nat)
    requires !TimedOut(c, r) && TimedOut(Run(parse, c, events), r)
    ensures Timeout(r) in events
    decreases |events|
  {
    hide Next;
    if events[0] != Timeout(r) {
      OnlyItsTimer(parse, c, events[0], r);
      TimedOutByTimer(parse, Next(parse, c, events[0]), events[1..], r);
    }
  }

  /** In every run, on every connection on which no result came unasked: the k-th
      result has settled the k-th request with its own value, unless that
      request's timer ran out, in whatever order the others timed out. */
  lemma EveryResultSettles(parse: Parser, events: seq<Event>, i: nat, k: nat)
    requires var c := Run(parse, CREATED, events);
      i in c.conns && c.conns[i].unsolicited == 0 && k < |c.conns[i].results|
    ensures var c := Run(parse, CREATED, events);
      && SettledByResult(c, i, k)
      && (TimedOut(c, c.conns[i].requests[k]) ==> Timeout(c.conns[i].requests[k]) in events)
  {
    hide Next, Run, Good;
    GoodCreated(parse);
    RunKeepsAnswering(parse, CREATED, events);
    var c := Run(parse, CREATED, events);
    assert SettledByResult(c, i, k);
    if TimedOut(c, c.conns[i].requests[k]) {
      TimedOutByTimer(parse, CREATED, events, c.conns[i].requests[k]);
    }
  }
}
