/** Pairing new-task replies with requests, over every run. */
module NewTaskPairing {
  import opened Bytes
  import opened Text
  import opened NewTaskModel

  // ---- Lines ----

  lemma FirstNewlineIs(s: string, i: nat)
    requires i < |s| && s[i] == '\n' && forall j | 0 <= j < i :: s[j] != '\n'
    ensures FirstNewline(s) == i
  {}

  lemma NoNewline(s: string)
    requires FirstNewline(s) == |s|
    ensures CutLines(s) == Cut([], s)
  {}

  lemma FirstCut(s: string)
    requires FirstNewline(s) < |s|
    ensures CutLines(s).lines == [s[..FirstNewline(s)]] + CutLines(s[FirstNewline(s) + 1..]).lines
    ensures CutLines(s).rest == CutLines(s[FirstNewline(s) + 1..]).rest
  {
    hide FirstNewline;
  }

  lemma {:induction false} RestHasNoNewline(s: string)
    ensures FirstNewline(CutLines(s).rest) == |CutLines(s).rest|
    decreases |s|
  {
    if FirstNewline(s) < |s| {
      RestHasNoNewline(s[FirstNewline(s) + 1..]);
    }
  }

  lemma {:induction false} CutAppend(s: string, t: string)
    ensures CutLines(s + t).lines == CutLines(s).lines + CutLines(CutLines(s).rest + t).lines
    ensures CutLines(s + t).rest == CutLines(CutLines(s).rest + t).rest
    decreases |s|
  {
    hide CutLines, FirstNewline;
    var i := FirstNewline(s);
    if i == |s| {
      NoNewline(s);
    } else {
      FirstNewlineIs(s + t, i);
      FirstCut(s);
      FirstCut(s + t);
      assert (s + t)[..i] == s[..i] && (s + t)[i + 1..] == s[i + 1..] + t;
      CutAppend(s[i + 1..], t);
      var later := CutLines(CutLines(s).rest + t).lines;
      assert [s[..i]] + (CutLines(s[i + 1..]).lines + later) == ([s[..i]] + CutLines(s[i + 1..]).lines) + later;
    }
  }

  lemma {:induction false} ResultsAppend(parse: Parser, xs: seq<string>, ys: seq<string>)
    ensures Results(parse, xs + ys) == Results(parse, xs) + Results(parse, ys)
    decreases |xs|
  {
    hide Trim;
    if xs == [] {
      assert xs + ys == ys;
    } else {
      assert (xs + ys)[1..] == xs[1..] + ys;
      ResultsAppend(parse, xs[1..], ys);
    }
  }

  // ---- Invariants ----

  /** The results of a connection, and while it is open the buffer, are those of
      the text it was opened with followed by the text it received. */
  ghost predicate Framed(parse: Parser, c: Client) {
    && FirstNewline(c.buffer) == |c.buffer|
    && (forall i | i in c.conns ::
          c.conns[i].results == Results(parse, CutLines(c.conns[i].leftover + c.conns[i].received).lines))
    && (c.socket.Some? ==>
          && c.socket.value in c.conns
          && c.buffer == CutLines(c.conns[c.socket.value].leftover + c.conns[c.socket.value].received).rest)
  }

  /** While results never outnumber requests, the waiters are the requests of the
      open connection that have had no reply. */
  predicate Queued(q: Conn, waiters: seq<nat>) {
    q.unsolicited == 0 ==> |q.results| <= |q.requests| && waiters == q.requests[|q.results|..]
  }

  ghost predicate Paired(c: Client) {
    && (forall i | i in c.conns :: i < c.nextConn)
    && (c.connected ==> c.socket.Some?)
    && (!c.connected ==> c.waiters == [])
    && (c.socket.Some? ==> !c.stopped && (c.connecting || c.connected))
    && (c.socket.Some? ==> c.socket.value in c.conns && Queued(c.conns[c.socket.value], c.waiters))
    && (forall r | r in c.settled && c.settled[r].ByReply? :: RepliedRightly(c, r))
  }

  /** A request settled by reply got the result with its own number on the
      connection it was sent on. */
  ghost predicate RepliedRightly(c: Client, r: nat)
    requires r in c.settled && c.settled[r].ByReply?
  {
    var s := c.settled[r];
    && s.conn in c.conns && s.index < |c.conns[s.conn].results|
    && c.conns[s.conn].results[s.index] == s.handled
    && (c.conns[s.conn].unsolicited == 0 ==>
          s.index < |c.conns[s.conn].requests| && c.conns[s.conn].requests[s.index] == r)
  }

  /** Every request made is settled or waits on the open connection. */
  ghost predicate NoneLost(c: Client) {
    && (forall r: nat | r < c.nextRequest :: r in c.settled || r in c.waiters)
    && (forall r | r in c.settled :: r < c.nextRequest)
    && (forall r | r in c.waiters :: r < c.nextRequest)
  }

  ghost predicate Good(parse: Parser, c: Client) {
    Framed(parse, c) && Paired(c) && NoneLost(c)
  }

  lemma {:induction false} FailAllEffect(settled: map<nat, Settlement>, waiters: seq<nat>)
    ensures var f := FailAll(settled, waiters);
      && (forall r :: r in f <==> r in settled || r in waiters)
      && (forall r | r in settled :: f[r] == settled[r])
      && (forall r | r in f && r !in settled :: f[r] == ByFailure)
    decreases |waiters|
  {
    if waiters == [] {
    } else {
      FailAllEffect(Settle(settled, waiters[0], ByFailure), waiters[1..]);
      assert forall r :: r in waiters <==> r == waiters[0] || r in waiters[1..];
    }
  }

  lemma FailKeeps(c: Client, d: Client)
    requires Paired(c) && NoneLost(c)
    requires d.settled == FailAll(c.settled, c.waiters) && d.waiters == [] && d.conns == c.conns
    requires d.socket == None && !d.connected &&  d.nextConn == c.nextConn && d.nextRequest == c.nextRequest
    ensures Paired(d) && NoneLost(d)
  {
    FailAllEffect(c.settled, c.waiters);
    forall r | r in d.settled && d.settled[r].ByReply? ensures RepliedRightly(d, r) {
      assert RepliedRightly(c, r);
    }
  }

  // ---- One reply ----

  lemma DeliverOneQueues(c: Client, conn: nat, handled: bool)
    requires conn in c.conns && Queued(c.conns[conn], c.waiters)
    ensures Queued(DeliverOne(c, conn, handled).conns[conn], DeliverOne(c, conn, handled).waiters)
  {
    var q := c.conns[conn];
    if c.waiters != [] && q.unsolicited == 0 {
      assert q.requests[|q.results|..][1..] == q.requests[|q.results| + 1..];
    }
  }

  lemma DeliverOneReplies(c: Client, conn: nat, handled: bool, r: nat)
    requires conn in c.conns && Queued(c.conns[conn], c.waiters)
    requires r in c.settled && c.settled[r].ByReply? ==> RepliedRightly(c, r)
    requires r in DeliverOne(c, conn, handled).settled && DeliverOne(c, conn, handled).settled[r].ByReply?
    ensures RepliedRightly(DeliverOne(c, conn, handled), r)
  {
    if r in c.settled {
      hide Queued;
      EarlierReplyStays(c, conn, handled, r);
    } else {
      NewReplyIsRight(c, conn, handled, r);
    }
  }

  lemma EarlierReplyStays(c: Client, conn: nat, handled: bool, r: nat)
    requires conn in c.conns && r in c.settled && c.settled[r].ByReply? && RepliedRightly(c, r)
    ensures var d := DeliverOne(c, conn, handled);
      r in d.settled && d.settled[r] == c.settled[r] && RepliedRightly(d, r)
  {
    hide Queued, DeliverOne;
    DeliverOneSettled(c, conn, handled, r);
    DeliverOneHistory(c, conn, handled, c.settled[r].conn);
  }

  lemma DeliverOneSettled(c: Client, conn: nat, handled: bool, r: nat)
    requires conn in c.conns && r in c.settled
    ensures r in DeliverOne(c, conn, handled).settled && DeliverOne(c, conn, handled).settled[r] == c.settled[r]
  {}

  lemma DeliverOneHistory(c: Client, conn: nat, handled: bool, i: nat)
    requires conn in c.conns && i in c.conns
    ensures var d := DeliverOne(c, conn, handled);
      && i in d.conns && d.conns[i].requests == c.conns[i].requests && c.conns[i].results <= d.conns[i].results
      && (d.conns[i].unsolicited == 0 ==> c.conns[i].unsolicited == 0)
  {}

  lemma NewReplyIsRight(c: Client, conn: nat, handled: bool, r: nat)
    requires conn in c.conns && Queued(c.conns[conn], c.waiters)
    requires r !in c.settled && r in DeliverOne(c, conn, handled).settled
    ensures DeliverOne(c, conn, handled).settled[r].ByReply? && RepliedRightly(DeliverOne(c, conn, handled), r)
  {
    var q := c.conns[conn];
    assert r == c.waiters[0];
    assert q.unsolicited == 0 ==> q.requests[|q.results|..][0] == q.requests[|q.results|];
  }

  lemma DeliverOnePairs(c: Client, conn: nat, handled: bool)
    requires Paired(c) && c.socket == Some(conn)
    ensures Paired(DeliverOne(c, conn, handled))
  {
    hide NoneLost, Framed, Queued, RepliedRightly, Settle;
    var d := DeliverOne(c, conn, handled);
    DeliverOneQueues(c, conn, handled);
    forall r | r in d.settled && d.settled[r].ByReply?
      ensures RepliedRightly(d, r)
    {
      DeliverOneReplies(c, conn, handled, r);
    }
  }

  lemma DeliverOneLosesNone(c: Client, conn: nat, handled: bool)
    requires NoneLost(c) && conn in c.conns
    ensures NoneLost(DeliverOne(c, conn, handled))
  {
    if c.waiters != [] {
      assert c.waiters[0] in c.waiters;
      assert forall r :: r in c.waiters <==> r == c.waiters[0] || r in c.waiters[1..];
    }
  }

  lemma DeliverOneKeeps(c: Client, conn: nat, handled: bool)
    requires Paired(c) && NoneLost(c) && c.socket == Some(conn)
    ensures var d := DeliverOne(c, conn, handled);
      && Paired(d) && NoneLost(d) && d.socket == c.socket && d.buffer == c.buffer
      && d.conns.Keys == c.conns.Keys
      && (forall i | i in c.conns && i != conn :: d.conns[i] == c.conns[i])
      && d.conns[conn].leftover == c.conns[conn].leftover && d.conns[conn].received == c.conns[conn].received
      && d.conns[conn].results == c.conns[conn].results + [handled]
  {
    hide NoneLost, RepliedRightly, Queued;
    DeliverOnePairs(c, conn, handled);
    DeliverOneLosesNone(c, conn, handled);
  }

  lemma {:induction false} DeliverKeeps(c: Client, conn: nat, results: seq<bool>)
    requires Paired(c) && NoneLost(c) && c.socket == Some(conn)
    ensures var d := Deliver(c, conn, results);
      && Paired(d) && NoneLost(d) && d.socket == c.socket && d.buffer == c.buffer
      && d.conns.Keys == c.conns.Keys
      && (forall i | i in c.conns && i != conn :: d.conns[i] == c.conns[i])
      && d.conns[conn].leftover == c.conns[conn].leftover && d.conns[conn].received == c.conns[conn].received
      && d.conns[conn].results == c.conns[conn].results + results
    decreases |results|
  {
    hide Paired, NoneLost, DeliverOne;
    PairedSocket(c);
    if results == [] {
      assert c.conns[conn].results + [] == c.conns[conn].results;
    } else {
      DeliverOneKeeps(c, conn, results[0]);
      var d := DeliverOne(c, conn, results[0]);
      DeliverKeeps(d, conn, results[1..]);
      assert (c.conns[conn].results + [results[0]]) + results[1..] == c.conns[conn].results + results;
    }
  }

  lemma PairedSocket(c: Client)
    requires Paired(c) && c.socket.Some?
    ensures c.socket.value in c.conns
  {}

  /** The client once text has been appended, before its lines are handled. */
  ghost function Appended(c: Client, conn: nat, data: string): Client
    requires conn in c.conns
  {
    c.(buffer := CutLines(c.buffer + data).rest,
       conns := c.conns[conn := c.conns[conn].(received := c.conns[conn].received + data)])
  }

  lemma AppendedKeeps(parse: Parser, c: Client, conn: nat, data: string)
    requires Good(parse, c) && c.socket == Some(conn)
    ensures Paired(Appended(c, conn, data)) && NoneLost(Appended(c, conn, data))
  {
    hide CutLines, Results, FirstNewline, NoneLost;
    var mid := Appended(c, conn, data);
    NoneLostFrame(c, mid);
    forall r | r in mid.settled && mid.settled[r].ByReply? ensures RepliedRightly(mid, r) {
      assert RepliedRightly(c, r);
    }
  }

  /** The new lines are those that the whole text has beyond the old ones. */
  lemma NewResults(parse: Parser, c: Client, conn: nat, data: string)
    requires Good(parse, c) && c.socket == Some(conn)
    ensures var q, cut := c.conns[conn], CutLines(c.buffer + data);
      && Results(parse, CutLines(q.leftover + (q.received + data)).lines) == q.results + Results(parse, cut.lines)
      && CutLines(q.leftover + (q.received + data)).rest == cut.rest
  {
    hide CutLines, Results, FirstNewline, Paired, NoneLost;
    var q, cut := c.conns[conn], CutLines(c.buffer + data);
    CutAppend(q.leftover + q.received, data);
    assert (q.leftover + q.received) + data == q.leftover + (q.received + data);
    ResultsAppend(parse, CutLines(q.leftover + q.received).lines, cut.lines);
  }

  lemma ReceiveKeeps(parse: Parser, c: Client, conn: nat, data: string)
    requires Good(parse, c) && c.socket == Some(conn)
    ensures Good(parse, Receive(parse, c, conn, data))
  {
    hide CutLines, Results, FirstNewline, Deliver, NoneLost;
    AppendedKeeps(parse, c, conn, data);
    DeliverKeeps(Appended(c, conn, data), conn, Results(parse, CutLines(c.buffer + data).lines));
    NewResults(parse, c, conn, data);
    RestHasNoNewline(c.buffer + data);
    assert Framed(parse, Receive(parse, c, conn, data));
  }

  lemma NoneLostFrame(c: Client, d: Client)
    requires NoneLost(c) && d.settled == c.settled && d.waiters == c.waiters && d.nextRequest == c.nextRequest
    ensures NoneLost(d)
  {}

  lemma OpenKeeps(parse: Parser, c: Client)
    requires Good(parse, c)
    ensures Good(parse, Open(c))
  {
    hide Results;
    var d := Open(c);
    if d != c {
      NoNewline(c.buffer);
      assert c.buffer + "" == c.buffer;
      assert Results(parse, []) == [] by { NoResults(parse); }
      forall r | r in d.settled && d.settled[r].ByReply? ensures RepliedRightly(d, r) {
        assert RepliedRightly(c, r);
      }
    }
  }

  lemma NoResults(parse: Parser)
    ensures Results(parse, []) == []
  {}

  // ---- Every event ----

  lemma CloseKeeps(parse: Parser, c: Client, d: Client)
    requires Good(parse, c) && d.settled == FailAll(c.settled, c.waiters) && d.waiters == [] && d.conns == c.conns
    requires d.socket == None && !d.connected && d.nextConn == c.nextConn && d.nextRequest == c.nextRequest
    requires FirstNewline(d.buffer) == |d.buffer|
    ensures Good(parse, d)
  {
    hide CutLines, Results, FirstNewline;
    FailKeeps(c, d);
  }

  lemma RequestKeeps(parse: Parser, c: Client)
    requires Good(parse, c)
    ensures Good(parse, Next(parse, c, Request))
  {
    hide CutLines, Results, FirstNewline;
    var d := Next(parse, c, Request);
    if c.connected {
      var q := c.conns[c.socket.value];
      assert q.unsolicited == 0 ==>
        (q.requests + [c.nextRequest])[|q.results|..] == q.requests[|q.results|..] + [c.nextRequest];
    }
    forall r | r in d.settled && d.settled[r].ByReply? ensures RepliedRightly(d, r) {
      assert RepliedRightly(c, r);
    }
  }

  lemma TimeoutKeeps(parse: Parser, c: Client, request: nat)
    requires Good(parse, c)
    ensures Good(parse, Next(parse, c, Timeout(request)))
  {
    hide CutLines, Results, FirstNewline;
    var d := Next(parse, c, Timeout(request));
    forall r | r in d.settled && d.settled[r].ByReply? ensures RepliedRightly(d, r) {
      assert RepliedRightly(c, r);
    }
  }

  /** Flags that no invariant but the socket's own depends on. */
  lemma FlagsKeep(parse: Parser, c: Client, d: Client)
    requires Good(parse, c)
    requires d == c.(stopped := d.stopped, reconnectDue := d.reconnectDue, connecting := d.connecting, connected := d.connected)
    requires d.connected ==> d.socket.Some?
    requires !d.connected ==> d.waiters == []
    requires d.socket.Some? ==> !d.stopped && (d.connecting || d.connected)
    ensures Good(parse, d)
  {
    hide CutLines, Results, FirstNewline;
    forall r | r in d.settled && d.settled[r].ByReply? ensures RepliedRightly(d, r) {
      assert RepliedRightly(c, r);
    }
  }

  lemma ClearedBuffer(parse: Parser, c: Client)
    requires Good(parse, c) && c.socket.None?
    ensures Good(parse, c.(buffer := ""))
  {
    hide Results, CutLines;
    var d := c.(buffer := "");
    forall r | r in d.settled && d.settled[r].ByReply? ensures RepliedRightly(d, r) {
      assert RepliedRightly(c, r);
    }
  }

  lemma NextKeepsGood(parse: Parser, c: Client, e: Event)
    requires Good(parse, c)
    ensures Good(parse, Next(parse, c, e))
  {
    hide Framed, NoneLost, Open, Receive, FailAll, RepliedRightly, Queued;
    match e
    case Start =>
      if c.stopped {
        FlagsKeep(parse, c, c.(stopped := false));
        OpenKeeps(parse, c.(stopped := false));
      }
    case Stop =>
      BufferCut(parse, c);
      CloseKeeps(parse, c, Next(parse, c, e));
    case Reconnect =>
      if !c.stopped {
        var d := c.(reconnectDue := false);
        FlagsKeep(parse, c, d);
        if c.socket.None? {
          ClearedBuffer(parse, d);
          var f := d.(buffer := "", connected := false, connecting := false);
          FlagsKeep(parse, d.(buffer := ""), f);
          OpenKeeps(parse, f);
        }
      }
    case ReconnectTimer =>
      if c.reconnectDue {
        FlagsKeep(parse, c, c.(reconnectDue := false));
        OpenKeeps(parse, c.(reconnectDue := false));
      }
    case SocketConnect(conn) => FlagsKeep(parse, c, Next(parse, c, e));
    case SocketData(conn, data) =>
      if c.socket == Some(conn) { ReceiveKeeps(parse, c, conn, data); }
    case SocketClose(conn) =>
      if c.socket == Some(conn) {
        CloseKeeps(parse, c, Next(parse, c, e));
      }
    case Request => RequestKeeps(parse, c);
    case Timeout(request) => TimeoutKeeps(parse, c, request);
  }

  lemma BufferCut(parse: Parser, c: Client)
    requires Framed(parse, c)
    ensures FirstNewline(c.buffer) == |c.buffer|
  {}

  lemma {:induction false} RunKeepsGood(parse: Parser, c: Client, events: seq<Event>)
    requires Good(parse, c)
    ensures Good(parse, Run(parse, c, events))
    decreases |events|
  {
    hide Good, Next;
    if events == [] {
    } else {
      NextKeepsGood(parse, c, events[0]);
      RunKeepsGood(parse, Next(parse, c, events[0]), events[1..]);
    }
  }

  /** Settlements are final. */
  lemma {:induction false} DeliverSettles(c: Client, conn: nat, results: seq<bool>)
    requires conn in c.conns
    ensures forall r | r in c.settled ::
      r in Deliver(c, conn, results).settled && Deliver(c, conn, results).settled[r] == c.settled[r]
    decreases |results|
  {
    if results == [] {
    } else {
      DeliverSettles(DeliverOne(c, conn, results[0]), conn, results[1..]);
    }
  }

  lemma SettledForGood(parse: Parser, c: Client, e: Event, r: nat)
    requires r in c.settled
    ensures r in Next(parse, c, e).settled && Next(parse, c, e).settled[r] == c.settled[r]
  {
    hide CutLines, Results, Deliver, FailAll;
    FailAllEffect(c.settled, c.waiters);
    if e.SocketData? && c.socket == Some(e.conn) && e.conn in c.conns {
      var q := c.conns[e.conn];
      var cut := CutLines(c.buffer + e.data);
      DeliverSettles(c.(buffer := cut.rest, conns := c.conns[e.conn := q.(received := q.received + e.data)]),
                     e.conn, Results(parse, cut.lines));
    }
  }

  lemma GoodCreated(parse: Parser)
    ensures Good(parse, CREATED)
  {}

  lemma OpenIsKnown(parse: Parser, c: Client)
    requires Good(parse, c) && c.socket.Some?
    ensures c.socket.value in c.conns
  {}

  /** A settlement stays for the rest of the run, and a timer that goes off for a
      request made by then settles it at the latest. */
  lemma {:induction false} RunSettles(parse: Parser, c: Client, events: seq<Event>, r: nat)
    requires r in c.settled || (r < c.nextRequest && Timeout(r) in events)
    ensures r in Run(parse, c, events).settled
    ensures r in c.settled ==> Run(parse, c, events).settled[r] == c.settled[r]
    decreases |events|
  {
    hide Next;
    if events == [] {
    } else {
      var d := Next(parse, c, events[0]);
      if r in c.settled {
        SettledForGood(parse, c, events[0], r);
      } else if events[0] == Timeout(r) {
        TimerSettles(parse, c, r);
      } else {
        RequestsStay(parse, c, events[0]);
        assert Timeout(r) in events[1..];
      }
      RunSettles(parse, d, events[1..], r);
    }
  }

  lemma TimerSettles(parse: Parser, c: Client, r: nat)
    requires r < c.nextRequest
    ensures r in Next(parse, c, Timeout(r)).settled
  {
    hide CutLines, Results, FirstNewline, Deliver, FailAll;
  }

  lemma {:induction false} DeliverKeepsNumbers(c: Client, conn: nat, results: seq<bool>)
    requires conn in c.conns
    ensures Deliver(c, conn, results).nextRequest == c.nextRequest
    decreases |results|
  {
    if results == [] {
    } else {
      DeliverKeepsNumbers(DeliverOne(c, conn, results[0]), conn, results[1..]);
    }
  }

  lemma RequestsStay(parse: Parser, c: Client, e: Event)
    ensures c.nextRequest <= Next(parse, c, e).nextRequest
  {
    hide CutLines, Results, FirstNewline, Deliver, FailAll;
    if e.SocketData? && c.socket == Some(e.conn) && e.conn in c.conns {
      DeliverKeepsNumbers(Appended(c, e.conn, e.data), e.conn, Results(parse, CutLines(c.buffer + e.data).lines));
    }
  }

  lemma {:induction false} RunSplit(parse: Parser, c: Client, before: seq<Event>, after: seq<Event>)
    ensures Run(parse, c, before + after) == Run(parse, Run(parse, c, before), after)
    decreases |before|
  {
    hide Next;
    if before == [] {
      assert before + after == after;
    } else {
      assert (before + after)[1..] == before[1..] + after;
      RunSplit(parse, Next(parse, c, before[0]), before[1..], after);
    }
  }

  /** In every run: a promise settled by a reply got exactly the reply with its
      own number on the connection its request was sent on, as long as replies
      never outnumbered requests there, however many requests timed out in
      between; no reply crosses to another connection; every request ever made is
      settled or waits on the connection now open; a promise that was settled at
      any earlier point still is, in the same way; and a promise whose timer has
      gone off since its request was made is settled. */
  lemma EveryRun(parse: Parser, before: seq<Event>, after: seq<Event>)
    ensures var b, c := Run(parse, CREATED, before), Run(parse, CREATED, before + after);
      && (forall r | r in c.settled && c.settled[r].ByReply? :: RepliedRightly(c, r))
      && (forall r: nat | r < c.nextRequest :: r in c.settled || (r in c.waiters && c.connected))
      && (forall i | i in c.conns ::
            c.conns[i].results == Results(parse, CutLines(c.conns[i].leftover + c.conns[i].received).lines))
      && (forall r | r in b.settled :: r in c.settled && c.settled[r] == b.settled[r])
      && (forall r: nat | r < b.nextRequest && Timeout(r) in after :: r in c.settled)
  {
    hide Next, Run;
    GoodCreated(parse);
    RunKeepsGood(parse, CREATED, before + after);
    RunSplit(parse, CREATED, before, after);
    var b := Run(parse, CREATED, before);
    forall r: nat | r in b.settled || (r < b.nextRequest && Timeout(r) in after)
      ensures r in Run(parse, b, after).settled
      ensures r in b.settled ==> Run(parse, b, after).settled[r] == b.settled[r]
    {
      RunSettles(parse, b, after, r);
    }
  }

  // ---- What a leftover line buffer does ----

  /** Only characters that trimming removes. */
  predicate Blank(s: string) {
    forall i | 0 <= i < |s| :: IsSpace(s[i])
  }

  lemma {:induction false} TrimBlankPrefix(b: string, s: string)
    requires Blank(b)
    ensures TrimStart(IsSpace, b + s) == TrimStart(IsSpace, s)
    decreases |b|
  {
    if b == [] {
      assert b + s == s;
    } else {
      assert (b + s)[1..] == b[1..] + s;
      TrimBlankPrefix(b[1..], s);
    }
  }

  lemma {:induction false} TrimStartFinds(s: string)
    ensures TrimStart(IsSpace, s) == [] <==> Blank(s)
    ensures TrimStart(IsSpace, s) != [] ==> !IsSpace(TrimStart(IsSpace, s)[0])
    decreases |s|
  {
    if s != [] && IsSpace(s[0]) {
      TrimStartFinds(s[1..]);
      assert Blank(s) <==> Blank(s[1..]) by {
        assert forall i | 0 <= i < |s[1..]| :: s[1..][i] == s[i + 1];
      }
    }
  }

  lemma {:induction false} TrimEndKeepsFirst(s: string)
    requires s != [] && !IsSpace(s[0])
    ensures TrimEnd(IsSpace, s) != []
    decreases |s|
  {
    if IsSpace(s[|s| - 1]) {
      TrimEndKeepsFirst(s[..|s| - 1]);
    }
  }

  lemma TrimEmpty(s: string)
    ensures Trim(s) == [] <==> Blank(s)
  {
    TrimStartFinds(s);
    if TrimStart(IsSpace, s) != [] { TrimEndKeepsFirst(TrimStart(IsSpace, s)); }
  }

  /** A blank leftover is harmless whatever arrives after it ... */
  lemma BlankLeftover(parse: Parser, b: string, s: string)
    requires FirstNewline(b) == |b| && Blank(b)
    ensures Results(parse, CutLines(b + s).lines) == Results(parse, CutLines(s).lines)
  {
    hide Results, CutLines, FirstNewline, Trim;
    var i := FirstNewline(s);
    if i == |s| {
      assert FirstNewline(b + s) == |b + s| by { NewlineAfter(b, s); }
      NoNewline(s);
      NoNewline(b + s);
    } else {
      NewlineAfter(b, s);
      FirstCut(s);
      FirstCut(b + s);
      assert (b + s)[..|b| + i] == b + s[..i];
      assert (b + s)[|b| + i + 1..] == s[i + 1..];
      SameTrim(b, s[..i]);
      SameResult(parse, b + s[..i], s[..i], CutLines(s[i + 1..]).lines);
    }
  }

  lemma SameTrim(b: string, s: string)
    requires Blank(b)
    ensures Trim(b + s) == Trim(s)
  {
    TrimBlankPrefix(b, s);
  }

  lemma SameResult(parse: Parser, x: string, y: string, later: seq<string>)
    requires Trim(x) == Trim(y)
    ensures Results(parse, [x] + later) == Results(parse, [y] + later)
  {
    hide Trim;
    assert ([x] + later)[1..] == later && ([y] + later)[1..] == later;
  }

  lemma NewlineAfter(b: string, s: string)
    requires FirstNewline(b) == |b|
    ensures FirstNewline(b + s) == |b| + FirstNewline(s)
  {
    var i, all := FirstNewline(s), b + s;
    assert forall j | 0 <= j < |b| :: all[j] == b[j];
    assert forall j | 0 <= j < |s| :: all[|b| + j] == s[j];
    if i < |s| {
      FirstNewlineIs(all, |b| + i);
    }
  }

  /** ... and only a blank one is. Text kept from an earlier connection is put in
      front of the first line of the next one, which is what stop() followed by
      start() does; the results read on a connection are those of the text it
      received, for every parser and every text, if and only if the leftover is
      blank. */
  lemma LeftoverHarmlessExactly(b: string)
    requires FirstNewline(b) == |b|
    ensures Blank(b) <==> forall parse: Parser, s: string ::
      Results(parse, CutLines(b + s).lines) == Results(parse, CutLines(s).lines)
  {
    hide Results, CutLines, FirstNewline;
    if Blank(b) {
      forall parse: Parser, s: string
        ensures Results(parse, CutLines(b + s).lines) == Results(parse, CutLines(s).lines)
      {
        BlankLeftover(parse, b, s);
      }
    } else {
      LeftoverSwallows(b);
      assert Results(AllResults, CutLines(b + "\n").lines) != Results(AllResults, CutLines("\n").lines);
    }
  }

  function AllResults(line: string): Meaning {
    Result(true)
  }

  lemma LeftoverSwallows(b: string)
    requires FirstNewline(b) == |b| && !Blank(b)
    ensures Results(AllResults, CutLines(b + "\n").lines) == [true]
    ensures Results(AllResults, CutLines("\n").lines) == []
  {
    hide CutLines, Trim, FirstNewline;
    LineThen(b, "");
    LineThen("", "");
    assert "" + "\n" + "" == "\n" && b + "\n" + "" == b + "\n";
    assert FirstNewline("") == 0;
    NoNewline("");
    TrimEmpty(b);
    TrimEmpty("");
  }

  /** A line, its newline, and what follows. */
  lemma LineThen(line: string, later: string)
    requires FirstNewline(line) == |line|
    ensures CutLines(line + "\n" + later).lines == [line] + CutLines(later).lines
    ensures CutLines(line + "\n" + later).rest == CutLines(later).rest
  {
    hide CutLines;
    var s := line + "\n" + later;
    NewlineAfter(line, "\n" + later);
    assert s == line + ("\n" + later);
    assert FirstNewline("\n" + later) == 0;
    assert s[..|line|] == line && s[|line| + 1..] == later;
    FirstCut(s);
  }

  /** Replies whose lines are "t" and "f". */
  function Letter(line: string): Meaning {
    if line == "t" then Result(true) else if line == "f" then Result(false) else Other
  }

  lemma TwoLetters(first: string)
    requires first == "t" || first == "xt"
    ensures CutLines(first + "\n" + "f\n") == Cut([first, "f"], "")
    ensures Results(Letter, [first, "f"]) == if first == "t" then [true, false] else [false]
  {
    hide CutLines;
    OneWord(first);
    OneWord("f");
    LineThen(first, "f\n");
    LineThen("f", "");
    assert "f" + "\n" + "" == "f\n";
    assert FirstNewline("") == 0;
    NoNewline("");
    assert [first, "f"][1..] == ["f"] && ["f"][1..] == [];
  }

  lemma OneWord(s: string)
    requires s == "t" || s == "f" || s == "xt" || s == "x"
    ensures FirstNewline(s) == |s| && Trim(s) == s
  {
    if s == "xt" { assert s[1..] == "t" && s[1..][1..] == ""; } else { assert s[1..] == ""; }
  }

  /** A connection that leaves "x" in the buffer, a stop, a start, and two
      requests on the new connection. */
  const LEAVE_X: seq<Event> := [Start, SocketConnect(0), SocketData(0, "x"), Stop]
  const ASK_TWICE: seq<Event> := [Start, SocketConnect(1), Request, Request]

  function Four(c: Client, events: seq<Event>): Client
    requires |events| == 4
  {
    Next(Letter, Next(Letter, Next(Letter, Next(Letter, c, events[0]), events[1]), events[2]), events[3])
  }

  lemma RunFour(c: Client, events: seq<Event>)
    requires |events| == 4
    ensures Run(Letter, c, events) == Four(c, events)
  {
    hide Next, Run;
    RunStep(c, events);
    var c1 := Next(Letter, c, events[0]);
    RunStep(c1, events[1..]);
    var c2 := Next(Letter, c1, events[1]);
    assert events[1..][1..] == events[2..] && events[2..][1..] == events[3..];
    RunStep(c2, events[2..]);
    var c3 := Next(Letter, c2, events[2]);
    RunStep(c3, events[3..]);
    RunNothing(Next(Letter, c3, events[3]), events[3..][1..]);
  }

  lemma RunStep(c: Client, events: seq<Event>)
    requires events != []
    ensures Run(Letter, c, events) == Run(Letter, Next(Letter, c, events[0]), events[1..])
  {}

  lemma RunNothing(c: Client, events: seq<Event>)
    requires events == []
    ensures Run(Letter, c, events) == c
  {}

  lemma AfterLeaving()
    ensures Four(CREATED, LEAVE_X)
      == Client(None, false, false, true, "x", false, [], 1, 0, map[], map[0 := Conn("", "x", [], [], 0)])
  {
    hide CutLines, FirstNewline, Results;
    OneWord("x");
    NoNewline("x");
    assert "" + "x" == "x";
    NoResults(Letter);
  }

  lemma AfterAsking(conns: map<nat, Conn>)
    ensures Four(Client(None, false, false, true, "x", false, [], 1, 0, map[], conns), ASK_TWICE)
      == Client(Some(1), true, false, false, "x", false, [0, 1], 2, 2, map[],
                conns[1 := Conn("x", "", [0, 1], [], 0)])
  {
    assert [] + [0] + [1] == [0, 1];
  }

  lemma AfterReplies(conns: map<nat, Conn>, c: Client)
    requires c == Client(Some(1), true, false, false, "x", false, [0, 1], 2, 2, map[],
                         conns[1 := Conn("x", "", [0, 1], [], 0)])
    ensures var d := Next(Letter, c, SocketData(1, "t\nf\n"));
      && 1 in d.conns && d.conns[1] == Conn("x", "t\nf\n", [0, 1], [false], 0)
      && d.settled == map[0 := ByReply(1, 0, false)] && d.waiters == [1]
  {
    hide CutLines, Results, FirstNewline, Deliver;
    TwoLetters("xt");
    assert "x" + "t\nf\n" == "xt" + "\n" + "f\n";
    assert "" + "t\nf\n" == "t\nf\n";
    var mid := c.(buffer := "", conns := c.conns[1 := c.conns[1].(received := "t\nf\n")]);
    DeliverSingle(mid, 1, false);
  }

  lemma DeliverSingle(c: Client, conn: nat, handled: bool)
    requires conn in c.conns
    ensures Deliver(c, conn, [handled]) == DeliverOne(c, conn, handled)
  {
    hide DeliverOne;
    assert [handled][1..] == [];
  }

  /** Leftover text, a stop and a start: of the two replies received on the new
      connection the first is swallowed, and the first request is settled with
      the answer to the second. */
  lemma MispairedAfterStop()
    ensures var asked := Run(Letter, Run(Letter, CREATED, LEAVE_X), ASK_TWICE);
      var c := Next(Letter, asked, SocketData(1, "t\nf\n"));
      && 1 in c.conns && c.conns[1].requests == [0, 1] && c.conns[1].received == "t\nf\n"
      && Results(Letter, CutLines("t\nf\n").lines) == [true, false]
      && c.settled == map[0 := ByReply(1, 0, false)] && c.waiters == [1]
  {
    hide CutLines, Results, FirstNewline, Next, Run, Four;
    RunFour(CREATED, LEAVE_X);
    AfterLeaving();
    var before := Run(Letter, CREATED, LEAVE_X);
    RunFour(before, ASK_TWICE);
    AfterAsking(before.conns);
    AfterReplies(before.conns, Run(Letter, before, ASK_TWICE));
    TwoLetters("t");
    assert "t" + "\n" + "f\n" == "t\nf\n";
  }
}
