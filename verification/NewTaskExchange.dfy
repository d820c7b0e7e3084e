/** Client and bridge together: whatever the network's cuts, timeouts and
    reconnects, a caller gets the bridge's verdict on its own request. */
module NewTaskExchange {
  import opened Bytes
  import opened NewTaskModel
  import opened Replies = PluginReplies
  import Pairing = NewTaskPairing
  import Settling = NewTaskAnswers

  /** How lines are printed and parsed; the JSON library is left abstract. */
  datatype Wire = Wire(parse: NewTaskModel.Parser, print_: Outbound -> string)

  /** Printed lines hold no newline and parse back; only a result is a result. */
  ghost predicate Faithful(w: Wire) {
    forall o: Outbound :: LineFaithful(w, o)
  }

  ghost predicate LineFaithful(w: Wire, o: Outbound) {
    var line := w.print_(o);
    && FirstNewline(line) == |line| && Trim(line) != []
    && w.parse(Trim(line)) == if o.NewTaskResult? then Result(o.handled) else Other
  }

  /** One letter per line: a wire that is faithful. */
  const LETTERS: Wire := Wire(Pairing.Letter,
    o => if o == NewTaskResult(true) then "t" else if o == NewTaskResult(false) then "f" else "x")

  lemma LettersAreFaithful()
    ensures Faithful(LETTERS)
  {
    Pairing.OneWord("t");
    Pairing.OneWord("f");
    Pairing.OneWord("x");
    forall o: Outbound ensures LineFaithful(LETTERS, o) {
      if o.NewTaskResult? {
        assert LETTERS.print_(o) == if o.handled then "t" else "f";
      } else {
        assert LETTERS.print_(o) == "x";
      }
    }
  }

  function Text(w: Wire, written: seq<Outbound>): string
    decreases |written|
  {
    if written == [] then "" else Text(w, written[..|written| - 1]) + w.print_(written[|written| - 1]) + "\n"
  }

  // ---- The whole system ----

  /** The bridge's end of one connection, and how much of what it wrote has
      reached the client. */
  datatype Link = Link(side: Side, delivered: nat)

  datatype System = System(client: Client, links: map<nat, Link>)

  const IDLE: System := System(CREATED, map[])

  function LinkOf(s: System, conn: nat): Link {
    if conn in s.links then s.links[conn] else Link(Fresh(0), 0)
  }

  /** A client event that is not data; the bridge handling one message, a
      new-task message only when one more was sent; the bridge writing a render
      line; the network delivering n more characters. */
  datatype Step =
    | ClientDoes(event: NewTaskModel.Event)
    | BridgeHandles(conn: nat, message: Message<int>, at: Moment)
    | BridgeRenders(conn: nat, body: string, alive: bool)
    | NetworkDelivers(conn: nat, n: nat)

  function SystemNext(w: Wire, s: System, step: Step): System {
    match step
    case ClientDoes(e) => if e.SocketData? then s else s.(client := Next(w.parse, s.client, e))
    case BridgeHandles(conn, message, at) =>
      var l := LinkOf(s, conn);
      if conn in s.client.conns && (message.NewTask? ==> |l.side.verdicts| < |s.client.conns[conn].requests|)
      then s.(links := s.links[conn := l.(side := Handle(l.side, message, at))])
      else s
    case BridgeRenders(conn, body, alive) =>
      var l := LinkOf(s, conn);
      if conn in s.client.conns then s.(links := s.links[conn := l.(side := Replies.Reply(l.side, Render(body), alive))])
      else s
    case NetworkDelivers(conn, n) =>
      var l := LinkOf(s, conn);
      var text := Text(w, l.side.written);
      if s.client.socket == Some(conn) && l.delivered + n <= |text| then
        System(Next(w.parse, s.client, SocketData(conn, text[l.delivered..l.delivered + n])),
               s.links[conn := l.(delivered := l.delivered + n)])
      else s
  }

  function SystemRun(w: Wire, s: System, steps: seq<Step>): System
    decreases |steps|
  {
    if steps == [] then s else SystemRun(w, SystemNext(w, s, steps[0]), steps[1..])
  }

  // ---- Text and answers ----

  lemma {:induction false} TextAnswers(w: Wire, written: seq<Outbound>)
    requires Faithful(w)
    ensures Results(w.parse, CutLines(Text(w, written)).lines) == Answers(written)
    ensures CutLines(Text(w, written)).rest == ""
    decreases |written|
  {
    hide CutLines, FirstNewline, Trim, Faithful, Results;
    if written == [] {
      Pairing.NoNewline("");
      Pairing.NoResults(w.parse);
    } else {
      var before, last := written[..|written| - 1], written[|written| - 1];
      var line := w.print_(last);
      TextAnswers(w, before);
      Pairing.CutAppend(Text(w, before), line + "\n");
      assert Text(w, written) == Text(w, before) + (line + "\n");
      assert "" + (line + "\n") == line + "\n";
      OneLine(w, last);
      Pairing.ResultsAppend(w.parse, CutLines(Text(w, before)).lines, [line]);
    }
  }

  lemma OneLine(w: Wire, o: Outbound)
    requires Faithful(w)
    ensures var line := w.print_(o);
      && CutLines(line + "\n") == Cut([line], "")
      && Results(w.parse, [line]) == if o.NewTaskResult? then [o.handled] else []
  {
    hide CutLines, FirstNewline, Trim;
    assert LineFaithful(w, o);
    var line := w.print_(o);
    Pairing.LineThen(line, "");
    assert line + "\n" + "" == line + "\n";
    Pairing.NoNewline("");
    assert [line][1..] == [];
  }

  /** Any part of the text received so far yields the first answers. */
  lemma PartialAnswers(w: Wire, written: seq<Outbound>, n: nat)
    requires Faithful(w) && n <= |Text(w, written)|
    ensures Results(w.parse, CutLines(Text(w, written)[..n]).lines) <= Answers(written)
  {
    hide CutLines, FirstNewline, Trim, Faithful, Results, Text, Answers;
    var text := Text(w, written);
    TextAnswers(w, written);
    Pairing.CutAppend(text[..n], text[n..]);
    assert text[..n] + text[n..] == text;
    Pairing.ResultsAppend(w.parse, CutLines(text[..n]).lines, CutLines(CutLines(text[..n]).rest + text[n..]).lines);
  }

  // ---- Invariant ----

  /** What holds of one connection: the client has received the delivered part of
      what the bridge wrote, the bridge answered requests in order and no more
      than were sent, and no result came unasked. */
  ghost predicate Linked(w: Wire, q: Conn, l: Link) {
    && Answering(l.side)
    && |l.side.verdicts| <= |q.requests|
    && l.delivered <= |Text(w, l.side.written)|
    && q.received == Text(w, l.side.written)[..l.delivered]
    && (Pairing.Blank(q.leftover) ==> q.unsolicited == 0)
  }

  ghost predicate Sound(w: Wire, s: System) {
    && Pairing.Good(w.parse, s.client)
    && (forall i | i in s.client.conns :: Linked(w, s.client.conns[i], LinkOf(s, i)))
    && (forall i | i in s.links :: i in s.client.conns)
    && (forall i | i in s.client.conns :: FirstNewline(s.client.conns[i].leftover) == |s.client.conns[i].leftover|)
  }

  /** On a connection opened with a blank buffer the results are the first
      verdicts. */
  lemma ResultsAreVerdicts(w: Wire, c: Client, i: nat, l: Link)
    requires Faithful(w) && Pairing.Good(w.parse, c) && i in c.conns && Linked(w, c.conns[i], l)
    requires Pairing.Blank(c.conns[i].leftover) && FirstNewline(c.conns[i].leftover) == |c.conns[i].leftover|
    ensures c.conns[i].results <= l.side.verdicts
  {
    hide CutLines, FirstNewline, Trim, Faithful, Results, Text, Answers, Pairing.Paired, Pairing.NoneLost;
    var q := c.conns[i];
    Pairing.BlankLeftover(w.parse, q.leftover, q.received);
    PartialAnswers(w, l.side.written, l.delivered);
  }

  /** Results that do not outnumber the requests all find someone waiting. */
  lemma {:induction false} NoneUnsolicited(c: Client, conn: nat, results: seq<bool>)
    requires Pairing.Paired(c) && Pairing.NoneLost(c) && c.socket == Some(conn)
    requires conn in c.conns && c.conns[conn].unsolicited == 0
    requires |c.conns[conn].results| + |results| <= |c.conns[conn].requests|
    ensures Deliver(c, conn, results).conns[conn].unsolicited == 0
    ensures Deliver(c, conn, results).conns[conn].requests == c.conns[conn].requests
    decreases |results|
  {
    hide Pairing.NoneLost, Pairing.RepliedRightly;
    if results == [] {
    } else {
      Pairing.DeliverOneKeeps(c, conn, results[0]);
      NoneUnsolicited(DeliverOne(c, conn, results[0]), conn, results[1..]);
    }
  }

  // ---- Every step ----

  lemma ReceiveLinks(w: Wire, c: Client, conn: nat, l: Link, n: nat)
    requires Faithful(w) && Pairing.Good(w.parse, c) && c.socket == Some(conn) && conn in c.conns
    requires Linked(w, c.conns[conn], l) && l.delivered + n <= |Text(w, l.side.written)|
    requires FirstNewline(c.conns[conn].leftover) == |c.conns[conn].leftover|
    ensures var d := Receive(w.parse, c, conn, Text(w, l.side.written)[l.delivered..l.delivered + n]);
      && d.conns.Keys == c.conns.Keys
      && (forall i | i in c.conns && i != conn :: d.conns[i] == c.conns[i])
      && d.conns[conn].leftover == c.conns[conn].leftover
      && Linked(w, d.conns[conn], l.(delivered := l.delivered + n))
  {
    hide CutLines, FirstNewline, Results, Deliver, Faithful, Text, Answering;
    hide Pairing.Paired, Pairing.NoneLost, Pairing.Blank, Pairing.Good;
    var text := Text(w, l.side.written);
    var data := text[l.delivered..l.delivered + n];
    var q := c.conns[conn];
    assert q.received + data == text[..l.delivered + n];
    var mid := Pairing.Appended(c, conn, data);
    var results := Results(w.parse, CutLines(c.buffer + data).lines);
    Pairing.AppendedKeeps(w.parse, c, conn, data);
    Pairing.DeliverKeeps(mid, conn, results);
    DeliverRequests(mid, conn, results);
    if Pairing.Blank(q.leftover) {
      Pairing.NewResults(w.parse, c, conn, data);
      Pairing.BlankLeftover(w.parse, q.leftover, q.received + data);
      PartialAnswers(w, l.side.written, l.delivered + n);
      AnsweringAtMost(l.side);
      NoneUnsolicited(mid, conn, results);
    }
  }

  lemma AnsweringAtMost(s: Side)
    requires Answering(s)
    ensures Answers(s.written) <= s.verdicts
  {}

  lemma {:induction false} DeliverRequests(c: Client, conn: nat, results: seq<bool>)
    requires conn in c.conns
    ensures Deliver(c, conn, results).conns[conn].requests == c.conns[conn].requests
    decreases |results|
  {
    if results == [] {
    } else {
      DeliverRequests(DeliverOne(c, conn, results[0]), conn, results[1..]);
    }
  }

  /** Events other than data leave what was received alone, may add a request to
      a connection, and may open a connection with what the buffer holds. */
  lemma OtherEvents(w: Wire, c: Client, e: NewTaskModel.Event)
    requires Pairing.Good(w.parse, c) && !e.SocketData?
    ensures var d := Next(w.parse, c, e);
      && (forall i | i in c.conns :: i in d.conns && d.conns[i] == c.conns[i].(requests := d.conns[i].requests)
                                   && c.conns[i].requests <= d.conns[i].requests)
      && (forall i | i in d.conns && i !in c.conns ::
            d.conns[i] == Conn(d.conns[i].leftover, "", [], [], 0)
            && FirstNewline(d.conns[i].leftover) == |d.conns[i].leftover|)
  {
    hide CutLines, Results, FailAll, Pairing.NoneLost;
  }

  lemma ClientKeepsSound(w: Wire, s: System, e: NewTaskModel.Event)
    requires Sound(w, s) && !e.SocketData?
    ensures Sound(w, s.(client := Next(w.parse, s.client, e)))
  {
    hide Next, CutLines, FirstNewline, Results, Pairing.Good, Pairing.Blank;
    Pairing.NextKeepsGood(w.parse, s.client, e);
    OtherEvents(w, s.client, e);
    var d := s.(client := Next(w.parse, s.client, e));
    forall i | i in d.client.conns ensures Linked(w, d.client.conns[i], LinkOf(d, i)) {
      if i in s.client.conns {
        assert Linked(w, s.client.conns[i], LinkOf(s, i));
      }
    }
  }

  /** The bridge only appends to what it has written. */
  lemma TextGrows(w: Wire, written: seq<Outbound>, o: Outbound)
    ensures Text(w, written) <= Text(w, written + [o])
  {
    assert (written + [o])[..|written|] == written;
  }

  lemma ReplyLinks(w: Wire, q: Conn, l: Link, o: Outbound, alive: bool)
    requires Linked(w, q, l)
    ensures var t := Replies.Reply(l.side, o, alive);
      l.delivered <= |Text(w, t.written)| && q.received == Text(w, t.written)[..l.delivered]
  {
    hide Text, Answering, Pairing.Blank;
    TextGrows(w, l.side.written, o);
  }

  lemma HandleLinks(w: Wire, q: Conn, l: Link, m: Message<int>, at: Moment)
    requires Linked(w, q, l) && (m.NewTask? ==> |l.side.verdicts| < |q.requests|)
    ensures Linked(w, q, l.(side := Handle(l.side, m, at)))
  {
    hide Text, Answering, Pairing.Blank;
    HandleKeepsAnswering(l.side, m, at);
    match m
    case Ping(timestamp) => ReplyLinks(w, q, l, Pong(timestamp), at.alive);
    case NewTask => ReplyLinks(w, q, l, NewTaskResult(Verdict(at.front)), at.alive);
    case _ =>
  }

  lemma RenderLinks(w: Wire, q: Conn, l: Link, body: string, alive: bool)
    requires Linked(w, q, l)
    ensures Linked(w, q, l.(side := Replies.Reply(l.side, Render(body), alive)))
  {
    hide Text, Pairing.Blank, Answers;
    ReplyLinks(w, q, l, Render(body), alive);
    AnswersOneMore(l.side.written, Render(body));
  }

  lemma LinkKeepsSound(w: Wire, s: System, conn: nat, l: Link)
    requires Sound(w, s) && conn in s.client.conns && Linked(w, s.client.conns[conn], l)
    ensures Sound(w, s.(links := s.links[conn := l]))
  {
    hide Linked, Pairing.Good, FirstNewline;
    var d := s.(links := s.links[conn := l]);
    forall i | i in d.client.conns ensures Linked(w, d.client.conns[i], LinkOf(d, i)) {
      if i != conn { assert LinkOf(d, i) == LinkOf(s, i); }
    }
  }

  lemma DeliveryKeepsSound(w: Wire, s: System, conn: nat, n: nat)
    requires Faithful(w) && Sound(w, s)
    ensures Sound(w, SystemNext(w, s, NetworkDelivers(conn, n)))
  {
    hide Linked, Pairing.Good, Receive, FirstNewline, Faithful, Text;
    var l := LinkOf(s, conn);
    var text := Text(w, l.side.written);
    if s.client.socket == Some(conn) && l.delivered + n <= |text| {
      var data := text[l.delivered..l.delivered + n];
      Pairing.OpenIsKnown(w.parse, s.client);
      ReceiveLinks(w, s.client, conn, l, n);
      Pairing.ReceiveKeeps(w.parse, s.client, conn, data);
      var d := SystemNext(w, s, NetworkDelivers(conn, n));
      assert d.client == Receive(w.parse, s.client, conn, data);
      forall i | i in d.client.conns ensures Linked(w, d.client.conns[i], LinkOf(d, i)) {
        if i != conn { assert LinkOf(d, i) == LinkOf(s, i); }
      }
    }
  }

  lemma StepKeepsSound(w: Wire, s: System, step: Step)
    requires Faithful(w) && Sound(w, s)
    ensures Sound(w, SystemNext(w, s, step))
  {
    hide Linked, Pairing.Good, Next, Receive, FirstNewline, Faithful, Text, Handle, Replies.Reply;
    match step
    case ClientDoes(e) =>
      if !e.SocketData? { ClientKeepsSound(w, s, e); }
    case BridgeHandles(conn, message, at) =>
      var l := LinkOf(s, conn);
      if conn in s.client.conns && (message.NewTask? ==> |l.side.verdicts| < |s.client.conns[conn].requests|) {
        HandleLinks(w, s.client.conns[conn], l, message, at);
        LinkKeepsSound(w, s, conn, l.(side := Handle(l.side, message, at)));
      }
    case BridgeRenders(conn, body, alive) =>
      var l := LinkOf(s, conn);
      if conn in s.client.conns {
        RenderLinks(w, s.client.conns[conn], l, body, alive);
        LinkKeepsSound(w, s, conn, l.(side := Replies.Reply(l.side, Render(body), alive)));
      }
    case NetworkDelivers(conn, n) => DeliveryKeepsSound(w, s, conn, n);
  }

  lemma {:induction false} RunKeepsSound(w: Wire, s: System, steps: seq<Step>)
    requires Faithful(w) && Sound(w, s)
    ensures Sound(w, SystemRun(w, s, steps))
    decreases |steps|
  {
    hide Sound, SystemNext, Faithful;
    if steps == [] {
    } else {
      StepKeepsSound(w, s, steps[0]);
      RunKeepsSound(w, SystemNext(w, s, steps[0]), steps[1..]);
    }
  }

  /** In every run of client, bridge and network: a request settled by a reply on
      a connection that was opened with a blank buffer gets the bridge's verdict
      on that very request, the one with the same number on that connection. */
  lemma OwnVerdict(w: Wire, steps: seq<Step>, r: nat)
    requires Faithful(w)
    requires var c := SystemRun(w, IDLE, steps).client;
      && r in c.settled && c.settled[r].ByReply?
      && c.settled[r].conn in c.conns && Pairing.Blank(c.conns[c.settled[r].conn].leftover)
    ensures var s := SystemRun(w, IDLE, steps);
      var how := s.client.settled[r];
      var verdicts := LinkOf(s, how.conn).side.verdicts;
      var requests := s.client.conns[how.conn].requests;
      && how.index < |verdicts| && how.handled == verdicts[how.index]
      && how.index < |requests| && requests[how.index] == r
  {
    hide SystemNext, SystemRun, Faithful, CutLines, Results, Text, FirstNewline, Pairing.NoneLost, Pairing.Framed, Pairing.Blank;
    assert Sound(w, IDLE) by { Pairing.GoodCreated(w.parse); }
    RunKeepsSound(w, IDLE, steps);
    var s := SystemRun(w, IDLE, steps);
    var how := s.client.settled[r];
    assert Pairing.RepliedRightly(s.client, r);
    assert Linked(w, s.client.conns[how.conn], LinkOf(s, how.conn));
    ResultsAreVerdicts(w, s.client, how.conn, LinkOf(s, how.conn));
  }

  // ---- Every answer that arrives settles its request ----

  lemma SystemKeepsAnswering(w: Wire, s: System, step: Step)
    requires Pairing.Good(w.parse, s.client) && Settling.Answering(s.client)
    ensures Settling.Answering(SystemNext(w, s, step).client)
  {
    hide Pairing.Good, Settling.Answering, Next, Text, Handle, Replies.Reply;
    if step.ClientDoes? {
      Settling.NextKeepsAnswering(w.parse, s.client, step.event);
    } else if step.NetworkDelivers? {
      var l := LinkOf(s, step.conn);
      var text := Text(w, l.side.written);
      if l.delivered + step.n <= |text| {
        Settling.NextKeepsAnswering(w.parse, s.client, SocketData(step.conn, text[l.delivered..l.delivered + step.n]));
      }
    }
  }

  lemma {:induction false} SystemRunKeepsAnswering(w: Wire, s: System, steps: seq<Step>)
    requires Faithful(w) && Sound(w, s) && Settling.Answering(s.client)
    ensures Settling.Answering(SystemRun(w, s, steps).client)
    decreases |steps|
  {
    hide Sound, SystemNext, Faithful, Settling.Answering;
    if steps == [] {
    } else {
      assert Pairing.Good(w.parse, s.client) by { SoundIsGood(w, s); }
      SystemKeepsAnswering(w, s, steps[0]);
      StepKeepsSound(w, s, steps[0]);
      SystemRunKeepsAnswering(w, SystemNext(w, s, steps[0]), steps[1..]);
    }
  }

  lemma SoundIsGood(w: Wire, s: System)
    requires Sound(w, s)
    ensures Pairing.Good(w.parse, s.client)
  {
    hide Pairing.Good, Linked;
  }

  lemma SystemTimesOutByTimer(w: Wire, s: System, step: Step, r: nat)
    requires !Settling.TimedOut(s.client, r) && step != ClientDoes(Timeout(r))
    ensures !Settling.TimedOut(SystemNext(w, s, step).client, r)
  {
    hide Next, Text, Handle, Replies.Reply, Settling.TimedOut;
    if step.ClientDoes? {
      Settling.OnlyItsTimer(w.parse, s.client, step.event, r);
    } else if step.NetworkDelivers? {
      var l := LinkOf(s, step.conn);
      var text := Text(w, l.side.written);
      if l.delivered + step.n <= |text| {
        Settling.OnlyItsTimer(w.parse, s.client, SocketData(step.conn, text[l.delivered..l.delivered + step.n]), r);
      }
    }
  }

  lemma {:induction false} TimedOutInRun(w: Wire, s: System, steps: seq<Step>, r: nat)
    requires !Settling.TimedOut(s.client, r) && Settling.TimedOut(SystemRun(w, s, steps).client, r)
    ensures ClientDoes(Timeout(r)) in steps
    decreases |steps|
  {
    hide SystemNext, Settling.TimedOut;
    if steps[0] != ClientDoes(Timeout(r)) {
      SystemTimesOutByTimer(w, s, steps[0], r);
      TimedOutInRun(w, SystemNext(w, s, steps[0]), steps[1..], r);
    }
  }

  /** Once everything written has been delivered, every answer has been read. */
  lemma AllDelivered(w: Wire, c: Client, i: nat, l: Link)
    requires Faithful(w) && Pairing.Good(w.parse, c) && i in c.conns && Linked(w, c.conns[i], l)
    requires Pairing.Blank(c.conns[i].leftover) && FirstNewline(c.conns[i].leftover) == |c.conns[i].leftover|
    requires l.delivered == |Text(w, l.side.written)|
    ensures c.conns[i].results == Answers(l.side.written)
  {
    hide CutLines, FirstNewline, Trim, Faithful, Results, Text, Answers, Pairing.Paired, Pairing.NoneLost;
    var q := c.conns[i];
    Pairing.BlankLeftover(w.parse, q.leftover, q.received);
    TextAnswers(w, l.side.written);
    assert Text(w, l.side.written)[..l.delivered] == Text(w, l.side.written);
  }

  /** Something the bridge tried to send on this connection was not taken. */
  predicate SendFails(step: Step, conn: nat) {
    match step
    case BridgeHandles(c, message, at) => c == conn && FailedSend(message, at)
    case BridgeRenders(c, _, alive) => c == conn && !alive
    case _ => false
  }

  predicate NoSendFails(steps: seq<Step>, conn: nat) {
    forall k | 0 <= k < |steps| :: !SendFails(steps[k], conn)
  }

  lemma StepStaysConnected(w: Wire, s: System, step: Step, conn: nat)
    requires !LinkOf(s, conn).side.disconnected && !SendFails(step, conn)
    ensures !LinkOf(SystemNext(w, s, step), conn).side.disconnected
  {
    hide Next, Text, Answers;
    if step.BridgeHandles? && step.conn == conn { HandleSends(LinkOf(s, conn).side, step.message, step.at); }
  }

  /** A bridge none of whose sends failed is connected. */
  lemma {:induction false} StaysConnected(w: Wire, s: System, steps: seq<Step>, conn: nat)
    requires !LinkOf(s, conn).side.disconnected && NoSendFails(steps, conn)
    ensures !LinkOf(SystemRun(w, s, steps), conn).side.disconnected
    decreases |steps|
  {
    hide SystemNext, SendFails;
    if steps == [] {
    } else {
      StepStaysConnected(w, s, steps[0], conn);
      StaysConnected(w, SystemNext(w, s, steps[0]), steps[1..], conn);
    }
  }

  /** In every run of client, bridge and network, on a connection opened with a
      blank buffer: the results read are the bridge's first verdicts, and each has
      settled its own request with that verdict, unless the request's timer ran
      out first. Once all that the bridge wrote has arrived, and none of its sends
      failed, that is so of every request it has handled. */
  lemma EveryAnswerSettles(w: Wire, steps: seq<Step>, i: nat)
    requires Faithful(w)
    requires var c := SystemRun(w, IDLE, steps).client; i in c.conns && Pairing.Blank(c.conns[i].leftover)
    ensures var s := SystemRun(w, IDLE, steps);
      var q, l := s.client.conns[i], LinkOf(s, i);
      && q.results <= l.side.verdicts && |l.side.verdicts| <= |q.requests|
      && (forall k: nat | k < |q.results| :: q.requests[k] in s.client.settled
            && (s.client.settled[q.requests[k]] == ByReply(i, k, l.side.verdicts[k])
                || (s.client.settled[q.requests[k]] == ByTimeout && ClientDoes(Timeout(q.requests[k])) in steps)))
      && (NoSendFails(steps, i) ==> !l.side.disconnected)
      && (!l.side.disconnected && l.delivered == |Text(w, l.side.written)| ==> q.results == l.side.verdicts)
  {
    hide SystemNext, SystemRun, Faithful, CutLines, Results, Text, FirstNewline, Answers, Pairing.Good, Pairing.Blank;
    assert Sound(w, IDLE) by { Pairing.GoodCreated(w.parse); }
    RunKeepsSound(w, IDLE, steps);
    SystemRunKeepsAnswering(w, IDLE, steps);
    var s := SystemRun(w, IDLE, steps);
    var q, l := s.client.conns[i], LinkOf(s, i);
    assert Linked(w, q, l);
    ResultsAreVerdicts(w, s.client, i, l);
    forall k: nat | k < |q.results|
      ensures q.requests[k] in s.client.settled
        && (s.client.settled[q.requests[k]] == ByReply(i, k, l.side.verdicts[k])
            || (s.client.settled[q.requests[k]] == ByTimeout && ClientDoes(Timeout(q.requests[k])) in steps))
    {
      assert Settling.SettledByResult(s.client, i, k);
      if Settling.TimedOut(s.client, q.requests[k]) { TimedOutInRun(w, IDLE, steps, q.requests[k]); }
    }
    if NoSendFails(steps, i) { StaysConnected(w, IDLE, steps, i); }
    if l.delivered == |Text(w, l.side.written)| { AllDelivered(w, s.client, i, l); }
  }
}
