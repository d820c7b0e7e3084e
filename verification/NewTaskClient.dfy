/** The daemon client itself: its event handlers update the fields in place and
    take exactly the steps of the model. */
module NewTaskClient {
  import opened Bytes
  import opened NewTaskModel
  import Pairing = NewTaskPairing

  class DaemonClient {
    const parse: Parser

    var socket: Option<nat>
    var connected: bool
    var connecting: bool
    var stopped: bool
    var buffer: string
    var reconnectDue: bool
    var waiters: seq<nat>
    var resolved: map<nat, bool>
    var nextRequest: nat
    var nextConn: nat
    ghost var settled: map<nat, Settlement>
    ghost var conns: map<nat, Conn>

    /** A promise resolves to true only by a reply that says so. */
    ghost predicate Valid()
      reads this
    {
      && resolved.Keys == settled.Keys
      && forall r | r in settled :: resolved[r] == (settled[r].ByReply? && settled[r].handled)
    }

    ghost function View(): Client
      reads this
    {
      Client(socket, connected, connecting, stopped, buffer, reconnectDue, waiters, nextConn, nextRequest, settled, conns)
    }

    constructor (parse: Parser)
      ensures this.parse == parse && Valid() && View() == CREATED
    {
      this.parse := parse;
      socket, connected, connecting, stopped := None, false, false, true;
      buffer, reconnectDue, waiters := "", false, [];
      resolved, nextRequest, nextConn, settled, conns := map[], 0, 0, map[], map[];
    }

    method Start()
      requires Valid()
      modifies this
      ensures Valid()
      ensures View() == Next(parse, old(View()), Event.Start)
    {
      if !stopped { return; }
      stopped := false;
      Connect();
    }

    method Reconnect()
      requires Valid()
      modifies this
      ensures Valid()
      ensures View() == Next(parse, old(View()), Event.Reconnect)
    {
      hide CutLines, FirstNewline, Trim, Results, Deliver, FailAll, DeliverOne, Receive;
      if stopped { return; }
      reconnectDue := false;
      if socket.Some? { return; }
      buffer := "";
      connected := false;
      connecting := false;
      Connect();
    }

    method Stop()
      requires Valid()
      modifies this
      ensures Valid()
      ensures View() == Next(parse, old(View()), Event.Stop)
    {
      hide CutLines, FirstNewline, Trim, Results, Deliver, FailAll, DeliverOne, Receive;
      stopped := true;
      reconnectDue := false;
      socket := None;
      connected := false;
      connecting := false;
      FailNewTaskWaiters();
    }

    method Connect()
      requires Valid()
      modifies this
      ensures Valid()
      ensures View() == Open(old(View()))
    {
      if stopped || connecting || connected { return; }
      connecting := true;
      socket := Some(nextConn);
      conns := conns[nextConn := Conn(buffer, "", [], [], 0)];
      nextConn := nextConn + 1;
    }

    method OnConnect(conn: nat)
      requires Valid()
      modifies this
      ensures Valid()
      ensures View() == Next(parse, old(View()), SocketConnect(conn))
    {
      if stopped || socket != Some(conn) { return; }
      connecting := false;
      connected := true;
    }

    method OnData(conn: nat, data: string)
      requires socket == Some(conn) ==> conn in conns
      requires Valid()
      modifies this
      ensures Valid()
      ensures View() == Next(parse, old(View()), SocketData(conn, data))
    {
      if socket != Some(conn) { return; }
      hide CutLines, FirstNewline, Trim, Results, Deliver, DeliverOne, Drained, Handled, Next, Receive, Open, FailAll;
      DrainStart(parse, View(), conn, data);
      buffer := buffer + data;
      conns := conns[conn := conns[conn].(received := conns[conn].received + data)];
      while FirstNewline(buffer) < |buffer|
        invariant Valid() && conn in conns
        invariant Drained(parse, View(), conn) == Next(parse, old(View()), SocketData(conn, data))
        invariant socket == Some(conn)
        decreases |buffer|
      {
        TakeLine(conn);
      }
      DrainDone(parse, View(), conn);
    }

    /** One turn of the loop over complete lines. */
    method TakeLine(conn: nat)
      requires Valid() && socket == Some(conn) && conn in conns && FirstNewline(buffer) < |buffer|
      modifies this
      ensures Valid() && socket == Some(conn) && conn in conns
      ensures buffer == old(buffer[FirstNewline(buffer) + 1..])
      ensures Drained(parse, View(), conn) == Drained(parse, old(View()), conn)
    {
      hide CutLines, FirstNewline, Trim, Results, Deliver, DeliverOne, Drained, Handled, Next, Receive, Open, FailAll;
      var i := FirstNewline(buffer);
      var line := Trim(buffer[..i]);
      DrainStep(parse, View(), conn);
      buffer := buffer[i + 1..];
      NoLine(parse, View(), conn);
      if line != [] {
        HandleLine(conn, line);
      }
    }

    method HandleLine(conn: nat, line: string)
      requires socket == Some(conn) && conn in conns && line != []
      requires Valid()
      modifies this
      ensures Valid()
      ensures View() == Handled(parse, old(View()), conn, line)
      ensures buffer == old(buffer) && socket == old(socket) && conn in conns
    {
      match parse(line)
      case Other =>
      case Result(handled) =>
        ghost var q := conns[conn];
        if waiters == [] {
          conns := conns[conn := q.(results := q.results + [handled], unsolicited := q.unsolicited + 1)];
        } else {
          conns := conns[conn := q.(results := q.results + [handled])];
          var waiter := waiters[0];
          waiters := waiters[1..];
          Finish(waiter, handled, ByReply(conn, |q.results|, handled));
        }
    }

    method OnClose(conn: nat)
      requires Valid()
      modifies this
      ensures Valid()
      ensures View() == Next(parse, old(View()), SocketClose(conn))
    {
      hide Next, FailAll;
      CloseNext(parse, View(), conn);
      if socket != Some(conn) { return; }
      connecting := false;
      buffer := "";
      connected := false;
      socket := None;
      FailNewTaskWaiters();
      if !stopped {
        reconnectDue := true;
      }
    }

    method OnReconnectTimer()
      requires Valid()
      modifies this
      ensures Valid()
      ensures View() == Next(parse, old(View()), ReconnectTimer)
    {
      if !reconnectDue { return; }
      reconnectDue := false;
      Connect();
    }

    /** The new request's number stands for the promise handed to the caller. */
    method RequestZcodeNewTask() returns (request: nat)
      requires Valid()
      modifies this
      ensures Valid()
      ensures request == old(nextRequest)
      ensures View() == Next(parse, old(View()), Request)
    {
      hide CutLines, FirstNewline, Trim, Results, Deliver, FailAll, DeliverOne, Receive;
      request := nextRequest;
      nextRequest := nextRequest + 1;
      if !connected {
        Finish(request, false, Offline);
        return;
      }
      waiters := waiters + [request];
      if socket.Some? && socket.value in conns {
        conns := conns[socket.value := conns[socket.value].(requests := conns[socket.value].requests + [request])];
      }
    }

    method OnTimeout(request: nat)
      requires Valid()
      modifies this
      ensures Valid()
      ensures View() == Next(parse, old(View()), Timeout(request))
    {
      if request < nextRequest {
        Finish(request, false, ByTimeout);
      }
    }

    /** Settles a promise, unless it is settled already. */
    method Finish(request: nat, handled: bool, ghost how: Settlement)
      requires Valid() && handled == (how.ByReply? && how.handled)
      modifies this`resolved, this`settled
      ensures Valid()
      ensures settled == Settle(old(settled), request, how)
    {
      if request in resolved { return; }
      resolved := resolved[request := handled];
      settled := settled[request := how];
    }

    method FailNewTaskWaiters()
      requires Valid()
      modifies this`waiters, this`resolved, this`settled
      ensures Valid()
      ensures waiters == []
      ensures settled == FailAll(old(settled), old(waiters))
    {
      var failing := waiters;
      waiters := [];
      var i := 0;
      while i < |failing|
        invariant i <= |failing| && waiters == [] && Valid()
        invariant FailAll(settled, failing[i..]) == FailAll(old(settled), failing)
      {
        assert failing[i..][1..] == failing[i + 1..];
        Finish(failing[i], false, ByFailure);
        i := i + 1;
      }
    }
  }

  lemma CloseNext(parse: Parser, c: Client, conn: nat)
    ensures Next(parse, c, SocketClose(conn)) ==
      if c.socket != Some(conn) then c
      else c.(connecting := false, buffer := "", connected := false, socket := None,
              settled := FailAll(c.settled, c.waiters), waiters := [],
              reconnectDue := c.reconnectDue || !c.stopped)
  {
    hide CutLines, FirstNewline, Results, Deliver, FailAll;
  }

  /** The client once every complete line of its buffer has been handled. */
  ghost function Drained(parse: Parser, c: Client, conn: nat): Client
    requires conn in c.conns
  {
    var cut := CutLines(c.buffer);
    Deliver(c.(buffer := cut.rest), conn, Results(parse, cut.lines))
  }

  lemma DrainStart(parse: Parser, c: Client, conn: nat, data: string)
    requires conn in c.conns && c.socket == Some(conn)
    ensures var q := c.conns[conn];
      Drained(parse, c.(buffer := c.buffer + data, conns := c.conns[conn := q.(received := q.received + data)]), conn)
        == Next(parse, c, SocketData(conn, data))
  {
    hide CutLines, Results, Deliver, FailAll;
  }

  lemma NoLine(parse: Parser, c: Client, conn: nat)
    requires conn in c.conns
    ensures Handled(parse, c, conn, "") == c
  {}

  lemma DrainDone(parse: Parser, c: Client, conn: nat)
    requires conn in c.conns && FirstNewline(c.buffer) == |c.buffer|
    ensures Drained(parse, c, conn) == c
  {
    Pairing.NoNewline(c.buffer);
  }

  /** What one line does to the client. */
  ghost function Handled(parse: Parser, c: Client, conn: nat, line: string): Client
    requires conn in c.conns
  {
    if line != [] && parse(line).Result? then DeliverOne(c, conn, parse(line).handled) else c
  }

  /** Handling the first line first changes nothing in the end. */
  lemma DrainStep(parse: Parser, c: Client, conn: nat)
    requires conn in c.conns && FirstNewline(c.buffer) < |c.buffer|
    ensures Drained(parse, c, conn)
      == Drained(parse, Handled(parse, c.(buffer := c.buffer[FirstNewline(c.buffer) + 1..]), conn,
                                Trim(c.buffer[..FirstNewline(c.buffer)])), conn)
  {
    hide Trim, CutLines, FirstNewline, Deliver, Results;
    var i := FirstNewline(c.buffer);
    Pairing.FirstCut(c.buffer);
    var line, d := Trim(c.buffer[..i]), c.(buffer := c.buffer[i + 1..]);
    var later := CutLines(d.buffer);
    var results := Results(parse, later.lines);
    FirstResult(parse, c.buffer[..i], later.lines);
    if line != [] && parse(line).Result? {
      var handled := parse(line).handled;
      DeliverFirst(c.(buffer := later.rest), conn, handled, results);
      assert DeliverOne(d, conn, handled).(buffer := later.rest) == DeliverOne(c.(buffer := later.rest), conn, handled);
    } else {
      assert [] + results == results;
      assert d.(buffer := later.rest) == c.(buffer := later.rest);
    }
  }

  lemma FirstResult(parse: Parser, line: string, later: seq<string>)
    ensures Results(parse, [line] + later)
      == (if Trim(line) != [] && parse(Trim(line)).Result? then [parse(Trim(line)).handled] else []) + Results(parse, later)
  {
    hide Trim;
    assert ([line] + later)[1..] == later;
  }

  lemma DeliverFirst(c: Client, conn: nat, handled: bool, later: seq<bool>)
    requires conn in c.conns
    ensures Deliver(c, conn, [handled] + later) == Deliver(DeliverOne(c, conn, handled), conn, later)
  {
    hide DeliverOne;
    assert ([handled] + later)[1..] == later;
  }
}
