/** The plugin's daemon client as a state machine: connections, the line buffer,
    and new-task requests waiting for their replies. */
module NewTaskModel {
  import opened Bytes
  import opened Text

  // ---- Lines ----

  /** The index of the first newline, or the length when there is none. */
  function FirstNewline(s: string): (i: nat)
    ensures i <= |s|
    ensures i < |s| ==> s[i] == '\n'
    ensures forall j | 0 <= j < i :: s[j] != '\n'
    decreases |s|
  {
    if s == [] || s[0] == '\n' then 0 else 1 + FirstNewline(s[1..])
  }

  datatype Cut = Cut(lines: seq<string>, rest: string)

  function CutLines(s: string): Cut
    decreases |s|
  {
    var i := FirstNewline(s);
    if i == |s| then Cut([], s)
    else
      var later := CutLines(s[i + 1..]);
      later.(lines := [s[..i]] + later.lines)
  }

  /** What String.prototype.trim removes. */
  predicate IsSpace(c: char) {
    || '\U{9}' <= c <= '\U{d}' || c == ' ' || c == '\U{a0}' || c == '\U{1680}' || '\U{2000}' <= c <= '\U{200a}'
    || c == '\U{2028}' || c == '\U{2029}' || c == '\U{202f}' || c == '\U{205f}' || c == '\U{3000}' || c == '\U{feff}'
  }

  function Trim(s: string): string {
    TrimEnd(IsSpace, TrimStart(IsSpace, s))
  }

  /** What a line means; parsing it is left abstract. Renders, pongs, a goodbye
      and malformed lines settle nothing. */
  datatype Meaning = Result(handled: bool) | Other

  type Parser = string -> Meaning

  /** The new-task results among lines, in order; blank lines are skipped. */
  function Results(parse: Parser, lines: seq<string>): seq<bool>
    decreases |lines|
  {
    if lines == [] then []
    else
      (if Trim(lines[0]) != [] && parse(Trim(lines[0])).Result? then [parse(Trim(lines[0])).handled] else [])
      + Results(parse, lines[1..])
  }

  // ---- State ----

  /** How a request's promise was resolved. Only a reply can say true. */
  datatype Settlement = ByReply(conn: nat, index: nat, handled: bool) | ByTimeout | ByFailure | Offline

  /** The history of one connection: what the line buffer held when it was
      opened, the text received, the requests sent, the results processed, and
      how many of those found nobody waiting. */
  datatype Conn = Conn(leftover: string, received: string, requests: seq<nat>, results: seq<bool>, unsolicited: nat)

  /** `settled` keeps the first settlement of each request; `conns` is history. */
  datatype Client = Client(
    socket: Option<nat>,
    connected: bool,
    connecting: bool,
    stopped: bool,
    buffer: string,
    reconnectDue: bool,
    waiters: seq<nat>,
    nextConn: nat,
    nextRequest: nat,
    settled: map<nat, Settlement>,
    conns: map<nat, Conn>)

  const CREATED: Client := Client(None, false, false, true, "", false, [], 0, 0, map[], map[])

  /** Socket events name the socket they come from. Destroying a socket only
      leads to its close event later. */
  datatype Event =
    | Start
    | Stop
    | Reconnect
    | ReconnectTimer
    | SocketConnect(conn: nat)
    | SocketData(conn: nat, data: string)
    | SocketClose(conn: nat)
    | Request
    | Timeout(request: nat)

  function Settle(settled: map<nat, Settlement>, request: nat, how: Settlement): map<nat, Settlement> {
    if request in settled then settled else settled[request := how]
  }

  function FailAll(settled: map<nat, Settlement>, waiters: seq<nat>): map<nat, Settlement>
    decreases |waiters|
  {
    if waiters == [] then settled else FailAll(Settle(settled, waiters[0], ByFailure), waiters[1..])
  }

  function Open(c: Client): Client {
    if c.stopped || c.connecting || c.connected then c
    else c.(connecting := true, socket := Some(c.nextConn), nextConn := c.nextConn + 1,
            conns := c.conns[c.nextConn := Conn(c.buffer, "", [], [], 0)])
  }

  /** One reply goes to the longest waiting request, settled or not. */
  function DeliverOne(c: Client, conn: nat, handled: bool): Client
    requires conn in c.conns
  {
    var q := c.conns[conn];
    if c.waiters == [] then
      c.(conns := c.conns[conn := q.(results := q.results + [handled], unsolicited := q.unsolicited + 1)])
    else
      c.(conns := c.conns[conn := q.(results := q.results + [handled])],
         settled := Settle(c.settled, c.waiters[0], ByReply(conn, |q.results|, handled)),
         waiters := c.waiters[1..])
  }

  function Deliver(c: Client, conn: nat, results: seq<bool>): (d: Client)
    requires conn in c.conns
    ensures conn in d.conns
    decreases |results|
  {
    if results == [] then c else Deliver(DeliverOne(c, conn, results[0]), conn, results[1..])
  }

  function Receive(parse: Parser, c: Client, conn: nat, data: string): Client
    requires conn in c.conns
  {
    var q := c.conns[conn];
    var cut := CutLines(c.buffer + data);
    Deliver(c.(buffer := cut.rest, conns := c.conns[conn := q.(received := q.received + data)]),
            conn, Results(parse, cut.lines))
  }

  function Next(parse: Parser, c: Client, e: Event): Client {
    match e
    case Start => if c.stopped then Open(c.(stopped := false)) else c
    case Stop =>
      c.(stopped := true, reconnectDue := false, socket := None, connected := false, connecting := false,
         settled := FailAll(c.settled, c.waiters), waiters := [])
    case Reconnect =>
      if c.stopped then c
      else if c.socket.Some? then c.(reconnectDue := false)
      else Open(c.(reconnectDue := false, buffer := "", connected := false, connecting := false))
    case ReconnectTimer => if c.reconnectDue then Open(c.(reconnectDue := false)) else c
    case SocketConnect(conn) =>
      if c.stopped || c.socket != Some(conn) then c else c.(connecting := false, connected := true)
    case SocketData(conn, data) =>
      if c.socket != Some(conn) || conn !in c.conns then c else Receive(parse, c, conn, data)
    case SocketClose(conn) =>
      if c.socket != Some(conn) then c
      else c.(connecting := false, buffer := "", connected := false, socket := None,
              settled := FailAll(c.settled, c.waiters), waiters := [],
              reconnectDue := c.reconnectDue || !c.stopped)
    case Request =>
      var r := c.nextRequest;
      if !c.connected then c.(nextRequest := r + 1, settled := Settle(c.settled, r, Offline))
      else
        c.(nextRequest := r + 1, waiters := c.waiters + [r],
           conns := if c.socket.Some? && c.socket.value in c.conns then
                      var q := c.conns[c.socket.value];
                      c.conns[c.socket.value := q.(requests := q.requests + [r])]
                    else c.conns)
    case Timeout(request) =>
      if request < c.nextRequest then c.(settled := Settle(c.settled, request, ByTimeout)) else c
  }

  function Run(parse: Parser, c: Client, events: seq<Event>): Client
    decreases |events|
  {
    if events == [] then c else Run(parse, Next(parse, c, events[0]), events[1..])
  }
}
