/**
 * The sending side of an HTTP/2 connection: the two flow-control windows, the frames parked while
 * waiting, and the loop that sends a message as the windows allow.
 */
module FlowControl {
  import opened Bytes
  import opened Http2

  const STREAMS: nat := 64
  const DEFAULT_WINDOW: nat := 65535

  /** What passed through the socket. Only DATA sent by the windowed loop is charged to the windows. */
  datatype Event = In(f: Frame) | Out(f: Frame, charged: bool)

  datatype Conn = Conn(
    conn: int, streams: seq<int>, initial: nat, pending: seq<Frame>, inbox: seq<Frame>, log: seq<Event>)

  predicate Shaped(c: Conn) { |c.streams| == STREAMS }

  function Open(inbox: seq<Frame>): Conn {
    Conn(DEFAULT_WINDOW, seq(STREAMS, _ => DEFAULT_WINDOW), DEFAULT_WINDOW, [], inbox, [])
  }

  function Write(c: Conn, f: Frame, charged: bool): Conn { c.(log := c.log + [Out(f, charged)]) }

  // ---- receiving ---------------------------------------------------------------------

  /** The initial window size a SETTINGS payload announces; the last one counts. */
  function Announced(payload: seq<byte>, was: Option<nat>): Option<nat>
    decreases |payload|
  {
    if |payload| < 6 then was
    else Announced(payload[6..], if FromBig(payload[..2]) == 4 then Some(FromBig(payload[2..6])) else was)
  }

  /** What a SETTINGS frame does to the stream windows, if anything. */
  function NewWindow(f: Frame): Option<nat> {
    if f.ftype == SETTINGS && !f.Bit0() && |f.payload| % 6 == 0 then Announced(f.payload, None) else None
  }

  function Increment(f: Frame): nat {
    if f.ftype == WINDOW && |f.payload| >= 4 then FromBig(f.payload[..4]) else 0
  }

  function Absorb(c: Conn, f: Frame): (r: Conn)
    requires Shaped(c)
    ensures Shaped(r) && r.pending == c.pending && r.inbox == c.inbox
  {
    var c := c.(log := c.log + [In(f)]);
    if f.ftype == SETTINGS && !f.Bit0() then
      var c := match NewWindow(f)
        case Some(v) => c.(initial := v, streams := seq(STREAMS, _ => v))
        case None => c;
      Write(c, Frame(SETTINGS, 1, 0, []), false)
    else if f.ftype == PING && !f.Bit0() then
      Write(c, Frame(PING, 1, 0, f.payload), false)
    else if f.ftype == WINDOW then
      var k := f.stream % STREAMS;
      if f.stream == 0 then c.(conn := c.conn + Increment(f))
      else c.(streams := c.streams[k := c.streams[k] + Increment(f)])
    else c
  }

  predicate Housekeeping(f: Frame) { f.ftype == SETTINGS || f.ftype == PING || f.ftype == WINDOW }

  datatype Got = Delivered(f: Frame) | Refilled | Gone

  /** One call of the receiver: parked frames first, the last one parked before the others. */
  function Recv(c: Conn): (r: (Conn, Got))
    requires Shaped(c)
    ensures Shaped(r.0)
    ensures r.1.Delivered? ==> |r.0.pending| + |r.0.inbox| < |c.pending| + |c.inbox|
    ensures r.1.Refilled? ==> c.pending == [] == r.0.pending && |r.0.inbox| < |c.inbox|
    decreases |c.inbox|
  {
    if c.pending != [] then (c.(pending := c.pending[1..]), Delivered(c.pending[0]))
    else if c.inbox == [] then (c, Gone)
    else
      var f := c.inbox[0];
      var c' := Absorb(c.(inbox := c.inbox[1..]), f);
      if !Housekeeping(f) then (c', Delivered(f))
      else if f.ftype == WINDOW && |f.payload| >= 4 then (c', Refilled)
      else Recv(c')
  }

  function Park(c: Conn, f: Frame): Conn { c.(pending := [f] + c.pending) }

  // ---- sending ------------------------------------------------------------------------

  /** DATA or HEADERS of another stream: the frames the sender puts back. */
  predicate Foreign(f: Frame, stream: nat) { (f.ftype == DATA || f.ftype == HEADERS) && f.stream != stream }

  function Min(a: int, b: int): int { if a <= b then a else b }

  function Budget(c: Conn, stream: nat): int
    requires Shaped(c)
  {
    Min(Min(c.streams[stream % STREAMS], c.conn), MAX_FRAME)
  }

  function SendChunk(c: Conn, stream: nat, chunk: seq<byte>): Conn
    requires Shaped(c)
  {
    var k := stream % STREAMS;
    Write(c, Frame(DATA, 0, stream, chunk), true)
    .(streams := c.streams[k := c.streams[k] - |chunk|], conn := c.conn - |chunk|)
  }

  datatype SendState = SendState(c: Conn, at: nat)

  datatype Progress = Going(s: SendState) | Done | Failed

  /** One turn of the sending loop. */
  function Turn(s: SendState, stream: nat, data: seq<byte>): Progress
    requires Shaped(s.c)
  {
    if s.at >= |data| then Done
    else
      var budget := Budget(s.c, stream);
      if budget <= 0 then
        var (c', got) := Recv(s.c);
        match got
        case Gone => Failed
        case Refilled => Going(SendState(c', s.at))
        case Delivered(f) => Going(SendState(if Foreign(f, stream) then Park(c', f) else c', s.at))
      else
        var n := Min(budget, |data| - s.at);
        Going(SendState(SendChunk(s.c, stream, data[s.at..s.at + n]), s.at + n))
  }

  /** Blocked, with another stream's frame parked on top. */
  predicate Stuck(c: Conn, stream: nat)
    requires Shaped(c)
  {
    Budget(c, stream) <= 0 && c.pending != [] && Foreign(c.pending[0], stream)
  }

  /** The loop turns without changing anything exactly when it is stuck: it then never ends. */
  lemma StuckForever(s: SendState, stream: nat, data: seq<byte>)
    requires Shaped(s.c) && s.at < |data|
    ensures Turn(s, stream, data) == Going(s) <==> Stuck(s.c, stream)
  {
    hide Absorb;
    if Stuck(s.c, stream) {
      assert s.c.pending == [s.c.pending[0]] + s.c.pending[1..];
    }
  }

  datatype SendResult = Complete | Broken | Spins

  /** The whole loop; `Spins` where the loop would turn forever. */
  function Send(c: Conn, stream: nat, data: seq<byte>, at: nat): (r: (Conn, SendResult))
    requires Shaped(c)
    ensures Shaped(r.0)
    decreases 2 * |c.inbox| + |c.pending|, |data| - at
  {
    if at >= |data| then (c, Complete)
    else if Stuck(c, stream) then (c, Spins)
    else if Budget(c, stream) <= 0 then
      var (c', got) := Recv(c);
      RecvConsumes(c);
      match got
      case Gone => (c', Broken)
      case Refilled => Send(c', stream, data, at)
      case Delivered(f) => Send(if Foreign(f, stream) then Park(c', f) else c', stream, data, at)
    else
      var n := Min(Budget(c, stream), |data| - at);
      Send(SendChunk(c, stream, data[at..at + n]), stream, data, at + n)
  }

  lemma RecvConsumes(c: Conn)
    requires Shaped(c)
    ensures var (c', got) := Recv(c);
            got.Delivered? ==> if c.pending == [] then c'.pending == [] && |c'.inbox| < |c.inbox|
                               else c'.pending == c.pending[1..] && c'.inbox == c.inbox && got.f == c.pending[0]
    decreases |c.inbox|
  {
    hide Absorb;
  }
}
