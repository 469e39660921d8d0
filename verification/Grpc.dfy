/**
 * gRPC messages over a stream's DATA frames: one flag byte, four of length, then the message, cut
 * into frames anyhow. The reader gathers one message; the sender writes one; the windows are kept.
 */
module Grpc {
  import opened Bytes
  import opened Http2
  import opened FlowControl
  import opened FlowTheorems

  function Prelude(length: nat): (s: seq<byte>)
    ensures |s| == 5
  {
    [0] + Big(length, 4)
  }

  function GrpcBytes(msg: seq<byte>): seq<byte> { Prelude(|msg|) + msg }

  // ---- reading one message --------------------------------------------------------------

  datatype Fed = More(buf: seq<byte>) | Whole(msg: seq<byte>) | Bad

  function Needed(buf: seq<byte>): nat
    requires |buf| >= 5
  {
    FromBig(buf[1..5])
  }

  /** What is known after `total`, all the bytes of the stream so far. */
  function Gathered(total: seq<byte>, cap: nat): Fed {
    if |total| < 5 then More(total)
    else if total[0] != 0 || Needed(total) > cap then Bad
    else if |total| - 5 >= Needed(total) then Whole(total[5..5 + Needed(total)])
    else More(total)
  }

  datatype ReadResult = Message(msg: seq<byte>) | NoMessage | Error | Forever

  /** The stream ended: whatever was gathered counts as the message. */
  function Ended(buf: seq<byte>): ReadResult { if |buf| >= 5 then Message(buf[5..]) else NoMessage }

  /** Neither the stream's DATA nor anything else the reader acts on: parked. */
  predicate Unwanted(f: Frame, stream: nat) {
    f.ftype != HEADERS && f.ftype != GOAWAY && f.ftype != RST && (f.ftype != DATA || f.stream != stream)
  }

  datatype ReadTurn = Waiting(c: Conn, buf: seq<byte>) | Finished(r: ReadResult, c: Conn)

  /** One turn of the reading loop. */
  function Turn(c: Conn, stream: nat, cap: nat, buf: seq<byte>): (t: ReadTurn)
    requires Shaped(c)
    ensures Shaped(t.c)
  {
    var (c', got) := Recv(c);
    match got
    case Gone => Finished(Error, c')
    case Refilled => Waiting(c', buf)
    case Delivered(f) =>
      if f.ftype == HEADERS then (if f.Bit0() then Finished(Ended(buf), c') else Waiting(c', buf))
      else if f.ftype == GOAWAY || f.ftype == RST then Finished(Error, c')
      else if Unwanted(f, stream) then Waiting(Park(c', f), buf)
      else
        match Gathered(buf + f.payload, cap)
        case Bad => Finished(Error, c')
        case Whole(msg) => Finished(Message(msg), c')
        case More(b) => if f.Bit0() then Finished(Ended(b), c') else Waiting(c', b)
  }

  predicate ReadStuck(c: Conn, stream: nat) { c.pending != [] && Unwanted(c.pending[0], stream) }

  /** A parked frame the reader does not want comes straight back: nothing changes any more. */
  lemma ReadStuckForever(c: Conn, stream: nat, cap: nat, buf: seq<byte>)
    requires Shaped(c)
    ensures Turn(c, stream, cap, buf) == Waiting(c, buf) <==> ReadStuck(c, stream)
  {
    hide Gathered;
    if c.pending == [] {
      RecvConsumes(c);
    } else {
      assert c.pending == [c.pending[0]] + c.pending[1..];
    }
  }

  /** The whole loop; `Forever` where it would turn forever. */
  function Read(c: Conn, stream: nat, cap: nat, buf: seq<byte>): (r: (Conn, ReadResult))
    requires Shaped(c)
    ensures Shaped(r.0)
    decreases 2 * |c.inbox| + |c.pending|
  {
    if ReadStuck(c, stream) then (c, Forever)
    else
      TurnConsumes(c, stream, cap, buf);
      match Turn(c, stream, cap, buf)
      case Finished(r, c') => (c', r)
      case Waiting(c', b) => Read(c', stream, cap, b)
  }

  lemma TurnConsumes(c: Conn, stream: nat, cap: nat, buf: seq<byte>)
    requires Shaped(c) && !ReadStuck(c, stream)
    ensures var t := Turn(c, stream, cap, buf);
            t.Waiting? ==> 2 * |t.c.inbox| + |t.c.pending| < 2 * |c.inbox| + |c.pending|
  {
    hide Gathered, Recv;
    RecvConsumes(c);
  }

  // ---- sending one message --------------------------------------------------------------------

  function SendMessage(c: Conn, stream: nat, msg: seq<byte>): (r: (Conn, SendResult))
    requires Shaped(c)
    ensures Shaped(r.0)
  {
    Send(Write(c, Frame(DATA, 0, stream, Prelude(|msg|)), false), stream, msg, 0)
  }

  /** The stream carries the framed message from its start, whole exactly when the call completes. */
  lemma MessageOnTheStream(c: Conn, stream: nat, msg: seq<byte>)
    requires Shaped(c)
    ensures var (c', r) := SendMessage(c, stream, msg);
            && Extends(DataOn(c'.log, stream), DataOn(c.log, stream), GrpcBytes(msg), r.Complete?)
            && forall s: nat :: s != stream ==> DataOn(c'.log, s) == DataOn(c.log, s)
  {
    hide Send, DataOn, Extends;
    var f := Frame(DATA, 0, stream, Prelude(|msg|));
    var c1 := Write(c, f, false);
    var (c', r) := SendMessage(c, stream, msg);
    DataPush(c.log, Out(f, false), stream);
    SendCarriesTheMessage(c1, stream, msg, 0);
    assert msg[0..] == msg;
    ExtendsInTwo(DataOn(c'.log, stream), DataOn(c.log, stream), Prelude(|msg|), msg, r.Complete?);
    forall s: nat | s != stream ensures DataOn(c'.log, s) == DataOn(c.log, s) {
      DataPush(c.log, Out(f, false), s);
      SendKeepsToItsStream(c1, stream, msg, 0, s);
    }
  }

  // ---- what the prelude costs -------------------------------------------------------------------

  /** DATA bytes sent without being charged to a window. */
  function Uncharged(log: seq<Event>): nat {
    if log == [] then 0
    else
      var e := log[|log| - 1];
      Uncharged(log[..|log| - 1]) + if e.Out? && !e.charged && e.f.ftype == DATA then |e.f.payload| else 0
  }

  lemma UnchargedPush(log: seq<Event>, e: Event)
    ensures Uncharged(log + [e]) ==
            Uncharged(log) + if e.Out? && !e.charged && e.f.ftype == DATA then |e.f.payload| else 0
  {
    var l := log + [e];
    assert l[..|l| - 1] == log && l[|l| - 1] == e;
  }

  lemma AbsorbUncharged(c: Conn, f: Frame)
    requires Shaped(c)
    ensures Uncharged(Absorb(c, f).log) == Uncharged(c.log)
  {
    hide Uncharged, FromBig, Announced;
    UnchargedPush(c.log, In(f));
    var log := c.log + [In(f)];
    if f.ftype == SETTINGS && !f.Bit0() {
      UnchargedPush(log, Out(Frame(SETTINGS, 1, 0, []), false));
    } else if f.ftype == PING && !f.Bit0() {
      UnchargedPush(log, Out(Frame(PING, 1, 0, f.payload), false));
    }
  }

  lemma {:induction false} RecvUncharged(c: Conn)
    requires Shaped(c)
    ensures Uncharged(Recv(c).0.log) == Uncharged(c.log)
    decreases |c.inbox|
  {
    hide Absorb, Housekeeping, Uncharged;
    if c.pending == [] && c.inbox != [] {
      var f := c.inbox[0];
      AbsorbUncharged(c.(inbox := c.inbox[1..]), f);
      if Housekeeping(f) && !(f.ftype == WINDOW && |f.payload| >= 4) {
        RecvUncharged(Absorb(c.(inbox := c.inbox[1..]), f));
      }
    }
  }

  lemma {:induction false} SendUncharged(c: Conn, stream: nat, data: seq<byte>, at: nat)
    requires Shaped(c)
    ensures Uncharged(Send(c, stream, data, at).0.log) == Uncharged(c.log)
    decreases 2 * |c.inbox| + |c.pending|, |data| - at
  {
    hide Uncharged, Recv;
    if at < |data| && !Stuck(c, stream) {
      if Budget(c, stream) <= 0 {
        var (c', got) := Recv(c);
        RecvConsumes(c);
        RecvUncharged(c);
        match got
        case Gone =>
        case Refilled => SendUncharged(c', stream, data, at);
        case Delivered(f) => SendUncharged(if Foreign(f, stream) then Park(c', f) else c', stream, data, at);
      } else {
        var n := Min(Budget(c, stream), |data| - at);
        UnchargedPush(c.log, Out(Frame(DATA, 0, stream, data[at..at + n]), true));
        SendUncharged(SendChunk(c, stream, data[at..at + n]), stream, data, at + n);
      }
    }
  }

  // ---- whole connections --------------------------------------------------------------------------

  datatype Call = Receive(stream: nat, cap: nat) | Reply(stream: nat, msg: seq<byte>)

  function Serve(c: Conn, call: Call): (r: Conn)
    requires Shaped(c)
    ensures Shaped(r)
  {
    match call
    case Receive(stream, cap) => Read(c, stream, cap, []).0
    case Reply(stream, msg) => SendMessage(c, stream, msg).0
  }

  function ServeAll(c: Conn, calls: seq<Call>): (r: Conn)
    requires Shaped(c)
    ensures Shaped(r)
    decreases |calls|
  {
    if calls == [] then c else ServeAll(Serve(c, calls[0]), calls[1..])
  }

  function Replies(calls: seq<Call>): nat {
    if calls == [] then 0 else (if calls[0].Reply? then 1 else 0) + Replies(calls[1..])
  }

  lemma {:induction false} ReadAccounted(c: Conn, stream: nat, cap: nat, buf: seq<byte>)
    requires Accounted(c)
    ensures Accounted(Read(c, stream, cap, buf).0)
    ensures Uncharged(Read(c, stream, cap, buf).0.log) == Uncharged(c.log)
    decreases 2 * |c.inbox| + |c.pending|
  {
    hide Accounted, Recv, Gathered, Uncharged;
    ShapedIfAccounted(c);
    if !ReadStuck(c, stream) {
      TurnConsumes(c, stream, cap, buf);
      RecvAccounted(c);
      RecvUncharged(c);
      var (c', got) := Recv(c);
      if got.Delivered? {
        QueuesDoNotCount(c', [got.f] + c'.pending, c'.inbox);
      }
      match Turn(c, stream, cap, buf)
      case Finished(r, c') =>
      case Waiting(c', b) => ReadAccounted(c', stream, cap, b);
    }
  }

  lemma ServeAccounted(c: Conn, call: Call)
    requires Accounted(c)
    ensures Accounted(Serve(c, call))
    ensures Uncharged(Serve(c, call).log) == Uncharged(c.log) + if call.Reply? then 5 else 0
  {
    hide Accounted, Uncharged, Send, Read;
    ShapedIfAccounted(c);
    match call
    case Receive(stream, cap) => ReadAccounted(c, stream, cap, []);
    case Reply(stream, msg) =>
      var f := Frame(DATA, 0, stream, Prelude(|msg|));
      UnchargedPush(c.log, Out(f, false));
      WriteAccounted(c, f);
      SendUncharged(Write(c, f, false), stream, msg, 0);
      SendAccounted(Write(c, f, false), stream, msg, 0);
  }

  /**
   * Over every run of reads and replies the windowed bytes stay within both windows at every
   * moment; the five-byte preludes, which are never charged, come on top.
   */
  lemma {:induction false} ConnectionAccounted(c: Conn, calls: seq<Call>)
    requires Accounted(c)
    ensures Accounted(ServeAll(c, calls))
    ensures Uncharged(ServeAll(c, calls).log) == Uncharged(c.log) + 5 * Replies(calls)
    decreases |calls|
  {
    hide Accounted, Uncharged, Serve;
    ShapedIfAccounted(c);
    if calls != [] {
      ServeAccounted(c, calls[0]);
      ConnectionAccounted(Serve(c, calls[0]), calls[1..]);
    }
  }

  /** So from the start: whatever the peer sends over the whole connection. */
  lemma ConnectionFromOpen(inbox: seq<Frame>, calls: seq<Call>)
    ensures var c := ServeAll(Open(inbox), calls);
            Accounted(c) && ParkedOnly(c) && Uncharged(c.log) == 5 * Replies(calls)
  {
    hide Accounted, Uncharged, Open, ServeAll, ParkedOnly;
    OpenAccounted(inbox);
    ConnectionAccounted(Open(inbox), calls);
    NothingSent(inbox);
    ConnectionParks(Open(inbox), calls);
  }

  lemma NothingSent(inbox: seq<Frame>)
    ensures Uncharged(Open(inbox).log) == 0 && ParkedOnly(Open(inbox))
  {
  }

  // ---- only frames handed out are parked -----------------------------------------------------------

  lemma {:induction false} RecvParks(c: Conn)
    requires Shaped(c) && ParkedOnly(c)
    ensures ParkedOnly(Recv(c).0) && (Recv(c).1.Delivered? ==> !Housekeeping(Recv(c).1.f))
    decreases |c.inbox|
  {
    hide Absorb;
    if c.pending == [] && c.inbox != [] {
      var f := c.inbox[0];
      if Housekeeping(f) && !(f.ftype == WINDOW && |f.payload| >= 4) {
        RecvParks(Absorb(c.(inbox := c.inbox[1..]), f));
      }
    } else if c.pending != [] {
      assert c.pending[0] in c.pending;
    }
  }

  lemma ParkParks(c: Conn, f: Frame)
    requires ParkedOnly(c) && !Housekeeping(f)
    ensures ParkedOnly(Park(c, f))
  {
  }

  lemma {:induction false} SendParks(c: Conn, stream: nat, data: seq<byte>, at: nat)
    requires Shaped(c) && ParkedOnly(c)
    ensures ParkedOnly(Send(c, stream, data, at).0)
    decreases 2 * |c.inbox| + |c.pending|, |data| - at
  {
    hide Recv, ParkedOnly, Housekeeping, SendChunk;
    if at < |data| && !Stuck(c, stream) {
      if Budget(c, stream) <= 0 {
        var (c', got) := Recv(c);
        RecvConsumes(c);
        RecvParks(c);
        match got
        case Gone =>
        case Refilled => SendParks(c', stream, data, at);
        case Delivered(f) =>
          ParkParks(c', f);
          SendParks(if Foreign(f, stream) then Park(c', f) else c', stream, data, at);
      } else {
        var n := Min(Budget(c, stream), |data| - at);
        var chunk := data[at..at + n];
        ChunkQueues(c, stream, chunk);
        KeepParked(c, SendChunk(c, stream, chunk));
        SendParks(SendChunk(c, stream, chunk), stream, data, at + n);
      }
    }
  }

  lemma {:induction false} ReadParks(c: Conn, stream: nat, cap: nat, buf: seq<byte>)
    requires Shaped(c) && ParkedOnly(c)
    ensures ParkedOnly(Read(c, stream, cap, buf).0)
    decreases 2 * |c.inbox| + |c.pending|
  {
    hide Recv, Gathered, ParkedOnly, Housekeeping;
    if !ReadStuck(c, stream) {
      TurnConsumes(c, stream, cap, buf);
      RecvParks(c);
      var (c', got) := Recv(c);
      if got.Delivered? { ParkParks(c', got.f); }
      match Turn(c, stream, cap, buf)
      case Finished(r, c') =>
      case Waiting(c', b) => ReadParks(c', stream, cap, b);
    }
  }

  lemma {:induction false} ConnectionParks(c: Conn, calls: seq<Call>)
    requires Shaped(c) && ParkedOnly(c)
    ensures ParkedOnly(ServeAll(c, calls))
    decreases |calls|
  {
    hide ParkedOnly, Send, Read;
    if calls != [] {
      match calls[0]
      case Receive(stream, cap) => ReadParks(c, stream, cap, []);
        ConnectionParks(Serve(c, calls[0]), calls[1..]);
      case Reply(stream, msg) =>
        var c1 := Write(c, Frame(DATA, 0, stream, Prelude(|msg|)), false);
        KeepParked(c, c1);
        SendParks(c1, stream, msg, 0);
        ConnectionParks(Serve(c, calls[0]), calls[1..]);
    }
  }

  /** What the peer has granted the connection and not yet seen used, preludes included. */
  function PeerWindow(log: seq<Event>): int { ConnWindow(log) - Uncharged(log) }

  /** A reply overdraws the peer's window at once exactly when fewer than five bytes are left of it. */
  lemma PreludeOverdraws(c: Conn, stream: nat, msg: seq<byte>)
    requires Shaped(c) && PeerWindow(c.log) >= 0
    ensures PeerWindow(Write(c, Frame(DATA, 0, stream, Prelude(|msg|)), false).log) < 0 <==> PeerWindow(c.log) < 5
  {
    hide ConnWindow, Uncharged;
    var e := Out(Frame(DATA, 0, stream, Prelude(|msg|)), false);
    LogPush(c.log, e);
    UnchargedPush(c.log, e);
  }
}
