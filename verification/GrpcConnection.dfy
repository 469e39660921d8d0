/** One HTTP/2 connection in place: its windows, its parked frames, and the loops over them. */
module GrpcConnection {
  import opened Bytes
  import opened Http2
  import opened FlowControl
  import opened FlowTheorems
  import opened Grpc
  import opened GrpcReading

  // ---- gathering one message ---------------------------------------------------------

  /** What the two buffers hold of the stream's bytes so far. */
  ghost predicate Holds(ghdr: array<byte>, msg: array<byte>, have: nat, need: nat, got: nat, buf: seq<byte>)
    reads ghdr, msg
  {
    && ghdr.Length == 5 && have <= 5 && got <= msg.Length
    && buf == ghdr[..have] + msg[..got]
    && if have < 5 then got == 0 else buf[0] == 0 && need == Needed(buf) && got < need <= msg.Length
  }

  datatype Status = Partial | Entire | Refused

  /** The buffers after `total` bytes of the stream, as the gatherer sees them. */
  ghost predicate Reflects(
    ghdr: array<byte>, msg: array<byte>, st: Status, have: nat, need: nat, got: nat, total: seq<byte>)
    reads ghdr, msg
  {
    match Gathered(total, msg.Length)
    case Bad => st == Refused
    case More(b) => st == Partial && Holds(ghdr, msg, have, need, got, b)
    case Whole(m) => st == Entire && got == |m| <= msg.Length && msg[..got] == m
  }

  method TakeHeaderByte(ghdr: array<byte>, msg: array<byte>, have0: nat, x: byte, ghost buf: seq<byte>)
    returns (st: Status, have: nat, need: nat)
    requires Holds(ghdr, msg, have0, 0, 0, buf) && have0 < 5 && ghdr != msg
    modifies ghdr
    ensures have == have0 + 1 && Reflects(ghdr, msg, st, have, need, 0, buf + [x])
  {
    hide FromBig;
    ghost var before := ghdr[..have0];
    ghost var b := buf + [x];
    ghdr[have0] := x;
    have, need := have0 + 1, 0;
    assert msg[..0] == [];
    assert b == ghdr[..have] == before + [x];
    if have < 5 { return Partial, have, need; }
    if ghdr[0] != 0 { return Refused, have, need; }
    need := FromBig(ghdr[1..5]);
    assert b[1..5] == ghdr[1..5];
    if need > msg.Length { return Refused, have, need; }
    if need == 0 { return Entire, have, need; }
    return Partial, have, need;
  }

  method TakeBody(ghdr: array<byte>, msg: array<byte>, need: nat, got0: nat, p: seq<byte>, ghost buf: seq<byte>)
    returns (st: Status, got: nat)
    requires Holds(ghdr, msg, 5, need, got0, buf) && ghdr != msg
    modifies msg
    ensures Reflects(ghdr, msg, st, 5, need, got, buf + p)
  {
    hide FromBig;
    var take := need - got0;
    if take > |p| { take := |p|; }
    ghost var before := msg[..got0];
    forall i | 0 <= i < take { msg[got0 + i] := p[i]; }
    got := got0 + take;
    assert msg[..got] == before + p[..take];
    ghost var total := buf + p;
    assert total[1..5] == buf[1..5];
    assert total[5..5 + got] == msg[..got];
    if got == need { return Entire, got; }
    assert total == ghdr[..5] + msg[..got];
    return Partial, got;
  }

  /** Feeds one frame's payload to the gatherer. */
  method Gather(
    ghdr: array<byte>, msg: array<byte>, have0: nat, need0: nat, got0: nat, payload: seq<byte>, ghost buf: seq<byte>)
    returns (st: Status, have: nat, need: nat, got: nat)
    requires Holds(ghdr, msg, have0, need0, got0, buf) && ghdr != msg
    modifies ghdr, msg
    ensures Reflects(ghdr, msg, st, have, need, got, buf + payload)
  {
    hide Gathered;
    have, need, got := have0, need0, got0;
    var p := 0;
    ghost var b := buf;
    assert buf == buf + payload[..0];
    while p < |payload| && have < 5
      invariant p <= |payload| && b == buf + payload[..p] && Holds(ghdr, msg, have, need, got, b)
    {
      var x := payload[p];
      st, have, need := TakeHeaderByte(ghdr, msg, have, x, b);
      p := p + 1;
      assert b + [x] == buf + payload[..p];
      b := b + [x];
      if st != Partial {
        GatheredStays(b, payload[p..], msg.Length);
        assert b + payload[p..] == buf + payload;
        return st, have, need, 0;
      }
      assert Gathered(b, msg.Length) == More(b) by { MoreIsAll(b, msg.Length); }
    }
    assert b + payload[p..] == buf + payload;
    if have < 5 {
      assert payload[..p] == payload;
      ShortIsMore(b, msg.Length);
      return Partial, have, need, got;
    }
    st, got := TakeBody(ghdr, msg, need, got, payload[p..], b);
  }

  lemma ShortIsMore(b: seq<byte>, cap: nat)
    requires |b| < 5
    ensures Gathered(b, cap) == More(b)
  {
  }

  // ---- the connection ------------------------------------------------------------------

  class Connection {
    var conn: int
    const streams: array<int>
    var initial: nat
    var pending: seq<Frame>
    var inbox: seq<Frame>
    var log: seq<Event>

    ghost predicate Valid() { streams.Length == STREAMS }

    ghost function State(): (c: Conn)
      requires Valid()
      reads this, streams
      ensures Shaped(c)
    {
      Conn(conn, streams[..], initial, pending, inbox, log)
    }

    constructor (arriving: seq<Frame>)
      ensures Valid() && fresh(streams) && State() == Open(arriving)
    {
      conn, initial, pending, inbox, log := DEFAULT_WINDOW, DEFAULT_WINDOW, [], arriving, [];
      streams := new int[STREAMS](_ => DEFAULT_WINDOW);
      new;
      assert streams[..] == seq(STREAMS, _ => DEFAULT_WINDOW);
    }

    method WriteFrame(f: Frame, charged: bool)
      requires Valid()
      modifies `log
      ensures State() == Write(old(State()), f, charged)
    {
      log := log + [Out(f, charged)];
    }

    method ApplySettings(payload: seq<byte>)
      requires Valid() && |payload| % 6 == 0
      modifies `initial, streams
      ensures match Announced(payload, None)
              case None => State() == old(State())
              case Some(v) => State() == old(State()).(initial := v, streams := seq(STREAMS, _ => v))
    {
      hide FromBig;
      var i := 0;
      ghost var seen: Option<nat> := None;
      while i + 6 <= |payload|
        invariant i <= |payload| && i % 6 == 0
        invariant Announced(payload, None) == Announced(payload[i..], seen)
        invariant match seen
                  case None => State() == old(State())
                  case Some(v) => State() == old(State()).(initial := v, streams := seq(STREAMS, _ => v))
      {
        var id := FromBig(payload[i..i + 2]);
        var v := FromBig(payload[i + 2..i + 6]);
        assert payload[i..][..2] == payload[i..i + 2] && payload[i..][2..6] == payload[i + 2..i + 6];
        assert payload[i..][6..] == payload[i + 6..];
        if id == 4 {
          initial := v;
          forall w | 0 <= w < STREAMS { streams[w] := v; }
          assert streams[..] == seq(STREAMS, _ => v);
          seen := Some(v);
        }
        i := i + 6;
      }
    }

    method RecvFrame() returns (got: Got)
      requires Valid()
      modifies this, streams
      ensures (State(), got) == Recv(old(State()))
    {
      hide FromBig, Announced;
      while true
        invariant Recv(State()) == Recv(old(State()))
        decreases |inbox|
      {
        if pending != [] {
          got := Delivered(pending[0]);
          pending := pending[1..];
          return;
        }
        if inbox == [] { return Gone; }
        var f := inbox[0];
        ghost var before := State();
        inbox := inbox[1..];
        log := log + [In(f)];
        if f.ftype == SETTINGS {
          if !f.Bit0() {
            if |f.payload| % 6 == 0 { ApplySettings(f.payload); }
            WriteFrame(Frame(SETTINGS, 1, 0, []), false);
          }
          assert State() == Absorb(before.(inbox := before.inbox[1..]), f);
        } else if f.ftype == PING {
          if !f.Bit0() { WriteFrame(Frame(PING, 1, 0, f.payload), false); }
          assert State() == Absorb(before.(inbox := before.inbox[1..]), f);
        } else if f.ftype == WINDOW {
          if |f.payload| < 4 {
            NoIncrement(before.(inbox := before.inbox[1..]), f);
            continue;
          }
          var inc := FromBig(f.payload[..4]);
          if f.stream == 0 {
            conn := conn + inc;
          } else {
            streams[f.stream % STREAMS] := streams[f.stream % STREAMS] + inc;
          }
          assert State() == Absorb(before.(inbox := before.inbox[1..]), f);
          return Refilled;
        } else {
          return Delivered(f);
        }
      }
    }

    method SendFrame(stream: nat, chunk: seq<byte>)
      requires Valid()
      modifies this, streams
      ensures State() == SendChunk(old(State()), stream, chunk)
    {
      ghost var before := State();
      WriteFrame(Frame(DATA, 0, stream, chunk), true);
      streams[stream % STREAMS] := streams[stream % STREAMS] - |chunk|;
      conn := conn - |chunk|;
      assert streams[..] == before.streams[stream % STREAMS := before.streams[stream % STREAMS] - |chunk|];
    }

    method SendDataWindowed(stream: nat, data: seq<byte>) returns (r: SendResult)
      requires Valid()
      modifies this, streams
      ensures (State(), r) == Send(old(State()), stream, data, 0)
    {
      hide Recv, SendChunk;
      var sent: nat := 0;
      while sent < |data|
        invariant sent <= |data|
        invariant Send(State(), stream, data, sent) == Send(old(State()), stream, data, 0)
        decreases 2 * |inbox| + |pending|, |data| - sent
      {
        var budget := streams[stream % STREAMS];
        if budget > conn { budget := conn; }
        if budget > MAX_FRAME { budget := MAX_FRAME; }
        if budget <= 0 {
          // Here the loop would turn forever without changing anything.
          if pending != [] && Foreign(pending[0], stream) { return Spins; }
          RecvConsumes(State());
          var got := RecvFrame();
          if got.Gone? { return Broken; }
          if got.Refilled? { continue; }
          if Foreign(got.f, stream) { pending := [got.f] + pending; }
          continue;
        }
        var chunk := if budget < |data| - sent then budget else |data| - sent;
        ChunkQueues(State(), stream, data[sent..sent + chunk]);
        SendFrame(stream, data[sent..sent + chunk]);
        sent := sent + chunk;
      }
      return Complete;
    }

    method SendGrpcMessage(stream: nat, msg: seq<byte>) returns (r: SendResult)
      requires Valid()
      modifies this, streams
      ensures (State(), r) == SendMessage(old(State()), stream, msg)
    {
      hide Send;
      WriteFrame(Frame(DATA, 0, stream, Prelude(|msg|)), false);
      r := SendDataWindowed(stream, msg);
    }

    /** The message lands in `msg`; the result names it. */
    method ReadGrpcMessage(stream: nat, msg: array<byte>) returns (r: ReadResult)
      requires Valid() && msg as object != streams as object
      modifies this, streams, msg
      ensures (State(), r) == Read(old(State()), stream, msg.Length, [])
      ensures r.Message? ==> |r.msg| <= msg.Length && msg[..|r.msg|] == r.msg
    {
      hide Recv, Gathered;
      var ghdr := new byte[5];
      var have: nat, need: nat, got: nat := 0, 0, 0;
      ghost var buf := [];
      while true
        invariant Holds(ghdr, msg, have, need, got, buf)
        invariant Read(State(), stream, msg.Length, buf) == Read(old(State()), stream, msg.Length, [])
        decreases 2 * |inbox| + |pending|
      {
        // Here the loop would turn forever without changing anything.
        if pending != [] && Unwanted(pending[0], stream) { return Forever; }
        TurnConsumes(State(), stream, msg.Length, buf);
        var rr := RecvFrame();
        if rr.Gone? { return Error; }
        if rr.Refilled? { continue; }
        var f := rr.f;
        if f.ftype == HEADERS {
          if f.Bit0() {
            r := if have == 5 then Message(msg[..got]) else NoMessage;
            assert buf[..have] == ghdr[..have] && buf[have..] == msg[..got];
            return;
          }
          continue;
        }
        if f.ftype == GOAWAY || f.ftype == RST { return Error; }
        if f.ftype != DATA || f.stream != stream {
          pending := [f] + pending;
          continue;
        }
        ghost var total := buf + f.payload;
        var st;
        st, have, need, got := Gather(ghdr, msg, have, need, got, f.payload, buf);
        if st == Refused { return Error; }
        if st == Entire { return Message(msg[..got]); }
        MoreIsAll(total, msg.Length);
        buf := total;
        if f.Bit0() {
          r := if have == 5 then Message(msg[..got]) else NoMessage;
          assert buf[..have] == ghdr[..have] && buf[have..] == msg[..got];
          return;
        }
      }
    }
  }

  lemma NoIncrement(c: Conn, f: Frame)
    requires Shaped(c) && f.ftype == WINDOW && |f.payload| < 4
    ensures Absorb(c, f) == c.(log := c.log + [In(f)])
  {
    var k := f.stream % STREAMS;
    assert c.streams[k := c.streams[k] + 0] == c.streams;
  }
}
