/** What one end sends as a message the other end reads as that message. */
module GrpcEndToEnd {
  import opened Bytes
  import opened Http2
  import opened FlowControl
  import opened FlowTheorems
  import opened Grpc
  import opened GrpcReading

  function OutFrames(log: seq<Event>): seq<Frame> {
    if log == [] then []
    else
      var e := log[|log| - 1];
      OutFrames(log[..|log| - 1]) + if e.Out? then [e.f] else []
  }

  /** Acknowledgements and the stream's own DATA, fit for the wire. */
  predicate Plain(f: Frame, stream: nat) {
    WellFormed(f) && (Housekeeping(f) || (f.ftype == DATA && f.stream == stream && !f.Bit0()))
  }

  /** The frames to come were read from the wire. */
  predicate FromTheWire(c: Conn) { forall f :: f in c.inbox ==> WellFormed(f) }

  /** Everything written since `was` is plain. */
  predicate PlainSince(log: seq<Event>, was: seq<Event>, stream: nat) {
    was <= log && forall i :: |was| <= i < |log| && log[i].Out? ==> Plain(log[i].f, stream)
  }

  lemma {:induction false} RecvPlain(c: Conn, stream: nat)
    requires Shaped(c) && FromTheWire(c)
    ensures PlainSince(Recv(c).0.log, c.log, stream) && FromTheWire(Recv(c).0)
    decreases |c.inbox|
  {
    hide FromBig, Announced, Pow2;
    if c.pending == [] && c.inbox != [] {
      var f := c.inbox[0];
      assert f in c.inbox && forall g :: g in c.inbox[1..] ==> g in c.inbox;
      var c' := Absorb(c.(inbox := c.inbox[1..]), f);
      assert PlainSince(c'.log, c.log, stream);
      if Housekeeping(f) && !(f.ftype == WINDOW && |f.payload| >= 4) {
        RecvPlain(c', stream);
      }
    }
  }

  lemma {:induction false} SendPlain(c: Conn, stream: nat, data: seq<byte>, at: nat)
    requires Shaped(c) && FromTheWire(c) && stream < Pow2(32)
    ensures PlainSince(Send(c, stream, data, at).0.log, c.log, stream)
    decreases 2 * |c.inbox| + |c.pending|, |data| - at
  {
    hide Recv, Pow2;
    if at < |data| && !Stuck(c, stream) {
      if Budget(c, stream) <= 0 {
        var (c', got) := Recv(c);
        RecvConsumes(c);
        RecvPlain(c, stream);
        match got
        case Gone =>
        case Refilled => SendPlain(c', stream, data, at);
        case Delivered(f) => SendPlain(if Foreign(f, stream) then Park(c', f) else c', stream, data, at);
      } else {
        var n := Min(Budget(c, stream), |data| - at);
        SendPlain(SendChunk(c, stream, data[at..at + n]), stream, data, at + n);
      }
    }
  }

  lemma OutPush(log: seq<Event>, e: Event, stream: nat)
    ensures Payloads(OutFrames(log + [e]), stream) == Payloads(OutFrames(log), stream) + Bytes1(e, stream)
  {
    hide Payloads;
    var l := log + [e];
    assert l[..|l| - 1] == log && l[|l| - 1] == e;
    if e.Out? {
      PayloadsPush(OutFrames(log), e.f, stream);
      PayloadsOfOne(e.f, stream);
    } else {
      assert OutFrames(l) == OutFrames(log) + [] == OutFrames(log);
    }
  }

  lemma PayloadsOfOne(f: Frame, stream: nat)
    ensures Payloads([f], stream) == Bytes1(Out(f, true), stream)
  {
  }

  /** The frames written after the first `n` events. */
  function WrittenSince(log: seq<Event>, n: nat): seq<Frame> { if n <= |log| then OutFrames(log[n..]) else [] }

  /** The bytes on a stream are those of the frames written, event for event. */
  lemma {:induction false} DataSince(log: seq<Event>, n: nat, stream: nat)
    requires n <= |log|
    ensures DataOn(log, stream) == DataOn(log[..n], stream) + Payloads(WrittenSince(log, n), stream)
  {
    hide Payloads, DataOn, OutFrames, Bytes1;
    if n == |log| {
      assert log[..n] == log && log[n..] == [];
      NoPayloads(stream);
    } else {
      var shorter, e := log[..|log| - 1], log[|log| - 1];
      DataSince(shorter, n, stream);
      assert shorter[..n] == log[..n] && log[n..] == shorter[n..] + [e] && log == shorter + [e];
      OutPush(shorter[n..], e, stream);
      DataPush(shorter, e, stream);
    }
  }

  lemma NoPayloads(stream: nat)
    ensures Payloads(OutFrames([]), stream) == []
  {
  }

  lemma {:induction false} OutFramesPlain(log: seq<Event>, stream: nat)
    requires forall i :: 0 <= i < |log| && log[i].Out? ==> Plain(log[i].f, stream)
    ensures forall f :: f in OutFrames(log) ==> Plain(f, stream)
  {
    if log != [] {
      OutFramesPlain(log[..|log| - 1], stream);
    }
  }

  lemma {:induction false} PlainCarries(fs: seq<Frame>, stream: nat, buf: seq<byte>, whole: seq<byte>)
    requires forall f :: f in fs ==> Plain(f, stream)
    requires |buf| < |whole| && buf + Payloads(fs, stream) == whole
    ensures Remainder(fs, stream, buf, whole).Some?
  {
    assert fs == [] ==> buf + Payloads(fs, stream) == buf;
    var f := fs[0];
    assert Plain(f, stream);
    if Quiet(f) {
      assert [] + Payloads(fs[1..], stream) == Payloads(fs[1..], stream);
      PlainCarries(fs[1..], stream, buf, whole);
    } else {
      var b := buf + f.payload;
      assert whole == b + Payloads(fs[1..], stream);
      if |b| < |whole| {
        PlainCarries(fs[1..], stream, b, whole);
      } else {
        assert b == whole;
      }
    }
  }

  /** Frames behind those that carry a message do not matter. */
  lemma {:induction false} RemainderOfMore(
    fs: seq<Frame>, more: seq<Frame>, stream: nat, buf: seq<byte>, whole: seq<byte>)
    requires Remainder(fs, stream, buf, whole).Some?
    ensures Remainder(fs + more, stream, buf, whole).Some?
    decreases |fs|
  {
    if fs != [] {
      assert (fs + more)[1..] == fs[1..] + more;
      if Quiet(fs[0]) {
        RemainderOfMore(fs[1..], more, stream, buf, whole);
      } else if Remainder(fs[1..], stream, buf + fs[0].payload, whole).Some? {
        RemainderOfMore(fs[1..], more, stream, buf + fs[0].payload, whole);
      }
    }
  }

  /** What is written of a message that is sent whole: well-formed frames that carry it. */
  lemma WrittenCarries(c: Conn, stream: nat, msg: seq<byte>)
    requires Shaped(c) && FromTheWire(c) && stream < Pow2(32) && SendMessage(c, stream, msg).1.Complete?
    ensures var fs := WrittenSince(SendMessage(c, stream, msg).0.log, |c.log|);
            (forall f :: f in fs ==> WellFormed(f)) && Remainder(fs, stream, [], GrpcBytes(msg)).Some?
  {
    hide Pow2, Send, DataOn, OutFrames, Payloads, Remainder, Prelude;
    var f := Frame(DATA, 0, stream, Prelude(|msg|));
    var c1 := Write(c, f, false);
    var log := SendMessage(c, stream, msg).0.log;
    var n := |c.log|;
    SendPlain(c1, stream, msg, 0);
    assert log[n] == c1.log[n];
    forall i | 0 <= i < |log[n..]| && log[n..][i].Out? ensures Plain(log[n..][i].f, stream) {
      assert log[n..][i] == log[n + i];
    }
    OutFramesPlain(log[n..], stream);
    MessageOnTheStream(c, stream, msg);
    DataSince(log, n, stream);
    assert log[..n] == c.log;
    var was, framed := DataOn(c.log, stream), Payloads(OutFrames(log[n..]), stream);
    assert (was + framed)[|was|..] == framed && (was + GrpcBytes(msg))[|was|..] == GrpcBytes(msg);
    assert [] + framed == framed;
    PlainCarries(OutFrames(log[n..]), stream, [], GrpcBytes(msg));
  }

  /**
   * What one end sends as a message, over the bytes of the wire, the other end reads as that message,
   * whatever either end receives besides and whatever is sent behind it.
   */
  lemma EndToEnd(
    c: Conn, received: seq<byte>, stream: nat, msg: seq<byte>, bytes: seq<byte>, more: seq<byte>, peer: Conn, cap: nat)
    requires Shaped(c) && c.inbox == Frames(received) && stream < Pow2(32) && |msg| < Pow2(32) && |msg| <= cap
    requires SendMessage(c, stream, msg).1.Complete?
    requires bytes == Wire(WrittenSince(SendMessage(c, stream, msg).0.log, |c.log|)) + more
    requires Shaped(peer) && ParkedOnly(peer) && Queue(peer) == Frames(bytes)
    ensures Read(peer, stream, cap, []).1 == Message(msg)
  {
    hide Pow2, SendMessage, Read, Remainder, GrpcBytes, Frames, Wire, WrittenSince, ParkedOnly, Queue;
    FramesAreOnTheWire(received);
    WrittenCarries(c, stream, msg);
    var fs := WrittenSince(SendMessage(c, stream, msg).0.log, |c.log|);
    FramesRoundTrip(fs, more);
    RemainderOfMore(fs, Frames(more), stream, [], GrpcBytes(msg));
    ReadDelivers(peer, stream, cap, [], msg);
  }
}
