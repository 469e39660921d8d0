/**
 * What the peer's frames mean, said of their bytes: a WINDOW_UPDATE (type 8) grants the number in its
 * four bytes, a SETTINGS frame (type 4) announces identifiers and values, a PING (type 6) is answered.
 */
module FlowLaws {
  import opened Bytes
  import opened FlowControl
  import opened FlowTheorems
  import opened Http2

  // ---- one frame -----------------------------------------------------------------------------

  /** What is left of a connection when everything but the windows and the log is the same. */
  predicate Quietly(c: Conn, c': Conn) { c'.pending == c.pending && c'.inbox == c.inbox && Shaped(c') }

  lemma BigOfFour(n: nat, more: seq<byte>)
    requires n < Pow2(32)
    ensures |Big(n, 4) + more| >= 4 && FromBig((Big(n, 4) + more)[..4]) == n
  {
    hide Pow2, Big, FromBig;
    FitsWidth();
    assert (Big(n, 4) + more)[..4] == Big(n, 4);
    BigRoundTrip(n, 4);
  }

  /** A grant of `n` on stream 0 raises the connection's window by `n`, and no stream's. */
  lemma GrantToConnection(c: Conn, flags: byte, n: nat, more: seq<byte>)
    requires Shaped(c) && n < Pow2(32)
    ensures var f := Frame(8, flags, 0, Big(n, 4) + more);
            Absorb(c, f) == c.(conn := c.conn + n, log := c.log + [In(f)])
  {
    hide Big, FromBig, Announced, Pow2;
    BigOfFour(n, more);
  }

  /** On any other stream it raises the one window that stream has modulo 64, and nothing else. */
  lemma GrantToStream(c: Conn, flags: byte, s: nat, n: nat, more: seq<byte>)
    requires Shaped(c) && s > 0 && n < Pow2(32)
    ensures var f := Frame(8, flags, s, Big(n, 4) + more); var c' := Absorb(c, f);
            && c' == c.(streams := c'.streams, log := c.log + [In(f)])
            && forall k :: 0 <= k < 64 ==> c'.streams[k] == if k == s % 64 then c.streams[k] + n else c.streams[k]
  {
    hide Big, FromBig, Announced, Pow2;
    BigOfFour(n, more);
  }

  datatype Setting = Setting(id: nat, value: nat)

  predicate InRange(p: Setting) { p.id < 65536 && p.value < Pow2(32) }

  /** Two bytes of identifier and four of value for each. */
  function Settings(ps: seq<Setting>): seq<byte> {
    if ps == [] then [] else Settings(ps[..|ps| - 1]) + (Big(ps[|ps| - 1].id, 2) + Big(ps[|ps| - 1].value, 4))
  }

  /** The value last given to identifier 4, the initial window size. */
  function LastWindow(ps: seq<Setting>): Option<nat> {
    if ps == [] then None
    else if ps[|ps| - 1].id == 4 then Some(ps[|ps| - 1].value)
    else LastWindow(ps[..|ps| - 1])
  }

  lemma {:induction false} AnnouncedInFront(a: seq<byte>, b: seq<byte>, was: Option<nat>)
    requires |a| % 6 == 0
    ensures Announced(a + b, was) == Announced(b, Announced(a, was))
    decreases |a|
  {
    hide FromBig;
    if a == [] {
      assert a + b == b;
    } else {
      assert (a + b)[6..] == a[6..] + b && (a + b)[..2] == a[..2] && (a + b)[2..6] == a[2..6];
      AnnouncedInFront(a[6..], b, if FromBig(a[..2]) == 4 then Some(FromBig(a[2..6])) else was);
    }
  }

  lemma OneSetting(p: Setting, was: Option<nat>)
    requires InRange(p)
    ensures var b := Big(p.id, 2) + Big(p.value, 4);
            |b| == 6 && Announced(b, was) == if p.id == 4 then Some(p.value) else was
  {
    hide Big, FromBig, Pow2;
    var b := Big(p.id, 2) + Big(p.value, 4);
    assert b[..2] == Big(p.id, 2) && b[2..6] == Big(p.value, 4) && b[6..] == [];
    Sixteen();
    FitsWidth();
    BigRoundTrip(p.id, 2);
    BigRoundTrip(p.value, 4);
    assert Announced(b[6..], Some(p.value)) == Some(p.value) && Announced(b[6..], was) == was;
  }

  lemma Sixteen()
    ensures Pow2(8 * 2) == 65536
  {
    EightBits(0);
    EightBits(8);
    assert Pow2(0) == 1;
  }

  lemma {:induction false} SettingsAnnounce(ps: seq<Setting>)
    requires forall p :: p in ps ==> InRange(p)
    ensures |Settings(ps)| % 6 == 0 && Announced(Settings(ps), None) == LastWindow(ps)
  {
    hide Big, FromBig, InRange;
    if ps != [] {
      var front, p := ps[..|ps| - 1], ps[|ps| - 1];
      SettingsAnnounce(front);
      AnnouncedInFront(Settings(front), Big(p.id, 2) + Big(p.value, 4), None);
      OneSetting(p, LastWindow(front));
    }
  }

  /**
   * Settings set all 64 windows to the value last given to identifier 4 and leave them alone without
   * one; the connection's window never changes. They are answered with an empty acknowledgement.
   */
  lemma SettingsResize(c: Conn, flags: byte, s: nat, ps: seq<Setting>)
    requires Shaped(c) && flags % 2 == 0 && forall p :: p in ps ==> InRange(p)
    ensures var f := Frame(4, flags, s, Settings(ps)); var c' := Absorb(c, f);
            && Quietly(c, c') && c'.conn == c.conn
            && c'.log == c.log + [In(f), Out(Frame(4, 1, 0, []), false)]
            && forall k :: 0 <= k < 64 ==>
                 c'.streams[k] == match LastWindow(ps) case Some(v) => v case None => c.streams[k]
  {
    hide Announced, Settings, InRange;
    SettingsAnnounce(ps);
    var f := Frame(4, flags, s, Settings(ps));
    assert c.log + [In(f)] + [Out(Frame(4, 1, 0, []), false)] == c.log + [In(f), Out(Frame(4, 1, 0, []), false)];
  }

  /** Settings whose length is no multiple of six are acknowledged and set nothing. */
  lemma RaggedSettings(c: Conn, f: Frame)
    requires Shaped(c) && f.ftype == 4 && f.flags % 2 == 0 && |f.payload| % 6 != 0
    ensures var c' := Absorb(c, f);
            && Quietly(c, c') && c'.conn == c.conn && c'.streams == c.streams && c'.initial == c.initial
            && c'.log == c.log + [In(f), Out(Frame(4, 1, 0, []), false)]
  {
    hide Announced;
    assert c.log + [In(f)] + [Out(Frame(4, 1, 0, []), false)] == c.log + [In(f), Out(Frame(4, 1, 0, []), false)];
  }

  /** A PING is answered with its own contents; acknowledgements and other frames only pass by. */
  lemma PingIsAnswered(c: Conn, f: Frame)
    requires Shaped(c) && f.ftype != 8 && !(f.ftype == 4 && f.flags % 2 == 0)
    ensures var c' := Absorb(c, f);
            && Quietly(c, c') && c'.conn == c.conn && c'.streams == c.streams
            && c'.log == c.log + if f.ftype == 6 && f.flags % 2 == 0 then [In(f), Out(Frame(6, 1, 0, f.payload), false)]
                                 else [In(f)]
  {
    hide Announced, FromBig;
    assert c.log + [In(f)] + [Out(Frame(6, 1, 0, f.payload), false)] ==
           c.log + [In(f), Out(Frame(6, 1, 0, f.payload), false)];
  }

  /**
   * With one frame before it, a blocked sender: it looks at its windows again at a full WINDOW_UPDATE,
   * parks DATA (0) and HEADERS (1) of another stream and then turns forever, and drops any other
   * frame that is not SETTINGS (4) or PING (6), of which it hears nothing.
   */
  lemma OneFrame(c: Conn, f: Frame, stream: nat, data: seq<byte>)
    requires Shaped(c) && c.pending == [] && c.inbox == [f] && data != []
    requires c.conn <= 0 && (f.ftype == 8 ==> |f.payload| < 4)
    ensures var (c', r) := Send(c, stream, data, 0);
            && c'.inbox == [] && DataOn(c'.log, stream) == DataOn(c.log, stream)
            && if (f.ftype == 0 || f.ftype == 1) && f.stream != stream then r == Spins && c'.pending == [f]
               else r == Broken && c'.pending == []
  {
    hide Announced, FromBig, DataOn;
    var c0 := c.(inbox := []);
    assert c.inbox[1..] == [];
    var c1 := Absorb(c0, f);
    AbsorbSendsNoData(c0, f, stream);
    assert c1.conn <= 0;
    assert Recv(c1) == (c1, Gone);
    if f.ftype == 4 || f.ftype == 6 || f.ftype == 8 {
      assert Recv(c) == (c1, Gone);
    } else {
      assert Recv(c) == (c1, Delivered(f));
      if (f.ftype == 0 || f.ftype == 1) && f.stream != stream {
        assert Park(c1, f).pending == [f];
        assert Send(Park(c1, f), stream, data, 0) == (Park(c1, f), Spins);
      } else {
        assert Send(c1, stream, data, 0) == (c1, Broken);
      }
    }
  }

  /** A sender that is not blocked sends at once all that both windows, a frame and the message allow. */
  lemma FirstChunk(c: Conn, stream: nat, data: seq<byte>, at: nat, n: nat)
    requires Shaped(c) && at < |data| && n > 0
    requires n <= c.conn && n <= c.streams[stream % 64] && n <= 16384 && n <= |data| - at
    requires n == c.conn || n == c.streams[stream % 64] || n == 16384 || n == |data| - at
    ensures var next := SendChunk(c, stream, data[at..at + n]);
            && Send(c, stream, data, at) == Send(next, stream, data, at + n)
            && next == c.(conn := c.conn - n, streams := c.streams[stream % 64 := c.streams[stream % 64] - n],
                          log := c.log + [Out(Frame(0, 0, stream, data[at..at + n]), true)])
  {
    hide Recv;
  }

  // ---- whole sends -----------------------------------------------------------------------------

  /** The number in a grant's four bytes. */
  function Amount(f: Frame): nat {
    if f.ftype == 8 && |f.payload| >= 4 then
      var a: nat, b: nat, c: nat, d: nat := f.payload[0], f.payload[1], f.payload[2], f.payload[3];
      a * 0x100_0000 + b * 0x1_0000 + c * 0x100 + d
    else 0
  }

  lemma AmountIsIncrement(f: Frame)
    ensures Amount(f) == Increment(f)
  {
    if f.ftype == 8 && |f.payload| >= 4 {
      var p := f.payload[..4];
      assert p[..3][..2][..1][..0] == [];
      var a: nat, b: nat, c: nat := p[0], p[1], p[2];
      assert FromBig(p[..3][..2][..1]) == a;
      assert FromBig(p[..3][..2]) == a * 256 + b;
      assert FromBig(p[..3]) == a * 65536 + b * 256 + c;
    }
  }

  /** What the frames to come grant the connection, and the streams that share window `k`. */
  function ToConnection(q: seq<Frame>): nat
    decreases |q|
  {
    if q == [] then 0 else (if q[0].stream == 0 then Amount(q[0]) else 0) + ToConnection(q[1..])
  }

  function ToStream(q: seq<Frame>, k: nat): nat
    decreases |q|
  {
    if q == [] then 0
    else (if q[0].stream != 0 && q[0].stream % 64 == k then Amount(q[0]) else 0) + ToStream(q[1..], k)
  }

  /** No SETTINGS frame that asks for an answer. */
  predicate NoSettings(q: seq<Frame>) { forall f :: f in q ==> f.ftype == 4 ==> f.flags % 2 == 1 }

  lemma AbsorbGrants(c: Conn, f: Frame, k: nat)
    requires Shaped(c) && k < 64
    ensures var c' := Absorb(c, f);
            && c'.conn == c.conn + (if f.stream == 0 then Amount(f) else 0)
            && ((f.ftype == 4 ==> f.flags % 2 == 1) ==>
                  c'.streams[k] == c.streams[k] + if f.stream != 0 && f.stream % 64 == k then Amount(f) else 0)
  {
    hide Announced, FromBig;
    AmountIsIncrement(f);
  }

  lemma {:induction false} RecvGrants(c: Conn, k: nat)
    requires Shaped(c) && k < 64
    ensures var c' := Recv(c).0;
            && c'.conn + ToConnection(c'.inbox) == c.conn + ToConnection(c.inbox)
            && (NoSettings(c.inbox) ==>
                  NoSettings(c'.inbox) && c'.streams[k] + ToStream(c'.inbox, k) == c.streams[k] + ToStream(c.inbox, k))
    decreases |c.inbox|
  {
    hide Absorb, Amount;
    if c.pending == [] && c.inbox != [] {
      var f, rest := c.inbox[0], c.inbox[1..];
      assert f in c.inbox && forall g :: g in rest ==> g in c.inbox;
      AbsorbGrants(c.(inbox := rest), f, k);
      var c' := Absorb(c.(inbox := rest), f);
      if Housekeeping(f) && !(f.ftype == WINDOW && |f.payload| >= 4) { RecvGrants(c', k); }
    }
  }

  /** How much of the stream's data a send put on the wire. */
  function Sent(c: Conn, c': Conn, stream: nat): int { |DataOn(c'.log, stream)| - |DataOn(c.log, stream)| }

  /**
   * However a send ends, each window is what it was, and what the frames taken in grant it, less what
   * was sent; `k` is any of the 64 stream windows, while no SETTINGS frame resizes them.
   */
  lemma {:induction false} WindowsAddUp(c: Conn, stream: nat, data: seq<byte>, at: nat, k: nat)
    requires Shaped(c) && k < 64
    ensures var (c', r) := Send(c, stream, data, at);
            && c'.conn + ToConnection(c'.inbox) + Sent(c, c', stream) == c.conn + ToConnection(c.inbox)
            && (NoSettings(c.inbox) ==>
                  c'.streams[k] + ToStream(c'.inbox, k) + (if k == stream % 64 then Sent(c, c', stream) else 0) ==
                  c.streams[k] + ToStream(c.inbox, k))
    decreases 2 * |c.inbox| + |c.pending|, |data| - at
  {
    hide DataOn, Recv, NoSettings, ToConnection, ToStream;
    if at < |data| && !Stuck(c, stream) {
      if Budget(c, stream) <= 0 {
        var (c', got) := Recv(c);
        RecvConsumes(c);
        RecvGrants(c, k);
        RecvSendsNoData(c, stream);
        match got
        case Gone =>
        case Refilled => WindowsAddUp(c', stream, data, at, k);
        case Delivered(f) => WindowsAddUp(if Foreign(f, stream) then Park(c', f) else c', stream, data, at, k);
      } else {
        var n := Min(Budget(c, stream), |data| - at);
        var chunk := data[at..at + n];
        ChunkData(c, stream, chunk, stream);
        WindowsAddUp(SendChunk(c, stream, chunk), stream, data, at + n, k);
      }
    }
  }
}
