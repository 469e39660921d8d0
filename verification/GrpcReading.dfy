/** What the reader makes of the frames before it: when the message is whole, and what is left. */
module GrpcReading {
  import opened Bytes
  import opened Http2
  import opened FlowControl
  import opened FlowTheorems
  import opened Grpc

  /** Frames the reader passes over. */
  predicate Quiet(f: Frame) { Housekeeping(f) || (f.ftype == HEADERS && !f.Bit0()) }

  /**
   * The frames after the one that completes `whole`, `buf` being what came before; none if the
   * frames do not carry it. The completing frame may end the stream and may run past the message.
   */
  function Remainder(fs: seq<Frame>, stream: nat, buf: seq<byte>, whole: seq<byte>): Option<seq<Frame>> {
    if fs == [] then None
    else
      var f := fs[0];
      if Quiet(f) then Remainder(fs[1..], stream, buf, whole)
      else if f.ftype != DATA || f.stream != stream then None
      else if whole <= buf + f.payload then Some(fs[1..])
      else if f.Bit0() || !(buf + f.payload <= whole) then None
      else Remainder(fs[1..], stream, buf + f.payload, whole)
  }

  lemma GatheredWhole(msg: seq<byte>, cap: nat, total: seq<byte>)
    requires |msg| < Pow2(32) && |msg| <= cap && GrpcBytes(msg) <= total
    ensures Gathered(total, cap) == Whole(msg)
  {
    hide Big, FromBig, Pow2;
    FitsWidth();
    var whole := GrpcBytes(msg);
    BigRoundTrip(|msg|, 4);
    assert total[..|whole|] == whole;
    assert total[1..5] == whole[1..5] == Big(|msg|, 4);
    assert total[5..5 + |msg|] == whole[5..];
  }

  lemma GatheredPart(msg: seq<byte>, cap: nat, total: seq<byte>)
    requires |msg| < Pow2(32) && |msg| <= cap && total <= GrpcBytes(msg) && total != GrpcBytes(msg)
    ensures Gathered(total, cap) == More(total)
  {
    hide Big, FromBig, Pow2;
    FitsWidth();
    var whole := GrpcBytes(msg);
    BigRoundTrip(|msg|, 4);
    assert whole[..|total|] == total;
    if |total| >= 5 {
      assert total[1..5] == whole[1..5] == Big(|msg|, 4);
      assert |total| == |whole| ==> total == whole;
    }
  }

  /** What is settled by some bytes is not changed by more. */
  lemma GatheredStays(b: seq<byte>, rest: seq<byte>, cap: nat)
    requires !Gathered(b, cap).More?
    ensures Gathered(b + rest, cap) == Gathered(b, cap)
  {
    hide FromBig;
    assert (b + rest)[1..5] == b[1..5];
    var n := Needed(b);
    if |b| >= 5 + n { assert (b + rest)[5..5 + n] == b[5..5 + n]; }
  }

  /** The stream's bytes in a run of frames, from the front. */
  function Payloads(fs: seq<Frame>, stream: nat): seq<byte> {
    if fs == [] then []
    else OwnBytes(fs[0], stream) + Payloads(fs[1..], stream)
  }

  /** The stream's bytes in one frame. */
  function OwnBytes(f: Frame, stream: nat): seq<byte> {
    if f.ftype == DATA && f.stream == stream then f.payload else []
  }

  lemma PayloadsStep(fs: seq<Frame>, stream: nat)
    requires fs != []
    ensures Payloads(fs, stream) == OwnBytes(fs[0], stream) + Payloads(fs[1..], stream)
  {
  }

  lemma {:induction false} PayloadsSplit(fs: seq<Frame>, n: nat, stream: nat)
    requires n <= |fs|
    ensures Payloads(fs, stream) == Payloads(fs[..n], stream) + Payloads(fs[n..], stream)
  {
    hide Payloads, OwnBytes;
    if n == 0 {
      assert fs[0..] == fs;
      NoBytes(fs, stream);
    } else {
      PayloadsSplit(fs[1..], n - 1, stream);
      PayloadsStep(fs, stream);
      PayloadsStep(fs[..n], stream);
      assert fs[..n][1..] == fs[1..][..n - 1] && fs[1..][n - 1..] == fs[n..] && fs[..n][0] == fs[0];
      var own, head, tail := OwnBytes(fs[0], stream), Payloads(fs[1..][..n - 1], stream), Payloads(fs[n..], stream);
      assert own + (head + tail) == own + head + tail;
    }
  }

  lemma PayloadsPush(fs: seq<Frame>, f: Frame, stream: nat)
    ensures Payloads(fs + [f], stream) == Payloads(fs, stream) + Payloads([f], stream)
  {
    hide Payloads;
    var all := fs + [f];
    PayloadsSplit(all, |fs|, stream);
    assert all[..|fs|] == fs && all[|fs|..] == [f];
  }

  // ---- frame by frame ----------------------------------------------------------------------------

  /** The connection once the first frame of its queue, parked or not, has been taken. */
  function Next(c: Conn): (r: Conn)
    requires Shaped(c) && Queue(c) != []
    ensures Shaped(r)
  {
    if c.pending != [] then c.(pending := c.pending[1..]) else Absorb(c.(inbox := c.inbox[1..]), c.inbox[0])
  }

  lemma NextQueue(c: Conn)
    requires Shaped(c) && Queue(c) != []
    ensures Queue(Next(c)) == Queue(c)[1..] && (ParkedOnly(c) ==> ParkedOnly(Next(c)))
  {
    hide Absorb, Housekeeping;
  }

  /** HEADERS of any stream, or the stream's own DATA, that end a stream. */
  predicate EndsStream(f: Frame, stream: nat) {
    f.Bit0() && (f.ftype == HEADERS || (f.ftype == DATA && f.stream == stream))
  }

  /** What the reader does with the first frame of its queue. */
  function OneFrame(c: Conn, stream: nat, cap: nat, buf: seq<byte>): (Conn, ReadResult)
    requires Shaped(c) && Queue(c) != []
  {
    var f, c' := Queue(c)[0], Next(c);
    if Quiet(f) then Read(c', stream, cap, buf)
    else if f.ftype == HEADERS then (c', Ended(buf))
    else if f.ftype == GOAWAY || f.ftype == RST then (c', Error)
    else if f.ftype != DATA || f.stream != stream then (Park(c', f), Forever)
    else match Gathered(buf + f.payload, cap)
      case Bad => (c', Error)
      case Whole(msg) => (c', Message(msg))
      case More(b) => if f.Bit0() then (c', Ended(b)) else Read(c', stream, cap, b)
  }

  lemma ReadUnfolds(c: Conn, stream: nat, cap: nat, buf: seq<byte>)
    requires Shaped(c) && ParkedOnly(c) && Queue(c) != []
    ensures Read(c, stream, cap, buf) == OneFrame(c, stream, cap, buf)
  {
    hide Gathered, Absorb, Ended;
    var f := Queue(c)[0];
    if c.pending != [] {
      assert f == c.pending[0] && f in c.pending;
      assert c.pending == [f] + c.pending[1..];
    } else if Housekeeping(f) && !(f.ftype == WINDOW && |f.payload| >= 4) {
      assert Recv(c) == Recv(Next(c));
    }
  }

  // ---- a message the frames carry is read ------------------------------------------------------------

  /** However a message is cut into frames and whatever comes between them, it is read back. */
  lemma {:induction false} ReadDelivers(c: Conn, stream: nat, cap: nat, buf: seq<byte>, msg: seq<byte>)
    requires Shaped(c) && ParkedOnly(c) && |msg| < Pow2(32) && |msg| <= cap
    requires Remainder(Queue(c), stream, buf, GrpcBytes(msg)).Some?
    ensures var (c', r) := Read(c, stream, cap, buf);
            && r == Message(msg) && ParkedOnly(c')
            && Queue(c') == Remainder(Queue(c), stream, buf, GrpcBytes(msg)).value
    decreases |Queue(c)|
  {
    hide Gathered, GrpcBytes, Pow2, Read, ParkedOnly, Queue, Next;
    var f := Queue(c)[0];
    ReadUnfolds(c, stream, cap, buf);
    NextQueue(c);
    if Quiet(f) {
      ReadDelivers(Next(c), stream, cap, buf, msg);
    } else {
      var total := buf + f.payload;
      if GrpcBytes(msg) <= total {
        GatheredWhole(msg, cap, total);
      } else {
        GatheredPart(msg, cap, total);
        ReadDelivers(Next(c), stream, cap, total, msg);
      }
    }
  }

  // ---- a message that is read was carried -------------------------------------------------------------

  /** The frames taken off the queue between two states. */
  function Taken(c: Conn, c': Conn): seq<Frame> {
    if |Queue(c')| <= |Queue(c)| then Queue(c)[..|Queue(c)| - |Queue(c')|] else []
  }

  /**
   * What a returned message is, `total` being the stream's bytes taken: a sound prelude, and either
   * the whole message it announces or, if the last frame taken ends a stream, the part that came.
   */
  predicate Accounts(total: seq<byte>, last: Frame, stream: nat, cap: nat, msg: seq<byte>) {
    && |total| >= 5 && total[0] == 0 && Needed(total) <= cap
    && if Needed(total) <= |total| - 5 then msg == total[5..5 + Needed(total)]
       else EndsStream(last, stream) && msg == total[5..]
  }

  predicate Partial(buf: seq<byte>, cap: nat) { Gathered(buf, cap) == More(buf) }

  /** The queue after is what is left of the queue before. */
  predicate Drained(c: Conn, c': Conn) {
    |Queue(c')| < |Queue(c)| && Queue(c') == Queue(c)[|Queue(c)| - |Queue(c')|..]
  }

  lemma DrainedStep(c: Conn, n: Conn, c': Conn, stream: nat)
    requires Queue(c) != [] && Queue(n) == Queue(c)[1..]
    requires Drained(n, c') || Queue(c') == Queue(n)
    ensures Drained(c, c') && Taken(c, c') != []
    ensures Taken(c, c') == [Queue(c)[0]] + Taken(n, c')
    ensures Payloads(Taken(c, c'), stream) == Payloads([Queue(c)[0]], stream) + Payloads(Taken(n, c'), stream)
    ensures Taken(n, c') != [] ==> Taken(c, c')[|Taken(c, c')| - 1] == Taken(n, c')[|Taken(n, c')| - 1]
  {
    hide Payloads;
    var f := Queue(c)[0];
    assert Taken(c, c') == [f] + Taken(n, c');
    PayloadsSplit(Taken(c, c'), 1, stream);
    assert Taken(c, c')[..1] == [f] && Taken(c, c')[1..] == Taken(n, c');
  }

  lemma PayloadsOfQuiet(f: Frame, stream: nat)
    ensures Payloads([f], stream) == OwnBytes(f, stream)
  {
  }

  lemma MoreMeans(total: seq<byte>, cap: nat, last: Frame, stream: nat)
    requires Partial(total, cap) && |total| >= 5 && EndsStream(last, stream)
    ensures Accounts(total, last, stream, cap, total[5..])
  {
  }

  lemma WholeMeans(total: seq<byte>, cap: nat, last: Frame, stream: nat)
    requires Gathered(total, cap).Whole?
    ensures Accounts(total, last, stream, cap, Gathered(total, cap).msg)
  {
  }

  /** Every message the reader returns is one the frames taken account for. */
  lemma {:induction false} ReadReturns(c: Conn, stream: nat, cap: nat, buf: seq<byte>)
    requires Shaped(c) && ParkedOnly(c) && Partial(buf, cap)
    ensures var (c', r) := Read(c, stream, cap, buf);
            r.Message? ==>
            && Drained(c, c') && Taken(c, c') != []
            && Accounts(buf + Payloads(Taken(c, c'), stream), Taken(c, c')[|Taken(c, c')| - 1], stream, cap, r.msg)
    decreases |Queue(c)|
  {
    hide Gathered, Read, ParkedOnly, Queue, Next, Payloads, Accounts, Drained, Taken;
    var (c', r) := Read(c, stream, cap, buf);
    if Queue(c) == [] {
      NothingToRead(c, stream, cap, buf);
    } else if r.Message? {
      var f, n := Queue(c)[0], Next(c);
      ReadUnfolds(c, stream, cap, buf);
      NextQueue(c);
      PayloadsOfQuiet(f, stream);
      if Quiet(f) {
        ReadReturns(n, stream, cap, buf);
        DrainedStep(c, n, c', stream);
        assert buf + ([] + Payloads(Taken(n, c'), stream)) == buf + Payloads(Taken(n, c'), stream);
      } else if f.ftype == HEADERS {
        LastOne(c, c', stream);
        assert buf + [] == buf;
        MoreMeans(buf, cap, f, stream);
      } else {
        var total := buf + f.payload;
        if Gathered(total, cap).Whole? {
          LastOne(c, c', stream);
          WholeMeans(total, cap, f, stream);
        } else {
          MoreIsAll(total, cap);
          if f.Bit0() {
            LastOne(c, c', stream);
            MoreMeans(total, cap, f, stream);
          } else {
            ReadReturns(n, stream, cap, total);
            DrainedStep(c, n, c', stream);
            assert buf + (f.payload + Payloads(Taken(n, c'), stream)) == total + Payloads(Taken(n, c'), stream);
          }
        }
      }
    }
  }

  lemma MoreIsAll(b: seq<byte>, cap: nat)
    ensures Gathered(b, cap).More? ==> Gathered(b, cap).buf == b
  {
  }

  lemma NothingToRead(c: Conn, stream: nat, cap: nat, buf: seq<byte>)
    requires Shaped(c) && Queue(c) == []
    ensures Read(c, stream, cap, buf).1 == Error
  {
  }

  /** One frame taken, the last of this call. */
  lemma LastOne(c: Conn, c': Conn, stream: nat)
    requires Queue(c) != [] && Queue(c') == Queue(c)[1..]
    ensures Drained(c, c') && Taken(c, c') == [Queue(c)[0]]
    ensures Payloads(Taken(c, c'), stream) == Payloads([Queue(c)[0]], stream)
  {
  }

  // ---- exactly when it is whole ---------------------------------------------------------------------------

  /** What Remainder says: the frames up to the first that completes `whole`. */
  lemma {:induction false} RemainderMeaning(fs: seq<Frame>, stream: nat, buf: seq<byte>, whole: seq<byte>)
    requires Remainder(fs, stream, buf, whole).Some? && |buf| < |whole|
    ensures var rest := Remainder(fs, stream, buf, whole).value; var k := |fs| - |rest|;
            && 0 < k && rest == fs[k..] && whole <= buf + Payloads(fs[..k], stream)
            && forall n :: 0 <= n < k ==> |buf + Payloads(fs[..n], stream)| < |whole|
  {
    hide Payloads;
    var f, rest := fs[0], Remainder(fs, stream, buf, whole).value;
    PayloadsOfQuiet(f, stream);
    var p := Payloads([f], stream);
    var b := buf + p;
    if f.ftype == DATA && whole <= b {
      assert fs[1..] == rest && fs[..1] == [f];
      NoBytes(fs, stream);
    } else {
      assert Quiet(f) ==> b == buf;
      RemainderMeaning(fs[1..], stream, b, whole);
      var k := |fs| - |rest|;
      assert fs[1..][k - 1..] == fs[k..];
      forall n | 0 < n <= k ensures buf + Payloads(fs[..n], stream) == b + Payloads(fs[1..][..n - 1], stream) {
        PayloadsFirst(fs, n, stream);
        assert buf + (p + Payloads(fs[1..][..n - 1], stream)) == b + Payloads(fs[1..][..n - 1], stream);
      }
      NoBytes(fs, stream);
    }
  }

  lemma NoBytes(fs: seq<Frame>, stream: nat)
    ensures Payloads(fs[..0], stream) == []
  {
  }

  lemma PayloadsFirst(fs: seq<Frame>, n: nat, stream: nat)
    requires 0 < n <= |fs|
    ensures Payloads(fs[..n], stream) == Payloads([fs[0]], stream) + Payloads(fs[1..][..n - 1], stream)
  {
    hide Payloads;
    PayloadsSplit(fs[..n], 1, stream);
    assert fs[..n][..1] == [fs[0]] && fs[..n][1..] == fs[1..][..n - 1];
  }

  lemma {:induction false} TakenCarries(c: Conn, stream: nat, cap: nat, buf: seq<byte>, whole: seq<byte>)
    requires Shaped(c) && ParkedOnly(c) && Partial(buf, cap) && |buf| < |whole|
    requires Read(c, stream, cap, buf).1.Message?
    requires whole <= buf + Payloads(Taken(c, Read(c, stream, cap, buf).0), stream)
    ensures Remainder(Queue(c), stream, buf, whole).Some?
    decreases |Queue(c)|
  {
    hide Gathered, Read, ParkedOnly, Queue, Next, Payloads, Accounts, Drained, Taken;
    var (c', r) := Read(c, stream, cap, buf);
    ReadReturns(c, stream, cap, buf);
    if Queue(c) == [] {
      NothingToRead(c, stream, cap, buf);
    } else {
      var f, n := Queue(c)[0], Next(c);
      ReadUnfolds(c, stream, cap, buf);
      NextQueue(c);
      PayloadsOfQuiet(f, stream);
      if Quiet(f) {
        ReadReturns(n, stream, cap, buf);
        DrainedStep(c, n, c', stream);
        assert buf + ([] + Payloads(Taken(n, c'), stream)) == buf + Payloads(Taken(n, c'), stream);
        TakenCarries(n, stream, cap, buf, whole);
      } else if f.ftype == HEADERS || !Gathered(buf + f.payload, cap).More? || f.Bit0() {
        LastOne(c, c', stream);
      } else {
        var total := buf + f.payload;
        MoreIsAll(total, cap);
        ReadReturns(n, stream, cap, total);
        DrainedStep(c, n, c', stream);
        assert buf + (f.payload + Payloads(Taken(n, c'), stream)) == total + Payloads(Taken(n, c'), stream);
        BothPrefixes(whole, total, Payloads(Taken(n, c'), stream));
        if !(whole <= total) {
          TakenCarries(n, stream, cap, total, whole);
        }
      }
    }
  }

  lemma BothPrefixes(a: seq<byte>, b: seq<byte>, more: seq<byte>)
    requires a <= b + more
    ensures a <= b || (b <= a && |b| < |a|)
  {
    if |a| > |b| { assert a[..|b|] == (b + more)[..|b|] == b; }
  }

  /**
   * The reader returns `msg`, and all of it was taken from the stream, exactly when the frames before
   * it carry the message: no frame ends a stream, and no other stream's frame comes, before it is whole.
   */
  lemma ReadWholeIff(c: Conn, stream: nat, cap: nat, msg: seq<byte>)
    requires Shaped(c) && ParkedOnly(c) && |msg| < Pow2(32) && |msg| <= cap
    ensures var (c', r) := Read(c, stream, cap, []);
            Remainder(Queue(c), stream, [], GrpcBytes(msg)).Some? <==>
            r == Message(msg) && GrpcBytes(msg) <= Payloads(Taken(c, c'), stream)
  {
    hide Read, ParkedOnly, Queue, Payloads, Prelude, Pow2;
    var (c', r) := Read(c, stream, cap, []);
    var whole := GrpcBytes(msg);
    assert Partial([], cap);
    hide Gathered;
    assert [] + Payloads(Taken(c, c'), stream) == Payloads(Taken(c, c'), stream);
    if Remainder(Queue(c), stream, [], whole).Some? {
      ReadDelivers(c, stream, cap, [], msg);
      RemainderMeaning(Queue(c), stream, [], whole);
    } else if r == Message(msg) && whole <= Payloads(Taken(c, c'), stream) {
      TakenCarries(c, stream, cap, [], whole);
    }
  }

  // ---- a stream that ends too soon --------------------------------------------------------------------------

  /** Frames that neither end the stream nor disturb it. */
  predicate Undisturbed(fs: seq<Frame>, stream: nat) {
    forall i :: 0 <= i < |fs| ==> Quiet(fs[i]) || (fs[i].ftype == DATA && fs[i].stream == stream && !fs[i].Bit0())
  }

  lemma PartialPrefix(b: seq<byte>, more: seq<byte>, cap: nat)
    requires Partial(b + more, cap)
    ensures Partial(b, cap)
  {
    hide Gathered;
    if !Gathered(b, cap).More? { GatheredStays(b, more, cap); }
    MoreIsAll(b, cap);
  }

  /**
   * A stream that ends inside a message still yields one: the part that came. HEADERS that end any
   * stream at all do it as well as the stream's own.
   */
  lemma {:induction false} TruncatedIsAccepted(
    c: Conn, stream: nat, cap: nat, buf: seq<byte>, fs: seq<Frame>, last: Frame, rest: seq<Frame>)
    requires Shaped(c) && ParkedOnly(c) && Queue(c) == fs + [last] + rest
    requires Undisturbed(fs, stream) && EndsStream(last, stream)
    requires Partial(buf + Payloads(fs + [last], stream), cap) && |buf + Payloads(fs + [last], stream)| >= 5
    ensures Read(c, stream, cap, buf).1 == Message((buf + Payloads(fs + [last], stream))[5..])
    decreases |fs|
  {
    hide Gathered, Read, ParkedOnly, Queue, Next, Payloads, Partial;
    var f := Queue(c)[0];
    ReadUnfolds(c, stream, cap, buf);
    NextQueue(c);
    PayloadsOfQuiet(f, stream);
    var all := fs + [last];
    PayloadsSplit(all, 1, stream);
    assert all[..1] == [f];
    var p, more := Payloads([f], stream), Payloads(all[1..], stream);
    assert buf + (p + more) == buf + p + more;
    PartialPrefix(buf + p, more, cap);
    PartialIsMore(buf + p, cap);
    if fs == [] {
      assert all[1..] == [];
      NoBytes([], stream);
      assert p + [] == p && buf + [] == buf;
    } else {
      assert all[1..] == fs[1..] + [last];
      assert Queue(c)[1..] == fs[1..] + [last] + rest;
      assert fs[0] == f && (Quiet(f) ==> buf + p == buf);
      TruncatedIsAccepted(Next(c), stream, cap, buf + p, fs[1..], last, rest);
    }
  }

  lemma PartialIsMore(b: seq<byte>, cap: nat)
    requires Partial(b, cap)
    ensures Gathered(b, cap) == More(b)
  {
  }

  // ---- what comes behind the message ------------------------------------------------------------------------

  /**
   * The stream's bytes behind a message survive its reading exactly when some frame ends where the
   * message ends.
   */
  lemma BytesBehindSurviveIff(c: Conn, stream: nat, cap: nat, msg: seq<byte>, more: seq<byte>)
    requires Shaped(c) && ParkedOnly(c) && |msg| < Pow2(32) && |msg| <= cap
    requires Remainder(Queue(c), stream, [], GrpcBytes(msg)).Some?
    requires Payloads(Queue(c), stream) == GrpcBytes(msg) + more
    ensures var (c', r) := Read(c, stream, cap, []);
            && r == Message(msg)
            && (Payloads(Queue(c'), stream) == more <==> EndsAt(Queue(c), stream, GrpcBytes(msg)))
  {
    hide Read, ParkedOnly, Queue, Payloads, Prelude, Pow2;
    ReadDelivers(c, stream, cap, [], msg);
    CutAtTheEnd(Queue(c), stream, GrpcBytes(msg), more);
  }

  /** Some run of the first frames carries exactly these bytes. */
  predicate EndsAt(fs: seq<Frame>, stream: nat, whole: seq<byte>) {
    exists n :: 0 <= n <= |fs| && Payloads(fs[..n], stream) == whole
  }

  lemma CutAtTheEnd(fs: seq<Frame>, stream: nat, whole: seq<byte>, more: seq<byte>)
    requires Remainder(fs, stream, [], whole).Some? && whole != [] && Payloads(fs, stream) == whole + more
    ensures Payloads(Remainder(fs, stream, [], whole).value, stream) == more <==> EndsAt(fs, stream, whole)
  {
    hide Payloads;
    var rest := Remainder(fs, stream, [], whole).value;
    var k := |fs| - |rest|;
    RemainderMeaning(fs, stream, [], whole);
    PayloadsSplit(fs, k, stream);
    var head, tail := Payloads(fs[..k], stream), Payloads(rest, stream);
    assert [] + head == head && head + tail == whole + more;
    if tail == more {
      assert head == (whole + more)[..|head|] == whole;
    }
    if EndsAt(fs, stream, whole) {
      var n :| 0 <= n <= |fs| && Payloads(fs[..n], stream) == whole;
      assert [] + Payloads(fs[..n], stream) == Payloads(fs[..n], stream);
      PayloadsSplit(fs[..n], k, stream);
      assert fs[..n][..k] == fs[..k];
      assert |head| == |whole|;
      assert tail == (head + tail)[|head|..] == more;
    }
  }

  /** Two messages in one frame: the second is lost. */
  lemma SecondMessageIsLost(c: Conn, stream: nat, cap: nat, a: seq<byte>, b: seq<byte>, rest: seq<Frame>)
    requires Shaped(c) && ParkedOnly(c) && |a| < Pow2(32) && |a| <= cap
    requires Queue(c) == [Frame(DATA, 0, stream, GrpcBytes(a) + GrpcBytes(b))] + rest
    ensures var (c', r) := Read(c, stream, cap, []);
            r == Message(a) && Queue(c') == rest
  {
    hide Pow2, GrpcBytes, Read;
    assert Queue(c)[1..] == rest;
    ReadDelivers(c, stream, cap, [], a);
  }
}
