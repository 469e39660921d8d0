/** What every run of the sending loop keeps, and exactly when it ends. */
module FlowTheorems {
  import opened Bytes
  import opened Http2
  import opened FlowControl

  // ---- the windows as the socket's history determines them -----------------------------

  /** What an event adds to the connection's window. */
  function ConnChange(e: Event): int {
    match e
    case In(f) => if f.stream == 0 then Increment(f) else 0
    case Out(f, charged) => if charged then 0 - |f.payload| else 0
  }

  function ConnWindow(log: seq<Event>): int {
    if log == [] then 65535 else ConnWindow(log[..|log| - 1]) + ConnChange(log[|log| - 1])
  }

  /** The window shared by the streams with number `k` modulo 64, after an event. */
  function StreamStep(was: int, k: nat, e: Event): int {
    match e
    case In(f) =>
      (match NewWindow(f)
       case Some(v) => v
       case None => if f.stream != 0 && f.stream % STREAMS == k then was + Increment(f) else was)
    case Out(f, charged) => if charged && f.stream % STREAMS == k then was - |f.payload| else was
  }

  function StreamWindow(log: seq<Event>, k: nat): int {
    if log == [] then 65535 else StreamStep(StreamWindow(log[..|log| - 1], k), k, log[|log| - 1])
  }

  predicate Afloat(log: seq<Event>) {
    ConnWindow(log) >= 0 && forall k :: 0 <= k < STREAMS ==> StreamWindow(log, k) >= 0
  }

  /** No moment of the history has charged more than was granted. */
  predicate AlwaysAfloat(log: seq<Event>) {
    Afloat(log) && (log == [] || AlwaysAfloat(log[..|log| - 1]))
  }

  lemma {:induction false} AfloatAtEveryMoment(log: seq<Event>, n: nat)
    requires AlwaysAfloat(log) && n <= |log|
    ensures Afloat(log[..n])
  {
    hide Afloat;
    if n == |log| {
      assert log[..n] == log;
    } else {
      AfloatAtEveryMoment(log[..|log| - 1], n);
      assert log[..|log| - 1][..n] == log[..n];
    }
  }

  /** The counters are what the history says, and the history is sound. */
  predicate Accounted(c: Conn) {
    && Shaped(c) && c.conn == ConnWindow(c.log)
    && (forall k :: 0 <= k < STREAMS ==> c.streams[k] == StreamWindow(c.log, k))
    && AlwaysAfloat(c.log)
  }

  lemma LogPush(log: seq<Event>, e: Event)
    ensures ConnWindow(log + [e]) == ConnWindow(log) + ConnChange(e)
    ensures forall k: nat :: k < STREAMS ==> StreamWindow(log + [e], k) == StreamStep(StreamWindow(log, k), k, e)
    ensures AlwaysAfloat(log + [e]) <==> AlwaysAfloat(log) && Afloat(log + [e])
  {
    hide ConnChange, StreamStep, Afloat;
    var l := log + [e];
    assert l[..|l| - 1] == log && l[|l| - 1] == e;
  }

  lemma OpenAccounted(inbox: seq<Frame>)
    ensures Accounted(Open(inbox))
  {
  }

  /** Frames that charge nothing leave the accounts alone. */
  lemma WriteAccounted(c: Conn, f: Frame)
    requires Accounted(c)
    ensures Accounted(Write(c, f, false))
  {
    hide ConnWindow, StreamWindow, AlwaysAfloat;
    var e := Out(f, false);
    LogPush(c.log, e);
    forall k: nat | k < STREAMS ensures StreamWindow(c.log + [e], k) == c.streams[k] {
      assert StreamStep(StreamWindow(c.log, k), k, e) == StreamWindow(c.log, k);
    }
    AfloatNow(c.log);
  }

  lemma AfloatNow(log: seq<Event>)
    requires AlwaysAfloat(log)
    ensures Afloat(log)
  {
  }

  /** The counters after an event, if the event does to them what it does to the windows. */
  lemma EventAccounted(c: Conn, e: Event, next: Conn)
    requires Accounted(c) && Shaped(next) && next.log == c.log + [e]
    requires next.conn == c.conn + ConnChange(e) && next.conn >= 0
    requires forall k: nat :: k < STREAMS ==> next.streams[k] == StreamStep(c.streams[k], k, e) && next.streams[k] >= 0
    ensures Accounted(next)
  {
    hide ConnWindow, StreamWindow, AlwaysAfloat, ConnChange, StreamStep;
    LogPush(c.log, e);
  }

  lemma NonNegative(c: Conn, k: nat)
    requires Accounted(c) && k < STREAMS
    ensures c.conn >= 0 && c.streams[k] >= 0
  {
    hide ConnWindow, StreamWindow;
    AfloatNow(c.log);
  }

  /** What a frame does to the counters, before any acknowledgement is written. */
  function Counted(c: Conn, f: Frame): (r: Conn)
    requires Shaped(c)
    ensures Shaped(r)
  {
    var c := c.(log := c.log + [In(f)]);
    match NewWindow(f)
    case Some(v) => c.(initial := v, streams := seq(STREAMS, _ => v))
    case None =>
      if f.ftype != WINDOW then c
      else if f.stream == 0 then c.(conn := c.conn + Increment(f))
      else
        var k := f.stream % STREAMS;
        c.(streams := c.streams[k := c.streams[k] + Increment(f)])
  }

  lemma CountedAccounted(c: Conn, f: Frame)
    requires Accounted(c)
    ensures Accounted(Counted(c, f))
  {
    hide Accounted, FromBig, Announced;
    ShapedIfAccounted(c);
    NonNegative(c, 0);
    var next := Counted(c, f);
    forall k: nat | k < STREAMS ensures next.streams[k] == StreamStep(c.streams[k], k, In(f)) && next.streams[k] >= 0 {
      NonNegative(c, k);
    }
    EventAccounted(c, In(f), next);
  }

  lemma ShapedIfAccounted(c: Conn)
    requires Accounted(c)
    ensures Shaped(c)
  {
  }

  lemma AbsorbAccounted(c: Conn, f: Frame)
    requires Accounted(c)
    ensures Accounted(Absorb(c, f))
  {
    hide Accounted, FromBig, Announced;
    ShapedIfAccounted(c);
    var next := Counted(c, f);
    CountedAccounted(c, f);
    if f.ftype == SETTINGS && !f.Bit0() {
      assert Absorb(c, f) == Write(next, Frame(SETTINGS, 1, 0, []), false);
      WriteAccounted(next, Frame(SETTINGS, 1, 0, []));
    } else if f.ftype == PING && !f.Bit0() {
      assert Absorb(c, f) == Write(next, Frame(PING, 1, 0, f.payload), false);
      WriteAccounted(next, Frame(PING, 1, 0, f.payload));
    } else {
      assert Absorb(c, f) == next;
    }
  }

  lemma ChunkAccounted(c: Conn, stream: nat, chunk: seq<byte>)
    requires Accounted(c) && |chunk| <= Budget(c, stream)
    ensures Accounted(SendChunk(c, stream, chunk))
  {
    hide Accounted;
    ShapedIfAccounted(c);
    var next := SendChunk(c, stream, chunk);
    var e := Out(Frame(DATA, 0, stream, chunk), true);
    forall k: nat | k < STREAMS ensures next.streams[k] == StreamStep(c.streams[k], k, e) && next.streams[k] >= 0 {
      NonNegative(c, k);
    }
    EventAccounted(c, e, next);
  }

  /** Accounts do not look at what is parked or still to be read. */
  lemma QueuesDoNotCount(c: Conn, pending: seq<Frame>, inbox: seq<Frame>)
    requires Accounted(c)
    ensures Accounted(c.(pending := pending, inbox := inbox))
  {
  }

  lemma {:induction false} RecvAccounted(c: Conn)
    requires Accounted(c)
    ensures Accounted(Recv(c).0)
    decreases |c.inbox|
  {
    hide Accounted, Absorb, Housekeeping;
    ShapedIfAccounted(c);
    if c.pending != [] {
      QueuesDoNotCount(c, c.pending[1..], c.inbox);
    } else if c.inbox != [] {
      var f := c.inbox[0];
      QueuesDoNotCount(c, c.pending, c.inbox[1..]);
      var c' := Absorb(c.(inbox := c.inbox[1..]), f);
      AbsorbAccounted(c.(inbox := c.inbox[1..]), f);
      if Housekeeping(f) && !(f.ftype == WINDOW && |f.payload| >= 4) {
        RecvAccounted(c');
      }
    }
  }

  /** Whatever the peer sends and however the message is cut, no frame goes past either window. */
  lemma {:induction false} SendAccounted(c: Conn, stream: nat, data: seq<byte>, at: nat)
    requires Accounted(c)
    ensures Accounted(Send(c, stream, data, at).0)
    decreases 2 * |c.inbox| + |c.pending|, |data| - at
  {
    hide Accounted, Recv, SendChunk;
    ShapedIfAccounted(c);
    if at < |data| && !Stuck(c, stream) {
      if Budget(c, stream) <= 0 {
        var (c', got) := Recv(c);
        RecvConsumes(c);
        RecvAccounted(c);
        match got
        case Gone =>
        case Refilled => SendAccounted(c', stream, data, at);
        case Delivered(f) =>
          QueuesDoNotCount(c', [f] + c'.pending, c'.inbox);
          SendAccounted(if Foreign(f, stream) then Park(c', f) else c', stream, data, at);
      } else {
        var n := Min(Budget(c, stream), |data| - at);
        ChunkAccounted(c, stream, data[at..at + n]);
        ChunkQueues(c, stream, data[at..at + n]);
        SendAccounted(SendChunk(c, stream, data[at..at + n]), stream, data, at + n);
      }
    }
  }

  lemma ChunkQueues(c: Conn, stream: nat, chunk: seq<byte>)
    requires Shaped(c)
    ensures var c' := SendChunk(c, stream, chunk); c'.inbox == c.inbox && c'.pending == c.pending && Shaped(c')
  {
  }

  // ---- the bytes sent ----------------------------------------------------------------------

  function Bytes1(e: Event, stream: nat): seq<byte> {
    if e.Out? && e.f.ftype == DATA && e.f.stream == stream then e.f.payload else []
  }

  /** The DATA bytes sent on a stream, in order. */
  function DataOn(log: seq<Event>, stream: nat): seq<byte> {
    if log == [] then [] else DataOn(log[..|log| - 1], stream) + Bytes1(log[|log| - 1], stream)
  }

  lemma DataPush(log: seq<Event>, e: Event, stream: nat)
    ensures DataOn(log + [e], stream) == DataOn(log, stream) + Bytes1(e, stream)
  {
    var l := log + [e];
    assert l[..|l| - 1] == log && l[|l| - 1] == e;
  }

  lemma AbsorbSendsNoData(c: Conn, f: Frame, s: nat)
    requires Shaped(c)
    ensures DataOn(Absorb(c, f).log, s) == DataOn(c.log, s)
  {
    hide DataOn, FromBig, Announced;
    DataPush(c.log, In(f), s);
    var log := c.log + [In(f)];
    if f.ftype == SETTINGS && !f.Bit0() {
      DataPush(log, Out(Frame(SETTINGS, 1, 0, []), false), s);
    } else if f.ftype == PING && !f.Bit0() {
      DataPush(log, Out(Frame(PING, 1, 0, f.payload), false), s);
    }
  }

  lemma {:induction false} RecvSendsNoData(c: Conn, s: nat)
    requires Shaped(c)
    ensures DataOn(Recv(c).0.log, s) == DataOn(c.log, s)
    decreases |c.inbox|
  {
    hide Absorb, Housekeeping, DataOn;
    if c.pending == [] && c.inbox != [] {
      var f := c.inbox[0];
      AbsorbSendsNoData(c.(inbox := c.inbox[1..]), f, s);
      var c' := Absorb(c.(inbox := c.inbox[1..]), f);
      if Housekeeping(f) && !(f.ftype == WINDOW && |f.payload| >= 4) {
        RecvSendsNoData(c', s);
      }
    }
  }

  /** `was` and then some of `data`, all of it if and only if `all`. */
  predicate Extends(now: seq<byte>, was: seq<byte>, data: seq<byte>, all: bool) {
    was <= now <= was + data && (all <==> now == was + data)
  }

  /** The stream carries the message from its start, whole exactly when the loop completes. */
  lemma {:induction false} SendCarriesTheMessage(c: Conn, stream: nat, data: seq<byte>, at: nat)
    requires Shaped(c) && at <= |data|
    ensures var (c', r) := Send(c, stream, data, at);
            Extends(DataOn(c'.log, stream), DataOn(c.log, stream), data[at..], r.Complete?)
    decreases 2 * |c.inbox| + |c.pending|, |data| - at
  {
    hide DataOn, Recv, SendChunk;
    if at < |data| && !Stuck(c, stream) {
      if Budget(c, stream) <= 0 {
        var (c', got) := Recv(c);
        RecvConsumes(c);
        RecvSendsNoData(c, stream);
        match got
        case Gone =>
        case Refilled => SendCarriesTheMessage(c', stream, data, at);
        case Delivered(f) =>
          SendCarriesTheMessage(if Foreign(f, stream) then Park(c', f) else c', stream, data, at);
      } else {
        var n := Min(Budget(c, stream), |data| - at);
        var chunk := data[at..at + n];
        ChunkQueues(c, stream, chunk);
        ChunkData(c, stream, chunk, stream);
        SendCarriesTheMessage(SendChunk(c, stream, chunk), stream, data, at + n);
        ExtendsInTwo(DataOn(Send(c, stream, data, at).0.log, stream), DataOn(c.log, stream), chunk, data[at + n..],
                     Send(c, stream, data, at).1.Complete?);
        assert chunk + data[at + n..] == data[at..];
      }
    }
  }

  lemma ExtendsInTwo(now: seq<byte>, was: seq<byte>, a: seq<byte>, b: seq<byte>, all: bool)
    requires Extends(now, was + a, b, all)
    ensures Extends(now, was, a + b, all)
  {
    assert was + a + b == was + (a + b);
    assert was <= was + a;
  }

  lemma ChunkData(c: Conn, stream: nat, chunk: seq<byte>, s: nat)
    requires Shaped(c)
    ensures DataOn(SendChunk(c, stream, chunk).log, s) == DataOn(c.log, s) + if s == stream then chunk else []
  {
    DataPush(c.log, Out(Frame(DATA, 0, stream, chunk), true), s);
  }

  /** And no other stream carries anything. */
  lemma {:induction false} SendKeepsToItsStream(c: Conn, stream: nat, data: seq<byte>, at: nat, other: nat)
    requires Shaped(c) && other != stream
    ensures DataOn(Send(c, stream, data, at).0.log, other) == DataOn(c.log, other)
    decreases 2 * |c.inbox| + |c.pending|, |data| - at
  {
    hide DataOn, Recv, SendChunk;
    if at < |data| && !Stuck(c, stream) {
      if Budget(c, stream) <= 0 {
        var (c', got) := Recv(c);
        RecvConsumes(c);
        RecvSendsNoData(c, other);
        match got
        case Gone =>
        case Refilled => SendKeepsToItsStream(c', stream, data, at, other);
        case Delivered(f) =>
          SendKeepsToItsStream(if Foreign(f, stream) then Park(c', f) else c', stream, data, at, other);
      } else {
        var n := Min(Budget(c, stream), |data| - at);
        var chunk := data[at..at + n];
        ChunkQueues(c, stream, chunk);
        ChunkData(c, stream, chunk, other);
        SendKeepsToItsStream(SendChunk(c, stream, chunk), stream, data, at + n, other);
      }
    }
  }

  // ---- when the loop ends ---------------------------------------------------------------------

  /** The two windows that bind a stream. */
  datatype Windows = Windows(conn: int, win: int)

  function WindowsOf(c: Conn, stream: nat): Windows
    requires Shaped(c)
  {
    Windows(c.conn, c.streams[stream % STREAMS])
  }

  /** The windows after a frame was taken in. */
  function TakeIn(w: Windows, f: Frame, stream: nat): Windows {
    Windows(w.conn + ConnChange(In(f)), StreamStep(w.win, stream % STREAMS, In(f)))
  }

  /** What the windows allow at once. */
  function Now(w: Windows): nat { if Min(w.conn, w.win) > 0 then Min(w.conn, w.win) else 0 }

  function Less(w: Windows, n: nat): Windows { Windows(w.conn - n, w.win - n) }

  /** The receiver returns on this frame; on the others it goes on waiting. */
  predicate Wakes(f: Frame) { !Housekeeping(f) || (f.ftype == WINDOW && |f.payload| >= 4) }

  /** What can be sent in all when the sender looks at its windows with the frames `q` before it. */
  function Look(w: Windows, q: seq<Frame>, stream: nat): nat
    decreases |q|, 1
  {
    Now(w) + Wait(Less(w, Now(w)), q, stream)
  }

  /**
   * What can still be sent when it waits for a frame instead: it looks again only at a frame that
   * wakes it, another stream's included, which is then parked for good; at the end it does not.
   */
  function Wait(w: Windows, q: seq<Frame>, stream: nat): nat
    decreases |q|, 0
  {
    if q == [] then 0
    else if Foreign(q[0], stream) then Now(w)
    else if Wakes(q[0]) then Look(TakeIn(w, q[0], stream), q[1..], stream)
    else Wait(TakeIn(w, q[0], stream), q[1..], stream)
  }

  /** The frames the sender can take in before it meets another stream's. */
  function Ahead(q: seq<Frame>, stream: nat): seq<Frame> {
    if q == [] || Foreign(q[0], stream) then [] else [q[0]] + Ahead(q[1..], stream)
  }

  /** Parked frames are never housekeeping: the receiver hands out no such frame. */
  predicate ParkedOnly(c: Conn) { forall f :: f in c.pending ==> !Housekeeping(f) }

  function Queue(c: Conn): seq<Frame> { c.pending + c.inbox }

  function Prospect(c: Conn, stream: nat): nat
    requires Shaped(c)
  {
    Look(WindowsOf(c, stream), Queue(c), stream)
  }

  predicate Clear(q: seq<Frame>, stream: nat) { Ahead(q, stream) == q }

  /** What the loop comes to, told from the windows and the queue before it starts. */
  function Verdict(c: Conn, stream: nat, left: nat): SendResult
    requires Shaped(c)
  {
    if left <= Prospect(c, stream) then Complete
    else if Clear(Queue(c), stream) then Broken
    else Spins
  }

  lemma ClearStep(q: seq<Frame>, stream: nat)
    requires q != []
    ensures Clear(q, stream) <==> !Foreign(q[0], stream) && Clear(q[1..], stream)
  {
    hide Foreign;
    assert q == [q[0]] + q[1..];
  }

  /** Blocked, it waits. */
  lemma BlockedWaits(w: Windows, q: seq<Frame>, stream: nat)
    requires Min(w.conn, w.win) <= 0
    ensures Look(w, q, stream) == Wait(w, q, stream)
  {
    assert Less(w, 0) == w;
  }

  lemma AbsorbTakesIn(c: Conn, f: Frame, stream: nat)
    requires Shaped(c)
    ensures WindowsOf(Absorb(c, f), stream) == TakeIn(WindowsOf(c, stream), f, stream)
  {
    hide FromBig, Announced;
  }

  lemma DeliveredChangesNothing(w: Windows, f: Frame, stream: nat)
    requires !Housekeeping(f)
    ensures TakeIn(w, f, stream) == w && Wakes(f)
  {
  }

  /** What a call of the receiver leaves to hope for. */
  lemma {:induction false} RecvProspect(c: Conn, stream: nat)
    requires Shaped(c) && c.pending == []
    ensures var (c', got) := Recv(c); var hope := Wait(WindowsOf(c, stream), c.inbox, stream);
            && c'.pending == []
            && (got.Gone? ==> hope == 0 && Clear(c.inbox, stream))
            && (got.Refilled? ==> hope == Prospect(c', stream) && (Clear(c.inbox, stream) <==> Clear(c'.inbox, stream)))
            && (got.Delivered? ==> !Housekeeping(got.f))
            && (got.Delivered? && !Foreign(got.f, stream) ==>
                  hope == Prospect(c', stream) && (Clear(c.inbox, stream) <==> Clear(c'.inbox, stream)))
            && (got.Delivered? && Foreign(got.f, stream) ==>
                  hope == Now(WindowsOf(c', stream)) && !Clear(c.inbox, stream))
    decreases |c.inbox|
  {
    hide Absorb, Look, Clear, TakeIn, WindowsOf, Now;
    if c.inbox == [] {
      NothingAhead(stream);
    } else {
      var f := c.inbox[0];
      var c' := Absorb(c.(inbox := c.inbox[1..]), f);
      ClearStep(c.inbox, stream);
      AbsorbTakesIn(c.(inbox := c.inbox[1..]), f, stream);
      SameWindows(c, c.(inbox := c.inbox[1..]), stream);
      assert Queue(c') == c'.inbox;
      if Foreign(f, stream) {
        DeliveredChangesNothing(WindowsOf(c, stream), f, stream);
      } else if !Wakes(f) {
        RecvProspect(c', stream);
      }
    }
  }

  lemma NothingAhead(stream: nat)
    ensures Clear([], stream)
  {
  }

  lemma SameWindows(a: Conn, b: Conn, stream: nat)
    requires Shaped(a) && Shaped(b) && a.conn == b.conn && a.streams == b.streams
    ensures WindowsOf(a, stream) == WindowsOf(b, stream)
  {
  }

  /** Another stream's frame on top leaves what the windows allow at once, and no more. */
  lemma ForeignOnTop(c: Conn, stream: nat)
    requires Shaped(c) && c.pending != [] && Foreign(c.pending[0], stream)
    ensures Prospect(c, stream) == Now(WindowsOf(c, stream)) && !Clear(Queue(c), stream)
  {
    hide Foreign;
    assert Queue(c)[0] == c.pending[0];
    ClearStep(Queue(c), stream);
    var w := WindowsOf(c, stream);
    var v := Less(w, Now(w));
    assert Now(v) == 0;
    assert Queue(c) != [] && Wait(v, Queue(c), stream) == Now(v);
  }

  lemma PopProspect(c: Conn, stream: nat)
    requires Shaped(c) && ParkedOnly(c) && c.pending != [] && !Foreign(c.pending[0], stream) && Budget(c, stream) <= 0
    ensures var c' := c.(pending := c.pending[1..]);
            && ParkedOnly(c') && Prospect(c', stream) == Prospect(c, stream)
            && (Clear(Queue(c'), stream) <==> Clear(Queue(c), stream))
  {
    hide Foreign, Clear, TakeIn, Housekeeping;
    var c', f := c.(pending := c.pending[1..]), c.pending[0];
    assert f in c.pending;
    assert Queue(c)[0] == f && Queue(c)[1..] == Queue(c');
    ClearStep(Queue(c), stream);
    BlockedWaits(WindowsOf(c, stream), Queue(c), stream);
    DeliveredChangesNothing(WindowsOf(c, stream), f, stream);
  }

  lemma LookAfterSending(w: Windows, n: nat, q: seq<Frame>, stream: nat)
    requires n <= Now(w)
    ensures Look(Less(w, n), q, stream) == Look(w, q, stream) - n
  {
    hide Wait;
    if n == 0 {
      assert Less(w, 0) == w;
    } else {
      assert Now(Less(w, n)) == Now(w) - n;
      assert Less(Less(w, n), Now(w) - n) == Less(w, Now(w));
    }
  }

  lemma ChunkWindows(c: Conn, stream: nat, chunk: seq<byte>)
    requires Shaped(c) && 0 < |chunk| <= Budget(c, stream)
    ensures WindowsOf(SendChunk(c, stream, chunk), stream) == Less(WindowsOf(c, stream), |chunk|)
    ensures |chunk| <= Now(WindowsOf(c, stream))
  {
  }

  lemma ChunkProspect(c: Conn, stream: nat, chunk: seq<byte>)
    requires Shaped(c) && 0 < |chunk| <= Budget(c, stream)
    ensures var c' := SendChunk(c, stream, chunk);
            Queue(c') == Queue(c) && c'.pending == c.pending && Prospect(c', stream) == Prospect(c, stream) - |chunk|
  {
    hide Look;
    ChunkWindows(c, stream, chunk);
    LookAfterSending(WindowsOf(c, stream), |chunk|, Queue(c), stream);
  }

  lemma BudgetIsNow(c: Conn, stream: nat)
    requires Shaped(c)
    ensures Budget(c, stream) > 0 ==> Budget(c, stream) <= Now(WindowsOf(c, stream)) <= Prospect(c, stream)
    ensures Budget(c, stream) <= 0 ==> Now(WindowsOf(c, stream)) == 0
  {
    hide Wait;
  }

  /**
   * The loop completes exactly when the windows, looked at when the receiver lets it, cover the
   * message. Failing that, another stream's DATA or HEADERS makes it spin forever, and without one
   * it waits until the connection ends.
   */
  lemma {:induction false} SendVerdict(c: Conn, stream: nat, data: seq<byte>, at: nat)
    requires Shaped(c) && ParkedOnly(c) && at <= |data|
    ensures Send(c, stream, data, at).1 == Verdict(c, stream, |data| - at)
    decreases 2 * |c.inbox| + |c.pending|, |data| - at
  {
    hide Recv, SendChunk, Prospect, Budget, ParkedOnly, Foreign, Clear, Queue, Now, WindowsOf;
    BudgetIsNow(c, stream);
    if at < |data| {
      if Stuck(c, stream) {
        ForeignOnTop(c, stream);
      } else if Budget(c, stream) > 0 {
        var n := Min(Budget(c, stream), |data| - at);
        var chunk := data[at..at + n];
        ChunkQueues(c, stream, chunk);
        ChunkProspect(c, stream, chunk);
        KeepParked(c, SendChunk(c, stream, chunk));
        SendVerdict(SendChunk(c, stream, chunk), stream, data, at + n);
      } else {
        BlockedVerdict(c, stream, data, at);
      }
    }
  }

  lemma KeepParked(c: Conn, c': Conn)
    requires ParkedOnly(c) && c'.pending == c.pending
    ensures ParkedOnly(c')
  {
  }

  lemma BlockedVerdict(c: Conn, stream: nat, data: seq<byte>, at: nat)
    requires Shaped(c) && ParkedOnly(c) && at < |data| && Budget(c, stream) <= 0 && !Stuck(c, stream)
    ensures Send(c, stream, data, at).1 == Verdict(c, stream, |data| - at)
    decreases 2 * |c.inbox| + |c.pending|, |data| - at, 0
  {
    hide Look, Wait, Clear, Foreign, Housekeeping, Now, WindowsOf;
    var (c', got) := Recv(c);
    RecvConsumes(c);
    if c.pending != [] {
      PopProspect(c, stream);
      SendVerdict(c', stream, data, at);
    } else {
      hide Recv;
      assert Queue(c) == c.inbox;
      RecvProspect(c, stream);
      WaitsNow(c, stream);
      assert Queue(c') == c'.inbox;
      match got
      case Gone =>
      case Refilled => SendVerdict(c', stream, data, at);
      case Delivered(f) =>
        if Foreign(f, stream) {
          var p := Park(c', f);
          ForeignOnTop(p, stream);
          SameWindows(p, c', stream);
          SendVerdict(p, stream, data, at);
        } else {
          SendVerdict(c', stream, data, at);
        }
    }
  }

  lemma WaitsNow(c: Conn, stream: nat)
    requires Shaped(c) && Budget(c, stream) <= 0
    ensures Prospect(c, stream) == Wait(WindowsOf(c, stream), Queue(c), stream)
  {
    hide Wait;
    BlockedWaits(WindowsOf(c, stream), Queue(c), stream);
  }

  // ---- without resizing ---------------------------------------------------------------------------

  function ConnGrants(q: seq<Frame>): nat {
    if q == [] then 0 else (if q[0].stream == 0 then Increment(q[0]) else 0) + ConnGrants(q[1..])
  }

  function StreamGrants(q: seq<Frame>, k: nat): nat {
    if q == [] then 0
    else (if q[0].stream != 0 && q[0].stream % STREAMS == k then Increment(q[0]) else 0) + StreamGrants(q[1..], k)
  }

  predicate NoResize(q: seq<Frame>) { forall f :: f in q ==> NewWindow(f) == None }

  /** Both windows with everything granted. */
  function Granted(w: Windows, q: seq<Frame>, stream: nat): nat {
    Now(Windows(w.conn + ConnGrants(q), w.win + StreamGrants(q, stream % STREAMS)))
  }

  /** Unless a SETTINGS frame resizes the windows, all that is granted ahead can be sent. */
  lemma {:induction false} AllGrantsCount(w: Windows, q: seq<Frame>, stream: nat)
    requires NoResize(Ahead(q, stream))
    ensures Look(w, q, stream) == Granted(w, Ahead(q, stream), stream)
    decreases |q|
  {
    hide NewWindow, Foreign;
    var n := Now(w);
    WaitGrants(Less(w, n), q, stream);
  }

  lemma {:induction false} WaitGrants(w: Windows, q: seq<Frame>, stream: nat)
    requires NoResize(Ahead(q, stream)) && Min(w.conn, w.win) <= 0
    ensures Wait(w, q, stream) == Granted(w, Ahead(q, stream), stream)
    decreases |q|, 0
  {
    hide NewWindow, Foreign, Look;
    if q != [] && !Foreign(q[0], stream) {
      var f, ahead, rest := q[0], Ahead(q, stream), Ahead(q[1..], stream);
      assert ahead[0] == f && ahead[1..] == rest;
      assert f in ahead && forall x :: x in rest ==> x in ahead;
      assert TakeIn(w, f, stream).conn == w.conn + (if f.stream == 0 then Increment(f) else 0);
      if Wakes(f) {
        AllGrantsCount(TakeIn(w, f, stream), q[1..], stream);
      } else {
        assert Increment(f) == 0;
        WaitGrants(TakeIn(w, f, stream), q[1..], stream);
      }
    }
  }

  // ---- frames left parked ---------------------------------------------------------------------------

  /** Another stream's frame, once parked, stays parked. */
  lemma {:induction false} ParkedStays(c: Conn, stream: nat, data: seq<byte>, at: nat)
    requires Shaped(c) && c.pending != [] && Foreign(c.pending[0], stream)
    ensures Send(c, stream, data, at).0.pending == c.pending
    decreases |data| - at
  {
    hide Recv, SendChunk, Foreign;
    if at < |data| && Budget(c, stream) > 0 {
      var n := Min(Budget(c, stream), |data| - at);
      ChunkQueues(c, stream, data[at..at + n]);
      ParkedStays(SendChunk(c, stream, data[at..at + n]), stream, data, at + n);
    }
  }

  /** What a call of the receiver leaves to hope for before another stream's frame. */
  lemma {:induction false} RecvAhead(c: Conn, stream: nat)
    requires Shaped(c) && c.pending == []
    ensures var (c', got) := Recv(c); var hope := Wait(WindowsOf(c, stream), Ahead(c.inbox, stream), stream);
            && (got.Refilled? || (got.Delivered? && !Foreign(got.f, stream)) ==>
                  hope == Look(WindowsOf(c', stream), Ahead(c'.inbox, stream), stream))
            && (got.Delivered? && Foreign(got.f, stream) ==> hope == 0)
    decreases |c.inbox|
  {
    hide Absorb, Look, TakeIn, WindowsOf;
    if c.inbox != [] {
      var f, rest := c.inbox[0], c.inbox[1..];
      var c' := Absorb(c.(inbox := rest), f);
      AbsorbTakesIn(c.(inbox := rest), f, stream);
      SameWindows(c, c.(inbox := rest), stream);
      if !Foreign(f, stream) {
        assert Ahead(c.inbox, stream)[0] == f && Ahead(c.inbox, stream)[1..] == Ahead(rest, stream);
        AheadIsOurs(rest, stream);
        if !Wakes(f) { RecvAhead(c', stream); }
      }
    }
  }

  lemma {:induction false} AheadIsOurs(q: seq<Frame>, stream: nat)
    ensures Clear(Ahead(q, stream), stream)
  {
    hide Foreign;
    if q != [] && !Foreign(q[0], stream) {
      AheadIsOurs(q[1..], stream);
      var a := Ahead(q, stream);
      assert a[0] == q[0] && a[1..] == Ahead(q[1..], stream);
      ClearStep(a, stream);
    }
  }

  /**
   * A send that starts with nothing parked ends, or spins, with nothing parked exactly when the
   * windows cover the message before another stream's frame comes, or none comes at all.
   */
  lemma {:induction false} UnparkedIff(c: Conn, stream: nat, data: seq<byte>, at: nat)
    requires Shaped(c) && c.pending == [] && at <= |data|
    ensures Send(c, stream, data, at).0.pending == [] <==>
            || |data| - at <= Look(WindowsOf(c, stream), Ahead(c.inbox, stream), stream)
            || Clear(c.inbox, stream)
    decreases 2 * |c.inbox| + |c.pending|, |data| - at
  {
    hide Recv, SendChunk, Foreign, Look, Wait, Clear, Ahead, WindowsOf;
    if at < |data| {
      var w := WindowsOf(c, stream);
      if Budget(c, stream) > 0 {
        var n := Min(Budget(c, stream), |data| - at);
        var chunk := data[at..at + n];
        ChunkQueues(c, stream, chunk);
        ChunkWindows(c, stream, chunk);
        LookAfterSending(w, n, Ahead(c.inbox, stream), stream);
        UnparkedIff(SendChunk(c, stream, chunk), stream, data, at + n);
      } else {
        var (c', got) := Recv(c);
        RecvConsumes(c);
        RecvProspect(c, stream);
        RecvAhead(c, stream);
        BudgetIsNow(c, stream);
        BlockedLook(w, Ahead(c.inbox, stream), stream);
        match got
        case Gone =>
        case Refilled => UnparkedIff(c', stream, data, at);
        case Delivered(f) =>
          if Foreign(f, stream) {
            ParkedStays(Park(c', f), stream, data, at);
          } else {
            UnparkedIff(c', stream, data, at);
          }
      }
    }
  }

  lemma BlockedLook(w: Windows, q: seq<Frame>, stream: nat)
    requires Now(w) == 0
    ensures Look(w, q, stream) == Wait(w, q, stream)
  {
    assert Less(w, 0) == w;
  }

  /** Without a resize, no call that ends leaves a frame parked. */
  lemma EndsWithNothingParked(c: Conn, stream: nat, data: seq<byte>, at: nat)
    requires Shaped(c) && c.pending == [] && NoResize(c.inbox) && Send(c, stream, data, at).1 != Spins
    ensures Send(c, stream, data, at).0.pending == []
  {
    hide Look, Ahead, NewWindow, Granted, Recv, SendChunk;
    if at > |data| { return; }
    var w, q := WindowsOf(c, stream), c.inbox;
    assert Queue(c) == q;
    UnparkedIff(c, stream, data, at);
    SendVerdict(c, stream, data, at);
    AheadIsOurs(q, stream);
    AheadIsPart(q, stream);
    AllGrantsCount(w, q, stream);
    AllGrantsCount(w, Ahead(q, stream), stream);
  }

  lemma {:induction false} AheadIsPart(q: seq<Frame>, stream: nat)
    ensures forall f :: f in Ahead(q, stream) ==> f in q
  {
    hide Foreign;
    if q != [] { AheadIsPart(q[1..], stream); }
  }

  // ---- waiting with room to send ----------------------------------------------------------------------

  predicate Stirs(q: seq<Frame>) { exists f :: f in q && Wakes(f) }

  /** The last new window size behind the last frame that wakes the sender. */
  function Late(q: seq<Frame>): Option<nat> {
    if q == [] then None
    else if Late(q[1..]).Some? || Wakes(q[0]) || Stirs(q[1..]) then Late(q[1..])
    else NewWindow(q[0])
  }

  lemma StirsStep(q: seq<Frame>)
    requires q != []
    ensures Stirs(q) <==> Wakes(q[0]) || Stirs(q[1..])
  {
    hide Wakes;
    assert q[0] in q && forall f :: f in q ==> f == q[0] || f in q[1..];
  }

  /** What a call of the receiver does to the connection's window and to a late resize. */
  lemma {:induction false} RecvLate(c: Conn, stream: nat)
    requires Shaped(c) && c.pending == []
    ensures var (c', got) := Recv(c); var k := stream % STREAMS;
            && (got.Gone? <==> !Stirs(c.inbox))
            && c'.conn + ConnGrants(c'.inbox) == c.conn + ConnGrants(c.inbox)
            && (!got.Gone? ==> Late(c'.inbox) == Late(c.inbox))
            && (got.Gone? ==> c'.conn == c.conn && ConnGrants(c.inbox) == 0)
            && (got.Gone? ==> c'.streams[k] == match Late(c.inbox) case Some(v) => v case None => c.streams[k])
    decreases |c.inbox|
  {
    hide NewWindow, Stirs;
    if c.inbox == [] {
      NothingStirs();
    } else {
      var f, rest := c.inbox[0], c.inbox[1..];
      StirsStep(c.inbox);
      if !Wakes(f) {
        QuietFrame(c.(inbox := rest), f, stream);
        RecvLate(Absorb(c.(inbox := rest), f), stream);
      }
    }
  }

  lemma NothingStirs()
    ensures !Stirs([])
  {
  }

  lemma QuietFrame(c: Conn, f: Frame, stream: nat)
    requires Shaped(c) && !Wakes(f)
    ensures var c' := Absorb(c, f); var k := stream % STREAMS;
            && Increment(f) == 0 && c'.conn == c.conn
            && c'.streams[k] == match NewWindow(f) case Some(v) => v case None => c.streams[k]
  {
    hide Announced;
  }

  /**
   * A send that breaks off had room to send at the end exactly when the connection's grants exceed
   * what could be sent, and the last resize came behind the last frame that wakes and is not to 0.
   */
  lemma {:induction false} WaitsWithRoomIff(c: Conn, stream: nat, data: seq<byte>, at: nat)
    requires Shaped(c) && ParkedOnly(c) && at <= |data| && Send(c, stream, data, at).1 == Broken
    ensures var c' := Send(c, stream, data, at).0; var late := Late(Queue(c));
            Budget(c', stream) > 0 <==>
            c.conn + ConnGrants(Queue(c)) > Prospect(c, stream) && late.Some? && late.value > 0
    decreases 2 * |c.inbox| + |c.pending|, |data| - at
  {
    hide Recv, SendChunk, Foreign, Look, Wait, Clear, WindowsOf, Late, Queue, ParkedOnly, Prospect, ConnGrants;
    SendVerdict(c, stream, data, at);
    if Budget(c, stream) > 0 {
      var n := Min(Budget(c, stream), |data| - at);
      var chunk := data[at..at + n];
      ChunkQueues(c, stream, chunk);
      ChunkProspect(c, stream, chunk);
      KeepParked(c, SendChunk(c, stream, chunk));
      ChunkConn(c, stream, chunk);
      WaitsWithRoomIff(SendChunk(c, stream, chunk), stream, data, at + n);
    } else {
      BlockedWithRoomIff(c, stream, data, at);
    }
  }

  lemma ChunkConn(c: Conn, stream: nat, chunk: seq<byte>)
    requires Shaped(c)
    ensures SendChunk(c, stream, chunk).conn == c.conn - |chunk|
  {
  }

  lemma BlockedWithRoomIff(c: Conn, stream: nat, data: seq<byte>, at: nat)
    requires Shaped(c) && ParkedOnly(c) && at < |data| && Budget(c, stream) <= 0
    requires Send(c, stream, data, at).1 == Broken
    ensures var c' := Send(c, stream, data, at).0; var late := Late(Queue(c));
            Budget(c', stream) > 0 <==>
            c.conn + ConnGrants(Queue(c)) > Prospect(c, stream) && late.Some? && late.value > 0
    decreases 2 * |c.inbox| + |c.pending|, |data| - at, 0
  {
    hide Foreign, Look, Wait, Clear, WindowsOf, Late, Prospect, ConnGrants, Budget;
    var (c', got) := Recv(c);
    RecvConsumes(c);
    SendVerdict(c, stream, data, at);
    if c.pending != [] {
      PopProspect(c, stream);
      PopLate(c);
      WaitsWithRoomIff(c', stream, data, at);
    } else {
      hide Recv;
      assert Queue(c) == c.inbox;
      RecvProspect(c, stream);
      RecvLate(c, stream);
      WaitsNow(c, stream);
      assert Queue(c') == c'.inbox;
      match got
      case Gone => LastBudget(c, c', stream);
      case Refilled => WaitsWithRoomIff(c', stream, data, at);
      case Delivered(f) => WaitsWithRoomIff(c', stream, data, at);
    }
  }

  lemma PopLate(c: Conn)
    requires ParkedOnly(c) && c.pending != []
    ensures var c' := c.(pending := c.pending[1..]);
            Late(Queue(c)) == Late(Queue(c')) && ConnGrants(Queue(c)) == ConnGrants(Queue(c'))
  {
    hide NewWindow, Stirs;
    assert c.pending[0] in c.pending;
    assert Queue(c)[0] == c.pending[0] && Queue(c)[1..] == Queue(c.(pending := c.pending[1..]));
  }

  lemma LastBudget(c: Conn, c': Conn, stream: nat)
    requires Shaped(c) && Shaped(c') && Budget(c, stream) <= 0 && c'.conn == c.conn
    requires var k := stream % STREAMS;
             c'.streams[k] == match Late(c.inbox) case Some(v) => v case None => c.streams[k]
    ensures Budget(c', stream) > 0 <==> c.conn > 0 && Late(c.inbox).Some? && Late(c.inbox).value > 0
  {
    hide Late;
  }

  // ---- with resizing --------------------------------------------------------------------------------

  /** A SETTINGS frame that opens the window does not wake the sender: it waits on, with room to send. */
  lemma LostWakeUp(c: Conn, f: Frame, stream: nat, data: seq<byte>)
    requires Shaped(c) && c.pending == [] && c.inbox == [f] && data != []
    requires f.ftype == SETTINGS && NewWindow(f).Some? && NewWindow(f).value > 0
    requires c.conn > 0 && c.streams[stream % STREAMS] <= 0
    ensures var (c', r) := Send(c, stream, data, 0);
            r == Broken && Budget(c', stream) > 0 && DataOn(c'.log, stream) == DataOn(c.log, stream)
  {
    hide Announced, DataOn;
    var c1 := Absorb(c.(inbox := []), f);
    assert c.inbox[1..] == [];
    AbsorbSendsNoData(c.(inbox := []), f, stream);
    assert Recv(c1) == (c1, Gone);
    assert Recv(c) == Recv(c1);
  }

  /** For one: a stream window of 0, 1000 on the connection, and a new size of 100. */
  lemma LostWakeUpOfOneByte(stream: nat)
    ensures var f := Frame(SETTINGS, 0, 0, [0, 4, 0, 0, 0, 100]);
            var c := Conn(1000, seq(STREAMS, _ => 0), 0, [], [f], []);
            Send(c, stream, [7], 0).1 == Broken
  {
    hide Send;
    var f := Frame(SETTINGS, 0, 0, [0, 4, 0, 0, 0, 100]);
    var c := Conn(1000, seq(STREAMS, _ => 0), 0, [], [f], []);
    var p := f.payload;
    assert p[..2] == [0, 4] && p[2..6] == [0, 0, 0, 100] && p[6..] == [];
    SmallWords();
    assert Announced(p, None) == Announced(p[6..], Some(100)) == Some(100);
    LostWakeUp(c, f, stream, [7]);
  }

  /** And it lets a call end with another stream's frame parked, to be served next. */
  lemma EndsWithFrameParked(c: Conn, f: Frame, g: Frame, stream: nat, x: byte)
    requires Shaped(c) && c.pending == [] && c.inbox == [f, g] && Foreign(g, stream)
    requires f.ftype == SETTINGS && NewWindow(f).Some? && NewWindow(f).value > 0
    requires c.conn > 0 && c.streams[stream % STREAMS] <= 0
    ensures var (c', r) := Send(c, stream, [x], 0);
            r == Complete && c'.pending == [g] && c'.inbox == []
  {
    hide Announced;
    var c1 := Absorb(c.(inbox := [g]), f);
    var c2 := Absorb(c1.(inbox := []), g);
    assert c.inbox[1..] == [g] && c1.inbox[1..] == [];
    assert Recv(c1) == (c2, Delivered(g));
    assert Recv(c) == Recv(c1);
    var p := Park(c2, g);
    assert p.pending == [g] && Budget(p, stream) > 0;
    var s := SendChunk(p, stream, [x][0..1]);
    assert Send(s, stream, [x], 1) == (s, Complete);
    assert Send(p, stream, [x], 0) == Send(s, stream, [x], 1);
  }

  lemma SmallWords()
    ensures FromBig([0, 4]) == 4 && FromBig([0, 0, 0, 100]) == 100
  {
    assert [0, 4][..1] == [0] && [0][..0] == [];
    assert [0, 0, 0, 100][..3] == [0, 0, 0] && [0, 0, 0][..2] == [0, 0] && [0, 0][..1] == [0];
    assert FromBig([0]) == 0;
    assert FromBig([0, 0]) == 0;
    assert FromBig([0, 0, 0]) == 0;
  }

  // ---- where the windows part from the RFC ------------------------------------------------------

  /** Section 6.9.2 of RFC 7540: a new initial size moves each window by the difference. */
  function Adjusted(window: int, initial: nat, v: nat): int { window + (v - initial) }

  /** The code overwrites instead, which comes to the same exactly on an untouched window. */
  lemma ResizeAgrees(c: Conn, f: Frame, k: nat)
    requires Shaped(c) && k < STREAMS && NewWindow(f).Some?
    ensures Absorb(c, f).streams[k] == Adjusted(c.streams[k], c.initial, NewWindow(f).value) <==>
              c.streams[k] == c.initial
  {
    hide Announced;
  }

  /** Two streams have windows of their own exactly when their numbers differ modulo 64. */
  lemma StreamsShareWindows(c: Conn, a: nat, b: nat, chunk: seq<byte>)
    requires Shaped(c) && 0 < |chunk| <= Budget(c, a)
    ensures var c' := SendChunk(c, a, chunk);
            c'.streams[b % STREAMS] == c.streams[b % STREAMS] <==> a % STREAMS != b % STREAMS
  {
  }
}
