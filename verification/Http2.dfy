/** HTTP/2 frames: nine bytes of header and at most 16384 of payload. */
module Http2 {
  import opened Bytes

  const DATA := 0
  const HEADERS := 1
  const RST := 3
  const SETTINGS := 4
  const PING := 6
  const GOAWAY := 7
  const WINDOW := 8
  const MAX_FRAME: nat := 16384

  datatype Frame = Frame(ftype: byte, flags: byte, stream: nat, payload: seq<byte>) {
    /** Bit 0 of the flags: ACK on SETTINGS and PING, END_STREAM on DATA and HEADERS. */
    predicate Bit0() { flags % 2 == 1 }
  }

  predicate WellFormed(f: Frame) { f.stream < Pow2(32) && |f.payload| <= MAX_FRAME }

  // ---- big-endian words --------------------------------------------------------------

  function Big(n: nat, width: nat): (s: seq<byte>)
    ensures |s| == width
  {
    if width == 0 then [] else Big(n / 256, width - 1) + [n % 256]
  }

  function FromBig(s: seq<byte>): nat {
    if s == [] then 0 else 256 * FromBig(s[..|s| - 1]) + s[|s| - 1]
  }

  lemma {:induction false} BigRoundTrip(n: nat, width: nat)
    requires n < Pow2(8 * width)
    ensures FromBig(Big(n, width)) == n
  {
    if width > 0 {
      EightBits(8 * (width - 1));
      BigRoundTrip(n / 256, width - 1);
      var s := Big(n, width);
      assert s[..width - 1] == Big(n / 256, width - 1);
    }
  }

  lemma {:induction false} FromBigRoundTrip(s: seq<byte>)
    ensures FromBig(s) < Pow2(8 * |s|) && Big(FromBig(s), |s|) == s
  {
    if s != [] {
      var front := s[..|s| - 1];
      EightBits(8 * |front|);
      FromBigRoundTrip(front);
      assert FromBig(s) / 256 == FromBig(front) && FromBig(s) % 256 == s[|s| - 1];
      assert s == front + [s[|s| - 1]];
    }
  }

  // ---- frames on the wire ----------------------------------------------------------------

  function FrameBytes(f: Frame): seq<byte> {
    Big(|f.payload|, 3) + [f.ftype, f.flags] + Big(f.stream, 4) + f.payload
  }

  function Wire(fs: seq<Frame>): seq<byte> {
    if fs == [] then [] else FrameBytes(fs[0]) + Wire(fs[1..])
  }

  /** The next frame, unless the bytes end inside it or it is too long. */
  function FirstFrame(bytes: seq<byte>): (r: Option<Frame>)
    ensures r.Some? ==> 9 + |r.value.payload| <= |bytes| && |r.value.payload| <= MAX_FRAME
  {
    if |bytes| < 9 then None
    else
      var length := FromBig(bytes[..3]);
      if length > MAX_FRAME || |bytes| < 9 + length then None
      else Some(Frame(bytes[3], bytes[4], FromBig(bytes[5..9]), bytes[9..9 + length]))
  }

  /** Everything received before the connection ends or breaks. */
  function Frames(bytes: seq<byte>): seq<Frame> {
    match FirstFrame(bytes)
    case None => []
    case Some(f) => [f] + Frames(bytes[9 + |f.payload|..])
  }

  lemma FirstFrameRoundTrip(f: Frame, rest: seq<byte>)
    requires WellFormed(f)
    ensures FirstFrame(FrameBytes(f) + rest) == Some(f)
  {
    hide Big, FromBig, Pow2;
    FitsWidth();
    var head := Big(|f.payload|, 3);
    var bytes := FrameBytes(f) + rest;
    BigRoundTrip(|f.payload|, 3);
    BigRoundTrip(f.stream, 4);
    assert bytes[..3] == head;
    assert bytes[5..9] == Big(f.stream, 4);
    assert bytes[9..9 + |f.payload|] == f.payload;
  }

  lemma FitsWidth()
    ensures MAX_FRAME < Pow2(8 * 3) && Pow2(8 * 4) == Pow2(32)
  {
    EightBits(0);
    EightBits(8);
    EightBits(16);
  }

  /** What one side writes the other side reads, frame for frame, and then whatever comes behind. */
  lemma {:induction false} FramesRoundTrip(fs: seq<Frame>, more: seq<byte>)
    requires forall f :: f in fs ==> WellFormed(f)
    ensures Frames(Wire(fs) + more) == fs + Frames(more)
  {
    hide FrameBytes, FirstFrame, Frames, Wire, WellFormed;
    if fs == [] {
      assert Wire(fs) == [] by { WireOfNone(); }
      assert [] + more == more && fs + Frames(more) == Frames(more);
    } else {
      var f, rest := fs[0], Wire(fs[1..]) + more;
      WireStep(fs, more);
      FirstFrameRoundTrip(f, rest);
      FramesStep(FrameBytes(f) + rest, f);
      LengthOfFrame(f);
      assert (FrameBytes(f) + rest)[|FrameBytes(f)|..] == rest;
      FramesRoundTrip(fs[1..], more);
      assert fs + Frames(more) == [f] + (fs[1..] + Frames(more));
    }
  }

  lemma WireOfNone()
    ensures Wire([]) == []
  {
  }

  lemma WireStep(fs: seq<Frame>, more: seq<byte>)
    requires fs != []
    ensures Wire(fs) + more == FrameBytes(fs[0]) + (Wire(fs[1..]) + more)
  {
    hide FrameBytes;
  }

  lemma FramesStep(bytes: seq<byte>, f: Frame)
    requires FirstFrame(bytes) == Some(f)
    ensures Frames(bytes) == [f] + Frames(bytes[9 + |f.payload|..])
  {
  }

  lemma LengthOfFrame(f: Frame)
    ensures |FrameBytes(f)| == 9 + |f.payload|
  {
    hide Big;
  }

  lemma FirstFrameBytes(bytes: seq<byte>)
    requires FirstFrame(bytes).Some?
    ensures var f := FirstFrame(bytes).value;
            WellFormed(f) && FrameBytes(f) == bytes[..9 + |f.payload|]
  {
    hide Big, FromBig, Pow2;
    FitsWidth();
    var f := FirstFrame(bytes).value;
    FromBigRoundTrip(bytes[..3]);
    FromBigRoundTrip(bytes[5..9]);
    assert bytes[..9 + |f.payload|] == bytes[..3] + [bytes[3], bytes[4]] + bytes[5..9] + f.payload;
  }

  /** Nothing is read that was not on the wire. */
  lemma {:induction false} FramesAreOnTheWire(bytes: seq<byte>)
    ensures Wire(Frames(bytes)) <= bytes && forall f :: f in Frames(bytes) ==> WellFormed(f)
    decreases |bytes|
  {
    hide FrameBytes, FirstFrame, WellFormed;
    match FirstFrame(bytes)
    case None =>
    case Some(f) =>
      FirstFrameBytes(bytes);
      LengthOfFrame(f);
      var rest := bytes[9 + |f.payload|..];
      FramesAreOnTheWire(rest);
      assert Frames(bytes)[1..] == Frames(rest);
      assert bytes == FrameBytes(f) + rest;
  }
}
