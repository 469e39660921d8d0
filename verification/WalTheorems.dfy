/** What a replay of the log delivers: after a clean shutdown, after a torn
    write, with trailing garbage, and with one corrupted byte. */
module WalTheorems {
  import opened Bytes
  import opened Wal

  /** A record the replay loop accepts: its fields fit and its payload is at most 1 MiB. */
  predicate Replayable(r: Record) { Fits(r) && |r.data| <= 0x10_0000 }

  predicate AllReplayable(rs: seq<Record>) {
    forall i :: 0 <= i < |rs| ==> Replayable(rs[i])
  }

  lemma Widths()
    ensures Pow2(8 * 1) == 0x100 && Pow2(8 * 2) == 0x1_0000 && Pow2(8 * 4) == WORD
    ensures Pow2(8 * 8) == 0x1_0000_0000_0000_0000
  {
    WordIsPow2();
    Pow2Add(8, 8);
    Pow2Add(32, 32);
  }

  /** Each field of a header is where the parser looks for it. */
  lemma HeaderFields(r: Record)
    requires Fits(r)
    ensures var h := Header(r);
      && FromLittle(h[..4]) == MAGIC && FromLittle(h[4..12]) == r.txId && h[12] == r.opType
      && FromLittle(h[13..15]) == r.objType && FromLittle(h[15..19]) == r.objId
      && FromLittle(h[19..23]) == |r.data|
  {
    hide Header, Little, FromLittle;
    HeaderSlices(r);
    Widths();
    LittleRoundTrip(MAGIC, 4);
    LittleRoundTrip(r.txId, 8);
    LittleRoundTrip(r.objType, 2);
    LittleRoundTrip(r.objId, 4);
    LittleRoundTrip(|r.data|, 4);
  }

  lemma HeaderSlices(r: Record)
    requires Fits(r)
    ensures var h := Header(r);
      && h[..4] == Little(MAGIC, 4) && h[4..12] == Little(r.txId, 8) && h[12] == r.opType
      && h[13..15] == Little(r.objType, 2) && h[15..19] == Little(r.objId, 4) && h[19..23] == Little(|r.data|, 4)
  {
    hide Little;
  }

  lemma ChecksumBound(header: seq<byte>, data: seq<byte>)
    ensures Checksum(header, data) < WORD
  {
    FeedBound(WORD - 1, header);
    FeedBound(WORD - 1, data);
    WordIsPow2();
    XorBound(Crc(data), Crc(header), 32);
  }

  /** A file that starts with the pieces of a frame, whatever follows. */
  lemma FramePieces(r: Record, tail: seq<byte>)
    ensures var f := Frame(r) + tail; var n := HEADER_SIZE + |r.data|;
      && f[..HEADER_SIZE] == Header(r) && f[HEADER_SIZE..n] == r.data
      && f[n..n + 4] == Little(Checksum(Header(r), r.data), 4)
  {
  }

  lemma FrameTail(r: Record, tail: seq<byte>)
    ensures (Frame(r) + tail)[|Frame(r)|..] == tail
  {
  }

  /** A framed record parses back to itself; one above 1 MiB stops the replay. */
  lemma ParseFrame(r: Record, tail: seq<byte>)
    requires Fits(r)
    ensures Parse(Frame(r) + tail) ==
            if |r.data| <= 0x10_0000 then Some((r, |Frame(r)|)) else None
  {
    HeaderFields(r);
    FramePieces(r, tail);
    ChecksumBound(Header(r), r.data);
    Widths();
    LittleRoundTrip(Checksum(Header(r), r.data), 4);
  }

  /** A strict prefix of a frame is not a record. */
  lemma ParseTorn(r: Record, k: nat)
    requires Fits(r) && k < |Frame(r)|
    ensures Parse(Frame(r)[..k]) == None
  {
    var f := Frame(r)[..k];
    if HEADER_SIZE <= k {
      assert f[..HEADER_SIZE] == Header(r);
      HeaderFields(r);
    }
  }

  lemma {:induction false} LogAppend(a: seq<Record>, b: seq<Record>)
    ensures Log(a + b) == Log(a) + Log(b)
  {
    hide Frame;
    if a == [] {
      assert a + b == b;
    } else {
      assert (a + b)[1..] == a[1..] + b;
      LogAppend(a[1..], b);
    }
  }

  lemma DeliveredFirst(file: seq<byte>, r: Record, n: nat)
    requires Parse(file) == Some((r, n))
    ensures Delivered(file) == [r] + Delivered(file[n..])
  {
    hide Parse;
  }

  /** A complete log is delivered in full and in order, whatever bytes follow it. */
  lemma {:induction false} ReplayDeliversLog(rs: seq<Record>, tail: seq<byte>)
    requires AllReplayable(rs)
    ensures Delivered(Log(rs) + tail) == rs + Delivered(tail)
  {
    hide Frame, Parse, Delivered;
    if rs == [] {
      assert Log(rs) + tail == tail;
    } else {
      var rest := Log(rs[1..]) + tail;
      assert Log(rs) + tail == Frame(rs[0]) + rest;
      ParseFrame(rs[0], rest);
      DeliveredFirst(Frame(rs[0]) + rest, rs[0], |Frame(rs[0])|);
      FrameTail(rs[0], rest);
      ReplayDeliversLog(rs[1..], tail);
      assert rs == [rs[0]] + rs[1..];
    }
  }

  /** A payload above 1 MiB is written but hides itself and everything after it. */
  lemma ReplayStopsAtOversized(rs: seq<Record>, big: Record, tail: seq<byte>)
    requires AllReplayable(rs)
    requires Fits(big) && |big.data| > 0x10_0000
    ensures Delivered(Log(rs) + (Frame(big) + tail)) == rs
  {
    ReplayDeliversLog(rs, Frame(big) + tail);
    ParseFrame(big, tail);
  }

  // ---- torn log -----------------------------------------------------------------

  /** How many records of the log lie wholly inside its first `k` bytes. */
  function WholeRecords(rs: seq<Record>, k: nat): (n: nat)
    ensures n <= |rs|
  {
    if rs == [] || k < |Frame(rs[0])| then 0
    else 1 + WholeRecords(rs[1..], k - |Frame(rs[0])|)
  }

  /** WholeRecords counts exactly the complete frames. */
  lemma {:induction false} WholeRecordsMeaning(rs: seq<Record>, k: nat, i: nat)
    requires i <= |rs|
    ensures i <= WholeRecords(rs, k) <==> |Log(rs[..i])| <= k
  {
    hide Frame;
    if i > 0 {
      assert rs[..i][1..] == rs[1..][..i - 1];
      if k >= |Frame(rs[0])| {
        WholeRecordsMeaning(rs[1..], k - |Frame(rs[0])|, i - 1);
      }
    }
  }

  /** Cut anywhere, the log delivers exactly the records that are still whole. */
  lemma {:induction false} TornLog(rs: seq<Record>, k: nat)
    requires AllReplayable(rs)
    requires k <= |Log(rs)|
    ensures Delivered(Log(rs)[..k]) == rs[..WholeRecords(rs, k)]
  {
    hide Frame, Parse;
    if rs == [] {
      assert Log(rs)[..k] == [];
    } else {
      var n := |Frame(rs[0])|;
      if k < n {
        assert Log(rs)[..k] == Frame(rs[0])[..k];
        ParseTorn(rs[0], k);
      } else {
        var rest := Log(rs[1..])[..k - n];
        assert Log(rs)[..k] == Frame(rs[0]) + rest;
        ParseFrame(rs[0], rest);
        FrameTail(rs[0], rest);
        TornLog(rs[1..], k - n);
        assert rs[..WholeRecords(rs, k)] == [rs[0]] + rs[1..][..WholeRecords(rs, k) - 1];
      }
    }
  }

  // ---- logs with oversized records ---------------------------------------------------------

  predicate AllFit(rs: seq<Record>) { forall i :: 0 <= i < |rs| ==> Fits(rs[i]) }

  /** How many records come before the first with a payload above 1 MiB. */
  function Readable(rs: seq<Record>): (n: nat)
    ensures n <= |rs| && (n < |rs| ==> |rs[n].data| > 0x10_0000)
    ensures forall i :: 0 <= i < n ==> |rs[i].data| <= 0x10_0000
  {
    if rs == [] || |rs[0].data| > 0x10_0000 then 0 else 1 + Readable(rs[1..])
  }

  lemma ReadablePart(rs: seq<Record>)
    requires AllFit(rs)
    ensures AllReplayable(rs[..Readable(rs)])
  {
  }

  lemma NothingToDeliver()
    ensures Delivered([]) == []
  {
  }

  /** The bytes of an oversized record, whole or torn, and whatever follows deliver nothing. */
  lemma OversizedDeliversNothing(big: Record, tail: seq<byte>, k: nat)
    requires Fits(big) && |big.data| > 0x10_0000 && k <= |Frame(big) + tail|
    ensures Delivered((Frame(big) + tail)[..k]) == []
  {
    hide Frame, Parse;
    var f := Frame(big);
    if k < |f| {
      ParseTorn(big, k);
      assert (f + tail)[..k] == f[..k];
    } else {
      ParseFrame(big, tail[..k - |f|]);
      assert (f + tail)[..k] == f + tail[..k - |f|];
    }
    NoRecord((f + tail)[..k]);
  }

  lemma NoRecord(file: seq<byte>)
    requires Parse(file) == None
    ensures Delivered(file) == []
  {
    hide Parse;
  }

  /** The log as the readable records, the first oversized one, and the rest. */
  lemma LogSplit(rs: seq<Record>, n: nat)
    requires n < |rs|
    ensures Log(rs) == Log(rs[..n]) + (Frame(rs[n]) + Log(rs[n + 1..]))
  {
    hide Frame, Log;
    LogAppend(rs[..n], rs[n..]);
    LogStep(rs[n..]);
    assert rs == rs[..n] + rs[n..] && rs[n..][1..] == rs[n + 1..];
  }

  lemma LogStep(rs: seq<Record>)
    requires rs != []
    ensures Log(rs) == Frame(rs[0]) + Log(rs[1..])
  {
    hide Frame;
  }

  /** A log delivers the records before its first oversized one. */
  lemma ReplayUpToOversized(rs: seq<Record>)
    requires AllFit(rs)
    ensures Delivered(Log(rs)) == rs[..Readable(rs)]
  {
    hide Frame, Delivered, Log;
    var n := Readable(rs);
    ReadablePart(rs);
    if n < |rs| {
      LogSplit(rs, n);
      ReplayStopsAtOversized(rs[..n], rs[n], Log(rs[n + 1..]));
    } else {
      assert rs[..n] == rs;
      ReplayDeliversLog(rs, []);
      NothingToDeliver();
      assert Log(rs) + [] == Log(rs) && rs + [] == rs;
    }
  }

  /** Cut anywhere, any log delivers the whole records before its first oversized one. */
  lemma TornLogUpToOversized(rs: seq<Record>, k: nat)
    requires AllFit(rs) && k <= |Log(rs)|
    ensures Delivered(Log(rs)[..k]) ==
            rs[..if WholeRecords(rs, k) <= Readable(rs) then WholeRecords(rs, k) else Readable(rs)]
  {
    hide Frame, Delivered, Log;
    var n := Readable(rs);
    var good := rs[..n];
    ReadablePart(rs);
    if n == |rs| {
      assert good == rs;
      TornLog(rs, k);
    } else {
      LogSplit(rs, n);
      var rest := Frame(rs[n]) + Log(rs[n + 1..]);
      WholeRecordsMeaning(rs, k, n);
      if k < |Log(good)| {
        assert Log(rs)[..k] == Log(good)[..k];
        TornLog(good, k);
        WholeOfPrefix(rs, n, k);
        assert good[..WholeRecords(good, k)] == rs[..WholeRecords(good, k)];
      } else {
        var j := k - |Log(good)|;
        assert Log(rs)[..k] == Log(good) + rest[..j];
        OversizedDeliversNothing(rs[n], Log(rs[n + 1..]), j);
        ReplayDeliversLog(good, rest[..j]);
        assert good + [] == good;
      }
    }
  }

  /** Records that do not fit before the cut do not matter. */
  lemma WholeOfPrefix(rs: seq<Record>, n: nat, k: nat)
    requires n <= |rs| && k < |Log(rs[..n])|
    ensures WholeRecords(rs, k) == WholeRecords(rs[..n], k) <= n
  {
    hide Frame, Log;
    var a, b := WholeRecords(rs, k), WholeRecords(rs[..n], k);
    WholeRecordsMeaning(rs, k, n);
    WholeRecordsMeaning(rs, k, b);
    WholeRecordsMeaning(rs[..n], k, b);
    assert rs[..n][..b] == rs[..b];
    WholeRecordsMeaning(rs, k, a);
    WholeRecordsMeaning(rs[..n], k, a);
    assert rs[..n][..a] == rs[..a];
  }

  // ---- single-byte corruption ---------------------------------------------------

  /** A stored checksum that is not the one of its header and payload is refused. */
  lemma ParseMismatch(h: seq<byte>, data: seq<byte>, stored: seq<byte>, tail: seq<byte>)
    requires |h| == HEADER_SIZE && |stored| == 4
    requires FromLittle(h[19..23]) == |data| && FromLittle(stored) != Checksum(h, data)
    ensures Parse(h + data + stored + tail) == None
  {
    hide FromLittle, Checksum;
    var f := h + data + stored + tail;
    var n := HEADER_SIZE + |data|;
    assert f[..HEADER_SIZE] == h;
    assert f[HEADER_SIZE..n] == data;
    assert f[n..n + 4] == stored;
  }

  /** One changed byte, anywhere but in the length field, is never accepted. */
  lemma ParseCorrupt(r: Record, tail: seq<byte>, j: nat, b: byte)
    requires Fits(r) && j < |Frame(r)| && !(19 <= j < 23) && b != Frame(r)[j]
    ensures Parse(Frame(r)[j := b] + tail) == None
  {
    hide Parse, Header, Checksum, Little, Frame;
    var n := HEADER_SIZE + |r.data|;
    FrameParts(r);
    if j < HEADER_SIZE {
      CorruptHeader(r, tail, j, b);
    } else if j < n {
      CorruptData(r, tail, j - HEADER_SIZE, b);
    } else {
      CorruptChecksum(r, tail, j - n, b);
    }
  }

  /** The three parts of a frame. */
  function Sum(r: Record): seq<byte> { Little(Checksum(Header(r), r.data), 4) }

  lemma FrameParts(r: Record)
    ensures Frame(r) == Header(r) + r.data + Sum(r) && |Header(r)| == HEADER_SIZE && |Sum(r)| == 4
  {
    hide Header, Checksum, Little;
  }

  lemma CorruptHeader(r: Record, tail: seq<byte>, j: nat, b: byte)
    requires Fits(r) && j < HEADER_SIZE && !(19 <= j < 23) && b != Header(r)[j]
    ensures Parse((Header(r) + r.data + Sum(r))[j := b] + tail) == None
  {
    hide Parse, Header, Checksum, Little, FromLittle, Crc;
    var h, d, stored := Header(r), r.data, Sum(r);
    var h' := h[j := b];
    SumReadsBack(r);
    HeaderFields(r);
    assert (h + d + stored)[j := b] + tail == h' + d + stored + tail;
    assert h'[19..23] == h[19..23];
    CrcDetectsOneByte(h, j, b);
    CombinedChecksumDiffers(h, d, h', d);
    ParseMismatch(h', d, stored, tail);
  }

  lemma CorruptData(r: Record, tail: seq<byte>, j: nat, b: byte)
    requires Fits(r) && j < |r.data| && b != r.data[j]
    ensures Parse((Header(r) + r.data + Sum(r))[HEADER_SIZE + j := b] + tail) == None
  {
    hide Parse, Header, Checksum, Little, FromLittle, Crc;
    var h, d, stored := Header(r), r.data, Sum(r);
    var d' := d[j := b];
    SumReadsBack(r);
    HeaderFields(r);
    assert (h + d + stored)[HEADER_SIZE + j := b] + tail == h + d' + stored + tail;
    CrcDetectsOneByte(d, j, b);
    CombinedChecksumDiffers(h, d, h, d');
    ParseMismatch(h, d', stored, tail);
  }

  lemma CorruptChecksum(r: Record, tail: seq<byte>, j: nat, b: byte)
    requires Fits(r) && j < 4 && b != Sum(r)[j]
    ensures Parse((Header(r) + r.data + Sum(r))[HEADER_SIZE + |r.data| + j := b] + tail) == None
  {
    hide Parse, Header, Checksum, Little, FromLittle;
    var h, d, stored := Header(r), r.data, Sum(r);
    var stored' := stored[j := b];
    SumReadsBack(r);
    HeaderFields(r);
    assert (h + d + stored)[HEADER_SIZE + |d| + j := b] + tail == h + d + stored' + tail;
    FromLittleRoundTrip(stored');
    assert stored'[j] != stored[j];
    ParseMismatch(h, d, stored', tail);
  }

  lemma SumReadsBack(r: Record)
    ensures FromLittle(Sum(r)) == Checksum(Header(r), r.data)
  {
    hide Header, Checksum, Little, FromLittle;
    ChecksumBound(Header(r), r.data);
    Widths();
    LittleRoundTrip(Checksum(Header(r), r.data), 4);
  }

  /** If exactly one of the two parts has a different CRC, so has the whole. */
  lemma CombinedChecksumDiffers(h: seq<byte>, d: seq<byte>, h': seq<byte>, d': seq<byte>)
    requires |d| == |d'|
    requires (h == h' && d != [] && Crc(d) != Crc(d')) || (d == d' && Crc(h) != Crc(h'))
    ensures Checksum(h, d) != Checksum(h', d')
  {
    if d != [] && Checksum(h, d) == Checksum(h', d') {
      if h == h' {
        XorCancels(Crc(d), Crc(d'), Crc(h));
      } else {
        XorCommutes(Crc(d), Crc(h));
        XorCommutes(Crc(d), Crc(h'));
        XorCancels(Crc(h), Crc(h'), Crc(d));
      }
    }
  }

  /**
   * Corrupting one byte of record `i` of any log, its length field aside, delivers exactly the records
   * before it, or before the first oversized one if that comes first.
   */
  lemma SingleByteCorruption(rs: seq<Record>, i: nat, j: nat, b: byte)
    requires AllFit(rs)
    requires i < |rs| && j < |Frame(rs[i])| && !(19 <= j < 23) && b != Frame(rs[i])[j]
    ensures |Log(rs[..i])| + j < |Log(rs)|
    ensures Log(rs)[|Log(rs[..i])| + j] == Frame(rs[i])[j]
    ensures Delivered(Log(rs)[|Log(rs[..i])| + j := b]) == rs[..if i <= Readable(rs) then i else Readable(rs)]
  {
    hide Frame, Parse, Log, Delivered;
    var at, n := |Log(rs[..i])| + j, Readable(rs);
    ReadablePart(rs);
    LogSplit(rs, i);
    if i <= n {
      var after := Log(rs[i + 1..]);
      var bad := Frame(rs[i])[j := b] + after;
      assert Log(rs)[at := b] == Log(rs[..i]) + bad;
      assert forall x :: 0 <= x < i ==> rs[..i][x] == rs[..n][x];
      ReplayDeliversLog(rs[..i], bad);
      ParseCorrupt(rs[i], after, j, b);
      NothingParsed(bad);
      assert rs[..i] + [] == rs[..i];
    } else {
      CorruptionBehind(rs, n, i, at, b);
    }
  }

  /** What happens behind an oversized record makes no difference. */
  lemma CorruptionBehind(rs: seq<Record>, n: nat, i: nat, at: nat, b: byte)
    requires n < i < |rs| && AllReplayable(rs[..n]) && Fits(rs[n]) && |rs[n].data| > 0x10_0000
    requires |Log(rs[..i])| <= at < |Log(rs)|
    ensures Delivered(Log(rs)[at := b]) == rs[..n]
  {
    hide Frame, Parse, Log, Delivered;
    LogSplit(rs, n);
    LogSplit(rs[..i], n);
    assert rs[..i][..n] == rs[..n] && rs[..i][n] == rs[n];
    var head := Log(rs[..n]) + Frame(rs[n]);
    var bad := Log(rs)[at := b];
    assert |head| <= at && head == Log(rs)[..|head|] == bad[..|head|];
    assert bad == Log(rs[..n]) + (Frame(rs[n]) + bad[|head|..]);
    ReplayStopsAtOversized(rs[..n], rs[n], bad[|head|..]);
  }

  lemma NothingParsed(f: seq<byte>)
    requires Parse(f) == None
    ensures Delivered(f) == []
  {
  }
}
