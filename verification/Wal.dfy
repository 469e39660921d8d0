/** The write-ahead log: CRC-protected record framing, append and replay.
    The log file is a sequence of bytes. */
module Wal {
  import opened Bytes

  const MAGIC: nat := 0x444E4F53
  const HEADER_SIZE: nat := 23
  const MAX_DATA: nat := 1024 * 1024
  const WORD: nat := 0x1_0000_0000
  const POLYNOMIAL: nat := 0xEDB88320

  const OP_CREATE: byte := 1
  const OP_UPDATE: byte := 2
  const OP_DELETE: byte := 3

  datatype Record = Record(txId: nat, opType: byte, objType: nat, objId: nat, data: seq<byte>)

  /** The field widths of wal_record_t. */
  predicate Fits(r: Record) {
    r.txId < 0x1_0000_0000_0000_0000 && r.objType < 0x1_0000 && r.objId < WORD && |r.data| < WORD
  }

  // ---- checksum -----------------------------------------------------------------

  /** One bit of the CRC register's shift. */
  function BitStep(c: nat): nat {
    if c % 2 == 1 then Xor(c / 2, POLYNOMIAL) else c / 2
  }

  function BitSteps(c: nat, n: nat): nat
    decreases n
  {
    if n == 0 then c else BitSteps(BitStep(c), n - 1)
  }

  function ByteStep(c: nat, b: byte): nat { BitSteps(Xor(c, b), 8) }

  /** The register after feeding `s` into it, starting from `c`. */
  function Feed(c: nat, s: seq<byte>): nat {
    if s == [] then c else ByteStep(Feed(c, s[..|s| - 1]), s[|s| - 1])
  }

  function Crc(s: seq<byte>): nat
  {
    FeedBound(WORD - 1, s);
    WORD - 1 - Feed(WORD - 1, s)
  }

  lemma WordIsPow2()
    ensures Pow2(8) == 256 && Pow2(31) == WORD / 2 && Pow2(32) == WORD
  {
    Pow2Add(8, 8);
    Pow2Add(16, 8);
    Pow2Add(24, 8);
    assert Pow2(32) == 2 * Pow2(31);
  }

  lemma {:induction false} BitStepsBound(c: nat, n: nat)
    requires c < WORD
    ensures BitSteps(c, n) < WORD
    decreases n
  {
    if n > 0 {
      WordIsPow2();
      XorBound(c / 2, POLYNOMIAL, 32);
      BitStepsBound(BitStep(c), n - 1);
    }
  }

  lemma {:induction false} FeedBound(c: nat, s: seq<byte>)
    requires c < WORD
    ensures Feed(c, s) < WORD
  {
    if s != [] {
      FeedBound(c, s[..|s| - 1]);
      WordIsPow2();
      XorBound(Feed(c, s[..|s| - 1]), s[|s| - 1], 32);
      BitStepsBound(Xor(Feed(c, s[..|s| - 1]), s[|s| - 1]), 8);
    }
  }

  /** The shift is injective: its top output bit tells which branch was taken. */
  lemma BitStepInjective(x: nat, y: nat)
    requires x < WORD && y < WORD && BitStep(x) == BitStep(y)
    ensures x == y
  {
    WordIsPow2();
    XorKeepsTopBit(x / 2, POLYNOMIAL, 31);
    XorKeepsTopBit(y / 2, POLYNOMIAL, 31);
    if x % 2 == 1 && y % 2 == 1 {
      XorCancels(x / 2, y / 2, POLYNOMIAL);
    }
  }

  lemma {:induction false} BitStepsInjective(x: nat, y: nat, n: nat)
    requires x < WORD && y < WORD && BitSteps(x, n) == BitSteps(y, n)
    ensures x == y
    decreases n
  {
    if n > 0 {
      BitStepsBound(x, 1);
      BitStepsBound(y, 1);
      assert BitSteps(x, 1) == BitStep(x) && BitSteps(y, 1) == BitStep(y);
      BitStepsInjective(BitStep(x), BitStep(y), n - 1);
      BitStepInjective(x, y);
    }
  }

  lemma ByteStepInjective(x: nat, a: byte, y: nat, b: byte)
    requires x < WORD && y < WORD && ByteStep(x, a) == ByteStep(y, b)
    ensures a == b ==> x == y
    ensures x == y ==> a == b
  {
    WordIsPow2();
    XorBound(x, a, 32);
    XorBound(y, b, 32);
    BitStepsInjective(Xor(x, a), Xor(y, b), 8);
    if a == b { XorCancels(x, y, a); }
    if x == y {
      XorCommutes(x, a);
      XorCommutes(x, b);
      XorCancels(a, b, x);
    }
  }

  /** Changing any one byte changes the checksum. */
  lemma {:induction false} CrcDetectsOneByte(s: seq<byte>, i: nat, b: byte)
    requires i < |s| && b != s[i]
    ensures Crc(s[i := b]) != Crc(s)
  {
    FeedDetectsOneByte(WORD - 1, s, i, b);
  }

  lemma {:induction false} FeedDetectsOneByte(c: nat, s: seq<byte>, i: nat, b: byte)
    requires c < WORD && i < |s| && b != s[i]
    ensures Feed(c, s[i := b]) != Feed(c, s)
  {
    var n := |s| - 1;
    var t := s[i := b];
    FeedBound(c, s[..n]);
    FeedBound(c, t[..n]);
    if i < n {
      assert t[..n] == s[..n][i := b];
      FeedDetectsOneByte(c, s[..n], i, b);
    } else {
      assert t[..n] == s[..n];
    }
    if Feed(c, t) == Feed(c, s) {
      ByteStepInjective(Feed(c, t[..n]), t[n], Feed(c, s[..n]), s[n]);
    }
  }

  method CrcCalc(data: seq<byte>) returns (crc: nat)
    ensures crc == Crc(data)
  {
    hide Xor;
    crc := WORD - 1;
    for i := 0 to |data|
      invariant crc == Feed(WORD - 1, data[..i])
    {
      ghost var before := crc;
      crc := Xor(crc, data[i]);
      for j := 0 to 8
        invariant ByteStep(before, data[i]) == BitSteps(crc, 8 - j)
      {
        crc := if crc % 2 == 1 then Xor(crc / 2, POLYNOMIAL) else crc / 2;
      }
      assert data[..i + 1][..i] == data[..i];
    }
    assert data[..|data|] == data;
    FeedBound(WORD - 1, data);
    crc := WORD - 1 - crc;
  }

  // ---- framing ------------------------------------------------------------------

  function Header(r: Record): (h: seq<byte>)
    ensures |h| == HEADER_SIZE
  {
    Little(MAGIC, 4) + Little(r.txId, 8) + [r.opType] + Little(r.objType, 2)
    + Little(r.objId, 4) + Little(|r.data|, 4)
  }

  /** The checksum of the header, combined with that of a non-empty payload. */
  function Checksum(header: seq<byte>, data: seq<byte>): nat {
    if |data| > 0 then Xor(Crc(data), Crc(header)) else Crc(header)
  }

  function Frame(r: Record): (f: seq<byte>)
    ensures |f| == HEADER_SIZE + |r.data| + 4
  {
    Header(r) + r.data + Little(Checksum(Header(r), r.data), 4)
  }

  function Log(rs: seq<Record>): seq<byte> {
    if rs == [] then [] else Frame(rs[0]) + Log(rs[1..])
  }

  /** A log context: the file, as written, and the two counters. */
  class LogFile {
    var bytes: seq<byte>
    var recordsWritten: nat
    var bytesWritten: nat

    constructor ()
      ensures bytes == [] && recordsWritten == 0 && bytesWritten == 0
    {
      bytes, recordsWritten, bytesWritten := [], 0, 0;
    }

    /** Appends one record to a device that has room for `room` more bytes.
        A short write leaves a torn frame behind and is reported. */
    method Append(r: Record, room: nat) returns (ok: bool)
      modifies this
      ensures ok <==> |Frame(r)| <= room
      ensures bytes == old(bytes) + (if ok then Frame(r) else Frame(r)[..room])
      ensures recordsWritten == old(recordsWritten) + (if ok then 1 else 0)
      ensures bytesWritten == old(bytesWritten) + (if ok then |Frame(r)| else 0)
    {
      hide Crc, Little, Header, Xor;
      var header := Header(r);
      var crc := CrcCalc(header);
      if |r.data| > 0 {
        var dataCrc := CrcCalc(r.data);
        crc := Xor(dataCrc, crc);
      }
      ghost var was, last := bytes, Little(crc, 4);
      assert Frame(r) == header + r.data + last;
      CutPieces(was, header, r.data, room);
      CutPieces(was, header + r.data, last, room);
      var written := 0;
      var n := Write(header, room);
      written := written + n;
      if |r.data| > 0 {
        n := Write(r.data, room - written);
        written := written + n;
      }
      n := Write(Little(crc, 4), room - written);
      written := written + n;
      if written != HEADER_SIZE + |r.data| + 4 {
        return false;
      }
      recordsWritten := recordsWritten + 1;
      bytesWritten := bytesWritten + written;
      ok := true;
    }

    /** Writing two pieces in turn is writing what fits of both together. */
    static lemma CutPieces(was: seq<byte>, a: seq<byte>, b: seq<byte>, room: nat)
      ensures var n := if |a| <= room then |a| else room;
              var m := if |b| <= room - n then |b| else room - n;
              was + a[..n] + b[..m] == was + (a + b)[..n + m]
    {
      var n := if |a| <= room then |a| else room;
      var m := if |b| <= room - n then |b| else room - n;
      assert a[..n] + b[..m] == (a + b)[..n + m];
      assert was + a[..n] + b[..m] == was + (a[..n] + b[..m]);
    }

    /** fwrite on a device with `room` bytes left. */
    method Write(s: seq<byte>, room: nat) returns (n: nat)
      modifies this`bytes
      ensures n == if |s| <= room then |s| else room
      ensures bytes == old(bytes) + s[..n]
    {
      n := if |s| <= room then |s| else room;
      bytes := bytes + s[..n];
    }
  }

  // ---- replay -------------------------------------------------------------------

  /** The record at the start of `file` and the bytes it takes, or None where replay stops. */
  function Parse(file: seq<byte>): (p: Option<(Record, nat)>)
    ensures p.Some? ==> HEADER_SIZE + 4 <= p.value.1 <= |file|
  {
    if |file| < HEADER_SIZE then None else
    var header := file[..HEADER_SIZE];
    if FromLittle(header[..4]) != MAGIC then None else
    var len := FromLittle(header[19..23]);
    if len > MAX_DATA || |file| < HEADER_SIZE + len + 4 then None else
    var data := file[HEADER_SIZE..HEADER_SIZE + len];
    var stored := FromLittle(file[HEADER_SIZE + len..HEADER_SIZE + len + 4]);
    if Checksum(header, data) != stored then None else
    Some((Record(FromLittle(header[4..12]), header[12], FromLittle(header[13..15]),
                 FromLittle(header[15..19]), data), HEADER_SIZE + len + 4))
  }

  /** The records replay delivers, in order. */
  function Delivered(file: seq<byte>): seq<Record>
    decreases |file|
  {
    match Parse(file)
    case None => []
    case Some((r, n)) => [r] + Delivered(file[n..])
  }

  /** Replays the log, collecting what the callback is handed. */
  method Replay(file: seq<byte>) returns (records: seq<Record>, replayed: nat)
    ensures records == Delivered(file)
    ensures replayed == |records|
  {
    hide Crc, FromLittle;
    records, replayed := [], 0;
    var pos := 0;
    while pos + HEADER_SIZE <= |file|
      invariant pos <= |file|
      invariant records + Delivered(file[pos..]) == Delivered(file)
      invariant replayed == |records|
      decreases |file| - pos
    {
      ghost var rest := file[pos..];
      var header := file[pos..pos + HEADER_SIZE];
      assert header == rest[..HEADER_SIZE];
      if FromLittle(header[..4]) != MAGIC {
        assert Parse(rest).None?;
        break;
      }
      var len := FromLittle(header[19..23]);
      if len > MAX_DATA {
        assert Parse(rest).None?;
        break;
      }
      if |file| < pos + HEADER_SIZE + len {
        assert Parse(rest).None?;
        break;
      }
      var data := file[pos + HEADER_SIZE..pos + HEADER_SIZE + len];
      assert data == rest[HEADER_SIZE..HEADER_SIZE + len];
      if |file| < pos + HEADER_SIZE + len + 4 {
        assert Parse(rest).None?;
        break;
      }
      var stored := FromLittle(file[pos + HEADER_SIZE + len..pos + HEADER_SIZE + len + 4]);
      assert file[pos + HEADER_SIZE + len..pos + HEADER_SIZE + len + 4]
          == rest[HEADER_SIZE + len..HEADER_SIZE + len + 4];
      var crc := CrcCalc(header);
      if len > 0 {
        var dataCrc := CrcCalc(data);
        crc := Xor(dataCrc, crc);
      }
      if crc != stored {
        assert Parse(rest).None?;
        break;
      }
      var r := Record(FromLittle(header[4..12]), header[12], FromLittle(header[13..15]),
                      FromLittle(header[15..19]), data);
      ghost var n := HEADER_SIZE + len + 4;
      assert Parse(rest) == Some((r, n));
      assert rest[n..] == file[pos + n..];
      assert records + ([r] + Delivered(file[pos + n..])) == (records + [r]) + Delivered(file[pos + n..]);
      records := records + [r];
      replayed := replayed + 1;
      pos := pos + HEADER_SIZE + len + 4;
    }
    assert Parse(file[pos..]).None?;
    assert Delivered(file[pos..]) == [];
  }
}
