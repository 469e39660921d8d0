/** The bytes of a log record: where each field of wal_record_t lies, and what a mutation writes there. */
module LogLayout {
  import opened Base128
  import opened Bytes
  import opened Persist
  import Protobuf
  import opened Wal

  /** The number in the `n` bytes at `a`, lowest first. */
  function Number(f: seq<byte>, a: nat, n: nat): nat
    requires a + n <= |f|
  {
    FromLittle(f[a..a + n])
  }

  lemma NumberAt(f: seq<byte>, a: nat, v: nat, n: nat)
    requires At(f, a, Little(v, n)) && v < Pow2(8 * n)
    ensures Number(f, a, n) == v
  {
    hide Little, FromLittle, Pow2;
    LittleRoundTrip(v, n);
  }

  lemma HeaderParts(f: seq<byte>, r: Record)
    requires At(f, 0, Header(r))
    ensures At(f, 0, Little(MAGIC, 4)) && At(f, 4, Little(r.txId, 8)) && f[12] == r.opType
    ensures At(f, 13, Little(r.objType, 2)) && At(f, 15, Little(r.objId, 4)) && At(f, 19, Little(|r.data|, 4))
  {
    hide Little;
    var magic, tx, op := Little(MAGIC, 4), Little(r.txId, 8), [r.opType];
    var t, id, len := Little(r.objType, 2), Little(r.objId, 4), Little(|r.data|, 4);
    AtSplit(f, 0, magic + tx + op + t + id, len);
    AtSplit(f, 0, magic + tx + op + t, id);
    AtSplit(f, 0, magic + tx + op, t);
    AtSplit(f, 0, magic + tx, op);
    AtSplit(f, 0, magic, tx);
  }

  lemma Magic(f: seq<byte>)
    requires At(f, 0, Little(MAGIC, 4))
    ensures f[..4] == [0x53, 0x4F, 0x4E, 0x44]
  {
    var m := MAGIC;
    assert Little(m, 4) == [m % 256] + Little(m / 256, 3);
    assert Little(m / 256, 3) == [m / 256 % 256] + Little(m / 65536, 2);
    assert Little(m / 65536, 2) == [m / 65536 % 256] + Little(m / 0x100_0000, 1);
    assert Little(m / 0x100_0000, 1) == [m / 0x100_0000 % 256];
  }

  lemma Widths()
    ensures Pow2(8 * 2) == 0x1_0000 && Pow2(8 * 4) == 0x1_0000_0000 && Pow2(8 * 8) == 0x1_0000_0000_0000_0000
  {
    WordIsPow2();
    Protobuf.TwoTo64();
  }

  /**
   * A record is its magic number, transaction, operation, type, id and length, the payload, and the
   * checksum of the 23 bytes of header combined with that of a payload that is not empty.
   */
  lemma FrameLayout(r: Record)
    requires Fits(r)
    ensures var f, n := Frame(r), |r.data|;
            && |f| == 27 + n && f[..4] == [0x53, 0x4F, 0x4E, 0x44]
            && Number(f, 4, 8) == r.txId && f[12] == r.opType && Number(f, 13, 2) == r.objType
            && Number(f, 15, 4) == r.objId && Number(f, 19, 4) == n && f[23..23 + n] == r.data
            && Number(f, 23 + n, 4) == if n == 0 then Crc(f[..23]) else Xor(Crc(r.data), Crc(f[..23]))
  {
    hide Little, FromLittle, Pow2, Crc, Number;
    var f, header, n := Frame(r), Header(r), |r.data|;
    var sum := Checksum(header, r.data);
    Widths();
    assert At(f, 0, header + r.data + Little(sum, 4));
    AtSplit(f, 0, header + r.data, Little(sum, 4));
    AtSplit(f, 0, header, r.data);
    assert f[..23] == header;
    HeaderParts(f, r);
    Magic(f);
    NumberAt(f, 4, r.txId, 8);
    NumberAt(f, 13, r.objType, 2);
    NumberAt(f, 15, r.objId, 4);
    NumberAt(f, 19, n, 4);
    SumFits(header, r.data);
    NumberAt(f, 23 + n, sum, 4);
  }

  lemma SumFits(header: seq<byte>, data: seq<byte>)
    ensures Checksum(header, data) < 0x1_0000_0000
  {
    hide Xor, Feed;
    FeedBound(WORD - 1, header);
    FeedBound(WORD - 1, data);
    WordIsPow2();
    XorBound(Crc(data), Crc(header), 32);
  }

  /** What a mutation of an object that can be logged writes: transaction 1, its operation, type, id and data. */
  lemma MutationLayout(op: Mutation)
    requires Loggable(op.k) && (op.Delete? || |op.data| < 0x1_0000_0000)
    ensures var f := Frame(RecordOf(op)); var data := if op.Delete? then [] else op.data;
            && |f| == 27 + |data| && f[..4] == [0x53, 0x4F, 0x4E, 0x44] && Number(f, 4, 8) == 1
            && f[12] == (match op case Create(_, _) => 1 case Update(_, _) => 2 case Delete(_) => 3)
            && Number(f, 13, 2) == TypeToWal(op.k.objType) && Number(f, 15, 4) == op.k.id
            && Number(f, 19, 4) == |data| && f[23..23 + |data|] == data
  {
    hide Frame, Number;
    assert op.Delete? || op.data[..|op.data| % WORD] == op.data;
    FrameLayout(RecordOf(op));
  }

  /** The records of creations, updates and deletions. */
  function ObjectRecords(rs: seq<Record>): seq<Record> {
    if rs == [] then []
    else
      var r := rs[|rs| - 1];
      ObjectRecords(rs[..|rs| - 1]) + if 1 <= r.opType <= 3 then [r] else []
  }

  /** Records of any other operation leave no trace in what is recovered. */
  lemma {:induction false} OtherRecordsAreIgnored(rs: seq<Record>)
    ensures Table(rs) == Table(ObjectRecords(rs))
  {
    if rs != [] {
      var front, r := rs[..|rs| - 1], rs[|rs| - 1];
      OtherRecordsAreIgnored(front);
      if 1 <= r.opType <= 3 {
        var kept := ObjectRecords(front) + [r];
        assert kept[..|kept| - 1] == ObjectRecords(front);
      } else {
        assert ObjectRecords(front) + [] == ObjectRecords(front);
      }
    }
  }
}
