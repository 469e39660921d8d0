/** The encoder and the decoder of header blocks, in place. */
module HpackCodec {
  import Bits
  import opened Bytes
  import opened Hpack
  import opened HpackInt
  import opened HpackStatic
  import opened HpackTable
  import HuffmanCodec

  // ---- writing ---------------------------------------------------------------------

  function PlainBytes(s: seq<byte>): seq<byte> { EncodeLiteral(Plain(s)) }

  /** Writes a string from `at` on; -1 exactly when it does not fit. */
  method WriteString(buf: array<byte>, at: nat, s: seq<byte>) returns (n: int)
    requires at <= buf.Length
    modifies buf
    ensures buf[..at] == old(buf[..at])
    ensures n == -1 <==> at + |PlainBytes(s)| > buf.Length
    ensures n != -1 ==> n == |PlainBytes(s)| && buf[at..at + n] == PlainBytes(s)
  {
    Patterns();
    hide Pow2, EncodeInt, Mask, Prefixed;
    var k := WriteInt(buf, at, |s|, 7, 0);
    if k == -1 { return -1; }
    if buf.Length - at < k + |s| { return -1; }
    ghost var front, length := buf[..at], buf[at..at + k];
    forall i | 0 <= i < |s| { buf[at + k + i] := s[i]; }
    assert buf[..at] == front;
    assert buf[at..at + k + |s|] == length + s;
    return k + |s|;
  }

  /** Writes one unindexed field; -1 exactly when it does not fit. */
  method WriteLiteral(buf: array<byte>, at: nat, h: Header) returns (n: int)
    requires at <= buf.Length
    modifies buf
    ensures buf[..at] == old(buf[..at])
    ensures n == -1 <==> at + |EncodeRep(Unindexed(h))| > buf.Length
    ensures n != -1 ==> n == |EncodeRep(Unindexed(h))| && buf[at..at + n] == EncodeRep(Unindexed(h))
  {
    hide Pow2, EncodeInt, EncodeLiteral, EncodeRep, Mask, Prefixed;
    UnindexedBytes(h);
    if buf.Length - at < 1 { return -1; }
    var pos := at;
    buf[pos] := 0;
    pos := pos + 1;
    ghost var front := buf[..pos];
    assert front[..at] == old(buf[..at]) && front == front[..at] + [0];
    var k := WriteString(buf, pos, h.name);
    if k == -1 {
      assert buf[..at] == front[..at];
      return -1;
    }
    pos := pos + k;
    ghost var middle := buf[..pos];
    assert middle == front + PlainBytes(h.name);
    k := WriteString(buf, pos, h.value);
    assert buf[..at] == middle[..at] == front[..at];
    if k == -1 { return -1; }
    assert buf[..pos + k] == middle + PlainBytes(h.value);
    pos := pos + k;
    assert buf[at..pos] == buf[..pos][at..];
    return pos - at;
  }

  lemma UnindexedBytes(h: Header)
    ensures EncodeRep(Unindexed(h)) == [0] + PlainBytes(h.name) + PlainBytes(h.value)
  {
    Patterns();
    hide EncodeLiteral, Prefixed, Pow2;
    assert EncodeInt(0, 4, 0) == [0];
  }

  // ---- reading -----------------------------------------------------------------------

  /** The room the decoder sets aside is always enough. */
  lemma ScratchSuffices(raw: seq<byte>)
    ensures Huffman.DecodeBytes(raw).Some? ==> |Huffman.DecodeBytes(raw).value| <= |raw| * 8 / 5 + 8
  {
    hide Huffman.Run, Bits.BitsOfBytes;
    var bits := Bits.BitsOfBytes(raw);
    if Huffman.Decode(raw).Some? {
      Huffman.ExpansionBound(bits);
      assert |bits| == 8 * |raw|;
    }
  }

  class Decoder {
    const table: DynTable
    const huffman: HuffmanCodec.Codec

    ghost predicate Valid()
      reads this, table, table.slots, huffman, huffman.ranges
    {
      table.Valid() && huffman.Valid()
    }

    constructor ()
      ensures Valid() && fresh(table) && fresh(table.slots) && fresh(huffman) && fresh(huffman.ranges)
      ensures table.Model() == Table([], DEFAULT_SIZE)
    {
      table := new DynTable();
      huffman := new HuffmanCodec.Codec();
    }

    method LookupIndex(index: nat) returns (h: Option<Header>)
      requires table.Valid()
      ensures h == Lookup(table.Model(), index)
    {
      if index == 0 { return None; }
      if index <= STATIC_COUNT { return Some(Static(index)); }
      var d := index - STATIC_COUNT - 1;
      if d >= table.count { return None; }
      return Some(table.slots[d]);
    }

    method Unpack(raw: seq<byte>) returns (s: Option<seq<byte>>)
      requires huffman.Valid()
      modifies huffman, huffman.ranges
      ensures huffman.Valid() && s == Huffman.DecodeBytes(raw)
    {
      hide Huffman.DecodeBytes, HuffmanCodec.Codec.Valid;
      var scratch := new byte[|raw| * 8 / 5 + 8];
      var ok, n := huffman.HuffmanDecode(raw, scratch);
      ScratchSuffices(raw);
      if !ok { return None; }
      return Some(scratch[..n]);
    }

    method ReadString(data: seq<byte>, pos: nat) returns (r: Option<(seq<byte>, nat)>)
      requires huffman.Valid()
      modifies huffman, huffman.ranges
      ensures huffman.Valid() && r == StringAt(data, pos)
    {
      hide Huffman.DecodeBytes, HuffmanCodec.Codec.Valid, DecodeInt, CString;
      if pos >= |data| { return None; }
      var n := ReadInt(data, pos, 7);
      if n.None? { return None; }
      var (len, p) := n.value;
      if p + len > |data| { return None; }
      var raw := data[p..p + len];
      if data[pos] >= 128 {
        var s := Unpack(raw);
        if s.None? { return None; }
        return Some((CString(s.value), p + len));
      }
      return Some((CString(raw), p + len));
    }

    method ReadLiteral(data: seq<byte>, pos: nat, prefix: nat) returns (r: Option<(Header, nat)>)
      requires Valid() && 1 <= prefix <= 8
      modifies huffman, huffman.ranges
      ensures Valid() && r == LiteralAt(table.Model(), data, pos, prefix)
    {
      hide HuffmanCodec.Codec.Valid, DecodeInt, StringAt, Lookup, Pow2;
      var n := ReadInt(data, pos, prefix);
      if n.None? { return None; }
      var (index, p) := n.value;
      var name;
      if index == 0 {
        var s := ReadString(data, p);
        if s.None? { return None; }
        name, p := s.value.0, s.value.1;
      } else {
        var h := LookupIndex(index);
        if h.None? { return None; }
        name := h.value.name;
      }
      var v := ReadString(data, p);
      if v.None? { return None; }
      return Some((Header(name, v.value.0), v.value.1));
    }

    /** Decodes one block, passing the fields on in order to a consumer that may stop it. */
    method DecodeHeaders(data: seq<byte>, takes: Consumer) returns (ok: bool, fields: seq<Header>)
      requires Valid()
      modifies table, table.slots, huffman, huffman.ranges
      ensures Valid() && Outcome(ok, fields, table.Model()) == DecodeBlock(old(table.Model()), data, 0, [], takes)
    {
      hide HuffmanCodec.Codec.Valid, DecodeInt, LiteralAt, Lookup, Insert, Resize, Pow2;
      var pos := 0;
      fields := [];
      ghost var t := table.Model();
      while pos < |data|
        invariant Valid() && pos <= |data|
        invariant DecodeBlock(t, data, 0, [], takes) == DecodeBlock(table.Model(), data, pos, fields, takes)
        decreases |data| - pos
      {
        var b := data[pos];
        if b >= 128 {
          var n := ReadInt(data, pos, 7);
          if n.None? { return false, fields; }
          var h := LookupIndex(n.value.0);
          if h.None? { return false, fields; }
          fields, pos := fields + [h.value], n.value.1;
          if !takes(fields) { return false, fields; }
        } else if b >= 64 {
          var h := ReadLiteral(data, pos, 6);
          if h.None? { return false, fields; }
          var _ := table.Put(h.value.0);
          fields, pos := fields + [h.value.0], h.value.1;
          if !takes(fields) { return false, fields; }
        } else if b >= 32 {
          var n := ReadInt(data, pos, 5);
          if n.None? { return false, fields; }
          table.SetMaxSize(n.value.0);
          pos := n.value.1;
          assert fields + [] == fields;
        } else {
          var h := ReadLiteral(data, pos, 4);
          if h.None? { return false, fields; }
          fields, pos := fields + [h.value.0], h.value.1;
          if !takes(fields) { return false, fields; }
        }
      }
      return true, fields;
    }
  }
}
