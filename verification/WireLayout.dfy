/** The first bytes on the wire, spelled out: HTTP/2 frames, gRPC preludes, protobuf fields, HPACK fields. */
module WireLayout {
  import opened Base128
  import opened Bytes
  import opened Grpc
  import opened Hpack
  import opened HpackInt
  import opened Http2
  import opened Protobuf

  lemma BigOfThree(n: nat)
    requires n < 0x100_0000
    ensures Big(n, 3) == [n / 0x1_0000, n / 256 % 256, n % 256]
  {
    var a, b := n / 256, n / 0x1_0000;
    assert a / 256 == b && b < 256;
    assert Big(b, 1) == [b % 256];
    assert Big(a, 2) == Big(b, 1) + [a % 256];
    assert Big(n, 3) == Big(a, 2) + [n % 256];
  }

  lemma BigOfWord(n: nat)
    requires n < 0x1_0000_0000
    ensures Big(n, 4) == [n / 0x100_0000, n / 0x1_0000 % 256, n / 256 % 256, n % 256]
  {
    hide Big;
    var a := n / 256;
    BigOfThree(a);
    assert Big(n, 4) == Big(a, 3) + [n % 256] by { BigForms(n, 4); }
    assert a / 0x1_0000 == n / 0x100_0000 && a / 256 == n / 0x1_0000;
  }

  lemma BigForms(n: nat, width: nat)
    requires width > 0
    ensures Big(n, width) == Big(n / 256, width - 1) + [n % 256]
  {
  }

  /** Section 4.1 of RFC 7540: three bytes of length, type, flags, four bytes of stream, payload. */
  lemma FrameLayout(f: Frame)
    requires WellFormed(f)
    ensures var n, s := |f.payload|, f.stream;
            s < 0x1_0000_0000 && FrameBytes(f) ==
            [n / 0x1_0000, n / 256 % 256, n % 256, f.ftype, f.flags]
            + [s / 0x100_0000, s / 0x1_0000 % 256, s / 256 % 256, s % 256] + f.payload
  {
    hide Big;
    FitsWord();
    BigOfThree(|f.payload|);
    BigOfWord(f.stream);
  }

  lemma FitsWord()
    ensures Pow2(32) == 0x1_0000_0000
  {
    Pow2Zero();
    EightBits(0);
    EightBits(8);
    EightBits(16);
    EightBits(24);
  }

  /** A zero for "not compressed", and the length in four bytes. */
  lemma PreludeLayout(msg: seq<byte>)
    requires |msg| < 0x1_0000_0000
    ensures var n := |msg|;
            GrpcBytes(msg) == [0, n / 0x100_0000, n / 0x1_0000 % 256, n / 256 % 256, n % 256] + msg
  {
    hide Big;
    BigOfWord(|msg|);
  }

  /** Protobuf: field number and wire type in one byte below 16, then a length or a number. */
  lemma FieldLayout(field: nat, b: seq<byte>, v: nat)
    requires 0 < field < 16 && |b| < 128 && v < 128
    ensures LenField(field, b) == [8 * field + 2, |b|] + b && VarField(field, v) == [8 * field, v]
    ensures Nested(field, b) == [8 * field + 2, |b|] + b
  {
    NestedIsLenField(field, b);
    ContinuationForms(8 * field + 2);
    ContinuationForms(8 * field);
    ContinuationForms(|b|);
    ContinuationForms(v);
  }

  lemma SmallInt(v: nat, prefix: nat, pattern: nat)
    requires Prefixed(prefix, pattern) && v < Mask(prefix)
    ensures EncodeInt(v, prefix, pattern) == [pattern + v]
  {
  }

  lemma Masks()
    ensures Mask(7) == 127 && Mask(6) == 63 && Mask(5) == 31 && Mask(4) == 15
  {
    assert Pow2(4) == 16;
  }

  lemma TextLayout(x: Literal)
    requires |Hpack.Wire(x)| < 127
    ensures EncodeLiteral(x) == [(if x.Coded? then 128 else 0) + |Hpack.Wire(x)|] + Hpack.Wire(x)
  {
    hide Hpack.Wire;
    Patterns();
    Masks();
    SmallInt(|Hpack.Wire(x)|, 7, if x.Coded? then 128 else 0);
  }

  /** Section 6 of RFC 7541: the top bits tell indexed, kept, size update, and fields not kept, some of them never. */
  lemma RepLayout(i: nat, max: nat, name: nat, value: Literal, never: bool)
    requires i < 127 && max < 31 && name < 15 && |Hpack.Wire(value)| < 127
    ensures EncodeRep(Indexed(i)) == [128 + i] && EncodeRep(Update(max)) == [32 + max]
    ensures EncodeRep(Stored(Known(name), value)) == [64 + name] + EncodeLiteral(value)
    ensures EncodeRep(Unstored(Known(name), value, never)) == [(if never then 16 else 0) + name] + EncodeLiteral(value)
  {
    hide EncodeLiteral;
    Patterns();
    Masks();
    SmallInt(i, 7, 128);
    SmallInt(max, 5, 32);
    SmallInt(name, 6, 64);
    SmallInt(name, 4, if never then 16 else 0);
  }
}
