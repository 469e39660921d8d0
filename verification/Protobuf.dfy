/** The protobuf wire format: varints, tags, length-delimited fields. */
module Protobuf {
  import opened Base128
  import opened Bytes

  const U64: nat := 0x1_0000_0000_0000_0000

  // ---- reading ---------------------------------------------------------------------------

  /** `n` moved up by `shift` bits. */
  function Shl(n: nat, shift: nat): nat { n * Pow2(shift) }

  /** A varint from the front of `s`, `v` being what the bytes before it gave. */
  function VarintFrom(s: seq<byte>, v: nat, shift: nat): (r: Option<(nat, seq<byte>)>)
    ensures r.Some? ==> |r.value.1| < |s|
  {
    if shift >= 64 || s == [] then None
    else
      var v' := v + Shl(s[0] % 128, shift) % U64;
      if s[0] < 128 then Some((v', s[1..])) else VarintFrom(s[1..], v', shift + 7)
  }

  function Varint(s: seq<byte>): (r: Option<(nat, seq<byte>)>)
    ensures r.Some? ==> |r.value.1| < |s|
  {
    VarintFrom(s, 0, 0)
  }

  /** A field number of 0 ends a message just as the end of the bytes does. */
  datatype TagRead = Stop | Broken | Tag(field: nat, wire: nat, rest: seq<byte>)

  function ReadTag(s: seq<byte>): (r: TagRead)
    ensures r.Tag? ==> |r.rest| < |s|
  {
    if s == [] then Stop
    else match Varint(s)
      case None => Broken
      case Some((t, rest)) =>
        var field := t / 8 % 0x1_0000_0000;
        if field == 0 then Stop else Tag(field, t % 8, rest)
  }

  /** The contents of a length-delimited field and what follows. */
  function TakeBytes(s: seq<byte>): (r: Option<(seq<byte>, seq<byte>)>)
    ensures r.Some? ==> |r.value.0| + |r.value.1| < |s|
  {
    match Varint(s)
    case None => None
    case Some((n, rest)) => if n > |rest| then None else Some((rest[..n], rest[n..]))
  }

  function Skip(s: seq<byte>, wire: nat): (r: Option<seq<byte>>)
    ensures r.Some? ==> |r.value| <= |s|
  {
    match wire
    case 0 => (match Varint(s) case Some((_, rest)) => Some(rest) case None => None)
    case 1 => if |s| < 8 then None else Some(s[8..])
    case 2 => (match TakeBytes(s) case Some((_, rest)) => Some(rest) case None => None)
    case 5 => if |s| < 4 then None else Some(s[4..])
    case _ => None
  }

  // ---- writing -----------------------------------------------------------------------------

  function TagBytes(field: nat, wire: nat): seq<byte> { Continuation(field * 8 + wire) }

  function VarField(field: nat, v: nat): seq<byte> { TagBytes(field, 0) + Continuation(v) }

  function LenField(field: nat, b: seq<byte>): seq<byte> { TagBytes(field, 2) + Continuation(|b|) + b }

  /** The length patched in front of a nested body once it is complete: one byte, or two. */
  function PatchedLength(n: nat): seq<byte> {
    if n < 128 then [n] else [n % 128 + 128, n / 128 % 256]
  }

  function Nested(field: nat, body: seq<byte>): seq<byte> { TagBytes(field, 2) + PatchedLength(|body|) + body }

  /** The patched length is the varint it should be exactly for bodies under 2^14 bytes. */
  lemma PatchedIffShort(n: nat)
    ensures PatchedLength(n) == Continuation(n) <==> n < 16384
  {
    if n >= 128 {
      assert Continuation(n)[0] == n % 128 + 128;
      assert Continuation(n)[1..] == Continuation(n / 128);
      if n < 16384 {
        assert Continuation(n / 128) == [n / 128];
      } else {
        assert |Continuation(n / 128)| >= 2;
      }
    }
  }

  lemma NestedIsLenField(field: nat, body: seq<byte>)
    requires |body| < 16384
    ensures Nested(field, body) == LenField(field, body)
  {
    hide Continuation, PatchedLength;
    PatchedIffShort(|body|);
  }

  // ---- the reader inverts the writer ---------------------------------------------------------

  lemma {:induction false} VarintFromRoundTrip(n: nat, rest: seq<byte>, v: nat, shift: nat)
    requires shift % 7 == 0 && shift <= 63 && n < Pow2(64 - shift)
    ensures VarintFrom(Continuation(n) + rest, v, shift) == Some((v + Shl(n, shift), rest))
    decreases n
  {
    hide Pow2, VarintFrom, Continuation, Shl;
    ContinuationForms(n);
    RoomForSeven(n, shift);
    var s := Continuation(n) + rest;
    if n < 128 {
      assert s == [n] + rest && s[1..] == rest;
      VarintStep(s, v, shift, Shl(n, shift));
    } else {
      assert s == [n % 128 + 128] + (Continuation(n / 128) + rest);
      assert s[1..] == Continuation(n / 128) + rest;
      VarintStep(s, v, shift, Shl(n % 128, shift));
      VarintFromRoundTrip(n / 128, rest, v + Shl(n % 128, shift), shift + 7);
    }
  }

  lemma ContinuationForms(n: nat)
    ensures Continuation(n) == if n < 128 then [n] else [n % 128 + 128] + Continuation(n / 128)
  {
  }

  /** One byte of a varint, `bits` being what it contributes. */
  lemma VarintStep(s: seq<byte>, v: nat, shift: nat, bits: nat)
    requires s != [] && shift < 64 && bits == Shl(s[0] % 128, shift) < U64
    ensures VarintFrom(s, v, shift) ==
            if s[0] < 128 then Some((v + bits, s[1..])) else VarintFrom(s[1..], v + bits, shift + 7)
  {
    hide Pow2, Shl;
    assert bits % U64 == bits;
  }

  lemma RoomForSeven(n: nat, shift: nat)
    requires shift % 7 == 0 && shift <= 63 && n < Pow2(64 - shift)
    ensures Shl(n % 128, shift) + Shl(n / 128, shift + 7) == Shl(n, shift)
    ensures n < 128 ==> Shl(n, shift) < U64
    ensures n >= 128 ==> shift <= 56 && n / 128 < Pow2(64 - (shift + 7)) && Shl(n % 128, shift) < U64
  {
    hide Pow2;
    var p, q := Pow2(shift), Pow2(64 - shift);
    SevenMore(shift);
    SplitAtSeven(n, p);
    assert p * q == U64 by {
      Pow2Add(shift, 64 - shift);
      TwoTo64();
    }
    LessTimes(n, q, p);
    if n >= 128 {
      if shift == 63 { OneBit(); }
      SevenMore(64 - shift - 7);
      LessTimes(n % 128, n, p);
    }
  }

  lemma LessTimes(a: nat, b: nat, p: nat)
    requires a <= b && p > 0
    ensures a * p <= b * p && (a < b ==> a * p < b * p)
  {
  }

  lemma OneBit()
    ensures Pow2(1) == 2
  {
  }

  lemma TwoTo64()
    ensures Pow2(64) == U64
  {
    hide Pow2;
    Pow2Zero();
    EightBits(0);
    EightBits(8);
    EightBits(16);
    EightBits(24);
    EightBits(32);
    EightBits(40);
    EightBits(48);
    EightBits(56);
  }

  /** Every 64-bit value is read back. */
  lemma VarintRoundTrip(n: nat, rest: seq<byte>)
    requires n < U64
    ensures Varint(Continuation(n) + rest) == Some((n, rest))
  {
    hide Continuation, VarintFrom;
    TwoTo64();
    Pow2Zero();
    VarintFromRoundTrip(n, rest, 0, 0);
  }

  lemma TagRoundTrip(field: nat, wire: nat, rest: seq<byte>)
    requires 0 < field < 0x1_0000_0000 && wire < 8
    ensures ReadTag(TagBytes(field, wire) + rest) == Tag(field, wire, rest)
  {
    hide Continuation, VarintFrom, Varint;
    VarintRoundTrip(field * 8 + wire, rest);
    assert TagBytes(field, wire) + rest != [];
  }

  lemma BytesRoundTrip(b: seq<byte>, rest: seq<byte>)
    requires |b| < U64
    ensures TakeBytes(Continuation(|b|) + b + rest) == Some((b, rest))
  {
    hide Continuation, Varint;
    VarintRoundTrip(|b|, b + rest);
    assert Continuation(|b|) + (b + rest) == Continuation(|b|) + b + rest;
    assert (b + rest)[..|b|] == b && (b + rest)[|b|..] == rest;
  }

  /** A length-delimited field in front of anything: its tag, then its contents. */
  lemma LenFieldRoundTrip(field: nat, b: seq<byte>, rest: seq<byte>)
    requires 0 < field < 0x1_0000_0000 && |b| < U64
    ensures var r := ReadTag(LenField(field, b) + rest);
            && r.Tag? && r.field == field && r.wire == 2
            && TakeBytes(r.rest) == Some((b, rest))
  {
    hide Continuation, Varint, ReadTag, TakeBytes;
    TagRoundTrip(field, 2, Continuation(|b|) + b + rest);
    assert LenField(field, b) + rest == TagBytes(field, 2) + (Continuation(|b|) + b + rest);
    BytesRoundTrip(b, rest);
  }

  lemma VarFieldRoundTrip(field: nat, v: nat, rest: seq<byte>)
    requires 0 < field < 0x1_0000_0000 && v < U64
    ensures var r := ReadTag(VarField(field, v) + rest);
            && r.Tag? && r.field == field && r.wire == 0
            && Varint(r.rest) == Some((v, rest))
  {
    hide Continuation, Varint, ReadTag;
    TagRoundTrip(field, 0, Continuation(v) + rest);
    assert VarField(field, v) + rest == TagBytes(field, 0) + (Continuation(v) + rest);
    VarintRoundTrip(v, rest);
  }

  // ---- sizes -----------------------------------------------------------------------------------

  lemma LenFieldSize(field: nat, b: seq<byte>)
    requires field < 16 && |b| < 16384
    ensures |b| + 2 <= |LenField(field, b)| <= |b| + 3
  {
    assert |Continuation(field * 8 + 2)| == 1;
    if |b| >= 128 { assert |Continuation(|b| / 128)| == 1; }
  }
}
