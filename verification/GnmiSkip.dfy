/**
 * The decoder's loop as it runs in 64 bits. A length that would end past the message is refused,
 * unless adding it to the position wraps around: then the position moves back.
 */
module GnmiSkip {
  import opened Base128
  import opened Bytes
  import opened Gnmi
  import opened Protobuf

  /** No message is longer than this. */
  const MAX_OBJECT: nat := 0x8000_0000_0000_0000

  /** The end of a field's contents as the code adds it up. */
  function EndIn64(pos: nat, n: nat): nat { (pos + n) % U64 }

  /**
   * Comparing that end with the length of the message refuses exactly the lengths that run past the
   * message, except those so large that the sum wraps around; those move the position back.
   */
  lemma LengthCheckIn64(pos: nat, n: nat, len: nat)
    requires pos <= len < U64 && n < U64
    ensures EndIn64(pos, n) <= len <==> pos + n <= len || pos + n >= U64
    ensures EndIn64(pos, n) < pos <==> pos + n >= U64
  {
    if pos + n >= U64 {
      assert EndIn64(pos, n) == pos + n - U64;
    } else {
      assert EndIn64(pos, n) == pos + n;
    }
  }

  /** Where `rest` begins in a message it is the end of. */
  function Place(data: seq<byte>, rest: Option<seq<byte>>): Option<nat>
    requires rest.Some? ==> |rest.value| <= |data|
  {
    match rest
    case None => None
    case Some(s) => Some(|data| - |s|)
  }

  // ---- one skip -----------------------------------------------------------------------------

  /** The position after a field that is not looked at, starting behind its tag. */
  function SkipIn64(data: seq<byte>, pos: nat, wire: nat): (r: Option<nat>)
    requires pos <= |data|
    ensures r.Some? ==> r.value <= |data|
  {
    if wire != 2 then Place(data, Skip(data[pos..], wire))
    else match Varint(data[pos..])
      case None => None
      case Some((n, rest)) =>
        var end := EndIn64(|data| - |rest|, n);
        if end > |data| then None else Some(end)
  }

  /** Behind the tag at `pos` stands a length whose end wraps around. */
  predicate Wraps(data: seq<byte>, pos: nat, wire: nat)
    requires pos <= |data|
  {
    && wire == 2 && Varint(data[pos..]).Some?
    && var (n, rest) := Varint(data[pos..]).value; |data| - |rest| + n >= U64
  }

  /** The skip does what the wire format asks exactly when no length wraps around. */
  lemma SkipAgreesIff(data: seq<byte>, pos: nat, wire: nat)
    requires pos <= |data| < MAX_OBJECT
    ensures SkipIn64(data, pos, wire) == Place(data, Skip(data[pos..], wire)) <==> !Wraps(data, pos, wire)
  {
    hide VarintFrom;
    if wire == 2 && Varint(data[pos..]).Some? {
      var (n, rest) := Varint(data[pos..]).value;
      VarintIs64(data[pos..]);
      LengthCheckIn64(|data| - |rest|, n, |data|);
    }
  }

  /** Skipping a length-delimited field leads past its length exactly when that does not wrap around. */
  lemma SkipMovesOnIff(data: seq<byte>, pos: nat)
    requires pos <= |data| < MAX_OBJECT && SkipIn64(data, pos, 2).Some?
    ensures SkipIn64(data, pos, 2).value >= |data| - |Varint(data[pos..]).value.1| <==> !Wraps(data, pos, 2)
  {
    hide VarintFrom;
    var (n, rest) := Varint(data[pos..]).value;
    VarintIs64(data[pos..]);
    LengthCheckIn64(|data| - |rest|, n, |data|);
  }

  // ---- a varint is a 64-bit number ------------------------------------------------------------

  lemma VarintIs64(s: seq<byte>)
    ensures Varint(s).Some? ==> Varint(s).value.0 < U64
  {
    Pow2Zero();
    VarintFromIs64(s, 0, 0);
  }

  lemma {:induction false} VarintFromIs64(s: seq<byte>, v: nat, shift: nat)
    requires shift % 7 == 0 && v < Pow2(shift) && v < U64
    ensures VarintFrom(s, v, shift).Some? ==> VarintFrom(s, v, shift).value.0 < U64
    decreases |s|
  {
    hide Pow2, Shl;
    if shift < 64 && s != [] {
      SevenBitsMore(s[0] % 128, v, shift);
      VarintFromIs64(s[1..], v + Shl(s[0] % 128, shift) % U64, shift + 7);
    }
  }

  /** Up to the tenth byte the bits added fit above those before; of the tenth only one is kept. */
  lemma SevenBitsMore(b: nat, v: nat, shift: nat)
    requires b < 128 && shift % 7 == 0 && shift < 64 && v < Pow2(shift)
    ensures var v' := v + Shl(b, shift) % U64;
            v' < Pow2(shift + 7) && v' < U64
  {
    hide Pow2;
    var p := Pow2(shift);
    SevenMore(shift);
    LessTimes(b, 127, p);
    if shift == 63 {
      TwoTo64();
      HalfOf64();
      TopBit(b, p);
    } else {
      Pow2Below(shift + 7, 63);
      HalfOf64();
    }
  }

  lemma TopBit(b: nat, p: nat)
    requires 2 * p == U64
    ensures b * p % U64 == 0 || b * p % U64 == p
  {
    if b % 2 == 0 {
      assert b * p == b / 2 * (2 * p);
      DivideBack(b / 2, U64, 0);
    } else {
      assert b * p == b / 2 * (2 * p) + p;
      DivideBack(b / 2, U64, p);
    }
  }

  lemma HalfOf64()
    ensures 2 * Pow2(63) == Pow2(64) == U64
  {
    TwoTo64();
  }

  lemma {:induction false} Pow2Below(a: nat, b: nat)
    requires a <= b
    ensures Pow2(a) <= Pow2(b)
    decreases b - a
  {
    if a < b { Pow2Below(a, b - 1); }
  }

  // ---- the loop ---------------------------------------------------------------------------------

  /** What one turn of the set request's loop comes to; reading past the message has no meaning. */
  datatype Turn = Returns(r: Option<SetRequest>) | Goes(pos: nat, q: SetRequest) | Undefined

  function TurnAt(data: seq<byte>, pos: nat, q: SetRequest): (t: Turn)
    requires pos <= |data|
    ensures t.Goes? ==> t.pos <= |data|
  {
    match ReadTag(data[pos..])
    case Stop => Returns(Some(q))
    case Broken => Returns(None)
    case Tag(field, wire, rest) =>
      var p := |data| - |rest|;
      if 1 <= field <= 4 then
        if Wraps(data, p, 2) then Undefined
        else match TakeBytes(rest)
          case None => Returns(None)
          case Some((d, next)) =>
            (match TakeField(field, d, q)
             case None => Returns(None)
             case Some(q') => Goes(|data| - |next|, q'))
      else match SkipIn64(data, p, wire)
        case None => Returns(None)
        case Some(p') => Goes(p', q)
  }

  /** At most `n` turns; `Goes` while the loop has not ended. */
  function Turns(data: seq<byte>, n: nat, pos: nat, q: SetRequest): Turn
    requires pos <= |data|
  {
    if n == 0 then Goes(pos, q)
    else match TurnAt(data, pos, q)
      case Goes(p, q') => Turns(data, n - 1, p, q')
      case t => t
  }

  /** On its way through the message the loop meets a length that wraps around. */
  predicate Meets(data: seq<byte>, pos: nat, q: SetRequest)
    requires pos <= |data|
    decreases |data| - pos
  {
    var r := ReadTag(data[pos..]);
    && r.Tag?
    && var p := |data| - |r.rest|;
       var wire := if 1 <= r.field <= 4 then 2 else r.wire;
       || Wraps(data, p, wire)
       || (TurnAt(data, pos, q).Goes? && TurnAt(data, pos, q).pos > pos
           && Meets(data, TurnAt(data, pos, q).pos, TurnAt(data, pos, q).q))
  }

  predicate IsEndOf(rest: seq<byte>, s: seq<byte>) { |rest| <= |s| && rest == s[|s| - |rest|..] }

  lemma {:induction false} VarintFromLeaves(s: seq<byte>, v: nat, shift: nat)
    ensures VarintFrom(s, v, shift).Some? ==> IsEndOf(VarintFrom(s, v, shift).value.1, s)
    decreases |s|
  {
    hide Shl;
    if shift < 64 && s != [] {
      VarintFromLeaves(s[1..], v + Shl(s[0] % 128, shift) % U64, shift + 7);
    }
  }

  lemma VarintLeaves(s: seq<byte>)
    ensures Varint(s).Some? ==> IsEndOf(Varint(s).value.1, s)
  {
    VarintFromLeaves(s, 0, 0);
  }

  /** What a tag, a field or a skip leaves is the end of what was there. */
  lemma TagLeaves(s: seq<byte>)
    ensures ReadTag(s).Tag? ==> IsEndOf(ReadTag(s).rest, s)
  {
    hide Varint, IsEndOf;
    VarintLeaves(s);
  }

  lemma FieldLeaves(s: seq<byte>, wire: nat)
    ensures TakeBytes(s).Some? ==> IsEndOf(TakeBytes(s).value.1, s)
    ensures Skip(s, wire).Some? ==> IsEndOf(Skip(s, wire).value, s)
  {
    hide Varint;
    VarintLeaves(s);
  }

  lemma EndOfEnd(rest: seq<byte>, data: seq<byte>, pos: nat)
    requires pos <= |data| && IsEndOf(rest, data[pos..])
    ensures rest == data[|data| - |rest|..] && |data| - |rest| >= pos
  {
  }

  /** A turn that meets no wrapping length goes on to what the decoder goes on to, further along. */
  lemma TurnAgrees(data: seq<byte>, pos: nat, q: SetRequest)
    requires pos <= |data| < MAX_OBJECT && !Meets(data, pos, q)
    ensures match TurnAt(data, pos, q)
            case Undefined => false
            case Returns(r) => DecodeSetRequest(data[pos..], q) == r
            case Goes(p, q') =>
              && p > pos && !Meets(data, p, q')
              && DecodeSetRequest(data[pos..], q) == DecodeSetRequest(data[p..], q')
  {
    hide Varint, TakeField, TakeBytes, Skip, SkipIn64, IsEndOf, Wraps;
    var s := data[pos..];
    var r := ReadTag(s);
    if r.Tag? {
      hide ReadTag;
      var p := |data| - |r.rest|;
      TagLeaves(s);
      EndOfEnd(r.rest, data, pos);
      FieldLeaves(r.rest, r.wire);
      if TakeBytes(r.rest).Some? { EndOfEnd(TakeBytes(r.rest).value.1, data, p); }
      if Skip(r.rest, r.wire).Some? { EndOfEnd(Skip(r.rest, r.wire).value, data, p); }
      SkipAgreesIff(data, p, r.wire);
    }
  }

  /** A loop that meets no wrapping length returns, and returns what the decoder makes of the message. */
  lemma {:induction false} ReturnsWithoutWrap(data: seq<byte>, n: nat, pos: nat, q: SetRequest)
    requires pos <= |data| < MAX_OBJECT && !Meets(data, pos, q) && n > |data| - pos
    ensures Turns(data, n, pos, q) == Returns(DecodeSetRequest(data[pos..], q))
    decreases n
  {
    hide TurnAt, Meets, DecodeSetRequest;
    TurnAgrees(data, pos, q);
    var t := TurnAt(data, pos, q);
    if t.Goes? { ReturnsWithoutWrap(data, n - 1, t.pos, t.q); }
  }

  // ---- standing still -----------------------------------------------------------------------------

  /** An unknown field whose length leads back exactly to its tag. */
  predicate LeadsBack(data: seq<byte>, pos: nat)
    requires pos <= |data|
  {
    var r := ReadTag(data[pos..]);
    && r.Tag? && r.field > 4 && r.wire == 2 && Varint(r.rest).Some?
    && var (n, rest) := Varint(r.rest).value; |data| - |rest| + n == pos + U64
  }

  /** A turn changes nothing exactly at such a field. */
  lemma StandsStillIff(data: seq<byte>, pos: nat, q: SetRequest)
    requires pos <= |data| < MAX_OBJECT
    ensures TurnAt(data, pos, q) == Goes(pos, q) <==> LeadsBack(data, pos)
  {
    hide Varint, TakeField, IsEndOf;
    var s := data[pos..];
    var r := ReadTag(s);
    if r.Tag? {
      hide ReadTag;
      TagLeaves(s);
      EndOfEnd(r.rest, data, pos);
      if Varint(r.rest).Some? {
        VarintIs64(r.rest);
        LengthCheckIn64(|data| - |Varint(r.rest).value.1|, Varint(r.rest).value.0, |data|);
      }
    }
  }

  /** There the loop never returns. */
  lemma {:induction false} NeverReturns(data: seq<byte>, n: nat, pos: nat, q: SetRequest)
    requires pos <= |data| < MAX_OBJECT && LeadsBack(data, pos)
    ensures Turns(data, n, pos, q) == Goes(pos, q)
  {
    hide TurnAt, LeadsBack;
    if n > 0 {
      StandsStillIff(data, pos, q);
      NeverReturns(data, n - 1, pos, q);
    }
  }

  /** One message of that kind: field 15 with a length of 2^64 - 11, eleven bytes in all. */
  function Endless(): seq<byte> { TagBytes(15, 2) + Continuation(U64 - 11) }

  lemma EndlessLeadsBack(n: nat)
    ensures |Endless()| == 11 && Turns(Endless(), n, 0, NO_REQUEST) == Goes(0, NO_REQUEST)
  {
    hide Continuation, ReadTag, Varint, Turns;
    var length := Continuation(U64 - 11);
    TenBytes(U64 - 11);
    ContinuationForms(15 * 8 + 2);
    TagRoundTrip(15, 2, length);
    VarintRoundTrip(U64 - 11, []);
    assert length + [] == length && Endless()[0..] == Endless();
    NeverReturns(Endless(), n, 0, NO_REQUEST);
  }

  lemma TenBytes(n: nat)
    requires 0x8000_0000_0000_0000 <= n < U64
    ensures |Continuation(n)| == 10
  {
    hide Continuation;
    var a := n / 128;
    var b := a / 128;
    var c := b / 128;
    var d := c / 128;
    var e := d / 128;
    var f := e / 128;
    var g := f / 128;
    var h := g / 128;
    ContinuationForms(n);
    ContinuationForms(a);
    ContinuationForms(b);
    ContinuationForms(c);
    ContinuationForms(d);
    ContinuationForms(e);
    ContinuationForms(f);
    ContinuationForms(g);
    ContinuationForms(h);
    ContinuationForms(h / 128);
  }
}
