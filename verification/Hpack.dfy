/**
 * Header blocks. The bytes of a block are a run of representations (section 6 of RFC 7541); this
 * module says what the decoder makes of the bytes, what a run of representations means, and proves
 * the two agree on everything an encoder may send.
 */
module Hpack {
  import opened Base128
  import opened Bytes
  import opened HpackInt
  import opened HpackStatic
  import opened HpackTable
  import Huffman

  // ---- what the decoder does ------------------------------------------------------------

  function Lookup(t: Table, index: nat): Option<Header> {
    if index == 0 then None
    else if index <= STATIC_COUNT then Some(Static(index))
    else if index - STATIC_COUNT - 1 >= |t.entries| then None
    else Some(t.entries[index - STATIC_COUNT - 1])
  }

  function Text(coded: bool, raw: seq<byte>): Option<seq<byte>> {
    if !coded then Some(CString(raw))
    else match Huffman.DecodeBytes(raw)
      case Some(s) => Some(CString(s))
      case None => None
  }

  /** The string literal at `pos` and the position after it. */
  function StringAt(data: seq<byte>, pos: nat): (r: Option<(seq<byte>, nat)>)
    ensures r.Some? ==> pos < r.value.1 <= |data|
  {
    match DecodeInt(data, pos, 7)
    case None => None
    case Some((n, p)) =>
      if p + n > |data| then None
      else match Text(data[pos] >= 128, data[p..p + n])
        case None => None
        case Some(s) => Some((s, p + n))
  }

  /** A name: by index, or spelled out when the index is 0. */
  function NameAt(t: Table, data: seq<byte>, pos: nat, index: nat): (r: Option<(seq<byte>, nat)>)
    requires pos <= |data|
    ensures r.Some? ==> pos <= r.value.1 <= |data|
  {
    if index == 0 then StringAt(data, pos)
    else match Lookup(t, index)
      case None => None
      case Some(h) => Some((h.name, pos))
  }

  /** A literal field whose index has the given prefix. */
  function LiteralAt(t: Table, data: seq<byte>, pos: nat, prefix: nat): (r: Option<(Header, nat)>)
    ensures r.Some? ==> pos < r.value.1 <= |data|
  {
    match DecodeInt(data, pos, prefix)
    case None => None
    case Some((index, p)) =>
      match NameAt(t, data, p, index)
      case None => None
      case Some((name, q)) =>
        match StringAt(data, q)
        case None => None
        case Some((value, next)) => Some((Header(name, value), next))
  }

  /** The fields one representation delivers (at most one) and the table after it. */
  datatype Effect = Effect(fields: seq<Header>, table: Table)

  /** The representation at `pos`: its effect and the position after it. */
  function FieldAt(t: Table, data: seq<byte>, pos: nat): (r: Option<(Effect, nat)>)
    requires pos < |data|
    ensures r.Some? ==> pos < r.value.1 <= |data|
  {
    var b := data[pos];
    if b >= 128 then
      match DecodeInt(data, pos, 7)
      case None => None
      case Some((index, next)) =>
        (match Lookup(t, index)
         case None => None
         case Some(h) => Some((Effect([h], t), next)))
    else if b >= 64 then
      match LiteralAt(t, data, pos, 6)
      case None => None
      case Some((h, next)) => Some((Effect([h], Insert(t, h)), next))
    else if b >= 32 then
      match DecodeInt(data, pos, 5)
      case None => None
      case Some((max, next)) => Some((Effect([], Resize(t, max)), next))
    else
      match LiteralAt(t, data, pos, 4)
      case None => None
      case Some((h, next)) => Some((Effect([h], t), next))
  }

  /** Whether the block was accepted, the fields delivered before that was decided, and the table. */
  datatype Outcome = Outcome(ok: bool, fields: seq<Header>, table: Table)

  /** Given the fields of a block so far, the last one new: whether the consumer goes on. */
  type Consumer = seq<Header> -> bool

  /** One representation's effect on the fields delivered so far, and what comes after it. */
  predicate Refused(fields: seq<Header>, e: Effect, takes: Consumer) { e.fields != [] && !takes(fields + e.fields) }

  function DecodeBlock(t: Table, data: seq<byte>, pos: nat, fields: seq<Header>, takes: Consumer): Outcome
    decreases |data| - pos
  {
    if pos >= |data| then Outcome(true, fields, t)
    else match FieldAt(t, data, pos)
      case None => Outcome(false, fields, t)
      case Some((e, next)) =>
        if Refused(fields, e, takes) then Outcome(false, fields + e.fields, e.table)
        else DecodeBlock(e.table, data, next, fields + e.fields, takes)
  }

  // ---- what an encoder may send -----------------------------------------------------------

  datatype Literal = Plain(s: seq<byte>) | Coded(s: seq<byte>)

  datatype Name = Known(index: nat) | Spelled(text: Literal)

  datatype Rep =
    | Indexed(index: nat)
    | Stored(name: Name, value: Literal)
    | Unstored(name: Name, value: Literal, never: bool)
    | Update(max: nat)

  function Wire(x: Literal): seq<byte> {
    match x
    case Plain(s) => s
    case Coded(s) => Huffman.Encode(Huffman.AsSymbols(s))
  }

  predicate Sendable(x: Literal) {
    NulFree(x.s) && |Wire(x)| < Pow2(63)
  }

  function EncodeLiteral(x: Literal): seq<byte> {
    Patterns();
    EncodeInt(|Wire(x)|, 7, if x.Coded? then 128 else 0) + Wire(x)
  }

  function EncodeName(n: Name, prefix: nat, pattern: nat): seq<byte>
    requires Prefixed(prefix, pattern)
  {
    match n
    case Known(index) => EncodeInt(index, prefix, pattern)
    case Spelled(text) => EncodeInt(0, prefix, pattern) + EncodeLiteral(text)
  }

  predicate NameSendable(n: Name) {
    match n
    case Known(index) => 0 < index < Pow2(63)
    case Spelled(text) => Sendable(text)
  }

  function EncodeRep(r: Rep): (s: seq<byte>)
    ensures |s| >= 1
  {
    Patterns();
    match r
    case Indexed(index) => EncodeInt(index, 7, 128)
    case Stored(name, value) => EncodeName(name, 6, 64) + EncodeLiteral(value)
    case Unstored(name, value, never) => EncodeName(name, 4, if never then 16 else 0) + EncodeLiteral(value)
    case Update(max) => EncodeInt(max, 5, 32)
  }

  predicate RepSendable(r: Rep) {
    match r
    case Indexed(index) => index < Pow2(63)
    case Stored(name, value) => NameSendable(name) && Sendable(value)
    case Unstored(name, value, _) => NameSendable(name) && Sendable(value)
    case Update(max) => max < Pow2(63)
  }

  function EncodeBlock(reps: seq<Rep>): seq<byte> {
    if reps == [] then [] else EncodeRep(reps[0]) + EncodeBlock(reps[1..])
  }

  lemma Patterns()
    ensures Prefixed(7, 0) && Prefixed(7, 128) && Prefixed(6, 64)
    ensures Prefixed(5, 32) && Prefixed(4, 0) && Prefixed(4, 16)
    ensures Mask(7) == 127 && Mask(6) == 63 && Mask(5) == 31 && Mask(4) == 15
  {
    assert Pow2(4) == 16 && Pow2(5) == 32;
    assert Pow2(6) == 64 && Pow2(7) == 128;
  }

  // ---- what it means ------------------------------------------------------------------------

  function NameMeaning(t: Table, n: Name): Option<seq<byte>> {
    match n
    case Known(index) => (match Lookup(t, index) case Some(h) => Some(h.name) case None => None)
    case Spelled(text) => Some(text.s)
  }

  function Meaning(t: Table, r: Rep): Option<Effect> {
    match r
    case Indexed(index) => (match Lookup(t, index) case Some(h) => Some(Effect([h], t)) case None => None)
    case Stored(name, value) =>
      (match NameMeaning(t, name)
       case Some(n) => Some(Effect([Header(n, value.s)], Insert(t, Header(n, value.s))))
       case None => None)
    case Unstored(name, value, _) =>
      (match NameMeaning(t, name)
       case Some(n) => Some(Effect([Header(n, value.s)], t))
       case None => None)
    case Update(max) => Some(Effect([], Resize(t, max)))
  }

  function BlockMeaning(t: Table, reps: seq<Rep>, fields: seq<Header>, takes: Consumer): Outcome
    decreases |reps|
  {
    if reps == [] then Outcome(true, fields, t)
    else match Meaning(t, reps[0])
      case None => Outcome(false, fields, t)
      case Some(e) =>
        if Refused(fields, e, takes) then Outcome(false, fields + e.fields, e.table)
        else BlockMeaning(e.table, reps[1..], fields + e.fields, takes)
  }

  // ---- the two agree ---------------------------------------------------------------------------

  lemma TextOfWire(x: Literal)
    requires NulFree(x.s)
    ensures Text(x.Coded?, Wire(x)) == Some(x.s)
  {
    hide Huffman.DecodeBytes, Huffman.Encode, CString;
    NulFreeCString(x.s);
    Huffman.NulFreeBijection(Huffman.Encode(Huffman.AsSymbols(x.s)), x.s);
  }

  /** The first byte of an integer shows its pattern. */
  lemma FirstByte(data: seq<byte>, pos: nat, v: nat, prefix: nat, pattern: nat)
    requires Prefixed(prefix, pattern) && At(data, pos, EncodeInt(v, prefix, pattern))
    ensures pattern <= data[pos] <= pattern + Mask(prefix)
  {
    hide Pow2, Continuation;
    assert data[pos] == EncodeInt(v, prefix, pattern)[0];
  }

  lemma IntAt(data: seq<byte>, pos: nat, v: nat, prefix: nat, pattern: nat)
    requires Prefixed(prefix, pattern) && At(data, pos, EncodeInt(v, prefix, pattern)) && v < Pow2(63)
    ensures DecodeInt(data, pos, prefix) == Some((v, pos + |EncodeInt(v, prefix, pattern)|))
  {
    hide Pow2, DecodeInt, EncodeInt;
    IntRoundTrip(data, pos, v, prefix, pattern);
  }

  lemma StringRoundTrip(data: seq<byte>, pos: nat, x: Literal)
    requires Sendable(x) && At(data, pos, EncodeLiteral(x))
    ensures StringAt(data, pos) == Some((x.s, pos + |EncodeLiteral(x)|))
  {
    Patterns();
    hide Pow2, DecodeInt, EncodeInt, Text, Wire, Mask, Prefixed;
    var raw := Wire(x);
    var pattern := if x.Coded? then 128 else 0;
    var length := EncodeInt(|raw|, 7, pattern);
    AtSplit(data, pos, length, raw);
    IntAt(data, pos, |raw|, 7, pattern);
    FirstByte(data, pos, |raw|, 7, pattern);
    TextOfWire(x);
  }

  lemma NameRoundTrip(t: Table, data: seq<byte>, pos: nat, n: Name, prefix: nat, pattern: nat)
    requires Prefixed(prefix, pattern) && NameSendable(n) && At(data, pos, EncodeName(n, prefix, pattern))
    ensures pattern <= data[pos] <= pattern + Mask(prefix)
    ensures DecodeInt(data, pos, prefix).Some?
    ensures var (index, p) := DecodeInt(data, pos, prefix).value;
            NameAt(t, data, p, index) ==
            match NameMeaning(t, n)
            case Some(name) => Some((name, pos + |EncodeName(n, prefix, pattern)|))
            case None => None
  {
    hide Pow2, DecodeInt, EncodeInt, Lookup, StringAt, EncodeLiteral, Sendable, Mask, Prefixed;
    match n
    case Known(index) =>
      IntAt(data, pos, index, prefix, pattern);
      FirstByte(data, pos, index, prefix, pattern);
    case Spelled(text) =>
      AtSplit(data, pos, EncodeInt(0, prefix, pattern), EncodeLiteral(text));
      IntAt(data, pos, 0, prefix, pattern);
      FirstByte(data, pos, 0, prefix, pattern);
      StringRoundTrip(data, pos + |EncodeInt(0, prefix, pattern)|, text);
  }

  lemma LiteralRoundTrip(t: Table, data: seq<byte>, pos: nat, n: Name, value: Literal, prefix: nat, pattern: nat)
    requires Prefixed(prefix, pattern) && NameSendable(n) && Sendable(value)
    requires At(data, pos, EncodeName(n, prefix, pattern) + EncodeLiteral(value))
    ensures pattern <= data[pos] <= pattern + Mask(prefix)
    ensures LiteralAt(t, data, pos, prefix) ==
            match NameMeaning(t, n)
            case Some(name) =>
              Some((Header(name, value.s), pos + |EncodeName(n, prefix, pattern) + EncodeLiteral(value)|))
            case None => None
  {
    hide Pow2, DecodeInt, EncodeInt, NameAt, NameMeaning, NameSendable, StringAt;
    hide EncodeLiteral, EncodeName, Sendable, Mask, Prefixed;
    var name := EncodeName(n, prefix, pattern);
    AtSplit(data, pos, name, EncodeLiteral(value));
    NameRoundTrip(t, data, pos, n, prefix, pattern);
    StringRoundTrip(data, pos + |name|, value);
  }

  lemma RepRoundTrip(t: Table, data: seq<byte>, pos: nat, r: Rep)
    requires RepSendable(r) && At(data, pos, EncodeRep(r))
    ensures FieldAt(t, data, pos) ==
            match Meaning(t, r) case Some(e) => Some((e, pos + |EncodeRep(r)|)) case None => None
  {
    Patterns();
    hide Pow2, DecodeInt, EncodeInt, LiteralAt, Lookup, NameMeaning, NameSendable, EncodeLiteral, EncodeName,
      Sendable, Mask, Prefixed, Insert, Resize;
    match r
    case Indexed(index) =>
      IntAt(data, pos, index, 7, 128);
      FirstByte(data, pos, index, 7, 128);
    case Stored(name, value) =>
      LiteralRoundTrip(t, data, pos, name, value, 6, 64);
    case Unstored(name, value, never) =>
      LiteralRoundTrip(t, data, pos, name, value, 4, if never then 16 else 0);
    case Update(max) =>
      IntAt(data, pos, max, 5, 32);
      FirstByte(data, pos, max, 5, 32);
  }

  lemma {:induction false} BlockRoundTripFrom(
    t: Table, data: seq<byte>, pos: nat, reps: seq<Rep>, fields: seq<Header>, takes: Consumer)
    requires forall r :: r in reps ==> RepSendable(r)
    requires pos <= |data| && data[pos..] == EncodeBlock(reps)
    ensures DecodeBlock(t, data, pos, fields, takes) == BlockMeaning(t, reps, fields, takes)
    decreases |reps|
  {
    hide FieldAt, Meaning, EncodeRep, RepSendable, Refused;
    if reps != [] {
      var code := EncodeRep(reps[0]);
      assert RepSendable(reps[0]);
      assert data[pos..pos + |code|] == data[pos..][..|code|] == code;
      RepRoundTrip(t, data, pos, reps[0]);
      match Meaning(t, reps[0])
      case Some(e) =>
        assert data[pos + |code|..] == data[pos..][|code|..] == EncodeBlock(reps[1..]);
        BlockRoundTripFrom(e.table, data, pos + |code|, reps[1..], fields + e.fields, takes);
      case None =>
    }
  }

  /**
   * The decoder makes of every block an encoder may send, in whatever mix of indexed, stored and
   * unstored fields, Huffman-coded or not, exactly what the block means; a bad index, or a consumer
   * that has had enough, stops both at the same field.
   */
  lemma BlockRoundTrip(t: Table, reps: seq<Rep>, takes: Consumer)
    requires forall r :: r in reps ==> RepSendable(r)
    ensures DecodeBlock(t, EncodeBlock(reps), 0, [], takes) == BlockMeaning(t, reps, [], takes)
  {
    hide DecodeBlock, EncodeBlock, BlockMeaning, RepSendable;
    var data := EncodeBlock(reps);
    assert data[0..] == data;
    BlockRoundTripFrom(t, data, 0, reps, [], takes);
  }

  // ---- the blocks this program sends ----------------------------------------------------------

  /** A literal without indexing, name spelled out, nothing Huffman-coded. */
  function Unindexed(h: Header): Rep { Unstored(Spelled(Plain(h.name)), Plain(h.value), false) }

  function AsReps(hs: seq<Header>): seq<Rep> {
    if hs == [] then [] else [Unindexed(hs[0])] + AsReps(hs[1..])
  }

  predicate Printable(h: Header) { Sendable(Plain(h.name)) && Sendable(Plain(h.value)) }

  /** The consumer goes on through all of `hs`. */
  predicate TakesAll(takes: Consumer, fields: seq<Header>, hs: seq<Header>) {
    forall i :: 0 < i <= |hs| ==> takes(fields + hs[..i])
  }

  lemma {:induction false} UnindexedSendable(hs: seq<Header>)
    requires forall h :: h in hs ==> Printable(h)
    ensures forall r :: r in AsReps(hs) ==> RepSendable(r)
  {
    hide Sendable;
    if hs != [] {
      assert Printable(hs[0]);
      UnindexedSendable(hs[1..]);
    }
  }

  lemma TakesFirst(takes: Consumer, fields: seq<Header>, hs: seq<Header>)
    requires hs != [] && TakesAll(takes, fields, hs)
    ensures takes(fields + [hs[0]]) && TakesAll(takes, fields + [hs[0]], hs[1..])
  {
    var h, rest := hs[0], hs[1..];
    assert hs[..1] == [h];
    forall i | 0 < i <= |rest| ensures takes(fields + [h] + rest[..i]) {
      assert fields + [h] + rest[..i] == fields + hs[..i + 1];
    }
  }

  lemma {:induction false} UnindexedMeaning(t: Table, hs: seq<Header>, fields: seq<Header>, takes: Consumer)
    requires TakesAll(takes, fields, hs)
    ensures BlockMeaning(t, AsReps(hs), fields, takes) == Outcome(true, fields + hs, t)
    decreases |hs|
  {
    hide TakesAll;
    if hs == [] {
      assert fields + hs == fields;
    } else {
      TakesFirst(takes, fields, hs);
      UnindexedMeaning(t, hs[1..], fields + [hs[0]], takes);
      assert AsReps(hs)[1..] == AsReps(hs[1..]);
      assert fields + [hs[0]] + hs[1..] == fields + hs;
    }
  }

  /** Header lists come back as sent, and the peer's table is left alone. */
  lemma HeadersRoundTrip(t: Table, hs: seq<Header>, takes: Consumer)
    requires (forall h :: h in hs ==> Printable(h)) && TakesAll(takes, [], hs)
    ensures DecodeBlock(t, EncodeBlock(AsReps(hs)), 0, [], takes) == Outcome(true, hs, t)
  {
    hide DecodeBlock, EncodeBlock, BlockMeaning, AsReps, RepSendable, Printable, TakesAll;
    UnindexedSendable(hs);
    UnindexedMeaning(t, hs, [], takes);
    assert [] + hs == hs;
    BlockRoundTrip(t, AsReps(hs), takes);
  }

  // ---- whole connections -----------------------------------------------------------------------

  /** The table after blocks decoded one after another; the first bad block ends the connection. */
  function DecodeBlocks(t: Table, blocks: seq<seq<byte>>, takes: Consumer): Table
    decreases |blocks|
  {
    if blocks == [] then t
    else
      var o := DecodeBlock(t, blocks[0], 0, [], takes);
      if !o.ok then o.table else DecodeBlocks(o.table, blocks[1..], takes)
  }

  lemma FieldStaysBounded(t: Table, data: seq<byte>, pos: nat)
    requires Bounded(t) && pos < |data|
    ensures FieldAt(t, data, pos).Some? ==> Bounded(FieldAt(t, data, pos).value.0.table)
  {
    hide DecodeInt, LiteralAt, Lookup, Bounded, Insert;
    match FieldAt(t, data, pos)
    case Some((e, next)) =>
      if 64 <= data[pos] < 128 {
        StepStaysBounded(t, Add(e.fields[0]));
      } else if 32 <= data[pos] < 64 {
        StepStaysBounded(t, Limit(e.table.max));
      }
    case None =>
  }

  lemma {:induction false} BlockStaysBounded(t: Table, data: seq<byte>, pos: nat, fields: seq<Header>, takes: Consumer)
    requires Bounded(t)
    ensures Bounded(DecodeBlock(t, data, pos, fields, takes).table)
    decreases |data| - pos
  {
    hide FieldAt, Bounded;
    if pos < |data| {
      FieldStaysBounded(t, data, pos);
      match FieldAt(t, data, pos)
      case Some((e, next)) => BlockStaysBounded(e.table, data, next, fields + e.fields, takes);
      case None =>
    }
  }

  /** No bytes whatever take the table past its limit or its array. */
  lemma {:induction false} ConnectionStaysBounded(t: Table, blocks: seq<seq<byte>>, takes: Consumer)
    requires Bounded(t)
    ensures Bounded(DecodeBlocks(t, blocks, takes))
    decreases |blocks|
  {
    hide DecodeBlock, Bounded;
    if blocks != [] {
      BlockStaysBounded(t, blocks[0], 0, [], takes);
      var o := DecodeBlock(t, blocks[0], 0, [], takes);
      if o.ok {
        ConnectionStaysBounded(o.table, blocks[1..], takes);
      }
    }
  }
}
