/** What the decoders make of messages that break off, end early or carry text too long for its buffer. */
module GnmiTorn {
  import opened Base128
  import opened Bytes
  import opened Gnmi
  import opened GnmiTheorems
  import opened GnmiUnknown
  import opened Protobuf

  // ---- a field that breaks off ----------------------------------------------------------------

  lemma {:induction false} TornVarintFrom(n: nat, k: nat, v: nat, shift: nat)
    requires k < |Continuation(n)|
    ensures VarintFrom(Continuation(n)[..k], v, shift) == None
    decreases k
  {
    hide Shl;
    var s := Continuation(n)[..k];
    if k > 0 && shift < 64 {
      assert n >= 128;
      assert s[0] == n % 128 + 128 && s[1..] == Continuation(n / 128)[..k - 1];
      TornVarintFrom(n / 128, k - 1, v + Shl(s[0] % 128, shift) % U64, shift + 7);
    }
  }

  lemma TornBlock(b: seq<byte>, k: nat)
    requires |b| < U64 && k < |Continuation(|b|) + b|
    ensures TakeBytes((Continuation(|b|) + b)[..k]) == None
  {
    hide VarintFrom, Continuation;
    var n := |Continuation(|b|)|;
    if k < n {
      assert (Continuation(|b|) + b)[..k] == Continuation(|b|)[..k];
      TornVarintFrom(|b|, k, 0, 0);
    } else {
      assert (Continuation(|b|) + b)[..k] == Continuation(|b|) + b[..k - n];
      VarintRoundTrip(|b|, b[..k - n]);
    }
  }

  /** Cut inside its tag, a field has no tag; cut behind it, its contents cannot be read or skipped. */
  lemma PieceTorn(x: Piece, k: nat)
    requires Whole(x) && 0 < k < |Laid(x)|
    ensures var s, n := Laid(x)[..k], |TagBytes(x.field, Wire(x))|;
            var r := ReadTag(s);
            if k < n then r == Broken
            else
              && r.Tag? && r.field == x.field && r.wire == Wire(x) && Skip(r.rest, r.wire) == None
              && (x.Block? ==> TakeBytes(r.rest) == None) && (x.Num? ==> Varint(r.rest) == None)
  {
    hide ReadTag, TakeBytes, TagBytes, VarintFrom, Continuation;
    var tag, n := TagBytes(x.field, Wire(x)), |TagBytes(x.field, Wire(x))|;
    if k < n {
      assert Laid(x)[..k] == tag[..k];
      TornTag(x.field, Wire(x), k);
    } else {
      var rest := Contents(x)[..k - n];
      assert Laid(x)[..k] == tag + rest;
      TagRoundTrip(x.field, Wire(x), rest);
      match x
      case Num(_, v) => TornVarintFrom(v, k - n, 0, 0);
      case Eight(_, b) =>
      case Block(_, b) => TornBlock(b, k - n);
      case Four(_, b) =>
    }
  }

  lemma TornTag(field: nat, wire: nat, k: nat)
    requires 0 < k < |TagBytes(field, wire)|
    ensures ReadTag(TagBytes(field, wire)[..k]) == Broken
  {
    hide Continuation, VarintFrom;
    TornVarintFrom(field * 8 + wire, k, 0, 0);
    assert TagBytes(field, wire)[..k] != [];
  }

  /** Inside the tag of `x`, `k` bytes in. */
  predicate InTag(x: Piece, k: nat) { k < |TagBytes(x.field, Wire(x))| }

  // ---- what comes behind the fields decides ------------------------------------------------------

  lemma {:induction false} PathRefusesBehind(xs: seq<Piece>, rest: seq<byte>, p: Path)
    requires Sound(xs, PathField) && forall q :: DecodePath(rest, q) == None
    ensures DecodePath(Message(xs) + rest, p) == None
    decreases |xs|
  {
    hide ReadTag, TakeBytes, Skip, Laid, Message, Clip, DecodeElem;
    if xs == [] {
      NoMessage(rest);
    } else {
      var x, tail := xs[0], xs[1..];
      MessageForms(xs, rest);
      PieceRead(x, Message(tail) + rest);
      if !PathField(x) {
        PathRefusesBehind(tail, rest, p);
      } else if x.field == 2 {
        PathRefusesBehind(tail, rest, p.(origin := Clip(x.b, MAX_ORIGIN)));
      } else if |p.elems| < MAX_ELEMS && DecodeElem(x.b, NO_ELEM).Some? {
        PathRefusesBehind(tail, rest, p.(elems := p.elems + [DecodeElem(x.b, NO_ELEM).value]));
      }
    }
  }

  lemma NoMessage(rest: seq<byte>)
    ensures Message([]) + rest == rest
  {
  }

  lemma {:induction false} UpdateRefusesBehind(xs: seq<Piece>, rest: seq<byte>, u: Update)
    requires Sound(xs, UpdateField) && forall v :: DecodeUpdate(rest, v) == None
    ensures DecodeUpdate(Message(xs) + rest, u) == None
    decreases |xs|
  {
    hide ReadTag, TakeBytes, Skip, Laid, Message, DecodePath, DecodeValue;
    if xs == [] {
      NoMessage(rest);
    } else {
      var x, tail := xs[0], xs[1..];
      MessageForms(xs, rest);
      PieceRead(x, Message(tail) + rest);
      if !UpdateField(x) {
        UpdateRefusesBehind(tail, rest, u);
      } else if x.field == 1 {
        if DecodePath(x.b, NO_PATH).Some? {
          UpdateRefusesBehind(tail, rest, u.(path := DecodePath(x.b, NO_PATH).value));
        }
      } else if DecodeValue(x.b, Unset).Some? {
        UpdateRefusesBehind(tail, rest, u.(val := DecodeValue(x.b, Unset).value));
      }
    }
  }

  lemma {:induction false} RequestRefusesBehind(xs: seq<Piece>, rest: seq<byte>, q: SetRequest)
    requires Sound(xs, RequestField) && forall r :: DecodeSetRequest(rest, r) == None
    ensures DecodeSetRequest(Message(xs) + rest, q) == None
    decreases |xs|
  {
    hide ReadTag, TakeBytes, Skip, Laid, Message, TakeField;
    if xs == [] {
      NoMessage(rest);
    } else {
      var x, tail := xs[0], xs[1..];
      MessageForms(xs, rest);
      PieceRead(x, Message(tail) + rest);
      if !RequestField(x) {
        RequestRefusesBehind(tail, rest, q);
      } else if TakeField(x.field, x.b, q).Some? {
        RequestRefusesBehind(tail, rest, TakeField(x.field, x.b, q).value);
      }
    }
  }

  /** For the decoders that may stop where they are, what comes behind is refused or is as good as nothing. */
  lemma {:induction false} ElemBehind(xs: seq<Piece>, rest: seq<byte>, e: Elem, refused: bool)
    requires Sound(xs, ElemField) && forall d :: DecodeElem(rest, d) == if refused then None else Some(d)
    ensures DecodeElem(Message(xs) + rest, e) == if refused then None else DecodeElem(Message(xs), e)
    decreases |xs|
  {
    hide ReadTag, TakeBytes, Skip, Laid, Message, Clip, DecodeKey;
    if xs == [] {
      NoMessage(rest);
      NoMessage([]);
      NoTag();
    } else {
      var x, tail := xs[0], xs[1..];
      MessageForms(xs, rest);
      FrontPiece(xs);
      PieceRead(x, Message(tail) + rest);
      PieceRead(x, Message(tail));
      if !ElemField(x) {
        ElemBehind(tail, rest, e, refused);
      } else if x.field == 1 {
        ElemBehind(tail, rest, e.(name := Clip(x.b, MAX_NAME)), refused);
      } else {
        match DecodeKey(x.b, [], [])
        case None =>
        case Some((n, v)) => ElemBehind(tail, rest, e.(keyName := n, keyValue := v, hasKey := n != []), refused);
      }
    }
  }

  lemma {:induction false} KeyBehind(xs: seq<Piece>, rest: seq<byte>, name: seq<byte>, value: seq<byte>, refused: bool)
    requires Sound(xs, KeyField) && forall n, v :: DecodeKey(rest, n, v) == if refused then None else Some((n, v))
    ensures DecodeKey(Message(xs) + rest, name, value) == if refused then None else DecodeKey(Message(xs), name, value)
    decreases |xs|
  {
    hide ReadTag, TakeBytes, Skip, Laid, Message, Clip;
    if xs == [] {
      NoMessage(rest);
      NoMessage([]);
      NoTag();
    } else {
      var x, tail := xs[0], xs[1..];
      MessageForms(xs, rest);
      FrontPiece(xs);
      PieceRead(x, Message(tail) + rest);
      PieceRead(x, Message(tail));
      if !KeyField(x) {
        KeyBehind(tail, rest, name, value, refused);
      } else if x.field == 1 {
        KeyBehind(tail, rest, Clip(x.b, MAX_NAME), value, refused);
      } else {
        KeyBehind(tail, rest, name, Clip(x.b, MAX_NAME), refused);
      }
    }
  }

  lemma {:induction false} ValueBehind(xs: seq<Piece>, rest: seq<byte>, val: Value, refused: bool)
    requires SoundValue(xs)
    requires forall v :: DecodeValue(rest, v) == if refused then None else DecodeValue([], v)
    ensures DecodeValue(Message(xs) + rest, val) == if refused then None else DecodeValue(Message(xs), val)
    decreases |xs|
  {
    hide ReadTag, TakeBytes, Varint, Skip, Laid, Message, Clip, Scalar;
    if xs == [] {
      NoMessage(rest);
      NoMessage([]);
    } else {
      var x, tail := xs[0], xs[1..];
      MessageForms(xs, rest);
      FrontPiece(xs);
      PieceRead(x, Message(tail) + rest);
      PieceRead(x, Message(tail));
      if TextField(x) {
        ValueBehind(tail, rest, Text(x.field, Clip(x.b, MAX_VAL)), refused);
      } else if ScalarField(x) {
        ValueBehind(tail, rest, Scalar(x.field, x.v), refused);
      } else {
        ValueBehind(tail, rest, val, refused);
      }
    }
  }

  // ---- messages cut inside a field -----------------------------------------------------------------

  /** A path, an update or a request cut inside any of its fields is refused. */
  lemma TornIsRefused(xs: seq<Piece>, x: Piece, k: nat, p: Path, u: Update, q: SetRequest)
    requires Whole(x) && 0 < k < |Laid(x)|
    ensures Sound(xs + [x], PathField) ==> DecodePath(Message(xs) + Laid(x)[..k], p) == None
    ensures Sound(xs + [x], UpdateField) ==> DecodeUpdate(Message(xs) + Laid(x)[..k], u) == None
    ensures Sound(xs + [x], RequestField) ==> DecodeSetRequest(Message(xs) + Laid(x)[..k], q) == None
  {
    hide ReadTag, TakeBytes, Skip, Laid, Message, DecodeElem, DecodeValue, TakeField, TagBytes;
    var rest := Laid(x)[..k];
    PieceTorn(x, k);
    assert (xs + [x])[|xs|] == x;
    if Sound(xs + [x], PathField) {
      FrontIsSound(xs, x, PathField);
      PathRefusesBehind(xs, rest, p);
    }
    if Sound(xs + [x], UpdateField) {
      FrontIsSound(xs, x, UpdateField);
      UpdateRefusesBehind(xs, rest, u);
    }
    if Sound(xs + [x], RequestField) {
      FrontIsSound(xs, x, RequestField);
      RequestRefusesBehind(xs, rest, q);
    }
  }

  lemma FrontIsSound(xs: seq<Piece>, x: Piece, knows: Piece -> bool)
    requires Sound(xs + [x], knows)
    ensures Sound(xs, knows)
  {
    assert forall i :: 0 <= i < |xs| ==> xs[i] == (xs + [x])[i];
  }

  /** An element is kept as far as it came, unless it is cut inside the contents of a field it knows. */
  lemma TornElem(xs: seq<Piece>, x: Piece, k: nat, e: Elem)
    requires Sound(xs + [x], ElemField) && Whole(x) && 0 < k < |Laid(x)|
    ensures DecodeElem(Message(xs) + Laid(x)[..k], e) ==
            if InTag(x, k) || !ElemField(x) then DecodeElem(Message(xs), e) else None
  {
    hide ReadTag, TakeBytes, Skip, Laid, Message, TagBytes, DecodeKey, Clip;
    PieceTorn(x, k);
    assert (xs + [x])[|xs|] == x;
    FrontIsSound(xs, x, ElemField);
    ElemBehind(xs, Laid(x)[..k], e, !InTag(x, k) && ElemField(x));
  }

  /** A key and a value are kept as far as they came only if they are cut inside a tag. */
  lemma TornKey(xs: seq<Piece>, x: Piece, k: nat, name: seq<byte>, value: seq<byte>)
    requires Sound(xs + [x], KeyField) && Whole(x) && 0 < k < |Laid(x)|
    ensures DecodeKey(Message(xs) + Laid(x)[..k], name, value) ==
            if InTag(x, k) then DecodeKey(Message(xs), name, value) else None
  {
    hide ReadTag, TakeBytes, Skip, Laid, Message, TagBytes, Clip;
    PieceTorn(x, k);
    assert (xs + [x])[|xs|] == x;
    FrontIsSound(xs, x, KeyField);
    KeyBehind(xs, Laid(x)[..k], name, value, !InTag(x, k));
  }

  lemma TornValue(xs: seq<Piece>, x: Piece, k: nat, val: Value)
    requires SoundValue(xs + [x]) && Whole(x) && 0 < k < |Laid(x)|
    ensures DecodeValue(Message(xs) + Laid(x)[..k], val) ==
            if InTag(x, k) then DecodeValue(Message(xs), val) else None
  {
    hide ReadTag, TakeBytes, Varint, Skip, Laid, Message, TagBytes, Clip, Scalar;
    PieceTorn(x, k);
    NoTag();
    assert (xs + [x])[|xs|] == x;
    assert SoundValue(xs) by {
      assert forall i :: 0 <= i < |xs| ==> xs[i] == (xs + [x])[i];
    }
    ValueBehind(xs, Laid(x)[..k], val, !InTag(x, k));
  }

  // ---- texts too long for their buffers ----------------------------------------------------------------

  /** `r` is what a C buffer of `size` keeps of `d`: up to its end, the first NUL or the last byte but one. */
  predicate KeptOf(r: seq<byte>, d: seq<byte>, size: nat) {
    && r <= d && |r| < size && 0 !in r
    && (|r| == |d| || |r| == size - 1 || d[|r|] == 0)
  }

  lemma ClipKeeps(d: seq<byte>, size: nat)
    requires size > 0
    ensures KeptOf(Clip(d, size), d, size)
  {
    hide CString;
    CStringIsUpToNul(if |d| < size - 1 then d else d[..size - 1]);
  }

  /** What an element, a path and a value keep of a text of any length. */
  lemma LongTexts(b: seq<byte>, kind: nat)
    requires |b| < U64 && TextKind(kind)
    ensures var r := DecodeElem(Message([Block(1, b)]), NO_ELEM);
            r.Some? && r.value == Elem(r.value.name, false, [], []) && KeptOf(r.value.name, b, 64)
    ensures var r := DecodePath(Message([Block(2, b)]), NO_PATH);
            r.Some? && r.value.elems == [] && KeptOf(r.value.origin, b, 32)
    ensures var r := DecodeValue(Message([Block(kind, b)]), Unset);
            r.Some? && r.value.Text? && r.value.kind == kind && KeptOf(r.value.s, b, 256)
    ensures var r := DecodeKey(Message([Block(1, b), Block(2, b)]), [], []);
            r.Some? && KeptOf(r.value.0, b, 64) && KeptOf(r.value.1, b, 64)
  {
    hide ReadTag, TakeBytes, Varint, Skip, Laid, Message, Clip, KeptOf, CString;
    ClipKeeps(b, 64);
    ClipKeeps(b, 32);
    ClipKeeps(b, 256);
    NoTag();
    OnePiece(Block(1, b));
    OnePiece(Block(2, b));
    OnePiece(Block(kind, b));
    TwoPieces(Block(1, b), Block(2, b));
    PieceRead(Block(1, b), []);
    PieceRead(Block(2, b), []);
    PieceRead(Block(kind, b), []);
    PieceRead(Block(1, b), Laid(Block(2, b)) + []);
    assert DecodeKey(Message([Block(1, b), Block(2, b)]), [], []) ==
           DecodeKey(Laid(Block(2, b)) + [], Clip(b, 64), []);
    assert DecodeKey(Laid(Block(2, b)) + [], Clip(b, 64), []) == DecodeKey([], Clip(b, 64), Clip(b, 64));
  }

  // ---- a field number of zero ---------------------------------------------------------------------------

  /** A zero byte where a tag should be ends a message; what follows is not read. */
  lemma ZeroEndsMessage(xs: seq<Piece>, junk: seq<byte>, e: Elem, val: Value)
    ensures Sound(xs, ElemField) ==> DecodeElem(Message(xs) + ([0] + junk), e) == DecodeElem(Message(xs), e)
    ensures SoundValue(xs) ==> DecodeValue(Message(xs) + ([0] + junk), val) == DecodeValue(Message(xs), val)
    ensures DecodePath([0] + junk, NO_PATH) == Some(NO_PATH) && DecodeUpdate([0] + junk, NO_UPDATE) == Some(NO_UPDATE)
    ensures DecodeSetRequest([0] + junk, NO_REQUEST) == Some(NO_REQUEST)
  {
    hide Message, Skip, TakeBytes, ReadTag;
    ZeroIsStop(junk);
    NoTag();
    if Sound(xs, ElemField) { ElemBehind(xs, [0] + junk, e, false); }
    if SoundValue(xs) { ValueBehind(xs, [0] + junk, val, false); }
  }

  lemma ZeroIsStop(junk: seq<byte>)
    ensures ReadTag([0] + junk) == Stop
  {
    hide VarintFrom, Continuation;
    assert Continuation(0) == [0] by { ContinuationForms(0); }
    VarintRoundTrip(0, junk);
  }
}
