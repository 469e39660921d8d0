/** Fields a decoder does not know are passed over wherever they stand, at every depth of a message. */
module GnmiUnknown {
  import opened Base128
  import opened Bytes
  import opened Gnmi
  import opened GnmiTheorems
  import opened Protobuf

  // ---- messages as fields ------------------------------------------------------------------------

  /** A field of any number in each of the four wire types: 0, 1, 2 and 5. */
  datatype Piece =
    | Num(field: nat, v: nat)
    | Eight(field: nat, b: seq<byte>)
    | Block(field: nat, b: seq<byte>)
    | Four(field: nat, b: seq<byte>)

  predicate Whole(x: Piece) {
    && 0 < x.field < 0x1_0000_0000
    && match x
       case Num(_, v) => v < U64
       case Eight(_, b) => |b| == 8
       case Block(_, b) => |b| < U64
       case Four(_, b) => |b| == 4
  }

  function Wire(x: Piece): nat {
    match x
    case Num(_, _) => 0
    case Eight(_, _) => 1
    case Block(_, _) => 2
    case Four(_, _) => 5
  }

  function Contents(x: Piece): seq<byte> {
    match x
    case Num(_, v) => Continuation(v)
    case Eight(_, b) => b
    case Block(_, b) => Continuation(|b|) + b
    case Four(_, b) => b
  }

  function Laid(x: Piece): seq<byte> { TagBytes(x.field, Wire(x)) + Contents(x) }

  function Message(xs: seq<Piece>): seq<byte> { if xs == [] then [] else Laid(xs[0]) + Message(xs[1..]) }

  /** The fields a decoder knows, in their order. */
  function Kept(xs: seq<Piece>, knows: Piece -> bool): seq<Piece> {
    if xs == [] then [] else (if knows(xs[0]) then [xs[0]] else []) + Kept(xs[1..], knows)
  }

  /** A field in front of anything: its tag, what it holds, and where a reader that skips it goes on. */
  lemma PieceRead(x: Piece, s: seq<byte>)
    requires Whole(x)
    ensures var r := ReadTag(Laid(x) + s);
            && r.Tag? && r.field == x.field && r.wire == Wire(x)
            && Skip(r.rest, r.wire) == Some(s)
            && (x.Block? ==> TakeBytes(r.rest) == Some((x.b, s)))
            && (x.Num? ==> Varint(r.rest) == Some((x.v, s)))
  {
    hide ReadTag, TakeBytes, Varint, TagBytes, Continuation;
    var rest := Contents(x) + s;
    assert Laid(x) + s == TagBytes(x.field, Wire(x)) + rest;
    TagRoundTrip(x.field, Wire(x), rest);
    match x
    case Num(_, v) => VarintRoundTrip(v, s);
    case Eight(_, b) => assert rest[8..] == s;
    case Block(_, b) => BytesRoundTrip(b, s);
    case Four(_, b) => assert rest[4..] == s;
  }

  lemma MessageForms(xs: seq<Piece>, rest: seq<byte>)
    requires xs != []
    ensures Message(xs) + rest == Laid(xs[0]) + (Message(xs[1..]) + rest)
  {
    hide Laid;
  }

  lemma KeptForms(xs: seq<Piece>, knows: Piece -> bool, rest: seq<byte>)
    requires xs != []
    ensures var tail := Kept(xs[1..], knows);
            Message(Kept(xs, knows)) + rest ==
            if knows(xs[0]) then Laid(xs[0]) + (Message(tail) + rest) else Message(tail) + rest
  {
    hide Laid;
    var tail := Kept(xs[1..], knows);
    if knows(xs[0]) {
      assert ([xs[0]] + tail)[1..] == tail;
    } else {
      assert [] + tail == tail;
    }
  }

  // ---- which fields each decoder knows --------------------------------------------------------------

  predicate KeyField(x: Piece) { x.field == 1 || x.field == 2 }
  predicate PathField(x: Piece) { x.field == 2 || x.field == 3 }
  predicate UpdateField(x: Piece) { x.field == 1 || x.field == 3 }
  predicate RequestField(x: Piece) { 1 <= x.field <= 4 }
  predicate TextField(x: Piece) { x.field == 1 || 10 <= x.field <= 12 }
  predicate ScalarField(x: Piece) { 2 <= x.field <= 4 }
  predicate ElemField(x: Piece) { x.Block? && (x.field == 1 || x.field == 2) }
  predicate ValField(x: Piece) { TextField(x) || ScalarField(x) }

  /** Fields a decoder knows come in the wire type it takes them for. */
  predicate Sound(xs: seq<Piece>, knows: Piece -> bool) {
    forall i :: 0 <= i < |xs| ==> Whole(xs[i]) && (knows(xs[i]) ==> xs[i].Block?)
  }
  predicate SoundValue(xs: seq<Piece>) {
    forall i :: 0 <= i < |xs| ==>
      Whole(xs[i]) && (TextField(xs[i]) ==> xs[i].Block?) && (ScalarField(xs[i]) ==> xs[i].Num?)
  }

  // ---- every decoder passes over the fields it does not know -------------------------------------------

  lemma {:induction false} KeyIgnores(xs: seq<Piece>, rest: seq<byte>, name: seq<byte>, value: seq<byte>)
    requires Sound(xs, KeyField)
    ensures DecodeKey(Message(xs) + rest, name, value) == DecodeKey(Message(Kept(xs, KeyField)) + rest, name, value)
    decreases |xs|
  {
    hide ReadTag, TakeBytes, Skip, Laid, Message, Kept, Clip;
    if xs == [] {
      NothingKept(KeyField);
    } else {
      var x, tail := xs[0], xs[1..];
      var s, t := Message(tail) + rest, Message(Kept(tail, KeyField)) + rest;
      MessageForms(xs, rest);
      KeptForms(xs, KeyField, rest);
      PieceRead(x, s);
      PieceRead(x, t);
      if x.field == 1 {
        KeyIgnores(tail, rest, Clip(x.b, MAX_NAME), value);
      } else if x.field == 2 {
        KeyIgnores(tail, rest, name, Clip(x.b, MAX_NAME));
      } else {
        KeyIgnores(tail, rest, name, value);
      }
    }
  }

  lemma NothingKept(knows: Piece -> bool)
    ensures Kept([], knows) == []
  {
  }

  /** For an element, a field 1 or 2 of another wire type is a field it does not know. */
  lemma {:induction false} ElemIgnores(xs: seq<Piece>, rest: seq<byte>, e: Elem)
    requires Sound(xs, ElemField)
    ensures DecodeElem(Message(xs) + rest, e) == DecodeElem(Message(Kept(xs, ElemField)) + rest, e)
    decreases |xs|
  {
    hide ReadTag, TakeBytes, Skip, Laid, Message, Kept, Clip, DecodeKey;
    if xs == [] {
      NothingKept(ElemField);
    } else {
      var x, tail := xs[0], xs[1..];
      var s, t := Message(tail) + rest, Message(Kept(tail, ElemField)) + rest;
      MessageForms(xs, rest);
      KeptForms(xs, ElemField, rest);
      PieceRead(x, s);
      PieceRead(x, t);
      if !ElemField(x) {
        ElemIgnores(tail, rest, e);
      } else if x.field == 1 {
        ElemIgnores(tail, rest, e.(name := Clip(x.b, MAX_NAME)));
      } else {
        match DecodeKey(x.b, [], [])
        case None =>
        case Some((n, v)) => ElemIgnores(tail, rest, e.(keyName := n, keyValue := v, hasKey := n != []));
      }
    }
  }

  lemma {:induction false} PathIgnores(xs: seq<Piece>, rest: seq<byte>, p: Path)
    requires Sound(xs, PathField)
    ensures DecodePath(Message(xs) + rest, p) == DecodePath(Message(Kept(xs, PathField)) + rest, p)
    decreases |xs|
  {
    hide ReadTag, TakeBytes, Skip, Laid, Message, Kept, Clip, DecodeElem;
    if xs == [] {
      NothingKept(PathField);
    } else {
      var x, tail := xs[0], xs[1..];
      var s, t := Message(tail) + rest, Message(Kept(tail, PathField)) + rest;
      MessageForms(xs, rest);
      KeptForms(xs, PathField, rest);
      PieceRead(x, s);
      PieceRead(x, t);
      if !PathField(x) {
        PathIgnores(tail, rest, p);
      } else if x.field == 2 {
        PathIgnores(tail, rest, p.(origin := Clip(x.b, MAX_ORIGIN)));
      } else if |p.elems| < MAX_ELEMS {
        match DecodeElem(x.b, NO_ELEM)
        case None =>
        case Some(e) => PathIgnores(tail, rest, p.(elems := p.elems + [e]));
      }
    }
  }

  lemma {:induction false} ValueIgnores(xs: seq<Piece>, rest: seq<byte>, val: Value)
    requires SoundValue(xs)
    ensures DecodeValue(Message(xs) + rest, val) == DecodeValue(Message(Kept(xs, ValField)) + rest, val)
    decreases |xs|
  {
    hide ReadTag, TakeBytes, Varint, Skip, Laid, Message, Kept, Clip, Scalar;
    if xs == [] {
      NothingKept(ValField);
    } else {
      var x, tail := xs[0], xs[1..];
      var s, t := Message(tail) + rest, Message(Kept(tail, ValField)) + rest;
      MessageForms(xs, rest);
      KeptForms(xs, ValField, rest);
      PieceRead(x, s);
      PieceRead(x, t);
      if TextField(x) {
        ValueIgnores(tail, rest, Text(x.field, Clip(x.b, MAX_VAL)));
      } else if ScalarField(x) {
        ValueIgnores(tail, rest, Scalar(x.field, x.v));
      } else {
        ValueIgnores(tail, rest, val);
      }
    }
  }

  lemma {:induction false} UpdateIgnores(xs: seq<Piece>, rest: seq<byte>, u: Update)
    requires Sound(xs, UpdateField)
    ensures DecodeUpdate(Message(xs) + rest, u) == DecodeUpdate(Message(Kept(xs, UpdateField)) + rest, u)
    decreases |xs|
  {
    hide ReadTag, TakeBytes, Skip, Laid, Message, Kept, DecodePath, DecodeValue;
    if xs == [] {
      NothingKept(UpdateField);
    } else {
      var x, tail := xs[0], xs[1..];
      var s, t := Message(tail) + rest, Message(Kept(tail, UpdateField)) + rest;
      MessageForms(xs, rest);
      KeptForms(xs, UpdateField, rest);
      PieceRead(x, s);
      PieceRead(x, t);
      if !UpdateField(x) {
        UpdateIgnores(tail, rest, u);
      } else if x.field == 1 {
        match DecodePath(x.b, NO_PATH)
        case None =>
        case Some(p) => UpdateIgnores(tail, rest, u.(path := p));
      } else {
        match DecodeValue(x.b, Unset)
        case None =>
        case Some(v) => UpdateIgnores(tail, rest, u.(val := v));
      }
    }
  }

  lemma {:induction false} RequestIgnores(xs: seq<Piece>, rest: seq<byte>, q: SetRequest)
    requires Sound(xs, RequestField)
    ensures DecodeSetRequest(Message(xs) + rest, q) == DecodeSetRequest(Message(Kept(xs, RequestField)) + rest, q)
    decreases |xs|
  {
    hide ReadTag, TakeBytes, Skip, Laid, Message, Kept, TakeField;
    if xs == [] {
      NothingKept(RequestField);
    } else {
      var x, tail := xs[0], xs[1..];
      var s, t := Message(tail) + rest, Message(Kept(tail, RequestField)) + rest;
      MessageForms(xs, rest);
      KeptForms(xs, RequestField, rest);
      PieceRead(x, s);
      PieceRead(x, t);
      if !RequestField(x) {
        RequestIgnores(tail, rest, q);
      } else {
        match TakeField(x.field, x.b, q)
        case None =>
        case Some(q') => RequestIgnores(tail, rest, q');
      }
    }
  }

  /** A field of any other wire type ends the reading: an element is taken as it is, the others are refused. */
  lemma Unskippable(field: nat, wire: nat, rest: seq<byte>, e: Elem, p: Path, u: Update, q: SetRequest, v: Value)
    requires 12 < field < 0x1_0000_0000 && wire in {3, 4, 6, 7}
    ensures var s := TagBytes(field, wire) + rest;
            && DecodeElem(s, e) == Some(e) && DecodePath(s, p) == None && DecodeUpdate(s, u) == None
            && DecodeSetRequest(s, q) == None && DecodeValue(s, v) == None
            && DecodeKey(s, e.keyName, e.keyValue) == None
  {
    hide ReadTag, TagBytes, TakeBytes, Varint, TakeField;
    TagRoundTrip(field, wire, rest);
    assert Skip(rest, wire) == None;
  }

  // ---- any encoding of a message is read back --------------------------------------------------------

  /** `s` is a message of sound fields, and the ones the decoder knows are `known`. */
  ghost predicate Carries(s: seq<byte>, knows: Piece -> bool, known: seq<Piece>) {
    exists xs :: Sound(xs, knows) && Message(xs) == s && Kept(xs, knows) == known
  }

  ghost predicate KeyWire(s: seq<byte>, e: Elem) {
    Carries(s, KeyField, [Block(1, e.keyName), Block(2, e.keyValue)])
  }

  function ElemPieces(e: Elem, key: seq<byte>): seq<Piece> {
    [Block(1, e.name)] + if e.hasKey then [Block(2, key)] else []
  }

  ghost predicate ElemWire(s: seq<byte>, e: Elem) {
    exists key :: Carries(s, ElemField, ElemPieces(e, key)) && (e.hasKey ==> KeyWire(key, e))
  }

  function Blocks(field: nat, bodies: seq<seq<byte>>): seq<Piece> {
    seq(|bodies|, i requires 0 <= i < |bodies| => Block(field, bodies[i]))
  }

  function PathPieces(origin: seq<byte>, bodies: seq<seq<byte>>): seq<Piece> {
    (if origin == [] then [] else [Block(2, origin)]) + Blocks(3, bodies)
  }

  ghost predicate ElemsWire(bodies: seq<seq<byte>>, es: seq<Elem>) {
    |bodies| == |es| && forall i :: 0 <= i < |es| ==> ElemWire(bodies[i], es[i])
  }

  ghost predicate PathWire(s: seq<byte>, p: Path) {
    exists bodies :: Carries(s, PathField, PathPieces(p.origin, bodies)) && ElemsWire(bodies, p.elems)
  }

  /** The field that holds a value; any number but zero is true. */
  predicate HoldsValue(x: Piece, v: Value)
    requires GoodValue(v)
  {
    match v
    case Unset => false
    case Text(kind, s) => x == Block(kind, s)
    case Int(i) => x == Num(2, if i < 0 then i + 0x1_0000_0000_0000_0000 else i)
    case Uint(u) => x == Num(3, u)
    case Bool(b) => x.Num? && x.field == 4 && (b <==> x.v != 0)
  }

  ghost predicate ValueWire(s: seq<byte>, v: Value)
    requires GoodValue(v)
  {
    exists xs, x :: SoundValue(xs) && Message(xs) == s && Kept(xs, ValField) == [x] && HoldsValue(x, v)
  }

  function UpdatePieces(u: Update, path: seq<byte>, val: seq<byte>): seq<Piece> {
    [Block(1, path)] + if u.val == Unset then [] else [Block(3, val)]
  }

  ghost predicate UpdateWire(s: seq<byte>, u: Update)
    requires GoodValue(u.val)
  {
    exists path, val :: Carries(s, UpdateField, UpdatePieces(u, path, val)) && PathWire(path, u.path) &&
                        (u.val != Unset ==> ValueWire(val, u.val))
  }

  lemma {:induction false} KeptIsSound(xs: seq<Piece>, knows: Piece -> bool)
    requires Sound(xs, knows)
    ensures Sound(Kept(xs, knows), knows)
    ensures forall x :: x in Kept(xs, knows) ==> Whole(x) && x.Block?
  {
    hide Whole;
    if xs != [] { KeptIsSound(xs[1..], knows); }
  }

  lemma OnePiece(x: Piece)
    ensures Message([x]) == Laid(x) + []
  {
    hide Laid;
    assert Message([x][1..]) == [];
  }

  lemma TwoPieces(x: Piece, y: Piece)
    ensures Message([x, y]) == Laid(x) + (Laid(y) + [])
  {
    hide Laid;
    OnePiece(y);
    assert [x, y][1..] == [y];
  }

  lemma KeyFromWire(s: seq<byte>, e: Elem)
    requires FitElem(e) && KeyWire(s, e)
    ensures DecodeKey(s, [], []) == Some((e.keyName, e.keyValue))
  {
    hide ReadTag, TakeBytes, Skip, Laid, Message, Kept, Clip, Fits;
    var n, v := Block(1, e.keyName), Block(2, e.keyValue);
    var xs :| Sound(xs, KeyField) && Message(xs) == s && Kept(xs, KeyField) == [n, v];
    KeptIsSound(xs, KeyField);
    KeyIgnores(xs, [], [], []);
    BehindNothing(s);
    BehindNothing(Message([n, v]));
    TwoPieces(n, v);
    assert n in [n, v] && v in [n, v];
    PieceRead(n, Laid(v) + []);
    PieceRead(v, []);
    ClipFits(e.keyName, MAX_NAME);
    ClipFits(e.keyValue, MAX_NAME);
    NoTag();
    assert DecodeKey(Message([n, v]), [], []) == DecodeKey(Laid(v) + [], e.keyName, []);
    assert DecodeKey(Laid(v) + [], e.keyName, []) == DecodeKey([], e.keyName, e.keyValue);
  }

  /** An element is read from every encoding of it, whatever else its message and its key's hold. */
  lemma ElemFromWire(s: seq<byte>, e: Elem)
    requires GoodElem(e) && ElemWire(s, e)
    ensures DecodeElem(s, NO_ELEM) == Some(e)
  {
    hide ReadTag, TakeBytes, Skip, Laid, Message, Kept, Clip, Fits, DecodeKey, KeyWire;
    var key :| Carries(s, ElemField, ElemPieces(e, key)) && (e.hasKey ==> KeyWire(key, e));
    var known := ElemPieces(e, key);
    var xs :| Sound(xs, ElemField) && Message(xs) == s && Kept(xs, ElemField) == known;
    KeptIsSound(xs, ElemField);
    ElemIgnores(xs, [], NO_ELEM);
    BehindNothing(s);
    BehindNothing(Message(known));
    ClipFits(e.name, MAX_NAME);
    NoTag();
    var n := Block(1, e.name);
    assert n == known[0] && n in known;
    var named := NO_ELEM.(name := e.name);
    if e.hasKey {
      var k := Block(2, key);
      assert known == [n, k] && k == known[1] && k in known;
      TwoPieces(n, k);
      PieceRead(n, Laid(k) + []);
      PieceRead(k, []);
      KeyFromWire(key, e);
      assert DecodeElem(Message(known), NO_ELEM) == DecodeElem(Laid(k) + [], named);
      assert DecodeElem(Laid(k) + [], named) == DecodeElem([], e);
    } else {
      assert known == [n];
      OnePiece(n);
      PieceRead(n, []);
      assert DecodeElem(Message(known), NO_ELEM) == DecodeElem([], named);
    }
  }

  lemma {:induction false} ElemsFromWire(bodies: seq<seq<byte>>, es: seq<Elem>, p: Path)
    requires ElemsWire(bodies, es) && |p.elems| + |es| <= MAX_ELEMS
    requires forall i :: 0 <= i < |es| ==> GoodElem(es[i]) && |bodies[i]| < U64
    ensures DecodePath(Message(Blocks(3, bodies)), p) == Some(p.(elems := p.elems + es))
    decreases |es|
  {
    hide ReadTag, TakeBytes, Skip, Laid, Clip, DecodeElem, ElemWire, GoodElem;
    NoTag();
    if es == [] {
      assert p.elems + es == p.elems && Blocks(3, bodies) == [];
    } else {
      var x, e := Block(3, bodies[0]), es[0];
      var rest := Blocks(3, bodies[1..]);
      assert Blocks(3, bodies) == [x] + rest && Blocks(3, bodies)[1..] == rest;
      PieceRead(x, Message(rest));
      ElemFromWire(bodies[0], e);
      assert p.elems + es == p.elems + [e] + es[1..];
      ElemsFromWire(bodies[1..], es[1..], p.(elems := p.elems + [e]));
    }
  }

  lemma BlocksHeld(field: nat, bodies: seq<seq<byte>>, pieces: seq<Piece>)
    requires forall x :: x in pieces ==> Whole(x)
    requires forall x :: x in Blocks(field, bodies) ==> x in pieces
    ensures forall i :: 0 <= i < |bodies| ==> |bodies[i]| < U64
  {
    forall i | 0 <= i < |bodies| ensures |bodies[i]| < U64 {
      assert Blocks(field, bodies)[i] in pieces;
    }
  }

  /** A path is read from every encoding of it, with unknown fields anywhere among its fields or its elements'. */
  lemma PathFromWire(s: seq<byte>, p: Path)
    requires GoodPath(p) && PathWire(s, p)
    ensures DecodePath(s, NO_PATH) == Some(p)
  {
    hide ReadTag, TakeBytes, Skip, Laid, Message, Kept, Clip, Fits, DecodeElem, ElemWire, GoodElem, Blocks;
    var bodies :| Carries(s, PathField, PathPieces(p.origin, bodies)) && ElemsWire(bodies, p.elems);
    var known, elems := PathPieces(p.origin, bodies), Blocks(3, bodies);
    var xs :| Sound(xs, PathField) && Message(xs) == s && Kept(xs, PathField) == known;
    KeptIsSound(xs, PathField);
    PathIgnores(xs, [], NO_PATH);
    BehindNothing(s);
    BehindNothing(Message(known));
    BlocksHeld(3, bodies, known);
    var start := NO_PATH.(origin := p.origin);
    ElemsFromWire(bodies, p.elems, start);
    assert start.elems + p.elems == p.elems;
    if p.origin == [] {
      assert known == elems;
    } else {
      var o := Block(2, p.origin);
      assert known == [o] + elems && known[0] == o && known[1..] == elems && o in known;
      FrontPiece(known);
      PieceRead(o, Message(elems));
      ClipFits(p.origin, MAX_ORIGIN);
      assert DecodePath(Message(known), NO_PATH) == DecodePath(Message(elems), start);
    }
  }

  lemma FrontPiece(xs: seq<Piece>)
    requires xs != []
    ensures Message(xs) == Laid(xs[0]) + Message(xs[1..])
  {
  }

  /** A value is read from every encoding of it, an unsigned zero too once it is written out. */
  lemma ValueFromWire(s: seq<byte>, v: Value)
    requires GoodValue(v) && ValueWire(s, v)
    ensures DecodeValue(s, Unset) == Some(v)
  {
    hide ReadTag, TakeBytes, Varint, Skip, Laid, Message, Kept, Clip, Signed;
    var xs, x :| SoundValue(xs) && Message(xs) == s && Kept(xs, ValField) == [x] && HoldsValue(x, v);
    assert Whole(x) by { KeptIsWhole(xs); }
    ValueIgnores(xs, [], Unset);
    BehindNothing(s);
    BehindNothing(Message([x]));
    OnePiece(x);
    NoTag();
    if v.Int? { SignedInverse(v.i); }
    if v.Text? { ClipFits(v.s, MAX_VAL); }
    PieceRead(x, []);
  }

  lemma {:induction false} KeptIsWhole(xs: seq<Piece>)
    requires SoundValue(xs)
    ensures forall x :: x in Kept(xs, ValField) ==> Whole(x)
  {
    hide Whole, TextField, ScalarField;
    if xs != [] { KeptIsWhole(xs[1..]); }
  }

  /** An update is read from every encoding of it, with unknown fields at every depth. */
  lemma UpdateFromWire(s: seq<byte>, u: Update)
    requires GoodUpdate(u) && UpdateWire(s, u)
    ensures DecodeUpdate(s, NO_UPDATE) == Some(u)
  {
    hide ReadTag, TakeBytes, Skip, Laid, Message, Kept, DecodePath, DecodeValue;
    hide PathWire, ValueWire, GoodPath, GoodValue;
    var path, val :| Carries(s, UpdateField, UpdatePieces(u, path, val)) && PathWire(path, u.path) &&
                     (u.val != Unset ==> ValueWire(val, u.val));
    var known := UpdatePieces(u, path, val);
    var xs :| Sound(xs, UpdateField) && Message(xs) == s && Kept(xs, UpdateField) == known;
    KeptIsSound(xs, UpdateField);
    UpdateIgnores(xs, [], NO_UPDATE);
    BehindNothing(s);
    BehindNothing(Message(known));
    NoTag();
    PathFromWire(path, u.path);
    var x := Block(1, path);
    assert x == known[0] && x in known;
    var located := NO_UPDATE.(path := u.path);
    if u.val == Unset {
      assert known == [x];
      OnePiece(x);
      PieceRead(x, []);
      assert DecodeUpdate(Message(known), NO_UPDATE) == DecodeUpdate([], located);
    } else {
      var y := Block(3, val);
      assert known == [x, y] && y == known[1] && y in known;
      TwoPieces(x, y);
      PieceRead(x, Laid(y) + []);
      PieceRead(y, []);
      ValueFromWire(val, u.val);
      assert DecodeUpdate(Message(known), NO_UPDATE) == DecodeUpdate(Laid(y) + [], located);
      assert DecodeUpdate(Laid(y) + [], located) == DecodeUpdate([], u);
    }
  }

  // ---- set requests -----------------------------------------------------------------------------------

  ghost predicate FieldWire(s: seq<byte>, f: Field)
    requires GoodField(f)
  {
    match f
    case Prefix(p) => PathWire(s, p)
    case Delete(p) => PathWire(s, p)
    case Replace(u) => UpdateWire(s, u)
    case Revise(u) => UpdateWire(s, u)
  }

  function RequestPieces(fs: seq<Field>, bodies: seq<seq<byte>>): seq<Piece>
    requires |fs| == |bodies|
  {
    seq(|fs|, i requires 0 <= i < |fs| => Block(Number(fs[i]), bodies[i]))
  }

  ghost predicate FieldsWire(bodies: seq<seq<byte>>, fs: seq<Field>) {
    |bodies| == |fs| && forall i :: 0 <= i < |fs| ==> GoodField(fs[i]) && FieldWire(bodies[i], fs[i])
  }

  ghost predicate RequestWire(s: seq<byte>, fs: seq<Field>) {
    exists bodies :: FieldsWire(bodies, fs) && Carries(s, RequestField, RequestPieces(fs, bodies))
  }

  predicate NonZero(f: Field) { (f.Replace? || f.Revise?) ==> f.u.val != Uint(0) }

  lemma FieldFromWire(s: seq<byte>, f: Field, q: SetRequest)
    requires GoodField(f) && FieldWire(s, f) && NonZero(f)
    ensures TakeField(Number(f), s, q) == CollectOne(f, q)
  {
    hide PathWire, UpdateWire, GoodPath, GoodUpdate, DecodePath, DecodeUpdate;
    match f
    case Prefix(p) => PathFromWire(s, p);
    case Delete(p) => PathFromWire(s, p);
    case Replace(u) => UpdateFromWire(s, u);
    case Revise(u) => UpdateFromWire(s, u);
  }

  lemma {:induction false} FieldsFromWire(bodies: seq<seq<byte>>, fs: seq<Field>, q: SetRequest)
    requires FieldsWire(bodies, fs) && forall i :: 0 <= i < |fs| ==> NonZero(fs[i])
    requires forall i :: 0 <= i < |bodies| ==> |bodies[i]| < U64
    ensures DecodeSetRequest(Message(RequestPieces(fs, bodies)), q) == Collect(fs, q)
    decreases |fs|
  {
    hide ReadTag, TakeBytes, Skip, Laid, FieldWire, GoodField, TakeField, CollectOne, NonZero;
    NoTag();
    if fs == [] {
      assert RequestPieces(fs, bodies) == [];
    } else {
      var x := Block(Number(fs[0]), bodies[0]);
      var rest := RequestPieces(fs[1..], bodies[1..]);
      assert RequestPieces(fs, bodies) == [x] + rest && RequestPieces(fs, bodies)[1..] == rest;
      PieceRead(x, Message(rest));
      FieldFromWire(bodies[0], fs[0], q);
      match CollectOne(fs[0], q)
      case Some(q') => FieldsFromWire(bodies[1..], fs[1..], q');
      case None =>
    }
  }

  /** A set request is read from every encoding of its fields, in whatever order and among whatever else. */
  lemma RequestFromWire(s: seq<byte>, fs: seq<Field>, q: SetRequest)
    requires RequestWire(s, fs) && forall i :: 0 <= i < |fs| ==> NonZero(fs[i])
    ensures DecodeSetRequest(s, q) == Collect(fs, q)
  {
    hide ReadTag, TakeBytes, Skip, Laid, Message, Kept, FieldWire, GoodField, TakeField, CollectOne, NonZero, Collect;
    var bodies :| FieldsWire(bodies, fs) && Carries(s, RequestField, RequestPieces(fs, bodies));
    var known := RequestPieces(fs, bodies);
    var xs :| Sound(xs, RequestField) && Message(xs) == s && Kept(xs, RequestField) == known;
    KeptIsSound(xs, RequestField);
    RequestIgnores(xs, [], q);
    BehindNothing(s);
    BehindNothing(Message(known));
    forall i | 0 <= i < |bodies| ensures |bodies[i]| < U64 {
      assert known[i] in known;
    }
    FieldsFromWire(bodies, fs, q);
  }

  /** Every request within the limits and without an unsigned zero is read from every encoding of it. */
  lemma WholeRequestFromWire(s: seq<byte>, q: SetRequest)
    requires GoodRequest(q) && RequestWire(s, FieldsOf(q))
    ensures DecodeSetRequest(s, NO_REQUEST) == Some(q)
  {
    hide DecodeSetRequest, RequestWire, RequestBytes, Collect, GoodPath, GoodUpdate;
    var fs := FieldsOf(q);
    SetRequestRoundTrip(q);
    RequestRoundTrip(fs, NO_REQUEST);
    forall i | 0 <= i < |fs| ensures NonZero(fs[i]) {
    }
    RequestFromWire(s, fs, NO_REQUEST);
  }
}
