/** Decoding inverts encoding for every message that can be encoded, with one exception. */
module GnmiTheorems {
  import opened Base128
  import opened Bytes
  import opened Gnmi
  import opened Protobuf

  lemma ClipFits(s: seq<byte>, size: nat)
    requires Fits(s, size)
    ensures size > 0 && Clip(s, size) == s
  {
    hide CString;
    NulFreeCString(s);
    assert s[..|s|] == s;
  }

  lemma NoTag()
    ensures ReadTag([]) == Stop
  {
  }

  lemma BehindNothing(s: seq<byte>)
    ensures s + [] == s
  {
  }

  // ---- paths ---------------------------------------------------------------------------------

  lemma KeyRoundTrip(e: Elem)
    requires FitElem(e)
    ensures DecodeKey(KeyBody(e), [], []) == Some((e.keyName, e.keyValue))
  {
    hide ReadTag, TakeBytes, Skip, LenField, Clip, Fits;
    ShortText(e);
    LenFieldRoundTrip(1, e.keyName, LenField(2, e.keyValue));
    LenFieldRoundTrip(2, e.keyValue, []);
    BehindNothing(LenField(2, e.keyValue));
    ClipFits(e.keyName, MAX_NAME);
    ClipFits(e.keyValue, MAX_NAME);
    NoTag();
    assert DecodeKey(KeyBody(e), [], []) == DecodeKey(LenField(2, e.keyValue), e.keyName, []);
    assert DecodeKey(LenField(2, e.keyValue), e.keyName, []) == DecodeKey([], e.keyName, e.keyValue);
  }

  lemma ShortText(e: Elem)
    requires FitElem(e)
    ensures |e.name| < MAX_NAME && |e.keyName| < MAX_NAME && |e.keyValue| < MAX_NAME
  {
  }

  lemma ElemSize(e: Elem)
    requires FitElem(e)
    ensures |KeyBody(e)| <= 132 && |ElemBody(e)| <= 201
  {
    hide LenField, Nested, Fits;
    ShortText(e);
    LenFieldSize(1, e.name);
    LenFieldSize(1, e.keyName);
    LenFieldSize(2, e.keyValue);
    NestedIsLenField(2, KeyBody(e));
    LenFieldSize(2, KeyBody(e));
  }

  /** What comes back of an element: a key without a name is no key. */
  function Returned(e: Elem): Elem {
    if e.hasKey then e.(hasKey := e.keyName != []) else Elem(e.name, false, [], [])
  }

  lemma ElemReturned(e: Elem)
    requires FitElem(e)
    ensures DecodeElem(ElemBody(e), NO_ELEM) == Some(Returned(e))
  {
    hide ReadTag, TakeBytes, Skip, LenField, Nested, KeyBody, DecodeKey, Clip, Fits;
    ShortText(e);
    ElemSize(e);
    var key := if e.hasKey then LenField(2, KeyBody(e)) else [];
    NestedIsLenField(2, KeyBody(e));
    LenFieldRoundTrip(1, e.name, key);
    ClipFits(e.name, MAX_NAME);
    NoTag();
    var named := NO_ELEM.(name := e.name);
    assert DecodeElem(ElemBody(e), NO_ELEM) == DecodeElem(key, named);
    if e.hasKey {
      LenFieldRoundTrip(2, KeyBody(e), []);
      BehindNothing(LenField(2, KeyBody(e)));
      KeyRoundTrip(e);
      assert DecodeElem(key, named) == DecodeElem([], Returned(e));
    }
  }

  /** An element that fits is read back as it was exactly when its key has a name. */
  lemma ElemRoundTrip(e: Elem)
    requires FitElem(e)
    ensures DecodeElem(ElemBody(e), NO_ELEM) == Some(e) <==> ProperKey(e)
  {
    hide DecodeElem, ElemBody, FitElem;
    ElemReturned(e);
  }

  lemma ElemStep(e: Elem, rest: seq<byte>, p: Path)
    requires GoodElem(e) && |p.elems| < MAX_ELEMS
    ensures DecodePath(Nested(3, ElemBody(e)) + rest, p) == DecodePath(rest, p.(elems := p.elems + [e]))
  {
    hide ReadTag, TakeBytes, Skip, LenField, Nested, ElemBody, DecodeElem, FitElem, ProperKey;
    ElemSize(e);
    NestedIsLenField(3, ElemBody(e));
    LenFieldRoundTrip(3, ElemBody(e), rest);
    ElemRoundTrip(e);
  }

  lemma {:induction false} ElemsStep(es: seq<Elem>, rest: seq<byte>, p: Path)
    requires |p.elems| + |es| <= MAX_ELEMS && forall i :: 0 <= i < |es| ==> GoodElem(es[i])
    ensures DecodePath(ElemFields(es) + rest, p) == DecodePath(rest, p.(elems := p.elems + es))
    decreases |es|
  {
    hide DecodePath, Nested, ElemBody, FitElem, ProperKey;
    if es == [] {
      assert ElemFields(es) + rest == rest && p.elems + es == p.elems;
    } else {
      var front, last := es[..|es| - 1], es[|es| - 1];
      var tail := Nested(3, ElemBody(last)) + rest;
      assert ElemFields(es) + rest == ElemFields(front) + tail;
      ElemsStep(front, tail, p);
      ElemStep(last, rest, p.(elems := p.elems + front));
      assert p.elems + front + [last] == p.elems + es;
    }
  }

  /** Every path that fits its C structure is read back as it was. */
  lemma PathRoundTrip(p: Path)
    requires GoodPath(p)
    ensures DecodePath(PathBody(p), NO_PATH) == Some(p)
  {
    hide ReadTag, TakeBytes, Skip, LenField, ElemFields, FitElem, ProperKey, Clip, Fits, DecodeElem;
    var elems := ElemFields(p.elems);
    var start := NO_PATH.(origin := p.origin);
    ClipFits(p.origin, MAX_ORIGIN);
    ShortOrigin(p);
    assert DecodePath(PathBody(p), NO_PATH) == DecodePath(elems, start) by {
      if p.origin == [] {
        assert [] + elems == elems;
      } else {
        LenFieldRoundTrip(2, p.origin, elems);
      }
    }
    BehindNothing(elems);
    ElemsStep(p.elems, [], start);
    assert start.elems + p.elems == p.elems;
    NoTag();
  }

  lemma ShortOrigin(p: Path)
    requires GoodPath(p)
    ensures |p.origin| < MAX_ORIGIN
  {
  }

  // ---- sizes -----------------------------------------------------------------------------------

  lemma {:induction false} ElemFieldsSize(es: seq<Elem>)
    requires |es| <= MAX_ELEMS && forall i :: 0 <= i < |es| ==> GoodElem(es[i])
    ensures |ElemFields(es)| <= 204 * |es|
  {
    hide ElemBody, Nested, LenField, FitElem, ProperKey;
    if es != [] {
      var last := es[|es| - 1];
      ElemFieldsSize(es[..|es| - 1]);
      ElemSize(last);
      NestedIsLenField(3, ElemBody(last));
      LenFieldSize(3, ElemBody(last));
    }
  }

  lemma PathSize(p: Path)
    requires GoodPath(p)
    ensures |PathBody(p)| <= 1666
  {
    hide ElemFields, LenField, FitElem, ProperKey, Fits;
    ShortOrigin(p);
    ElemFieldsSize(p.elems);
    LenFieldSize(2, p.origin);
  }

  lemma {:induction false} ContinuationSize(n: nat, k: nat)
    requires n < Pow2(7 * k) && k > 0
    ensures |Continuation(n)| <= k
  {
    if n >= 128 {
      assert Pow2(7) == 128;
      SevenMore(7 * (k - 1));
      ContinuationSize(n / 128, k - 1);
    }
  }

  lemma VarFieldSize(field: nat, v: nat)
    requires field < 16 && v < U64
    ensures |VarField(field, v)| <= 11
  {
    hide Continuation;
    FieldTagSize(field);
    TwoTo64();
    Pow2Add(64, 6);
    ContinuationSize(v, 10);
  }

  lemma FieldTagSize(field: nat)
    requires field < 16
    ensures |TagBytes(field, 0)| == 1
  {
  }

  lemma ValueSize(v: Value)
    requires GoodValue(v)
    ensures |ValueBody(v)| <= 258
  {
    hide LenField, VarField;
    match v
    case Unset =>
    case Text(kind, s) => LenFieldSize(kind, s);
    case Int(i) => VarFieldSize(2, Unsigned(i));
    case Uint(u) => VarFieldSize(3, u);
    case Bool(b) => VarFieldSize(4, if b then 1 else 0);
  }

  // ---- values and updates --------------------------------------------------------------------------

  lemma SignedInverse(i: int)
    requires Int64(i)
    ensures Unsigned(i) < U64 && Signed(Unsigned(i)) == i
  {
  }

  /** Every value but an unsigned zero, which is left out of the message and then missed. */
  lemma ValueRoundTrip(v: Value)
    requires GoodValue(v)
    ensures DecodeValue(ValueBody(v), Unset) == if v == Unset || v == Uint(0) then None else Some(v)
  {
    hide ReadTag, TakeBytes, Skip, Varint, LenField, VarField, Clip, Signed, Unsigned;
    NoTag();
    match v
    case Unset =>
    case Text(kind, s) =>
      ClipFits(s, MAX_VAL);
      LenFieldRoundTrip(kind, s, []);
      BehindNothing(LenField(kind, s));
    case Int(i) =>
      SignedInverse(i);
      VarFieldRoundTrip(2, Unsigned(i), []);
      BehindNothing(VarField(2, Unsigned(i)));
    case Uint(u) =>
      VarFieldRoundTrip(3, u, []);
      BehindNothing(VarField(3, u));
    case Bool(b) =>
      VarFieldRoundTrip(4, if b then 1 else 0, []);
      BehindNothing(VarField(4, if b then 1 else 0));
  }

  lemma UpdateRoundTrip(u: Update)
    requires GoodUpdate(u)
    ensures DecodeUpdate(UpdateBody(u), NO_UPDATE) == if u.val == Uint(0) then None else Some(u)
  {
    hide ReadTag, TakeBytes, Skip, LenField, Nested, PathBody, ValueBody, DecodePath, DecodeValue, GoodPath, GoodValue;
    IntOfGood(u.val);
    PathSize(u.path);
    NestedIsLenField(1, PathBody(u.path));
    var value := ValueField(3, u.val);
    LenFieldRoundTrip(1, PathBody(u.path), value);
    PathRoundTrip(u.path);
    NoTag();
    var located := NO_UPDATE.(path := u.path);
    assert DecodeUpdate(UpdateBody(u), NO_UPDATE) == DecodeUpdate(value, located);
    if u.val != Unset {
      ValueSize(u.val);
      NestedIsLenField(3, ValueBody(u.val));
      LenFieldRoundTrip(3, ValueBody(u.val), []);
      BehindNothing(LenField(3, ValueBody(u.val)));
      ValueRoundTrip(u.val);
      assert u.val != Uint(0) ==> DecodeUpdate(value, located) == DecodeUpdate([], u);
    }
  }

  lemma IntOfGood(v: Value)
    requires GoodValue(v)
    ensures v.Int? ==> Int64(v.i)
  {
  }

  lemma UpdateSize(u: Update)
    requires GoodUpdate(u)
    ensures |UpdateBody(u)| < 16384
  {
    hide LenField, Nested, PathBody, ValueBody, GoodPath, GoodValue;
    IntOfGood(u.val);
    PathSize(u.path);
    NestedIsLenField(1, PathBody(u.path));
    LenFieldSize(1, PathBody(u.path));
    ValueSize(u.val);
    NestedIsLenField(3, ValueBody(u.val));
    LenFieldSize(3, ValueBody(u.val));
  }

  // ---- set requests ------------------------------------------------------------------------------------

  datatype Field = Prefix(p: Path) | Delete(p: Path) | Replace(u: Update) | Revise(u: Update)

  predicate GoodField(f: Field) {
    match f
    case Prefix(p) => GoodPath(p)
    case Delete(p) => GoodPath(p)
    case Replace(u) => GoodUpdate(u)
    case Revise(u) => GoodUpdate(u)
  }

  function Number(f: Field): nat {
    match f
    case Prefix(_) => 1
    case Delete(_) => 2
    case Replace(_) => 3
    case Revise(_) => 4
  }

  function FieldBody(f: Field): seq<byte>
    requires GoodField(f)
  {
    match f
    case Prefix(p) => PathBody(p)
    case Delete(p) => PathBody(p)
    case Replace(u) => UpdateBody(u)
    case Revise(u) => UpdateBody(u)
  }

  /** The fields of a request in the order the client chose. */
  function RequestBytes(fs: seq<Field>): seq<byte>
    requires forall f :: f in fs ==> GoodField(f)
  {
    if fs == [] then [] else Nested(Number(fs[0]), FieldBody(fs[0])) + RequestBytes(fs[1..])
  }

  function CollectOne(f: Field, q: SetRequest): Option<SetRequest> {
    match f
    case Prefix(p) => Some(q.(prefix := p))
    case Delete(p) => if |q.deletes| >= 8 then None else Some(q.(deletes := q.deletes + [p]))
    case Replace(u) =>
      if |q.replacements| >= 16 || u.val == Uint(0) then None
      else Some(q.(replacements := q.replacements + [u]))
    case Revise(u) =>
      if |q.updates| >= 16 || u.val == Uint(0) then None else Some(q.(updates := q.updates + [u]))
  }

  /** What a request says, or nothing if it has too many fields or an unsigned zero. */
  function Collect(fs: seq<Field>, q: SetRequest): Option<SetRequest>
    decreases |fs|
  {
    if fs == [] then Some(q)
    else match CollectOne(fs[0], q) case Some(q') => Collect(fs[1..], q') case None => None
  }

  lemma FieldSize(f: Field)
    requires GoodField(f)
    ensures |FieldBody(f)| < 16384
  {
    hide PathBody, UpdateBody, GoodPath, GoodUpdate;
    match f
    case Prefix(p) => PathSize(p);
    case Delete(p) => PathSize(p);
    case Replace(u) => UpdateSize(u);
    case Revise(u) => UpdateSize(u);
  }

  lemma FieldRoundTrip(f: Field, q: SetRequest)
    requires GoodField(f)
    ensures TakeField(Number(f), FieldBody(f), q) == CollectOne(f, q)
  {
    hide PathBody, UpdateBody, GoodPath, GoodUpdate, DecodePath, DecodeUpdate;
    match f
    case Prefix(p) => PathRoundTrip(p);
    case Delete(p) => PathRoundTrip(p);
    case Replace(u) => UpdateRoundTrip(u);
    case Revise(u) => UpdateRoundTrip(u);
  }

  /** The decoder collects the fields of any request, in whatever order they come. */
  lemma {:induction false} RequestRoundTrip(fs: seq<Field>, q: SetRequest)
    requires forall f :: f in fs ==> GoodField(f)
    ensures DecodeSetRequest(RequestBytes(fs), q) == Collect(fs, q)
    decreases |fs|
  {
    hide ReadTag, TakeBytes, Skip, LenField, Nested, FieldBody, GoodField, TakeField, CollectOne;
    NoTag();
    if fs != [] {
      var f, rest := fs[0], RequestBytes(fs[1..]);
      FieldSize(f);
      NestedIsLenField(Number(f), FieldBody(f));
      LenFieldRoundTrip(Number(f), FieldBody(f), rest);
      FieldRoundTrip(f, q);
      match CollectOne(f, q)
      case Some(q') => RequestRoundTrip(fs[1..], q');
      case None =>
    }
  }

  // ---- whole requests --------------------------------------------------------------------------------------

  function Deletes(ps: seq<Path>): seq<Field> { seq(|ps|, i requires 0 <= i < |ps| => Delete(ps[i])) }
  function Replaces(us: seq<Update>): seq<Field> { seq(|us|, i requires 0 <= i < |us| => Replace(us[i])) }
  function Revises(us: seq<Update>): seq<Field> { seq(|us|, i requires 0 <= i < |us| => Revise(us[i])) }

  function FieldsOf(q: SetRequest): seq<Field> {
    [Prefix(q.prefix)] + Deletes(q.deletes) + Replaces(q.replacements) + Revises(q.updates)
  }

  predicate GoodRequest(q: SetRequest) {
    && GoodPath(q.prefix) && |q.deletes| <= MAX_ELEMS && |q.replacements| <= MAX_UPDATES && |q.updates| <= MAX_UPDATES
    && (forall i :: 0 <= i < |q.deletes| ==> GoodPath(q.deletes[i]))
    && (forall i :: 0 <= i < |q.replacements| ==> GoodUpdate(q.replacements[i]) && q.replacements[i].val != Uint(0))
    && (forall i :: 0 <= i < |q.updates| ==> GoodUpdate(q.updates[i]) && q.updates[i].val != Uint(0))
  }

  lemma {:induction false} CollectDeletes(ps: seq<Path>, rest: seq<Field>, q: SetRequest)
    requires |q.deletes| + |ps| <= MAX_ELEMS
    ensures Collect(Deletes(ps) + rest, q) == Collect(rest, q.(deletes := q.deletes + ps))
    decreases |ps|
  {
    if ps == [] {
      assert Deletes(ps) + rest == rest && q.deletes + ps == q.deletes;
    } else {
      var fs := Deletes(ps) + rest;
      assert fs[0] == Delete(ps[0]) && fs[1..] == Deletes(ps[1..]) + rest;
      CollectDeletes(ps[1..], rest, q.(deletes := q.deletes + [ps[0]]));
      assert q.deletes + [ps[0]] + ps[1..] == q.deletes + ps;
    }
  }

  lemma {:induction false} CollectReplaces(us: seq<Update>, rest: seq<Field>, q: SetRequest)
    requires |q.replacements| + |us| <= MAX_UPDATES && forall i :: 0 <= i < |us| ==> us[i].val != Uint(0)
    ensures Collect(Replaces(us) + rest, q) == Collect(rest, q.(replacements := q.replacements + us))
    decreases |us|
  {
    if us == [] {
      assert Replaces(us) + rest == rest && q.replacements + us == q.replacements;
    } else {
      var fs := Replaces(us) + rest;
      assert fs[0] == Replace(us[0]) && fs[1..] == Replaces(us[1..]) + rest;
      CollectReplaces(us[1..], rest, q.(replacements := q.replacements + [us[0]]));
      assert q.replacements + [us[0]] + us[1..] == q.replacements + us;
    }
  }

  lemma {:induction false} CollectRevises(us: seq<Update>, q: SetRequest)
    requires |q.updates| + |us| <= MAX_UPDATES && forall i :: 0 <= i < |us| ==> us[i].val != Uint(0)
    ensures Collect(Revises(us), q) == Some(q.(updates := q.updates + us))
    decreases |us|
  {
    if us == [] {
      assert Revises(us) == [] && q.updates + us == q.updates;
    } else {
      var fs := Revises(us);
      assert fs[0] == Revise(us[0]) && fs[1..] == Revises(us[1..]);
      CollectRevises(us[1..], q.(updates := q.updates + [us[0]]));
      assert q.updates + [us[0]] + us[1..] == q.updates + us;
    }
  }

  /** Every request within the limits and without an unsigned zero is read back as it was. */
  lemma SetRequestRoundTrip(q: SetRequest)
    requires GoodRequest(q)
    ensures forall f :: f in FieldsOf(q) ==> GoodField(f)
    ensures DecodeSetRequest(RequestBytes(FieldsOf(q)), NO_REQUEST) == Some(q)
  {
    hide Collect, DecodeSetRequest, RequestBytes, GoodPath, GoodUpdate;
    var fs := FieldsOf(q);
    assert forall f :: f in fs ==> GoodField(f);
    RequestRoundTrip(fs, NO_REQUEST);
    var revises := Revises(q.updates);
    var behind := Replaces(q.replacements) + revises;
    var q1 := NO_REQUEST.(prefix := q.prefix);
    CollectPrefix(q.prefix, Deletes(q.deletes) + behind);
    assert fs == [Prefix(q.prefix)] + (Deletes(q.deletes) + behind);
    CollectDeletes(q.deletes, behind, q1);
    var q2 := q1.(deletes := q1.deletes + q.deletes);
    CollectReplaces(q.replacements, revises, q2);
    CollectRevises(q.updates, q2.(replacements := q2.replacements + q.replacements));
    assert [] + q.deletes == q.deletes && [] + q.replacements == q.replacements && [] + q.updates == q.updates;
  }

  lemma CollectPrefix(p: Path, rest: seq<Field>)
    ensures Collect([Prefix(p)] + rest, NO_REQUEST) == Collect(rest, NO_REQUEST.(prefix := p))
  {
    assert ([Prefix(p)] + rest)[1..] == rest;
  }
}
