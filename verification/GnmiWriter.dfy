/** The message writer: a buffer filled from the front, nested lengths patched in afterwards. */
module GnmiWriter {
  import opened Base128
  import opened Bytes
  import opened Gnmi
  import opened Protobuf

  /** What has been written, or nothing once the buffer has overflowed. */
  type Output = Option<seq<byte>>

  function Append(o: Output, s: seq<byte>, cap: nat): Output {
    if o.None? || |o.value| + |s| > cap then None else Some(o.value + s)
  }

  lemma AppendTwice(o: Output, a: seq<byte>, b: seq<byte>, cap: nat)
    ensures Append(Append(o, a, cap), b, cap) == Append(o, a + b, cap)
  {
    if o.Some? { assert o.value + a + b == o.value + (a + b); }
  }

  lemma AppendNothing(o: Output, cap: nat, written: seq<byte>, overflow: bool)
    requires o == if overflow then None else Some(written)
    requires |written| <= cap
    ensures Append(o, [], cap) == o
  {
    assert written + [] == written;
  }

  /** What stands before the place for a nested length. */
  function Front(o: Output, field: nat, cap: nat): Output { Append(o, TagBytes(field, 2), cap) }

  lemma NestedAppend(o: Output, field: nat, body: seq<byte>, cap: nat)
    ensures Append(Front(o, field, cap), PatchedLength(|body|) + body, cap) == Append(o, Nested(field, body), cap)
  {
    hide Append, PatchedLength, TagBytes;
    AppendTwice(o, TagBytes(field, 2), PatchedLength(|body|) + body, cap);
    assert TagBytes(field, 2) + (PatchedLength(|body|) + body) == Nested(field, body);
  }

  class Writer {
    const buf: array<byte>
    var len: nat
    var overflow: bool

    ghost predicate Valid() reads this { len <= buf.Length }

    ghost function Written(): Output
      requires Valid()
      reads this, buf
    {
      if overflow then None else Some(buf[..len])
    }

    constructor (b: array<byte>)
      ensures Valid() && buf == b && Written() == Some([])
    {
      buf, len, overflow := b, 0, false;
    }

    method Write(s: seq<byte>)
      requires Valid()
      modifies this, buf
      ensures Valid() && len >= old(len) && Written() == Append(old(Written()), s, buf.Length)
    {
      if len + |s| > buf.Length {
        overflow := true;
        return;
      }
      ghost var before := buf[..len];
      forall i | 0 <= i < |s| { buf[len + i] := s[i]; }
      len := len + |s|;
      assert buf[..len] == before + s;
    }

    method PutVarint(v: nat)
      requires Valid()
      modifies this, buf
      ensures Valid() && len >= old(len) && Written() == Append(old(Written()), Continuation(v), buf.Length)
    {
      var t: seq<byte>, rest: nat := [], v;
      while rest >= 128
        invariant t + Continuation(rest) == Continuation(v)
      {
        t, rest := t + [rest % 128 + 128], rest / 128;
      }
      t := t + [rest];
      assert t == Continuation(v);
      Write(t);
    }

    method PutTag(field: nat, wire: nat)
      requires Valid()
      modifies this, buf
      ensures Valid() && len >= old(len) && Written() == Append(old(Written()), TagBytes(field, wire), buf.Length)
    {
      PutVarint(field * 8 + wire);
    }

    method PutString(field: nat, s: seq<byte>)
      requires Valid()
      modifies this, buf
      ensures Valid() && len >= old(len) && Written() == Append(old(Written()), LenField(field, s), buf.Length)
    {
      hide Append, Continuation;
      ghost var o, cap := Written(), buf.Length;
      PutTag(field, 2);
      PutVarint(|s|);
      AppendTwice(o, TagBytes(field, 2), Continuation(|s|), cap);
      Write(s);
      AppendTwice(o, TagBytes(field, 2) + Continuation(|s|), s, cap);
    }

    method PutScalar(field: nat, v: nat)
      requires Valid()
      modifies this, buf
      ensures Valid() && len >= old(len) && Written() == Append(old(Written()), VarField(field, v), buf.Length)
    {
      hide Append, Continuation;
      ghost var o, cap := Written(), buf.Length;
      PutTag(field, 0);
      PutVarint(v);
      AppendTwice(o, TagBytes(field, 0), Continuation(v), cap);
    }

    /** Writes the tag and a place for the length; returns where that place is. */
    method BeginNested(field: nat) returns (saved: nat)
      requires Valid()
      modifies this, buf
      ensures Valid() && old(len) <= saved <= len
      ensures Written() == Append(Front(old(Written()), field, buf.Length), [0], buf.Length)
      ensures Front(old(Written()), field, buf.Length).Some? ==>
                saved == |Front(old(Written()), field, buf.Length).value|
    {
      hide Continuation;
      PutTag(field, 2);
      saved := len;
      Write([0]);
    }

    /**
     * Puts the length of what followed in its place, moving it up by one byte if two are needed.
     * `front` is what stood before the place, `body` what has been written after it.
     */
    method EndNested(saved: nat, ghost front: Output, ghost body: seq<byte>)
      requires Valid() && saved <= len
      requires Written() == Append(Append(front, [0], buf.Length), body, buf.Length)
      requires front.Some? ==> saved == |front.value|
      modifies this, buf
      ensures Valid() && len >= old(len)
      ensures Written() == Append(front, PatchedLength(|body|) + body, buf.Length)
    {
      // Without even the place for the length there is no body: the size wraps around and cannot fit.
      if len == saved {
        assert Written().None? && |PatchedLength(|body|)| >= 1;
        overflow := true;
        return;
      }
      ghost var head, tail := buf[..saved], buf[saved + 1..len];
      SplitAtPlace(buf[..len], saved, front, body, buf.Length);
      assert buf[..len][..saved] == head && buf[..len][saved + 1..] == tail;
      var n := len - saved - 1;
      if n < 128 {
        buf[saved] := n;
        assert buf[..len] == head + ([n] + tail);
      } else {
        if saved + 1 + n + 1 > buf.Length {
          overflow := true;
          return;
        }
        MoveUp(saved, n);
        assert !overflow ==> buf[..len] == front.value + (PatchedLength(|body|) + body);
      }
    }

    // ---- messages ---------------------------------------------------------------------

    method EncodeKey(e: Elem)
      requires Valid()
      modifies this, buf
      ensures Valid() && len >= old(len) && Written() == Append(old(Written()), Nested(2, KeyBody(e)), buf.Length)
    {
      hide Append, LenField, Front, PatchedLength, Nested;
      ghost var o, cap := Written(), buf.Length;
      ghost var front := Front(o, 2, cap);
      var saved := BeginNested(2);
      PutString(1, e.keyName);
      PutString(2, e.keyValue);
      AppendTwice(Append(front, [0], cap), LenField(1, e.keyName), LenField(2, e.keyValue), cap);
      EndNested(saved, front, KeyBody(e));
      NestedAppend(o, 2, KeyBody(e), cap);
    }

    method EncodeElem(e: Elem)
      requires Valid()
      modifies this, buf
      ensures Valid() && len >= old(len) && Written() == Append(old(Written()), Nested(3, ElemBody(e)), buf.Length)
    {
      hide Append, LenField, Front, PatchedLength, Nested, KeyBody;
      ghost var o, cap := Written(), buf.Length;
      ghost var front := Front(o, 3, cap);
      var saved := BeginNested(3);
      PutString(1, e.name);
      if e.hasKey {
        EncodeKey(e);
        AppendTwice(Append(front, [0], cap), LenField(1, e.name), Nested(2, KeyBody(e)), cap);
      } else {
        assert ElemBody(e) == LenField(1, e.name);
      }
      EndNested(saved, front, ElemBody(e));
      NestedAppend(o, 3, ElemBody(e), cap);
    }

    method EncodePath(field: nat, p: Path)
      requires Valid()
      modifies this, buf
      ensures Valid() && len >= old(len) && Written() == Append(old(Written()), Nested(field, PathBody(p)), buf.Length)
    {
      hide Append, LenField, Front, PatchedLength, Nested, ElemBody;
      ghost var o, cap := Written(), buf.Length;
      ghost var front := Front(o, field, cap);
      var saved := BeginNested(field);
      ghost var open := Append(front, [0], cap);
      if p.origin != [] {
        PutString(2, p.origin);
      } else {
        AppendNothing(open, cap, buf[..len], overflow);
      }
      assert OriginField(p) + ElemFields(p.elems[..0]) == OriginField(p);
      for i := 0 to |p.elems|
        invariant Valid() && saved <= len && old(len) <= len
        invariant Written() == Append(open, OriginField(p) + ElemFields(p.elems[..i]), cap)
      {
        EncodeElem(p.elems[i]);
        AppendTwice(open, OriginField(p) + ElemFields(p.elems[..i]), Nested(3, ElemBody(p.elems[i])), cap);
        assert p.elems[..i + 1][..i] == p.elems[..i];
        assert OriginField(p) + ElemFields(p.elems[..i + 1]) ==
               OriginField(p) + ElemFields(p.elems[..i]) + Nested(3, ElemBody(p.elems[i]));
      }
      assert p.elems[..|p.elems|] == p.elems;
      EndNested(saved, front, PathBody(p));
      NestedAppend(o, field, PathBody(p), cap);
    }

    method EncodeTypedValue(field: nat, v: Value)
      requires Valid() && (v.Int? ==> Int64(v.i))
      modifies this, buf
      ensures Valid() && len >= old(len) && Written() == Append(old(Written()), ValueField(field, v), buf.Length)
    {
      hide Append, LenField, VarField, Front, PatchedLength, Nested;
      ghost var o, cap := Written(), buf.Length;
      if v == Unset {
        AppendNothing(o, cap, buf[..len], overflow);
        return;
      }
      ghost var front := Front(o, field, cap);
      var saved := BeginNested(field);
      match v {
        case Unset =>
        case Text(kind, s) => PutString(kind, s);
        case Int(i) => PutScalar(2, Unsigned(i));
        case Uint(u) =>
          if u == 0 {
            AppendNothing(Append(front, [0], cap), cap, buf[..len], overflow);
          } else {
            PutScalar(3, u);
          }
        case Bool(b) => PutScalar(4, if b then 1 else 0);
      }
      EndNested(saved, front, ValueBody(v));
      NestedAppend(o, field, ValueBody(v), cap);
    }

    method EncodeUpdate(field: nat, u: Update)
      requires Valid() && (u.val.Int? ==> Int64(u.val.i))
      modifies this, buf
      ensures Valid() && len >= old(len)
      ensures Written() == Append(old(Written()), Nested(field, UpdateBody(u)), buf.Length)
    {
      hide Append, Front, PatchedLength, Nested, PathBody, ValueField;
      ghost var o, cap := Written(), buf.Length;
      ghost var front := Front(o, field, cap);
      var saved := BeginNested(field);
      EncodePath(1, u.path);
      EncodeTypedValue(3, u.val);
      AppendTwice(Append(front, [0], cap), Nested(1, PathBody(u.path)), ValueField(3, u.val), cap);
      EndNested(saved, front, UpdateBody(u));
      NestedAppend(o, field, UpdateBody(u), cap);
    }

    /** Makes room for a second length byte and fills in both. */
    method MoveUp(saved: nat, n: nat)
      requires len == saved + 1 + n < buf.Length
      modifies `len, buf
      ensures len == old(len) + 1
      ensures buf[..len] == old(buf[..saved]) + ([n % 128 + 128, n / 128 % 256] + old(buf[saved + 1..len]))
    {
      ghost var head, tail := buf[..saved], buf[saved + 1..len];
      forall i | 0 <= i < n { buf[saved + 2 + i] := buf[saved + 1 + i]; }
      buf[saved] := n % 128 + 128;
      buf[saved + 1] := n / 128 % 256;
      len := len + 1;
      assert buf[..saved] == head && buf[saved + 2..len] == tail;
    }
  }

  lemma SplitAtPlace(all: seq<byte>, saved: nat, front: Output, body: seq<byte>, cap: nat)
    requires saved < |all| <= cap
    ensures Some(all) == Append(Append(front, [0], cap), body, cap) && saved == |front.value| ==>
              all[..saved] == front.value && all[saved + 1..] == body
  {
  }
}
