/** The message reader: a position that moves over the bytes, and an error that sticks. */
module GnmiReader {
  import opened Bytes
  import opened Gnmi
  import opened GnmiSkip
  import opened Protobuf

  class Reader {
    const data: seq<byte>
    var pos: nat
    var err: bool

    ghost predicate Valid() reads this { !err ==> pos <= |data| }

    /** What is left to read, or nothing after an error. */
    ghost function Left(): Option<seq<byte>>
      requires Valid()
      reads this
    {
      if err then None else Some(data[pos..])
    }

    constructor (d: seq<byte>)
      ensures Valid() && Left() == Some(d) && pos == 0
    {
      data, pos, err := d, 0, false;
    }

    method ReadVarint() returns (v: nat)
      requires Valid() && !err
      modifies this
      ensures Valid()
      ensures match Varint(old(Left()).value)
              case None => err
              case Some((n, rest)) => v == n && Left() == Some(rest)
    {
      hide Shl;
      ghost var s := Left().value;
      v := 0;
      var shift: nat := 0;
      while shift < 64
        invariant !err && pos <= |data| && Varint(s) == VarintFrom(data[pos..], v, shift)
        decreases 64 - shift
      {
        if pos >= |data| {
          err := true;
          return 0;
        }
        var b := data[pos];
        pos := pos + 1;
        v := v + Shl(b % 128, shift) % U64;
        if b < 128 { return; }
        shift := shift + 7;
      }
      err := true;
      return 0;
    }

    /** The next field number, 0 at the end and after an error. */
    method NextTag() returns (field: nat, wire: nat)
      requires Valid() && !err
      modifies this
      ensures Valid() && (pos > old(pos) || field == 0)
      ensures match ReadTag(old(Left()).value)
              case Stop => field == 0 && !err
              case Broken => field == 0 && err
              case Tag(f, w, rest) => field == f != 0 && wire == w && Left() == Some(rest)
    {
      hide Varint;
      if pos >= |data| { return 0, 0; }
      var t := ReadVarint();
      if err { return 0, 0; }
      return t / 8 % 0x1_0000_0000, t % 8;
    }

    method ReadBytes() returns (d: seq<byte>)
      requires Valid() && !err
      modifies this
      ensures Valid()
      ensures match TakeBytes(old(Left()).value)
              case None => err
              case Some((b, rest)) => d == b && Left() == Some(rest)
    {
      hide Varint;
      var n := ReadVarint();
      if err || pos + n > |data| {
        err := true;
        return [];
      }
      d := data[pos..pos + n];
      assert data[pos..][..n] == d && data[pos..][n..] == data[pos + n..];
      pos := pos + n;
    }

    /** Skips as the wire format asks, which is what the 64-bit sum does unless it wraps around. */
    method SkipField(wire: nat)
      requires Valid() && !err
      modifies this
      ensures Valid() && Left() == Skip(old(Left()).value, wire)
      ensures |data| < MAX_OBJECT ==>
                ((if err then None else Some(pos)) == SkipIn64(data, old(pos), wire) <==> !Wraps(data, old(pos), wire))
    {
      hide Varint, TakeBytes, SkipIn64, Wraps;
      if |data| < MAX_OBJECT { SkipAgreesIff(data, pos, wire); }
      match wire {
        case 0 => var _ := ReadVarint();
        case 1 => pos := pos + 8;
        case 2 => var _ := ReadBytes();
        case 5 => pos := pos + 4;
        case _ => err := true;
      }
      if pos > |data| { err := true; }
    }
  }

  // ---- messages ---------------------------------------------------------------------------

  /** What `copy` leaves in a C buffer of `size`. */
  method Copy(d: seq<byte>, size: nat) returns (s: seq<byte>)
    requires size > 0
    ensures s == Clip(d, size)
  {
    var c := if |d| < size - 1 then |d| else size - 1;
    assert |d| < size - 1 ==> d[..c] == d;
    s := CString(d[..c]);
  }

  method ReadKey(d: seq<byte>) returns (r: Option<(seq<byte>, seq<byte>)>)
    ensures r == DecodeKey(d, [], [])
  {
    hide ReadTag, TakeBytes, Skip, Clip;
    var rd := new Reader(d);
    var name, value := [], [];
    while true
      invariant fresh(rd) && rd.Valid() && !rd.err && rd.data == d
      invariant DecodeKey(d, [], []) == DecodeKey(rd.Left().value, name, value)
      decreases |d| - rd.pos
    {
      ghost var left := rd.Left().value;
      Shorter(left);
      var field, wire := rd.NextTag();
      if field == 0 { return Some((name, value)); }
      if field == 1 || field == 2 {
        var b := rd.ReadBytes();
        if rd.err { return None; }
        var s := Copy(b, MAX_NAME);
        if field == 1 { name := s; } else { value := s; }
      } else {
        rd.SkipField(wire);
        if rd.err { return None; }
      }
    }
  }

  /** Each turn of a decoder leaves less to read. */
  lemma Shorter(s: seq<byte>)
    ensures ReadTag(s).Tag? ==> |ReadTag(s).rest| < |s|
    ensures ReadTag(s).Tag? && TakeBytes(ReadTag(s).rest).Some? ==> |TakeBytes(ReadTag(s).rest).value.1| < |s|
    ensures ReadTag(s).Tag? && Skip(ReadTag(s).rest, ReadTag(s).wire).Some? ==>
              |Skip(ReadTag(s).rest, ReadTag(s).wire).value| < |s|
  {
  }

  method ReadElem(d: seq<byte>) returns (r: Option<Elem>)
    ensures r == DecodeElem(d, NO_ELEM)
  {
    hide ReadTag, TakeBytes, Skip, Clip, DecodeKey;
    var rd := new Reader(d);
    var e := NO_ELEM;
    while true
      invariant fresh(rd) && rd.Valid() && !rd.err && rd.data == d
      invariant DecodeElem(d, NO_ELEM) == DecodeElem(rd.Left().value, e)
      decreases |d| - rd.pos
    {
      ghost var left := rd.Left().value;
      Shorter(left);
      var field, wire := rd.NextTag();
      if field == 0 { return Some(e); }
      if field == 1 && wire == 2 {
        var b := rd.ReadBytes();
        if rd.err { return None; }
        var s := Copy(b, MAX_NAME);
        e := e.(name := s);
      } else if field == 2 && wire == 2 {
        var b := rd.ReadBytes();
        if rd.err { return None; }
        var key := ReadKey(b);
        if key.None? { return None; }
        e := e.(keyName := key.value.0, keyValue := key.value.1, hasKey := key.value.0 != []);
      } else {
        rd.SkipField(wire);
        if rd.err { return Some(e); }
      }
    }
  }

  method ReadPath(d: seq<byte>) returns (r: Option<Path>)
    ensures r == DecodePath(d, NO_PATH)
  {
    hide ReadTag, TakeBytes, Skip, Clip, DecodeElem;
    var rd := new Reader(d);
    var p := NO_PATH;
    while true
      invariant fresh(rd) && rd.Valid() && !rd.err && rd.data == d
      invariant DecodePath(d, NO_PATH) == DecodePath(rd.Left().value, p)
      decreases |d| - rd.pos
    {
      ghost var left := rd.Left().value;
      Shorter(left);
      var field, wire := rd.NextTag();
      if field == 0 {
        if rd.err { return None; }
        return Some(p);
      }
      if field == 2 {
        var b := rd.ReadBytes();
        if rd.err { return None; }
        var s := Copy(b, MAX_ORIGIN);
        p := p.(origin := s);
      } else if field == 3 {
        var b := rd.ReadBytes();
        if rd.err || |p.elems| >= MAX_ELEMS { return None; }
        var e := ReadElem(b);
        if e.None? { return None; }
        p := p.(elems := p.elems + [e.value]);
      } else {
        rd.SkipField(wire);
        if rd.err { return None; }
      }
    }
  }

  method ReadValue(d: seq<byte>) returns (r: Option<Value>)
    ensures r == DecodeValue(d, Unset)
  {
    hide ReadTag, TakeBytes, Skip, Varint, Clip, Signed;
    var rd := new Reader(d);
    var val := Unset;
    while true
      invariant fresh(rd) && rd.Valid() && !rd.err && rd.data == d
      invariant DecodeValue(d, Unset) == DecodeValue(rd.Left().value, val)
      decreases |d| - rd.pos
    {
      ghost var left := rd.Left().value;
      Shorter(left);
      var field, wire := rd.NextTag();
      if field == 0 { return if val == Unset then None else Some(val); }
      if TextKind(field) {
        var b := rd.ReadBytes();
        if rd.err { return None; }
        var s := Copy(b, MAX_VAL);
        val := Text(field, s);
      } else if 2 <= field <= 4 {
        var v := rd.ReadVarint();
        if rd.err { return None; }
        val := Scalar(field, v);
      } else {
        rd.SkipField(wire);
        if rd.err { return None; }
      }
    }
  }

  method ReadUpdate(d: seq<byte>) returns (r: Option<Update>)
    ensures r == DecodeUpdate(d, NO_UPDATE)
  {
    hide ReadTag, TakeBytes, Skip, DecodePath, DecodeValue;
    var rd := new Reader(d);
    var u := NO_UPDATE;
    while true
      invariant fresh(rd) && rd.Valid() && !rd.err && rd.data == d
      invariant DecodeUpdate(d, NO_UPDATE) == DecodeUpdate(rd.Left().value, u)
      decreases |d| - rd.pos
    {
      ghost var left := rd.Left().value;
      Shorter(left);
      var field, wire := rd.NextTag();
      if field == 0 {
        if rd.err { return None; }
        return Some(u);
      }
      if field == 1 {
        var b := rd.ReadBytes();
        if rd.err { return None; }
        var p := ReadPath(b);
        if p.None? { return None; }
        u := u.(path := p.value);
      } else if field == 3 {
        var b := rd.ReadBytes();
        if rd.err { return None; }
        var v := ReadValue(b);
        if v.None? { return None; }
        u := u.(val := v.value);
      } else {
        rd.SkipField(wire);
        if rd.err { return None; }
      }
    }
  }

  method ReadField(field: nat, d: seq<byte>, q: SetRequest) returns (r: Option<SetRequest>)
    requires 1 <= field <= 4
    ensures r == TakeField(field, d, q)
  {
    hide DecodePath, DecodeUpdate;
    if field == 1 {
      var p := ReadPath(d);
      return if p.None? then None else Some(q.(prefix := p.value));
    } else if field == 2 {
      if |q.deletes| >= MAX_ELEMS { return None; }
      var p := ReadPath(d);
      return if p.None? then None else Some(q.(deletes := q.deletes + [p.value]));
    } else if field == 3 {
      if |q.replacements| >= MAX_UPDATES { return None; }
      var u := ReadUpdate(d);
      return if u.None? then None else Some(q.(replacements := q.replacements + [u.value]));
    } else {
      if |q.updates| >= MAX_UPDATES { return None; }
      var u := ReadUpdate(d);
      return if u.None? then None else Some(q.(updates := q.updates + [u.value]));
    }
  }

  method ReadSetRequest(d: seq<byte>) returns (r: Option<SetRequest>)
    ensures r == DecodeSetRequest(d, NO_REQUEST)
    ensures |d| < MAX_OBJECT && !Meets(d, 0, NO_REQUEST) ==> Turns(d, |d| + 1, 0, NO_REQUEST) == Returns(r)
  {
    hide ReadTag, TakeBytes, Skip, TakeField, Meets, Turns;
    if |d| < MAX_OBJECT && !Meets(d, 0, NO_REQUEST) {
      ReturnsWithoutWrap(d, |d| + 1, 0, NO_REQUEST);
      assert d[0..] == d;
    }
    var rd := new Reader(d);
    var q := NO_REQUEST;
    while true
      invariant fresh(rd) && rd.Valid() && !rd.err && rd.data == d
      invariant DecodeSetRequest(d, NO_REQUEST) == DecodeSetRequest(rd.Left().value, q)
      decreases |d| - rd.pos
    {
      ghost var left := rd.Left().value;
      Shorter(left);
      var field, wire := rd.NextTag();
      if field == 0 {
        if rd.err { return None; }
        return Some(q);
      }
      if 1 <= field <= 4 {
        var b := rd.ReadBytes();
        if rd.err { return None; }
        var next := ReadField(field, b, q);
        if next.None? { return None; }
        q := next.value;
      } else {
        rd.SkipField(wire);
        if rd.err { return None; }
      }
    }
  }
}
