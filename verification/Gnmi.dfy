/** gNMI paths, values, updates and set requests as protobuf messages. */
module Gnmi {
  import opened Bytes
  import opened Protobuf

  const MAX_ELEMS: nat := 8
  const MAX_UPDATES: nat := 16
  const MAX_NAME: nat := 64
  const MAX_VAL: nat := 256
  const MAX_ORIGIN: nat := 32

  datatype Elem = Elem(name: seq<byte>, hasKey: bool, keyName: seq<byte>, keyValue: seq<byte>)
  datatype Path = Path(origin: seq<byte>, elems: seq<Elem>)
  datatype Value = Unset | Text(kind: nat, s: seq<byte>) | Int(i: int) | Uint(u: nat) | Bool(b: bool)
  datatype Update = Update(path: Path, val: Value)
  datatype SetRequest = SetRequest(prefix: Path, deletes: seq<Path>, replacements: seq<Update>, updates: seq<Update>)

  const NO_ELEM := Elem([], false, [], [])
  const NO_PATH := Path([], [])
  const NO_UPDATE := Update(NO_PATH, Unset)
  const NO_REQUEST := SetRequest(NO_PATH, [], [], [])

  predicate TextKind(k: nat) { k == 1 || k == 10 || k == 11 || k == 12 }

  // ---- what the decoders make of the bytes --------------------------------------------------

  /** Bytes copied into a buffer of `size`, as a C string. */
  function Clip(d: seq<byte>, size: nat): seq<byte>
    requires size > 0
  {
    CString(if |d| < size - 1 then d else d[..size - 1])
  }

  function DecodeKey(s: seq<byte>, name: seq<byte>, value: seq<byte>): Option<(seq<byte>, seq<byte>)>
    decreases |s|
  {
    match ReadTag(s)
    case Stop => Some((name, value))
    case Broken => Some((name, value))
    case Tag(field, wire, rest) =>
      if field == 1 || field == 2 then
        match TakeBytes(rest)
        case None => None
        case Some((d, next)) =>
          if field == 1 then DecodeKey(next, Clip(d, MAX_NAME), value) else DecodeKey(next, name, Clip(d, MAX_NAME))
      else
        match Skip(rest, wire)
        case None => None
        case Some(next) => DecodeKey(next, name, value)
  }

  /** An element that breaks off, or has a field that cannot be skipped, is taken as it is so far. */
  function DecodeElem(s: seq<byte>, e: Elem): Option<Elem>
    decreases |s|
  {
    match ReadTag(s)
    case Stop => Some(e)
    case Broken => Some(e)
    case Tag(field, wire, rest) =>
      if field == 1 && wire == 2 then
        match TakeBytes(rest)
        case None => None
        case Some((d, next)) => DecodeElem(next, e.(name := Clip(d, MAX_NAME)))
      else if field == 2 && wire == 2 then
        match TakeBytes(rest)
        case None => None
        case Some((d, next)) =>
          (match DecodeKey(d, [], [])
           case None => None
           case Some((n, v)) => DecodeElem(next, e.(keyName := n, keyValue := v, hasKey := n != [])))
      else
        match Skip(rest, wire)
        case None => Some(e)
        case Some(next) => DecodeElem(next, e)
  }

  function DecodePath(s: seq<byte>, p: Path): Option<Path>
    decreases |s|
  {
    match ReadTag(s)
    case Stop => Some(p)
    case Broken => None
    case Tag(field, wire, rest) =>
      if field == 2 || field == 3 then
        match TakeBytes(rest)
        case None => None
        case Some((d, next)) =>
          if field == 2 then DecodePath(next, p.(origin := Clip(d, MAX_ORIGIN)))
          else if |p.elems| >= MAX_ELEMS then None
          else
            match DecodeElem(d, NO_ELEM)
            case None => None
            case Some(e) => DecodePath(next, p.(elems := p.elems + [e]))
      else
        match Skip(rest, wire)
        case None => None
        case Some(next) => DecodePath(next, p)
  }

  /** Two's complement in 64 bits. */
  function Signed(u: nat): int { if u < U64 / 2 then u else u - U64 }
  function Unsigned(i: int): nat
    requires 0 - U64 / 2 <= i < U64 / 2
  {
    if i < 0 then i + U64 else i
  }

  function Scalar(field: nat, v: nat): Value {
    if field == 2 then Int(Signed(v)) else if field == 3 then Uint(v) else Bool(v != 0)
  }

  function DecodeValue(s: seq<byte>, val: Value): Option<Value>
    decreases |s|
  {
    match ReadTag(s)
    case Stop => if val == Unset then None else Some(val)
    case Broken => if val == Unset then None else Some(val)
    case Tag(field, wire, rest) =>
      if TextKind(field) then
        match TakeBytes(rest)
        case None => None
        case Some((d, next)) => DecodeValue(next, Text(field, Clip(d, MAX_VAL)))
      else if 2 <= field <= 4 then
        match Varint(rest)
        case None => None
        case Some((v, next)) => DecodeValue(next, Scalar(field, v))
      else
        match Skip(rest, wire)
        case None => None
        case Some(next) => DecodeValue(next, val)
  }

  function DecodeUpdate(s: seq<byte>, u: Update): Option<Update>
    decreases |s|
  {
    match ReadTag(s)
    case Stop => Some(u)
    case Broken => None
    case Tag(field, wire, rest) =>
      if field == 1 || field == 3 then
        match TakeBytes(rest)
        case None => None
        case Some((d, next)) =>
          if field == 1 then
            match DecodePath(d, NO_PATH)
            case None => None
            case Some(p) => DecodeUpdate(next, u.(path := p))
          else
            match DecodeValue(d, Unset)
            case None => None
            case Some(v) => DecodeUpdate(next, u.(val := v))
      else
        match Skip(rest, wire)
        case None => None
        case Some(next) => DecodeUpdate(next, u)
  }

  /** What one field of a set request does to the request so far. */
  function TakeField(field: nat, d: seq<byte>, q: SetRequest): Option<SetRequest> {
    if field == 1 then (match DecodePath(d, NO_PATH) case Some(p) => Some(q.(prefix := p)) case None => None)
    else if field == 2 then
      if |q.deletes| >= MAX_ELEMS then None
      else match DecodePath(d, NO_PATH) case Some(p) => Some(q.(deletes := q.deletes + [p])) case None => None
    else if field == 3 then
      if |q.replacements| >= MAX_UPDATES then None
      else match DecodeUpdate(d, NO_UPDATE)
        case Some(u) => Some(q.(replacements := q.replacements + [u]))
        case None => None
    else
      if |q.updates| >= MAX_UPDATES then None
      else match DecodeUpdate(d, NO_UPDATE) case Some(u) => Some(q.(updates := q.updates + [u])) case None => None
  }

  function DecodeSetRequest(s: seq<byte>, q: SetRequest): Option<SetRequest>
    decreases |s|
  {
    match ReadTag(s)
    case Stop => Some(q)
    case Broken => None
    case Tag(field, wire, rest) =>
      if 1 <= field <= 4 then
        match TakeBytes(rest)
        case None => None
        case Some((d, next)) =>
          (match TakeField(field, d, q)
           case None => None
           case Some(q') => DecodeSetRequest(next, q'))
      else
        match Skip(rest, wire)
        case None => None
        case Some(next) => DecodeSetRequest(next, q)
  }

  // ---- what the encoders write ------------------------------------------------------------------

  function KeyBody(e: Elem): seq<byte> { LenField(1, e.keyName) + LenField(2, e.keyValue) }

  function ElemBody(e: Elem): seq<byte> {
    LenField(1, e.name) + if e.hasKey then Nested(2, KeyBody(e)) else []
  }

  function ElemFields(es: seq<Elem>): seq<byte> {
    if es == [] then [] else ElemFields(es[..|es| - 1]) + Nested(3, ElemBody(es[|es| - 1]))
  }

  function OriginField(p: Path): seq<byte> { if p.origin == [] then [] else LenField(2, p.origin) }

  function PathBody(p: Path): seq<byte> { OriginField(p) + ElemFields(p.elems) }

  predicate Int64(i: int) { 0 - U64 / 2 <= i < U64 / 2 }

  function ValueBody(v: Value): seq<byte>
    requires v.Int? ==> Int64(v.i)
  {
    match v
    case Unset => []
    case Text(kind, s) => LenField(kind, s)
    case Int(i) => VarField(2, Unsigned(i))
    case Uint(u) => if u == 0 then [] else VarField(3, u)
    case Bool(b) => VarField(4, if b then 1 else 0)
  }

  function ValueField(field: nat, v: Value): seq<byte>
    requires v.Int? ==> Int64(v.i)
  {
    if v == Unset then [] else Nested(field, ValueBody(v))
  }

  function UpdateBody(u: Update): seq<byte>
    requires u.val.Int? ==> Int64(u.val.i)
  {
    Nested(1, PathBody(u.path)) + ValueField(3, u.val)
  }

  // ---- what can be encoded at all ------------------------------------------------------------------

  /** Fits a C buffer of `size` with its terminator. */
  predicate Fits(s: seq<byte>, size: nat) { |s| < size && NulFree(s) }

  predicate FitElem(e: Elem) {
    Fits(e.name, MAX_NAME) && Fits(e.keyName, MAX_NAME) && Fits(e.keyValue, MAX_NAME)
  }

  /** A key has a name, and without a key there is no key text. */
  predicate ProperKey(e: Elem) { (e.hasKey <==> e.keyName != []) && (!e.hasKey ==> e.keyValue == []) }

  predicate GoodElem(e: Elem) { FitElem(e) && ProperKey(e) }

  predicate GoodPath(p: Path) {
    Fits(p.origin, MAX_ORIGIN) && |p.elems| <= MAX_ELEMS && forall i :: 0 <= i < |p.elems| ==> GoodElem(p.elems[i])
  }

  predicate GoodValue(v: Value) {
    match v
    case Unset => true
    case Text(kind, s) => TextKind(kind) && Fits(s, MAX_VAL)
    case Int(i) => Int64(i)
    case Uint(u) => u < U64
    case Bool(_) => true
  }

  predicate GoodUpdate(u: Update) { GoodPath(u.path) && GoodValue(u.val) }
}
