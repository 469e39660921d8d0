/**
 * Reading a counter from the shared statistics segment while another process writes it. The writer
 * raises a flag, changes the contents, moves the epoch on and lowers the flag; the reader reads
 * without locking and keeps the result only if flag and epoch say that no writer interfered.
 */
module StatSegment {
  import opened Bytes

  const SCALAR: nat := 1
  const SIMPLE: nat := 2
  const COMBINED: nat := 3
  const MAX_DIR: nat := 65536
  const MAX_SPINS: nat := 1000
  const MAX_WORKERS: nat := 4096
  const U64: nat := 0x1_0000_0000_0000_0000

  const ENTRY_SIZE: nat := 32
  const MAX_NAME: nat := 256

  /** The bytes of the segment behind its flag and epoch; the reader supposes there are `size` of them. */
  type Memory = seq<byte>

  /** The name asked for, without the zero byte that ends it. */
  type Text = s: seq<byte> | 0 !in s witness []

  // ---- loads ----------------------------------------------------------------------------

  function ByteAt(m: Memory, a: nat): byte { if a < |m| then m[a] else 0 }

  /** The `n` bytes at `a`, least significant first. */
  function Word(m: Memory, a: nat, n: nat): nat
    decreases n
  {
    if n == 0 then 0 else ByteAt(m, a) as nat + 256 * Word(m, a + 1, n - 1)
  }

  /** The element count in front of a vector. */
  function LengthAt(m: Memory, vector: nat): nat { if vector < 4 then 0 else Word(m, vector - 4, 4) }

  /** Whether `need` bytes at `offset` lie in the segment; the sum is one of 64 bits. */
  predicate Inside(size: nat, offset: nat, need: nat) { offset != 0 && (offset + need) % U64 <= size }

  // ---- what a name stands for, in contents that hold still ------------------------------

  function DirOffset(m: Memory): nat { Word(m, 24, 8) }

  function Kind(m: Memory, e: nat): nat { Word(m, e, 4) }
  function Value(m: Memory, e: nat): nat { Word(m, e + 8, 8) }
  function Vector(m: Memory, e: nat): nat { Word(m, e + 16, 8) }
  function NameOffset(m: Memory, e: nat): nat { Word(m, e + 24, 8) }

  function EntryAt(dir: nat, i: nat): nat { dir + i * ENTRY_SIZE }

  /** The number of entries of the directory; none if it does not lie in the segment. */
  function DirCount(m: Memory, size: nat): nat {
    var dir := DirOffset(m);
    if !Inside(size, dir, 0) then 0
    else
      var n := LengthAt(m, dir);
      if n > MAX_DIR || !Inside(size, (dir + n * ENTRY_SIZE) % U64, 0) then 0 else n
  }

  /** What worker `i` counts in the cell `index`; nothing where it keeps no cell. */
  function CellOf(m: Memory, size: nat, vector: nat, index: nat, i: nat): nat {
    var offset := Word(m, vector + 8 * i, 8);
    if Inside(size, offset, (index + 1) % U64 * 8 % U64) then Word(m, offset + 8 * index, 8) else 0
  }

  function Total(m: Memory, size: nat, vector: nat, index: nat, n: nat): nat {
    if n == 0 then 0 else Total(m, size, vector, index, n - 1) + CellOf(m, size, vector, index, n - 1)
  }

  /** The counter of the entry at `e`: its own value, or the total over the workers in 64 bits. */
  function CounterValue(m: Memory, size: nat, e: nat): Option<nat> {
    var vector := Vector(m, e);
    var n := LengthAt(m, vector);
    if Kind(m, e) == SCALAR then Some(Value(m, e))
    else if vector == 0 || !Inside(size, vector, 4) || n > MAX_WORKERS then None
    else if !Inside(size, (vector + n * 8) % U64, 0) then None
    else Some(Total(m, size, vector, Value(m, e), n) % U64)
  }

  /** The text at `a` is `name`, closed by a zero byte. */
  predicate Spells(m: Memory, a: nat, name: Text) {
    ByteAt(m, a + |name|) == 0 && forall j :: 0 <= j < |name| ==> ByteAt(m, a + j) == name[j]
  }

  predicate Countable(kind: nat) { kind == SCALAR || kind == SIMPLE || kind == COMBINED }

  /** The entry at `e` is a counter of this name, which must end in the segment and within 256 bytes. */
  predicate Named(m: Memory, size: nat, e: nat, name: Text) {
    var a := NameOffset(m, e);
    && Countable(Kind(m, e)) && a != 0 && Inside(size, a, 1)
    && a + |name| < size && |name| < MAX_NAME && Spells(m, a, name)
  }

  function LookupFrom(m: Memory, size: nat, dir: nat, count: nat, name: Text, i: nat): Option<nat>
    decreases count - i
  {
    if i >= count then None
    else if Named(m, size, EntryAt(dir, i), name) then CounterValue(m, size, EntryAt(dir, i))
    else LookupFrom(m, size, dir, count, name, i + 1)
  }

  /** The counter of the first entry of this name. */
  function Lookup(m: Memory, size: nat, name: Text): Option<nat> {
    LookupFrom(m, size, DirOffset(m), DirCount(m, size), name, 0)
  }

  predicate IsFirst(m: Memory, size: nat, dir: nat, name: Text, i: nat) {
    Named(m, size, EntryAt(dir, i), name) && forall j :: 0 <= j < i ==> !Named(m, size, EntryAt(dir, j), name)
  }

  /** A name stands for `v` exactly when `v` is the counter of the first entry that bears it. */
  lemma LookupMeaning(m: Memory, size: nat, name: Text, v: nat)
    ensures Lookup(m, size, name) == Some(v) <==>
            exists i :: 0 <= i < DirCount(m, size) && IsFirst(m, size, DirOffset(m), name, i)
                        && CounterValue(m, size, EntryAt(DirOffset(m), i)) == Some(v)
  {
    hide DirOffset, DirCount, Named, CounterValue, EntryAt;
    LookupFromMeaning(m, size, DirOffset(m), DirCount(m, size), name, 0, v);
  }

  lemma {:induction false} LookupFromMeaning(
    m: Memory, size: nat, dir: nat, count: nat, name: Text, from: nat, v: nat)
    requires forall j :: 0 <= j < from ==> !Named(m, size, EntryAt(dir, j), name)
    ensures LookupFrom(m, size, dir, count, name, from) == Some(v) <==>
            exists i :: 0 <= i < count && IsFirst(m, size, dir, name, i)
                        && CounterValue(m, size, EntryAt(dir, i)) == Some(v)
    decreases count - from
  {
    hide Named, CounterValue, EntryAt;
    if from < count {
      if Named(m, size, EntryAt(dir, from), name) {
        assert IsFirst(m, size, dir, name, from);
        assert forall i :: 0 <= i < count && IsFirst(m, size, dir, name, i) ==> i == from;
      } else {
        LookupFromMeaning(m, size, dir, count, name, from + 1, v);
      }
    } else {
      assert forall i :: 0 <= i < count ==> !IsFirst(m, size, dir, name, i);
    }
  }

  // ---- the writer ------------------------------------------------------------------------

  datatype Phase = Idle | Writing | Bumped

  datatype Segment = Segment(phase: Phase, epoch: nat, content: Memory)

  predicate Busy(s: Segment) { s.phase != Idle }

  predicate WriterStep(s: Segment, t: Segment) {
    || s == t
    || (s.phase == Idle && t == s.(phase := Writing))
    || (s.phase == Writing && t == s.(content := t.content))
    || (s.phase == Writing && t == s.(phase := Bumped, epoch := s.epoch + 1))
    || (s.phase == Bumped && t == s.(phase := Idle))
  }

  predicate StepAt(w: nat -> Segment, t: nat) { WriterStep(w(t), w(t + 1)) }

  /** A history of the segment, moment by moment. */
  ghost predicate History(w: nat -> Segment) { forall t :: StepAt(w, t) }

  lemma {:induction false} EpochGrows(w: nat -> Segment, a: nat, b: nat)
    requires History(w) && a <= b
    ensures w(a).epoch <= w(b).epoch
    decreases b - a
  {
    if a < b {
      assert StepAt(w, a);
      EpochGrows(w, a + 1, b);
    }
  }

  /** A writer cannot finish without moving the epoch on. */
  lemma {:induction false} FinishingMovesEpoch(w: nat -> Segment, a: nat, b: nat)
    requires History(w) && a <= b && w(a).phase == Writing && w(b).phase != Writing
    ensures w(a).epoch < w(b).epoch
    decreases b - a
  {
    assert StepAt(w, a);
    if w(a + 1).phase == Writing {
      FinishingMovesEpoch(w, a + 1, b);
    } else {
      EpochGrows(w, a + 1, b);
    }
  }

  /** If the flag is down at `b` and the epoch unmoved from `a` to some later `c`, nothing changed. */
  lemma {:induction false} SteadyBetween(w: nat -> Segment, a: nat, t: nat, b: nat, c: nat)
    requires History(w) && a <= t <= b <= c && !Busy(w(b)) && w(a).epoch == w(c).epoch
    ensures w(t).content == w(b).content
    decreases b - t
  {
    EpochGrows(w, a, t);
    EpochGrows(w, b, c);
    if w(t).phase == Writing {
      FinishingMovesEpoch(w, t, b);
      assert false;
    }
    if t < b {
      assert StepAt(w, t);
      SteadyBetween(w, a, t + 1, b, c);
    }
  }

  // ---- the reader --------------------------------------------------------------------------

  /** The moment of each load the reader makes; later loads are not earlier. */
  ghost predicate Schedule(at: nat -> nat) { forall i, j :: 0 <= i <= j ==> at(i) <= at(j) }

  /** Every load from the `k`th up to the `n`th sees the contents `c`. */
  ghost predicate Sees(w: nat -> Segment, at: nat -> nat, k: nat, n: nat, c: Memory) {
    forall j :: k <= j < n ==> w(at(j)).content == c
  }

  /** What the `k`th load sees. */
  function Load(w: nat -> Segment, at: nat -> nat, k: nat): Memory { w(at(k)).content }

  method FirstOfDir(w: nat -> Segment, at: nat -> nat, k0: nat, size: nat, ghost c: Memory)
    returns (dir: nat, count: nat, k: nat)
    ensures k > k0
    ensures Sees(w, at, k0, k, c) ==> dir == DirOffset(c) && count == DirCount(c, size)
  {
    hide Word;
    dir, count, k := DirOffset(Load(w, at, k0)), 0, k0 + 1;
    if !Inside(size, dir, 0) { return; }
    var n := LengthAt(Load(w, at, k), dir);
    k := k + 1;
    if n == 0 || n > MAX_DIR { return; }
    var again := DirOffset(Load(w, at, k));
    k := k + 1;
    if Inside(size, (again + n * ENTRY_SIZE) % U64, 0) { count := n; }
  }

  /** The text at `a` is closed at its `n`th byte. */
  predicate EndsAt(m: Memory, a: nat, n: nat) {
    ByteAt(m, a + n) == 0 && forall j :: a <= j < a + n ==> ByteAt(m, j) != 0
  }

  predicate Nameless(m: Memory, size: nat, a: nat) {
    a == 0 || !Inside(size, a, 1) || forall j :: a <= j < size && j - a < MAX_NAME ==> ByteAt(m, j) != 0
  }

  /** The place of an entry's name, if it ends in the segment and within 256 bytes. */
  method EntryName(w: nat -> Segment, at: nat -> nat, k0: nat, size: nat, e: nat, ghost c: Memory)
    returns (a: Option<nat>, k: nat)
    ensures k > k0
    ensures Sees(w, at, k0, k, c) && a.Some? ==>
              && a.value == NameOffset(c, e) && a.value != 0 && Inside(size, a.value, 1)
              && exists n: nat :: n < MAX_NAME && a.value + n < size && EndsAt(c, a.value, n)
    ensures Sees(w, at, k0, k, c) && a.None? ==> Nameless(c, size, NameOffset(c, e))
  {
    hide Word;
    var place := NameOffset(Load(w, at, k0), e);
    k := k0 + 1;
    if place == 0 { return None, k; }
    place := NameOffset(Load(w, at, k), e);
    k := k + 1;
    if !Inside(size, place, 1) { return None, k; }
    var p := place;
    while p < size && p - place < MAX_NAME
      invariant k > k0 && place <= p
      invariant Sees(w, at, k0, k, c) ==> place == NameOffset(c, e) && place != 0
      invariant Sees(w, at, k0, k, c) ==> forall j :: place <= j < p ==> ByteAt(c, j) != 0
    {
      var b := ByteAt(Load(w, at, k), p);
      k := k + 1;
      if b == 0 {
        assert Sees(w, at, k0, k, c) ==> EndsAt(c, place, p - place);
        return Some(place), k;
      }
      p := p + 1;
    }
    return None, k;
  }

  /** A name that ends is spelled by no other text; a nameless place spells none. */
  lemma NameEnds(m: Memory, size: nat, a: nat, name: Text)
    requires Spells(m, a, name)
    ensures forall n: nat :: EndsAt(m, a, n) ==> n == |name|
    ensures a + |name| < size && |name| < MAX_NAME ==>
              exists j :: a <= j < size && j - a < MAX_NAME && ByteAt(m, j) == 0
  {
    forall n: nat ensures EndsAt(m, a, n) ==> n == |name| {
      SameEnd(m, a, name, n);
    }
    assert ByteAt(m, a + |name|) == 0;
  }

  lemma SameEnd(m: Memory, a: nat, name: Text, n: nat)
    requires Spells(m, a, name)
    ensures EndsAt(m, a, n) ==> n == |name|
  {
    if n < |name| {
      assert name[n] in name && ByteAt(m, a + n) != 0;
    } else if n > |name| {
      var z := a + |name|;
      assert a <= z < a + n && ByteAt(m, z) == 0;
    }
  }

  /** strcmp: the bytes at `a` are read until they differ from the name or it ends. */
  method SameText(w: nat -> Segment, at: nat -> nat, k0: nat, a: nat, name: Text, ghost c: Memory)
    returns (same: bool, k: nat)
    ensures k > k0
    ensures Sees(w, at, k0, k, c) ==> same == Spells(c, a, name)
  {
    k := k0;
    for i := 0 to |name|
      invariant k == k0 + i
      invariant Sees(w, at, k0, k, c) ==> forall j :: 0 <= j < i ==> ByteAt(c, a + j) == name[j]
    {
      var b := ByteAt(Load(w, at, k), a + i);
      k := k + 1;
      if b != name[i] { return false, k; }
    }
    var last := ByteAt(Load(w, at, k), a + |name|);
    return last == 0, k + 1;
  }

  method ReadSimpleCounter(w: nat -> Segment, at: nat -> nat, k0: nat, size: nat, e: nat, ghost c: Memory)
    returns (r: Option<nat>, k: nat)
    ensures k >= k0
    ensures Sees(w, at, k0, k, c) && Kind(c, e) != SCALAR ==> r == CounterValue(c, size, e)
  {
    hide Word, CellOf;
    k := k0;
    var vector := Vector(Load(w, at, k), e);
    k := k + 1;
    if vector == 0 { return None, k; }
    vector := Vector(Load(w, at, k), e);
    k := k + 1;
    if !Inside(size, vector, 4) { return None, k; }
    var n := LengthAt(Load(w, at, k), vector);
    k := k + 1;
    if n > MAX_WORKERS { return None, k; }
    var again := Vector(Load(w, at, k), e);
    k := k + 1;
    if !Inside(size, (again + n * 8) % U64, 0) { return None, k; }
    var index := Value(Load(w, at, k), e);
    k := k + 1;
    ghost var k1 := k;
    assert Sees(w, at, k0, k1, c) ==> vector == Vector(c, e) && n == LengthAt(c, vector) && index == Value(c, e);
    var sum: nat := 0;
    for i := 0 to n
      invariant k >= k1
      invariant Sees(w, at, k0, k, c) ==> sum == Total(c, size, vector, index, i) % U64
    {
      ghost var before := k;
      var cell, next := ReadCell(w, at, k, size, vector, index, i, c);
      k := next;
      assert Sees(w, at, k0, k, c) ==> Sees(w, at, k0, before, c) && Sees(w, at, before, k, c);
      ghost var rest := Total(c, size, vector, index, i);
      AddsIn64(rest, cell);
      sum := (sum + cell) % U64;
    }
    assert Sees(w, at, k0, k, c) ==> Sees(w, at, k0, k1, c);
    return Some(sum), k;
  }

  lemma AddsIn64(a: nat, b: nat)
    ensures (a % U64 + b) % U64 == (a + b) % U64
  {
    var q := a / U64;
    assert a + b == a % U64 + b + q * U64;
  }

  method ReadCell(
    w: nat -> Segment, at: nat -> nat, k0: nat, size: nat, vector: nat, index: nat, i: nat, ghost c: Memory)
    returns (cell: nat, k: nat)
    ensures k > k0
    ensures Sees(w, at, k0, k, c) ==> cell == CellOf(c, size, vector, index, i)
  {
    hide Word;
    var offset := Word(Load(w, at, k0), vector + 8 * i, 8);
    k := k0 + 1;
    if offset == 0 { return 0, k; }
    offset := Word(Load(w, at, k), vector + 8 * i, 8);
    k := k + 1;
    if !Inside(size, offset, (index + 1) % U64 * 8 % U64) { return 0, k; }
    cell := Word(Load(w, at, k), offset + 8 * index, 8);
    k := k + 1;
  }

  /** One entry: whether it is the counter asked for. */
  method IsNamed(w: nat -> Segment, at: nat -> nat, k0: nat, size: nat, e: nat, name: Text, ghost c: Memory)
    returns (named: bool, k: nat)
    ensures k > k0
    ensures Sees(w, at, k0, k, c) ==> named == Named(c, size, e, name)
  {
    hide Word;
    var kind := Kind(Load(w, at, k0), e);
    k := k0 + 1;
    if kind != SCALAR {
      kind := Kind(Load(w, at, k), e);
      k := k + 1;
    }
    if kind != SCALAR && kind != SIMPLE {
      kind := Kind(Load(w, at, k), e);
      k := k + 1;
    }
    ghost var k1 := k;
    assert Sees(w, at, k0, k1, c) ==> Kind(c, e) == kind;
    if !Countable(kind) { return false, k; }
    var a;
    a, k := EntryName(w, at, k, size, e, c);
    ghost var k2 := k;
    assert Sees(w, at, k0, k, c) ==> Sees(w, at, k0, k1, c) && Sees(w, at, k1, k, c);
    if Spells(c, NameOffset(c, e), name) { NameEnds(c, size, NameOffset(c, e), name); }
    if a.None? { return false, k; }
    named, k := SameText(w, at, k, a.value, name, c);
    assert Sees(w, at, k0, k, c) ==> Sees(w, at, k0, k1, c) && Sees(w, at, k1, k2, c) && Sees(w, at, k2, k, c);
  }

  /** One pass over the directory; it counts for something only if the contents held still. */
  method Scan(w: nat -> Segment, at: nat -> nat, k0: nat, size: nat, name: Text, ghost c: Memory)
    returns (r: Option<nat>, k: nat)
    ensures k > k0
    ensures Sees(w, at, k0, k, c) ==> r == Lookup(c, size, name)
  {
    hide CounterValue, Named, DirCount, DirOffset, EntryAt, Kind, Value;
    var dir, count;
    dir, count, k := FirstOfDir(w, at, k0, size, c);
    for i := 0 to count
      invariant k > k0
      invariant Sees(w, at, k0, k, c) ==> Lookup(c, size, name) == LookupFrom(c, size, dir, count, name, i)
    {
      var e := EntryAt(dir, i);
      ghost var k1 := k;
      var named;
      named, k := IsNamed(w, at, k, size, e, name, c);
      assert Sees(w, at, k0, k, c) ==> Sees(w, at, k0, k1, c) && Sees(w, at, k1, k, c);
      if named {
        ghost var k2 := k;
        var kind := Kind(Load(w, at, k), e);
        if kind == SCALAR {
          r, k := Some(Value(Load(w, at, k + 1), e)), k + 2;
          ScalarValue(c, size, e);
        } else {
          r, k := ReadSimpleCounter(w, at, k + 1, size, e, c);
        }
        assert Sees(w, at, k0, k, c) ==> Sees(w, at, k0, k2, c) && Sees(w, at, k2, k, c) && Sees(w, at, k2 + 1, k, c);
        return;
      }
    }
    return None, k;
  }

  lemma ScalarValue(m: Memory, size: nat, e: nat)
    ensures Kind(m, e) == SCALAR ==> CounterValue(m, size, e) == Some(Value(m, e))
  {
  }

  /** Some load saw the writer, or the epoch moved, between the `k`th and the `n`th. */
  ghost predicate Disturbed(w: nat -> Segment, at: nat -> nat, k: nat, n: nat) {
    exists i, j :: k <= i <= j < n && (Busy(w(at(i))) || w(at(i)).epoch != w(at(j)).epoch)
  }

  /** The loads of one attempt after another, each attempt disturbed. */
  ghost predicate AllDisturbed(w: nat -> Segment, at: nat -> nat, starts: seq<nat>) {
    forall i :: 0 <= i < |starts| - 1 ==> starts[i] < starts[i + 1] && Disturbed(w, at, starts[i], starts[i + 1])
  }

  /** A thousand attempts before the `k`th load, each of them disturbed. */
  ghost predicate Exhausted(w: nat -> Segment, at: nat -> nat, k: nat) {
    exists starts: seq<nat> ::
      |starts| == 1001 && starts[0] == 0 && starts[1000] == k && AllDisturbed(w, at, starts)
  }

  /** At some moment from `lo` to `hi`, with no writer at work, `name` stood for `r`. */
  ghost predicate Observed(w: nat -> Segment, size: nat, lo: nat, hi: nat, name: Text, r: Option<nat>) {
    exists t :: lo <= t <= hi && !Busy(w(t)) && r == Lookup(w(t).content, size, name)
  }

  /**
   * A value is returned only if the name stood for it at one moment during the call, with no writer
   * at work; and the name is reported missing only if it was missing at such a moment, or each of
   * the thousand attempts was disturbed. `k` is the number of loads made.
   */
  method StatRead(w: nat -> Segment, at: nat -> nat, size: nat, name: Text) returns (r: Option<nat>, k: nat)
    requires History(w) && Schedule(at)
    ensures Observed(w, size, at(0), at(k), name, r) || (r == None && Exhausted(w, at, k))
  {
    hide Lookup, WriterStep;
    k := 0;
    ghost var starts := [0];
    for spin := 0 to MAX_SPINS
      invariant |starts| == spin + 1 && starts[0] == 0 && starts[spin] == k && AllDisturbed(w, at, starts)
    {
      ghost var start := k;
      var s := w(at(k));
      k := k + 1;
      if Busy(s) {
        assert Disturbed(w, at, start, k);
        starts := starts + [k];
        continue;
      }
      var epoch := w(at(k)).epoch;
      ghost var a := k;
      k := k + 1;
      r, k := Scan(w, at, k, size, name, w(at(a)).content);
      ghost var b := k;
      var settled := !Busy(w(at(k))) && w(at(k + 1)).epoch == epoch;
      k := k + 2;
      if settled {
        SeesSteady(w, at, a, b);
        assert at(0) <= at(b) <= at(k);
        return r, k;
      }
      assert Disturbed(w, at, start, k);
      starts := starts + [k];
    }
    return None, k;
  }

  lemma SeesSteady(w: nat -> Segment, at: nat -> nat, a: nat, b: nat)
    requires History(w) && Schedule(at) && a < b && !Busy(w(at(b))) && w(at(b + 1)).epoch == w(at(a)).epoch
    ensures Sees(w, at, a + 1, b, w(at(a)).content) && w(at(b)).content == w(at(a)).content
  {
    forall j | a <= j <= b ensures w(at(j)).content == w(at(b)).content {
      SteadyBetween(w, at(a), at(j), at(b), at(b + 1));
    }
  }
}
