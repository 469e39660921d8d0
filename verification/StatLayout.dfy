/**
 * What the reader of the statistics segment finds in a segment laid out from a table of counters: each
 * name stands for its own value, or for the sum of its own cell over the workers.
 */
module StatLayout {
  import opened Base128
  import opened Bytes
  import Protobuf
  import opened StatSegment

  // ---- tables of counters ---------------------------------------------------------------------

  /** One directory entry: a value, a row of cells for each worker of which it is one, or no counter. */
  datatype Counter =
    | Gauge(name: Text, value: nat)
    | Cells(name: Text, kind: nat, index: nat, rows: seq<seq<nat>>)
    | Other(kind: nat)

  function Cell(row: seq<nat>, index: nat): nat { if index < |row| then row[index] else 0 }

  function Column(rows: seq<seq<nat>>, index: nat): nat {
    if rows == [] then 0 else Cell(rows[0], index) + Column(rows[1..], index)
  }

  function Reading(c: Counter): nat
    requires !c.Other?
  {
    match c
    case Gauge(_, v) => v
    case Cells(_, _, index, rows) => Column(rows, index) % 0x1_0000_0000_0000_0000
  }

  predicate Bears(c: Counter, name: Text) { !c.Other? && c.name == name }

  /** The reading of the first counter of this name. */
  function Answer(cs: seq<Counter>, name: Text): Option<nat> {
    if cs == [] then None else if Bears(cs[0], name) then Some(Reading(cs[0])) else Answer(cs[1..], name)
  }

  /** What fits the segment; every worker that keeps cells keeps the one the counter asks for. */
  predicate Fitting(c: Counter) {
    match c
    case Gauge(name, v) => |name| < 256 && v < 0x1_0000_0000_0000_0000
    case Cells(name, kind, index, rows) =>
      && |name| < 256 && (kind == 2 || kind == 3) && index < 0x1_0000_0000_0000_0000 && 0 < |rows| <= 4096
      && forall w :: 0 <= w < |rows| ==> FittingRow(rows[w], index)
    case Other(kind) => kind < 0x1_0000_0000 && kind != 1 && kind != 2 && kind != 3
  }

  predicate FittingRow(row: seq<nat>, index: nat) {
    && (row == [] || index < |row|)
    && forall k :: 0 <= k < |row| ==> row[k] < 0x1_0000_0000_0000_0000
  }

  // ---- where a table stands in memory ------------------------------------------------------------

  function Words(vs: seq<nat>): (s: seq<byte>)
    ensures |s| == 8 * |vs|
  {
    if vs == [] then [] else Little(vs[0], 8) + Words(vs[1..])
  }

  predicate NameAt(m: Memory, e: nat, name: Text, a: nat) {
    0 < a && At(m, e + 24, Little(a, 8)) && At(m, a, name + [0])
  }

  predicate RowAt(m: Memory, a: nat, row: seq<nat>) {
    if row == [] then a == 0 else 0 < a && At(m, a, Words(row))
  }

  predicate RowsAt(m: Memory, at: seq<nat>, rows: seq<seq<nat>>) {
    |at| == |rows| && forall w :: 0 <= w < |rows| ==> RowAt(m, at[w], rows[w])
  }

  predicate VectorAt(m: Memory, vector: nat, at: seq<nat>, rows: seq<seq<nat>>) {
    4 <= vector && At(m, vector - 4, Little(|rows|, 4)) && At(m, vector, Words(at)) && RowsAt(m, at, rows)
  }

  /** The entry at `e` is this counter, its name at `a`, its vector at `vector`, its rows at `at`. */
  predicate EntryIs(m: Memory, e: nat, c: Counter, a: nat, vector: nat, at: seq<nat>) {
    match c
    case Gauge(name, v) => At(m, e, Little(1, 4)) && At(m, e + 8, Little(v, 8)) && NameAt(m, e, name, a)
    case Cells(name, kind, index, rows) =>
      && At(m, e, Little(kind, 4)) && At(m, e + 8, Little(index, 8)) && At(m, e + 16, Little(vector, 8))
      && NameAt(m, e, name, a) && VectorAt(m, vector, at, rows)
    case Other(kind) => At(m, e, Little(kind, 4))
  }

  ghost predicate Entry(m: Memory, e: nat, c: Counter) { exists a, vector, at :: EntryIs(m, e, c, a, vector, at) }

  ghost predicate Entries(m: Memory, e: nat, cs: seq<Counter>) {
    forall i :: 0 <= i < |cs| ==> Entry(m, e + 32 * i, cs[i])
  }

  predicate DirectoryAt(m: Memory, dir: nat, n: nat) {
    && 4 <= dir && dir + 32 * n <= |m| < 0x1_0000_0000_0000_0000 && n <= 65536
    && At(m, 24, Little(dir, 8)) && At(m, dir - 4, Little(n, 4))
  }

  predicate AllFitting(cs: seq<Counter>) { forall i :: 0 <= i < |cs| ==> Fitting(cs[i]) }

  /** The memory is laid out from the table, wherever its parts lie. */
  ghost predicate LaidOut(m: Memory, cs: seq<Counter>) {
    AllFitting(cs) && exists dir :: DirectoryAt(m, dir, |cs|) && Entries(m, dir, cs)
  }

  // ---- loads --------------------------------------------------------------------------------------

  lemma {:induction false} WordIsLittle(m: Memory, a: nat, n: nat)
    requires a + n <= |m|
    ensures Word(m, a, n) == FromLittle(m[a..a + n])
    decreases n
  {
    if n > 0 {
      WordIsLittle(m, a + 1, n - 1);
      assert m[a..a + n][1..] == m[a + 1..a + n];
    }
  }

  lemma WordAt(m: Memory, a: nat, v: nat, n: nat)
    requires At(m, a, Little(v, n)) && v < Pow2(8 * n)
    ensures Word(m, a, n) == v
  {
    hide Little, FromLittle, Pow2, Word;
    WordIsLittle(m, a, n);
    LittleRoundTrip(v, n);
  }

  lemma Half(m: Memory, a: nat, v: nat)
    requires At(m, a, Little(v, 4)) && v < 0x1_0000_0000
    ensures Word(m, a, 4) == v
  {
    hide Little, Word, Pow2;
    Pow2Zero();
    EightBits(0);
    EightBits(8);
    EightBits(16);
    EightBits(24);
    WordAt(m, a, v, 4);
  }

  lemma Full(m: Memory, a: nat, v: nat)
    requires At(m, a, Little(v, 8)) && v < 0x1_0000_0000_0000_0000
    ensures Word(m, a, 8) == v
  {
    hide Little, Word, Pow2;
    Protobuf.TwoTo64();
    WordAt(m, a, v, 8);
  }

  lemma {:induction false} WordsAt(m: Memory, a: nat, vs: seq<nat>, k: nat)
    requires At(m, a, Words(vs)) && k < |vs|
    ensures At(m, a + 8 * k, Little(vs[k], 8))
    decreases k
  {
    hide Little;
    AtSplit(m, a, Little(vs[0], 8), Words(vs[1..]));
    if k > 0 { WordsAt(m, a + 8, vs[1..], k - 1); }
  }

  // ---- one counter ----------------------------------------------------------------------------------

  lemma CellAt(m: Memory, vector: nat, at: seq<nat>, rows: seq<seq<nat>>, index: nat, w: nat)
    requires |m| < U64 && At(m, vector, Words(at)) && RowsAt(m, at, rows) && w < |rows| && FittingRow(rows[w], index)
    ensures CellOf(m, |m|, vector, index, w) == Cell(rows[w], index)
  {
    hide Word, Words, Little;
    var row, a := rows[w], at[w];
    assert RowAt(m, a, row);
    WordsAt(m, vector, at, w);
    Full(m, vector + 8 * w, a);
    if row != [] {
      WordsAt(m, a, row, index);
      Full(m, a + 8 * index, row[index]);
      RoomFor(|m|, a, index);
    }
  }

  lemma RoomFor(size: nat, a: nat, index: nat)
    requires 0 < a && a + 8 * index + 8 <= size < U64
    ensures Inside(size, a, (index + 1) % U64 * 8 % U64)
  {
    assert (index + 1) % U64 == index + 1;
    assert (index + 1) * 8 % U64 == (index + 1) * 8;
    assert (a + (index + 1) * 8) % U64 == a + (index + 1) * 8;
  }

  lemma {:induction false} ColumnSplit(rows: seq<seq<nat>>, index: nat, n: nat)
    requires n < |rows|
    ensures Column(rows[..n + 1], index) == Column(rows[..n], index) + Cell(rows[n], index)
    decreases n
  {
    var front := rows[..n + 1];
    assert front[1..] == rows[1..][..n];
    if n == 0 {
      assert rows[..0] == [] && front[1..] == [];
    } else {
      assert rows[..n][1..] == rows[1..][..n - 1] && rows[1..][n - 1] == rows[n];
      ColumnSplit(rows[1..], index, n - 1);
    }
  }

  lemma {:induction false} TotalIsColumn(
    m: Memory, vector: nat, at: seq<nat>, rows: seq<seq<nat>>, index: nat, n: nat)
    requires |m| < U64 && At(m, vector, Words(at)) && RowsAt(m, at, rows) && n <= |rows|
    requires forall w :: 0 <= w < |rows| ==> FittingRow(rows[w], index)
    ensures Total(m, |m|, vector, index, n) == Column(rows[..n], index)
    decreases n
  {
    hide CellOf, Words, Cell, RowsAt, FittingRow;
    if n > 0 {
      TotalIsColumn(m, vector, at, rows, index, n - 1);
      CellAt(m, vector, at, rows, index, n - 1);
      ColumnSplit(rows, index, n - 1);
    } else {
      assert rows[..0] == [];
    }
  }

  lemma CellsReading(m: Memory, e: nat, c: Counter, a: nat, vector: nat, at: seq<nat>)
    requires |m| < U64 && c.Cells? && Fitting(c) && EntryIs(m, e, c, a, vector, at)
    ensures CounterValue(m, |m|, e) == Some(Reading(c))
  {
    hide Word, Little, Total, Column, RowAt, FittingRow, NameAt;
    var n := |c.rows|;
    Half(m, e, c.kind);
    Full(m, e + 8, c.index);
    assert vector + 8 * n <= |m|;
    Full(m, e + 16, vector);
    Half(m, vector - 4, n);
    assert (vector + n * 8) % U64 == vector + n * 8 && (vector + 4) % U64 == vector + 4;
    TotalIsColumn(m, vector, at, c.rows, c.index, n);
    assert c.rows[..n] == c.rows;
  }

  lemma GaugeReading(m: Memory, e: nat, c: Counter, a: nat, vector: nat, at: seq<nat>)
    requires |m| < U64 && c.Gauge? && Fitting(c) && EntryIs(m, e, c, a, vector, at)
    ensures CounterValue(m, |m|, e) == Some(Reading(c))
  {
    hide Word, Little, NameAt;
    Half(m, e, 1);
    Full(m, e + 8, c.value);
  }

  lemma SpellsIff(m: Memory, a: nat, text: Text, name: Text)
    requires At(m, a, text + [0])
    ensures Spells(m, a, name) <==> name == text
  {
    var s := text + [0];
    assert forall j :: 0 <= j < |s| ==> m[a + j] == m[a..a + |s|][j] == s[j];
    assert Spells(m, a, text);
    assert EndsAt(m, a, |text|) by {
      assert forall j :: a <= j < a + |text| ==> ByteAt(m, j) == text[j - a] && text[j - a] in text;
    }
    if Spells(m, a, name) {
      SameEnd(m, a, name, |text|);
      assert forall j :: 0 <= j < |name| ==> name[j] == ByteAt(m, a + j) == text[j];
    }
  }

  lemma KindOf(m: Memory, e: nat, c: Counter, a: nat, vector: nat, at: seq<nat>)
    requires Fitting(c) && EntryIs(m, e, c, a, vector, at)
    ensures Countable(Kind(m, e)) <==> !c.Other?
  {
    hide Word, Little, NameAt, VectorAt;
    Half(m, e, if c.Gauge? then 1 else c.kind);
  }

  /** The reader takes the entry for the counter asked for exactly when it bears the name. */
  lemma NamedIff(m: Memory, e: nat, c: Counter, a: nat, vector: nat, at: seq<nat>, name: Text)
    requires |m| < U64 && Fitting(c) && EntryIs(m, e, c, a, vector, at)
    ensures Named(m, |m|, e, name) <==> Bears(c, name)
  {
    hide Word, Little, VectorAt, Spells, Kind, FittingRow;
    KindOf(m, e, c, a, vector, at);
    if !c.Other? {
      Full(m, e + 24, a);
      SpellsIff(m, a, c.name, name);
      assert (a + 1) % U64 == a + 1;
    }
  }

  lemma EntryMeans(m: Memory, e: nat, c: Counter, name: Text)
    requires |m| < U64 && Fitting(c) && Entry(m, e, c)
    ensures Named(m, |m|, e, name) <==> Bears(c, name)
    ensures !c.Other? ==> CounterValue(m, |m|, e) == Some(Reading(c))
  {
    hide Named, CounterValue, Reading, Fitting, Bears, EntryIs;
    var a, vector, at :| EntryIs(m, e, c, a, vector, at);
    NamedIff(m, e, c, a, vector, at, name);
    if c.Gauge? {
      GaugeReading(m, e, c, a, vector, at);
    } else if c.Cells? {
      CellsReading(m, e, c, a, vector, at);
    }
  }

  // ---- the whole directory ---------------------------------------------------------------------------

  lemma {:induction false} ScanAnswers(m: Memory, dir: nat, cs: seq<Counter>, name: Text, i: nat)
    requires |m| < U64 && AllFitting(cs) && Entries(m, dir, cs) && i <= |cs|
    ensures LookupFrom(m, |m|, dir, |cs|, name, i) == Answer(cs[i..], name)
    decreases |cs| - i
  {
    hide Named, CounterValue, Reading, Fitting, Entry;
    if i < |cs| {
      EntryMeans(m, dir + 32 * i, cs[i], name);
      ScanAnswers(m, dir, cs, name, i + 1);
      assert cs[i..][1..] == cs[i + 1..];
      assert Bears(cs[i], name) ==> !cs[i].Other?;
    }
  }

  lemma Directory(m: Memory, dir: nat, n: nat)
    requires DirectoryAt(m, dir, n)
    ensures DirOffset(m) == dir && DirCount(m, |m|) == n
  {
    hide Word, Little;
    Full(m, 24, dir);
    Half(m, dir - 4, n);
    assert (dir + n * 32) % U64 == dir + n * 32 && (dir + 0) % U64 == dir;
  }

  /** Wherever the parts of a table lie, a name stands for the reading of the first counter that bears it. */
  lemma LookupAnswers(m: Memory, cs: seq<Counter>, name: Text)
    requires LaidOut(m, cs)
    ensures Lookup(m, |m|, name) == Answer(cs, name)
  {
    hide LookupFrom, DirOffset, DirCount, Entries, DirectoryAt, AllFitting;
    var dir :| DirectoryAt(m, dir, |cs|) && Entries(m, dir, cs);
    assert |m| < U64 by { SizeOf(m, dir, |cs|); }
    Directory(m, dir, |cs|);
    ScanAnswers(m, dir, cs, name, 0);
    assert cs[0..] == cs;
  }

  lemma SizeOf(m: Memory, dir: nat, n: nat)
    requires DirectoryAt(m, dir, n)
    ensures |m| < U64
  {
  }

  /** A name of 256 bytes or more is never found. */
  lemma LongNamesAreMissed(m: Memory, size: nat, name: Text)
    requires |name| >= 256
    ensures Lookup(m, size, name) == None
  {
    hide LookupFrom;
    if Lookup(m, size, name).Some? {
      LookupMeaning(m, size, name, Lookup(m, size, name).value);
      assert false;
    }
  }

  /** A value read while the segment changes is the table's answer at one moment between the writes. */
  lemma ReadAnswers(
    w: nat -> Segment, size: nat, lo: nat, hi: nat, name: Text, r: Option<nat>, table: nat -> seq<Counter>)
    requires Observed(w, size, lo, hi, name, r)
    requires forall t :: !Busy(w(t)) ==> |w(t).content| == size && LaidOut(w(t).content, table(t))
    ensures exists t :: lo <= t <= hi && !Busy(w(t)) && r == Answer(table(t), name)
  {
    hide Lookup, LaidOut, Answer;
    var t :| lo <= t <= hi && !Busy(w(t)) && r == Lookup(w(t).content, size, name);
    LookupAnswers(w(t).content, table(t), name);
  }

  // ---- a segment for every table ------------------------------------------------------------------------

  /** Row after row from `a` on; a worker without cells has no row. */
  function RowPlaces(rows: seq<seq<nat>>, a: nat): (at: seq<nat>)
    ensures |at| == |rows|
  {
    if rows == [] then [] else [if rows[0] == [] then 0 else a] + RowPlaces(rows[1..], a + 8 * |rows[0]|)
  }

  function RowBytes(rows: seq<seq<nat>>): seq<byte> {
    if rows == [] then [] else Words(rows[0]) + RowBytes(rows[1..])
  }

  /** What a counter keeps outside its entry, placed at `a`: its name, then its vector, then the rows. */
  function Body(c: Counter, a: nat): seq<byte> {
    match c
    case Gauge(name, _) => name + [0]
    case Cells(name, _, _, rows) =>
      name + [0] + Little(|rows|, 4) + Words(RowPlaces(rows, a + |name| + 5 + 8 * |rows|)) + RowBytes(rows)
    case Other(_) => []
  }

  function Head(c: Counter, a: nat): (s: seq<byte>)
    ensures |s| == 32
  {
    match c
    case Gauge(_, v) => Little(1, 4) + Little(0, 4) + Little(v, 8) + Little(0, 8) + Little(a, 8)
    case Cells(name, kind, index, _) =>
      Little(kind, 4) + Little(0, 4) + Little(index, 8) + Little(a + |name| + 5, 8) + Little(a, 8)
    case Other(kind) => Little(kind, 4) + Little(0, 28)
  }

  function Heads(cs: seq<Counter>, a: nat): (s: seq<byte>)
    ensures |s| == 32 * |cs|
  {
    if cs == [] then [] else Head(cs[0], a) + Heads(cs[1..], a + |Body(cs[0], a)|)
  }

  function Bodies(cs: seq<Counter>, a: nat): seq<byte> {
    if cs == [] then [] else Body(cs[0], a) + Bodies(cs[1..], a + |Body(cs[0], a)|)
  }

  /** The header of forty bytes, the directory behind its length, and what the entries refer to. */
  function Image(cs: seq<Counter>): seq<byte> {
    var a := 44 + 32 * |cs|;
    Little(0, 24) + Little(44, 8) + Little(0, 8) + Little(|cs|, 4) + Heads(cs, a) + Bodies(cs, a)
  }

  lemma {:induction false} RowsPlaced(m: Memory, a: nat, rows: seq<seq<nat>>)
    requires 0 < a && At(m, a, RowBytes(rows))
    ensures RowsAt(m, RowPlaces(rows, a), rows)
    decreases |rows|
  {
    hide Words;
    if rows != [] {
      var next := a + 8 * |rows[0]|;
      AtSplit(m, a, Words(rows[0]), RowBytes(rows[1..]));
      RowsPlaced(m, next, rows[1..]);
      var at, tail := RowPlaces(rows, a), RowPlaces(rows[1..], next);
      forall w | 0 <= w < |rows| ensures RowAt(m, at[w], rows[w]) {
        if w > 0 { assert at[w] == tail[w - 1] && rows[w] == rows[1..][w - 1]; }
      }
    }
  }

  lemma FiveParts(m: Memory, e: nat, k: seq<byte>, p: seq<byte>, v: seq<byte>, w: seq<byte>, n: seq<byte>)
    requires At(m, e, k + p + v + w + n)
    ensures At(m, e, k) && At(m, e + |k| + |p|, v) && At(m, e + |k| + |p| + |v|, w)
    ensures At(m, e + |k| + |p| + |v| + |w|, n)
  {
    AtSplit(m, e, k + p + v + w, n);
    AtSplit(m, e, k + p + v, w);
    AtSplit(m, e, k + p, v);
    AtSplit(m, e, k, p);
  }

  lemma BodyPlaced(m: Memory, a: nat, c: Counter)
    requires 0 < a && c.Cells? && At(m, a, Body(c, a))
    ensures var vector := a + |c.name| + 5;
            At(m, a, c.name + [0]) && VectorAt(m, vector, RowPlaces(c.rows, vector + 8 * |c.rows|), c.rows)
  {
    hide Little, Words, RowPlaces, RowBytes, RowsAt;
    var vector := a + |c.name| + 5;
    var text, n := c.name + [0], Little(|c.rows|, 4);
    var at := RowPlaces(c.rows, vector + 8 * |c.rows|);
    AtSplit(m, a, text + n + Words(at), RowBytes(c.rows));
    AtSplit(m, a, text + n, Words(at));
    AtSplit(m, a, text, n);
    RowsPlaced(m, vector + 8 * |c.rows|, c.rows);
  }

  lemma EntryPlaced(m: Memory, e: nat, a: nat, c: Counter)
    requires 0 < a && At(m, e, Head(c, a)) && At(m, a, Body(c, a))
    ensures Entry(m, e, c)
  {
    hide Little, Words, RowPlaces, RowBytes, VectorAt, At;
    match c
    case Gauge(name, v) =>
      FiveParts(m, e, Little(1, 4), Little(0, 4), Little(v, 8), Little(0, 8), Little(a, 8));
      assert EntryIs(m, e, c, a, 0, []);
    case Cells(name, kind, index, rows) =>
      var vector := a + |name| + 5;
      FiveParts(m, e, Little(kind, 4), Little(0, 4), Little(index, 8), Little(vector, 8), Little(a, 8));
      BodyPlaced(m, a, c);
      assert EntryIs(m, e, c, a, vector, RowPlaces(rows, vector + 8 * |rows|));
    case Other(kind) =>
      AtSplit(m, e, Little(kind, 4), Little(0, 28));
      assert EntryIs(m, e, c, a, 0, []);
  }

  lemma {:induction false} EntriesPlaced(m: Memory, e: nat, a: nat, cs: seq<Counter>)
    requires 0 < a && At(m, e, Heads(cs, a)) && At(m, a, Bodies(cs, a))
    ensures Entries(m, e, cs)
    decreases |cs|
  {
    hide Head, Body, At, Entry;
    if cs != [] {
      var next := a + |Body(cs[0], a)|;
      AtSplit(m, e, Head(cs[0], a), Heads(cs[1..], next));
      AtSplit(m, a, Body(cs[0], a), Bodies(cs[1..], next));
      EntryPlaced(m, e, a, cs[0]);
      EntriesPlaced(m, e + 32, next, cs[1..]);
      forall i | 0 <= i < |cs| ensures Entry(m, e + 32 * i, cs[i]) {
        if i > 0 { assert Entry(m, e + 32 + 32 * (i - 1), cs[1..][i - 1]); }
      }
    }
  }

  /** Every table that fits has such a segment. */
  lemma ImageLaidOut(cs: seq<Counter>)
    requires AllFitting(cs) && |cs| <= 65536 && |Image(cs)| < 0x1_0000_0000_0000_0000
    ensures LaidOut(Image(cs), cs)
  {
    hide Little, Heads, Bodies, Fitting, Entries;
    var m, a := Image(cs), 44 + 32 * |cs|;
    var zero, dir, err, n := Little(0, 24), Little(44, 8), Little(0, 8), Little(|cs|, 4);
    assert At(m, 0, zero + dir + err + n + Heads(cs, a) + Bodies(cs, a));
    AtSplit(m, 0, zero + dir + err + n + Heads(cs, a), Bodies(cs, a));
    AtSplit(m, 0, zero + dir + err + n, Heads(cs, a));
    AtSplit(m, 0, zero + dir + err, n);
    AtSplit(m, 0, zero + dir, err);
    AtSplit(m, 0, zero, dir);
    EntriesPlaced(m, 44, a, cs);
    assert DirectoryAt(m, 44, |cs|);
  }

  // ---- what a changed cell does ----------------------------------------------------------------------------

  function WithCell(rows: seq<seq<nat>>, w: nat, k: nat, v: nat): seq<seq<nat>>
    requires w < |rows| && k < |rows[w]|
  {
    var row: seq<nat> := rows[w][k := v];
    rows[w := row]
  }

  function Changed(c: Counter, w: nat, k: nat, v: nat): Counter
    requires c.Cells? && w < |c.rows| && k < |c.rows[w]|
  {
    c.(rows := WithCell(c.rows, w, k, v))
  }

  lemma {:induction false} ColumnChanged(rows: seq<seq<nat>>, index: nat, w: nat, k: nat, v: nat)
    requires w < |rows| && k < |rows[w]|
    ensures Column(WithCell(rows, w, k, v), index) ==
            Column(rows, index) + if k == index then v - rows[w][k] else 0
    decreases w
  {
    var new' := WithCell(rows, w, k, v);
    if w == 0 {
      assert new'[1..] == rows[1..];
    } else {
      assert new'[1..] == WithCell(rows[1..], w - 1, k, v);
      ColumnChanged(rows[1..], index, w - 1, k, v);
    }
  }

  lemma Wrapped(a: nat, d: int)
    requires a + d >= 0
    ensures (a + d) % 0x1_0000_0000_0000_0000 == (a % 0x1_0000_0000_0000_0000 + d) % 0x1_0000_0000_0000_0000
  {
    var q := a / 0x1_0000_0000_0000_0000;
    assert a + d == a % 0x1_0000_0000_0000_0000 + d + q * 0x1_0000_0000_0000_0000;
  }

  /**
   * In any two segments whose tables differ in one cell, the counter reads the same if the cell is another
   * one than its own, and otherwise differs by what the cell differs, in 64 bits.
   */
  lemma CellsCount(m: Memory, m': Memory, cs: seq<Counter>, i: nat, w: nat, k: nat, v: nat)
    requires i < |cs| && cs[i].Cells? && w < |cs[i].rows| && k < |cs[i].rows[w]|
    requires LaidOut(m, cs) && LaidOut(m', cs[i := Changed(cs[i], w, k, v)])
    requires forall j :: 0 <= j < i ==> !Bears(cs[j], cs[i].name)
    ensures var was, now := Lookup(m, |m|, cs[i].name), Lookup(m', |m'|, cs[i].name);
            && was.Some? && now.Some?
            && now.value == (was.value + if k == cs[i].index then v - cs[i].rows[w][k] else 0) % 0x1_0000_0000_0000_0000
  {
    hide Lookup, LaidOut, Answer, Column;
    var c, c' := cs[i], Changed(cs[i], w, k, v);
    var cs' := cs[i := c'];
    LookupAnswers(m, cs, c.name);
    LookupAnswers(m', cs', c.name);
    FirstAnswers(cs, i);
    FirstAnswers(cs', i);
    ColumnChanged(c.rows, c.index, w, k, v);
    Wrapped(Column(c.rows, c.index), if k == c.index then v - c.rows[w][k] else 0);
  }

  lemma {:induction false} FirstAnswers(cs: seq<Counter>, i: nat)
    requires i < |cs| && !cs[i].Other? && forall j :: 0 <= j < i ==> !Bears(cs[j], cs[i].name)
    ensures Answer(cs, cs[i].name) == Some(Reading(cs[i]))
    decreases i
  {
    hide Reading;
    if i > 0 {
      assert !Bears(cs[0], cs[i].name);
      FirstAnswers(cs[1..], i - 1);
    }
  }

  // ---- combined counters ---------------------------------------------------------------------------------------

  /** Packets and bytes of one interface after another, as a worker keeps a combined counter. */
  function Paired(ps: seq<(nat, nat)>): (row: seq<nat>)
    ensures |row| == 2 * |ps|
  {
    if ps == [] then [] else [ps[0].0, ps[0].1] + Paired(ps[1..])
  }

  function PairedRows(rows: seq<seq<(nat, nat)>>): seq<seq<nat>> {
    if rows == [] then [] else [Paired(rows[0])] + PairedRows(rows[1..])
  }

  function Packets(rows: seq<seq<(nat, nat)>>, i: nat): nat {
    if rows == [] then 0 else (if i < |rows[0]| then rows[0][i].0 else 0) + Packets(rows[1..], i)
  }

  function Octets(rows: seq<seq<(nat, nat)>>, i: nat): nat {
    if rows == [] then 0 else (if i < |rows[0]| then rows[0][i].1 else 0) + Octets(rows[1..], i)
  }

  lemma {:induction false} PairedCell(ps: seq<(nat, nat)>, k: nat)
    requires k < 2 * |ps|
    ensures Paired(ps)[k] == if k % 2 == 0 then ps[k / 2].0 else ps[k / 2].1
    decreases k
  {
    if k >= 2 { PairedCell(ps[1..], k - 2); }
  }

  /** Cell `index` of a combined counter belongs to interface `index / 2`, its packets or its bytes. */
  lemma {:induction false} CombinedColumn(rows: seq<seq<(nat, nat)>>, index: nat)
    ensures Column(PairedRows(rows), index) ==
            if index % 2 == 0 then Packets(rows, index / 2) else Octets(rows, index / 2)
    decreases |rows|
  {
    if rows != [] {
      assert PairedRows(rows)[1..] == PairedRows(rows[1..]);
      CombinedColumn(rows[1..], index);
      if index < 2 * |rows[0]| { PairedCell(rows[0], index); }
    }
  }

  /** What the reader gives for a combined counter: another interface's packets or bytes, unless the index is 0. */
  lemma CombinedLookup(m: Memory, cs: seq<Counter>, i: nat, rows: seq<seq<(nat, nat)>>)
    requires LaidOut(m, cs) && i < |cs| && cs[i].Cells? && cs[i].kind == 3 && cs[i].rows == PairedRows(rows)
    requires forall j :: 0 <= j < i ==> !Bears(cs[j], cs[i].name)
    ensures var k := cs[i].index;
            Lookup(m, |m|, cs[i].name) ==
            Some((if k % 2 == 0 then Packets(rows, k / 2) else Octets(rows, k / 2)) % 0x1_0000_0000_0000_0000)
  {
    hide Lookup, LaidOut, Answer, Column, Packets, Octets;
    LookupAnswers(m, cs, cs[i].name);
    FirstAnswers(cs, i);
    CombinedColumn(rows, cs[i].index);
  }

  function Idle(n: nat): seq<(nat, nat)> { if n == 0 then [] else [(0, 0)] + Idle(n - 1) }

  lemma {:induction false} IdleAt(n: nat, k: nat)
    requires k < n
    ensures |Idle(n)| == n && Idle(n)[k] == (0, 0)
  {
    if n > 1 { IdleAt(n - 1, if k == 0 then 0 else k - 1); }
  }

  /** One packet on interface `index` and nothing else; read as the header comment says, it counts one. */
  lemma CombinedMissesPacket(index: nat)
    requires index > 0
    ensures var rows := [Idle(index) + [(1, 1)]];
            Packets(rows, index) == 1 && Column(PairedRows(rows), index) == 0
  {
    var row := Idle(index) + [(1, 1)];
    var rows := [row];
    IdleAt(index, 0);
    IdleAt(index, index / 2);
    assert row[index] == (1, 1) && row[index / 2] == (0, 0);
    assert Packets(rows[1..], index) == 0 && Packets(rows[1..], index / 2) == 0 && Octets(rows[1..], index / 2) == 0;
    CombinedColumn(rows, index);
  }

  ghost predicate SumsPackets(index: nat) {
    forall rows :: Column(PairedRows(rows), index) == Packets(rows, index)
  }

  /** Combined counters give the packets, as promised, for the interface with index 0 and for no other. */
  lemma CombinedIffFirst(index: nat)
    ensures SumsPackets(index) <==> index == 0
  {
    hide Column, Packets, PairedRows;
    if index == 0 {
      forall rows ensures Column(PairedRows(rows), index) == Packets(rows, index) {
        CombinedColumn(rows, 0);
      }
    } else {
      CombinedMissesPacket(index);
      var rows := [Idle(index) + [(1, 1)]];
      assert Column(PairedRows(rows), index) != Packets(rows, index);
    }
  }
}
