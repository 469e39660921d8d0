/**
 * The dynamic table of HPACK: entries newest first, each charged its name, its value and 32 bytes
 * (section 4.1 of RFC 7541), the oldest evicted while the charge exceeds the limit.
 */
module HpackTable {
  import opened Bytes

  datatype Header = Header(name: seq<byte>, value: seq<byte>)

  const MAX_ENTRIES: nat := 128
  const DEFAULT_SIZE: nat := 4096

  function Charge(h: Header): nat { |h.name| + |h.value| + 32 }

  function Size(entries: seq<Header>): nat {
    if entries == [] then 0 else Size(entries[..|entries| - 1]) + Charge(entries[|entries| - 1])
  }

  datatype Table = Table(entries: seq<Header>, max: nat)

  /** What every reachable table satisfies. */
  predicate Bounded(t: Table) {
    Size(t.entries) <= t.max && |t.entries| <= MAX_ENTRIES
  }

  function Evict(entries: seq<Header>, max: nat): (kept: seq<Header>)
    ensures kept <= entries && Size(kept) <= max
  {
    if Size(entries) <= max then entries else Evict(entries[..|entries| - 1], max)
  }

  function Resize(t: Table, max: nat): Table { Table(Evict(t.entries, max), max) }

  /** As the code has it: refused at 128 entries, else added at the front and then trimmed. */
  function Insert(t: Table, h: Header): Table {
    if |t.entries| >= MAX_ENTRIES then t
    else if Charge(h) > t.max then t.(entries := [])
    else t.(entries := Evict([h] + t.entries, t.max))
  }

  /** As section 4.4 of RFC 7541 has it: make room first, then add what fits. */
  function InsertByTheBook(t: Table, h: Header): Table {
    if Charge(h) > t.max then t.(entries := [])
    else t.(entries := [h] + Evict(t.entries, t.max - Charge(h)))
  }

  // ---- eviction ---------------------------------------------------------------------

  lemma {:induction false} SizeOfFront(h: Header, entries: seq<Header>)
    ensures Size([h] + entries) == Charge(h) + Size(entries)
  {
    var s := [h] + entries;
    if entries == [] {
      assert s[..0] == [] && s[0] == h;
    } else {
      SizeOfFront(h, entries[..|entries| - 1]);
      assert s[..|s| - 1] == [h] + entries[..|entries| - 1];
    }
  }

  /** Every entry is charged at least 32. */
  lemma {:induction false} CountIsBounded(entries: seq<Header>)
    ensures 32 * |entries| <= Size(entries)
  {
    if entries != [] {
      CountIsBounded(entries[..|entries| - 1]);
    }
  }

  /** Eviction keeps the longest run of newest entries that fits. */
  lemma {:induction false} EvictKeepsTheMost(entries: seq<Header>, max: nat, n: nat)
    requires n <= |entries|
    ensures Size(entries[..n]) <= max <==> n <= |Evict(entries, max)|
  {
    if Size(entries) <= max {
      SizeGrows(entries, n);
    } else if n == |entries| {
      assert entries[..n] == entries;
    } else {
      var shorter := entries[..|entries| - 1];
      EvictKeepsTheMost(shorter, max, n);
      assert shorter[..n] == entries[..n];
    }
  }

  lemma {:induction false} SizeGrows(entries: seq<Header>, n: nat)
    requires n <= |entries|
    ensures Size(entries[..n]) <= Size(entries)
  {
    if n < |entries| {
      var shorter := entries[..|entries| - 1];
      SizeGrows(shorter, n);
      assert shorter[..n] == entries[..n];
    } else {
      assert entries[..n] == entries;
    }
  }

  // ---- the two ways of inserting --------------------------------------------------------

  /** Adding and then trimming is trimming and then adding. */
  lemma {:induction false} EvictAfterAdding(h: Header, entries: seq<Header>, max: nat)
    requires Charge(h) <= max
    ensures Evict([h] + entries, max) == [h] + Evict(entries, max - Charge(h))
  {
    var s := [h] + entries;
    SizeOfFront(h, entries);
    if entries != [] && Size(s) > max {
      EvictAfterAdding(h, entries[..|entries| - 1], max);
      assert s[..|s| - 1] == [h] + entries[..|entries| - 1];
    }
  }

  /** While the array of 128 entries is not full, the code inserts as the RFC says. */
  lemma InsertIsByTheBook(t: Table, h: Header)
    requires |t.entries| < MAX_ENTRIES
    ensures Insert(t, h) == InsertByTheBook(t, h)
  {
    hide Size, Evict;
    if Charge(h) <= t.max {
      EvictAfterAdding(h, t.entries, t.max);
    }
  }

  /** Nothing but copies of `h`. */
  predicate AllAre(entries: seq<Header>, h: Header) {
    forall i :: 0 <= i < |entries| ==> entries[i] == h
  }

  /**
   * When it is full, the refusal agrees with the RFC exactly if the table is 128 copies of the new
   * entry with no room for another.
   */
  lemma RefusalIsByTheBook(t: Table, h: Header)
    requires Bounded(t) && |t.entries| == MAX_ENTRIES
    ensures Insert(t, h) == InsertByTheBook(t, h) <==> AllAre(t.entries, h) && t.max < (MAX_ENTRIES + 1) * Charge(h)
  {
    hide Size, Evict;
    if AllAre(t.entries, h) && t.max < (MAX_ENTRIES + 1) * Charge(h) {
      SizeOfCopies(t.entries, h);
      var room := t.max - Charge(h);
      EvictKeepsTheMost(t.entries, room, MAX_ENTRIES - 1);
      EvictKeepsTheMost(t.entries, room, MAX_ENTRIES);
      SizeOfCopies(t.entries[..MAX_ENTRIES - 1], h);
      assert t.entries[..MAX_ENTRIES] == t.entries;
      assert Evict(t.entries, room) == t.entries[..MAX_ENTRIES - 1];
      assert t.entries == [h] + t.entries[..MAX_ENTRIES - 1];
    } else if Charge(h) <= t.max && Insert(t, h) == InsertByTheBook(t, h) {
      assert t.entries[..MAX_ENTRIES] == t.entries;
      RotatedIsConstant(t.entries, h, Evict(t.entries, t.max - Charge(h)));
      SizeOfCopies(t.entries, h);
      EvictKeepsTheMost(t.entries, t.max - Charge(h), MAX_ENTRIES);
    }
  }

  lemma {:induction false} SizeOfCopies(entries: seq<Header>, h: Header)
    requires AllAre(entries, h)
    ensures Size(entries) == |entries| * Charge(h)
  {
    if entries != [] {
      SizeOfCopies(entries[..|entries| - 1], h);
      assert entries[|entries| - 1] == h;
    }
  }

  lemma RotatedIsConstant(entries: seq<Header>, h: Header, kept: seq<Header>)
    requires entries == [h] + kept && kept <= entries
    ensures AllAre(entries, h)
  {
    forall i | 0 <= i < |entries| ensures entries[i] == h {
      RotatedAt(entries, h, kept, i);
    }
  }

  lemma {:induction false} RotatedAt(entries: seq<Header>, h: Header, kept: seq<Header>, i: nat)
    requires entries == [h] + kept && kept <= entries && i < |entries|
    ensures entries[i] == h
  {
    if i > 0 {
      RotatedAt(entries, h, kept, i - 1);
      assert entries[i] == kept[i - 1] == entries[i - 1];
    }
  }

  // ---- whole runs ----------------------------------------------------------------------

  datatype Op = Add(h: Header) | Limit(max: nat)

  function Step(t: Table, op: Op): Table {
    match op
    case Add(h) => Insert(t, h)
    case Limit(max) => Resize(t, max)
  }

  function Run(t: Table, ops: seq<Op>): Table
    decreases |ops|
  {
    if ops == [] then t else Run(Step(t, ops[0]), ops[1..])
  }

  function RunByTheBook(t: Table, ops: seq<Op>): Table
    decreases |ops|
  {
    if ops == [] then t
    else RunByTheBook(match ops[0] case Add(h) => InsertByTheBook(t, h) case Limit(max) => Resize(t, max), ops[1..])
  }

  lemma StepStaysBounded(t: Table, op: Op)
    requires Bounded(t)
    ensures Bounded(Step(t, op))
  {
    if op.Add? && |t.entries| < MAX_ENTRIES && Charge(op.h) <= t.max {
      assert |Evict([op.h] + t.entries, t.max)| <= |[op.h] + t.entries|;
    }
  }

  /** The charge never exceeds the limit, nor the entries the array, whatever the peer sends. */
  lemma {:induction false} RunStaysBounded(t: Table, ops: seq<Op>)
    requires Bounded(t)
    ensures Bounded(Run(t, ops))
    decreases |ops|
  {
    if ops != [] {
      StepStaysBounded(t, ops[0]);
      RunStaysBounded(Step(t, ops[0]), ops[1..]);
    }
  }

  /** Within the default limit, and no entry with an empty name and an empty value. */
  predicate Ordinary(op: Op) {
    match op
    case Add(h) => h.name != [] || h.value != []
    case Limit(max) => max <= DEFAULT_SIZE
  }

  predicate NoEmpty(t: Table) {
    t.max <= DEFAULT_SIZE && forall h :: h in t.entries ==> h.name != [] || h.value != []
  }

  /** 128 entries of 33 bytes or more do not fit in 4096. */
  lemma NeverFull(t: Table)
    requires Bounded(t) && NoEmpty(t)
    ensures |t.entries| < MAX_ENTRIES
  {
    ChargesAddUp(t.entries);
  }

  lemma {:induction false} ChargesAddUp(entries: seq<Header>)
    requires forall h :: h in entries ==> h.name != [] || h.value != []
    ensures 33 * |entries| <= Size(entries)
  {
    if entries != [] {
      ChargesAddUp(entries[..|entries| - 1]);
      assert entries[|entries| - 1] in entries;
    }
  }

  /** The table is the RFC's over every run of ordinary instructions. */
  lemma {:induction false} RunIsByTheBook(t: Table, ops: seq<Op>)
    requires Bounded(t) && NoEmpty(t) && forall op :: op in ops ==> Ordinary(op)
    ensures Run(t, ops) == RunByTheBook(t, ops)
    decreases |ops|
  {
    if ops != [] {
      var next := Step(t, ops[0]);
      assert Ordinary(ops[0]);
      NeverFull(t);
      if ops[0].Add? { InsertIsByTheBook(t, ops[0].h); }
      StepStaysBounded(t, ops[0]);
      StepAddsNoEmpty(t, ops[0]);
      RunIsByTheBook(next, ops[1..]);
    }
  }

  lemma StepAddsNoEmpty(t: Table, op: Op)
    requires NoEmpty(t) && Ordinary(op)
    ensures NoEmpty(Step(t, op))
  {
    hide Size;
    var after := Step(t, op).entries;
    forall h | h in after ensures h in t.entries || (op.Add? && h == op.h) {
      if op.Add? && |t.entries| < MAX_ENTRIES && Charge(op.h) <= t.max {
        assert after <= [op.h] + t.entries;
      }
    }
  }

  /** Below the default limit the array cannot fill up, whatever is inserted. */
  lemma NeverFullBelowDefault(t: Table)
    requires Bounded(t) && t.max < DEFAULT_SIZE
    ensures |t.entries| < MAX_ENTRIES
  {
    CountIsBounded(t.entries);
  }

  lemma {:induction false} RunBelowDefaultIsByTheBook(t: Table, ops: seq<Op>)
    requires Bounded(t) && t.max < DEFAULT_SIZE && forall op :: op in ops && op.Limit? ==> op.max < DEFAULT_SIZE
    ensures Run(t, ops) == RunByTheBook(t, ops)
    decreases |ops|
  {
    hide Bounded;
    if ops != [] {
      NeverFullBelowDefault(t);
      if ops[0].Add? { InsertIsByTheBook(t, ops[0].h); }
      StepStaysBounded(t, ops[0]);
      RunBelowDefaultIsByTheBook(Step(t, ops[0]), ops[1..]);
    }
  }

  const BLANK := Header([], [])

  function Blanks(n: nat): seq<Header> { seq(n, _ => BLANK) }

  function AddBlanks(n: nat): seq<Op> { if n == 0 then [] else [Add(BLANK)] + AddBlanks(n - 1) }

  /** 128 entries with neither name nor value fill the array, and the next entry is lost. */
  lemma BlanksFillTheTable(h: Header)
    requires h != BLANK && Charge(h) <= DEFAULT_SIZE
    ensures Run(Table([], DEFAULT_SIZE), AddBlanks(MAX_ENTRIES) + [Add(h)]).entries == Blanks(MAX_ENTRIES)
    ensures h in InsertByTheBook(Run(Table([], DEFAULT_SIZE), AddBlanks(MAX_ENTRIES)), h).entries
  {
    hide Size, Evict;
    assert Blanks(0) == [];
    BlanksAdd(0, MAX_ENTRIES, [Add(h)]);
    BlanksAdd(0, MAX_ENTRIES, []);
    assert AddBlanks(MAX_ENTRIES) + [] == AddBlanks(MAX_ENTRIES);
    var full := Table(Blanks(MAX_ENTRIES), DEFAULT_SIZE);
    RunOfOne(full, Add(h));
    assert InsertByTheBook(full, h).entries[0] == h;
  }

  lemma RunOfOne(t: Table, op: Op)
    ensures Run(t, [op]) == Step(t, op) && Run(t, []) == t
  {
    hide Step;
  }

  lemma {:induction false} BlanksAdd(k: nat, n: nat, rest: seq<Op>)
    requires k + n <= MAX_ENTRIES
    ensures Run(Table(Blanks(k), DEFAULT_SIZE), AddBlanks(n) + rest) == Run(Table(Blanks(k + n), DEFAULT_SIZE), rest)
    decreases n
  {
    hide Size;
    if n == 0 {
      assert AddBlanks(n) + rest == rest;
    } else {
      var ops := AddBlanks(n) + rest;
      assert ops[0] == Add(BLANK) && ops[1..] == AddBlanks(n - 1) + rest;
      SizeOfCopies(Blanks(k + 1), BLANK);
      assert [BLANK] + Blanks(k) == Blanks(k + 1);
      BlanksAdd(k + 1, n - 1, rest);
    }
  }

  // ---- in place --------------------------------------------------------------------------

  class DynTable {
    const slots: array<Header>
    var count: nat
    var size: nat
    var maxSize: nat

    ghost predicate Valid()
      reads this, slots
    {
      && slots.Length == MAX_ENTRIES && count <= slots.Length
      && size == Size(slots[..count])
    }

    ghost function Model(): Table
      reads this, slots
      requires Valid()
    {
      Table(slots[..count], maxSize)
    }

    constructor ()
      ensures Valid() && fresh(slots) && Model() == Table([], DEFAULT_SIZE)
    {
      slots := new Header[MAX_ENTRIES](_ => Header([], []));
      count, size, maxSize := 0, 0, DEFAULT_SIZE;
    }

    method EvictOldest()
      requires Valid()
      modifies this`count, this`size
      ensures Valid() && Model() == old(Model()).(entries := Evict(old(slots[..count]), maxSize))
    {
      while size > maxSize && count > 0
        invariant Valid() && Evict(slots[..count], maxSize) == Evict(old(slots[..count]), maxSize)
      {
        ghost var before := slots[..count];
        size := size - Charge(slots[count - 1]);
        count := count - 1;
        assert before[..|before| - 1] == slots[..count];
      }
    }

    method SetMaxSize(max: nat)
      requires Valid()
      modifies this`count, this`size, this`maxSize
      ensures Valid() && Model() == Resize(old(Model()), max)
    {
      maxSize := max;
      EvictOldest();
    }

    method Put(h: Header) returns (ok: bool)
      requires Valid()
      modifies this`count, this`size, slots
      ensures Valid() && Model() == Insert(old(Model()), h)
      ensures ok <==> |old(Model()).entries| < MAX_ENTRIES
    {
      if count >= MAX_ENTRIES { return false; }
      if Charge(h) > maxSize {
        EvictOldest();
        size, count := 0, 0;
        return true;
      }
      ghost var before := slots[..count];
      forall i | 0 <= i < count { slots[i + 1] := slots[i]; }
      slots[0] := h;
      count := count + 1;
      assert slots[..count] == [h] + before;
      SizeOfFront(h, before);
      size := size + Charge(h);
      EvictOldest();
      return true;
    }
  }
}
