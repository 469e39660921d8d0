/** The VPP message table: message names to ids, open addressing with linear
    probing over 4096 slots. Names are NUL-free byte strings. */
module MsgTable {
  import opened Bytes
  import opened Probing

  type Name = seq<byte>

  const TABLE_SIZE: nat := 4096
  /** Characters an entry's name field holds besides its terminator. */
  const NAME_MAX: nat := 71

  function Fnv(s: Name): nat {
    if s == [] then 1469598103934665603
    else Xor(Fnv(s[..|s| - 1]), s[|s| - 1]) * 1099511628211 % 0x1_0000_0000_0000_0000
  }

  function Hash(s: Name): nat {
    Xor(Fnv(s), Fnv(s) / 0x1_0000_0000) % 0x1_0000_0000 % TABLE_SIZE
  }

  function Truncated(s: Name): Name { if |s| <= NAME_MAX then s else s[..NAME_MAX] }

  type Slots = seq<Slot<Name, nat>>

  /** Adding a name: the new slots and whether the table took it. */
  function AddTo(slots: Slots, name: Name, id: nat): (Slots, bool) {
    if name == [] then (slots, false)
    else match Probe(slots, name, Hash(name), 0)
         case Some(j) => (slots[j := Used(if slots[j].Used? then name else Truncated(name), id)], true)
         case None => (slots, false)
  }

  class Table {
    const entries: array<Slot<Name, nat>>
    var count: nat

    ghost predicate Valid()
      reads this, entries
    {
      && entries.Length == TABLE_SIZE
      && (forall j :: 0 <= j < TABLE_SIZE && entries[j].Used? ==> |entries[j].key| <= NAME_MAX)
      && count == UsedSlots(entries[..])
    }

    constructor ()
      ensures Valid() && count == 0 && fresh(entries)
      ensures forall j :: 0 <= j < TABLE_SIZE ==> entries[j].Empty?
    {
      entries := new Slot<Name, nat>[TABLE_SIZE](_ => Empty);
      count := 0;
      new;
      NoneUsed(entries[..]);
    }

    method Add(name: Name, id: nat) returns (ok: bool)
      requires Valid()
      modifies this, entries
      ensures Valid() && (entries[..], ok) == AddTo(old(entries[..]), name, id)
    {
      hide Hash;
      if name == [] { return false; }
      var h := Hash(name);
      var i := h % TABLE_SIZE;
      ghost var before := entries[..];
      for probe := 0 to TABLE_SIZE
        invariant Valid() && entries[..] == before && i == (h + probe) % TABLE_SIZE
        invariant Probe(before, name, h, 0) == Probe(before, name, h, probe)
      {
        if entries[i].Empty? {
          entries[i] := Used(Truncated(name), id);
          count := count + 1;
          assert entries[..] == before[i := Used(Truncated(name), id)];
          UsedAfterFill(before, i, Used(Truncated(name), id));
          return true;
        }
        if entries[i].key == name {
          entries[i] := Used(name, id);
          assert entries[..] == before[i := Used(name, id)];
          UsedAfterFill(before, i, Used(name, id));
          return true;
        }
        NextSlot(h, probe);
        i := (i + 1) % TABLE_SIZE;
      }
      ok := false;
    }

    method Find(name: Name) returns (id: Option<nat>)
      requires Valid()
      ensures id == Lookup(entries[..], name, Hash(name))
    {
      hide Hash;
      var h := Hash(name);
      var i := h % TABLE_SIZE;
      for probe := 0 to TABLE_SIZE
        invariant i == (h + probe) % TABLE_SIZE
        invariant Probe(entries[..], name, h, 0) == Probe(entries[..], name, h, probe)
      {
        if entries[i].Empty? { return None; }
        if entries[i].key == name { return Some(entries[i].val); }
        NextSlot(h, probe);
        i := (i + 1) % TABLE_SIZE;
      }
      id := None;
    }
  }

  lemma NextSlot(h: nat, probe: nat)
    ensures ((h + probe) % TABLE_SIZE + 1) % TABLE_SIZE == (h + probe + 1) % TABLE_SIZE
  {
  }

  lemma {:induction false} NoneUsed(slots: Slots)
    requires forall j :: 0 <= j < |slots| ==> slots[j].Empty?
    ensures UsedSlots(slots) == 0
  {
    if slots != [] { NoneUsed(slots[..|slots| - 1]); }
  }

  lemma {:induction false} UsedAfterFill(slots: Slots, i: nat, e: Slot<Name, nat>)
    requires i < |slots| && e.Used?
    ensures UsedSlots(slots[i := e]) == UsedSlots(slots) + if slots[i].Used? then 0 else 1
  {
    var n := |slots| - 1;
    if i < n {
      UsedAfterFill(slots[..n], i, e);
      assert slots[i := e][..n] == slots[..n][i := e];
    } else {
      assert slots[i := e][..n] == slots[..n];
    }
  }

  // ---- refinement -----------------------------------------------------------------

  /** The map after a sequence of additions: an update, unless the table is full of others. */
  function MapOf(ops: seq<(Name, nat)>): map<Name, nat> {
    if ops == [] then map[]
    else
      var m := MapOf(ops[..|ops| - 1]);
      var (name, id) := ops[|ops| - 1];
      if name != [] && (name in m || |m| < TABLE_SIZE) then m[name := id] else m
  }

  function SlotsOf(ops: seq<(Name, nat)>): (s: Slots)
    ensures |s| == TABLE_SIZE
  {
    if ops == [] then seq(TABLE_SIZE, _ => Empty)
    else AddTo(SlotsOf(ops[..|ops| - 1]), ops[|ops| - 1].0, ops[|ops| - 1].1).0
  }

  /** Over any run of additions of names that fit, the table is a finite map, and an
      addition is refused only when every slot holds another name. */
  lemma {:induction false} TableRefinesMap(ops: seq<(Name, nat)>)
    requires forall i :: 0 <= i < |ops| ==> |ops[i].0| <= 71
    ensures Findable(SlotsOf(ops), Hash) && Contents(SlotsOf(ops), Hash) == MapOf(ops)
    ensures |MapOf(ops)| == UsedSlots(SlotsOf(ops)) <= TABLE_SIZE
  {
    hide Hash, Probe;
    if ops == [] {
      EmptyTable(SlotsOf(ops), Hash);
      NoneUsed(SlotsOf(ops));
    } else {
      var ops0 := ops[..|ops| - 1];
      var (name, id) := ops[|ops| - 1];
      TableRefinesMap(ops0);
      var s := SlotsOf(ops0);
      ProbeGivesUpWhenFull(s, Hash, name);
      if name != [] && Probe(s, name, Hash(name), 0).Some? {
        StoreRefinesUpdate(s, Hash, name, id);
      }
      ProbeGivesUpWhenFull(SlotsOf(ops), Hash, name);
    }
  }

  // ---- any run ----------------------------------------------------------------------

  /** The addition that ends a run is taken. */
  predicate Taken(ops: seq<(Name, nat)>)
    requires ops != []
  {
    AddTo(SlotsOf(ops[..|ops| - 1]), ops[|ops| - 1].0, ops[|ops| - 1].1).1
  }

  /** The names as stored, one for each addition taken. */
  function Stored(ops: seq<(Name, nat)>): set<Name> {
    if ops == [] then {}
    else Stored(ops[..|ops| - 1]) + if Taken(ops) then {Truncated(ops[|ops| - 1].0)} else {}
  }

  /** The names that stand for longer ones. */
  function Cut(ops: seq<(Name, nat)>): set<Name> {
    if ops == [] then {}
    else Cut(ops[..|ops| - 1]) + if |ops[|ops| - 1].0| > 71 then {Truncated(ops[|ops| - 1].0)} else {}
  }

  /** The id last taken for a name. */
  function Last(ops: seq<(Name, nat)>, name: Name): Option<nat> {
    if ops == [] then None
    else if ops[|ops| - 1].0 == name && Taken(ops) then Some(ops[|ops| - 1].1)
    else Last(ops[..|ops| - 1], name)
  }

  /** How many additions took a slot: those of a name not found, a long one each time. */
  function Filled(ops: seq<(Name, nat)>): nat {
    if ops == [] then 0
    else
      var front, name := ops[..|ops| - 1], ops[|ops| - 1].0;
      Filled(front) + if Taken(ops) && Lookup(SlotsOf(front), name, Hash(name)) == None then 1 else 0
  }

  ghost predicate Short(slots: Slots) {
    forall j :: 0 <= j < |slots| && slots[j].Used? ==> |slots[j].key| <= 71
  }

  /** Every stored name but those in `cut` is where a probe for it stops. */
  ghost predicate FindableBut(slots: Slots, cut: set<Name>) {
    forall j :: 0 <= j < |slots| && slots[j].Used? && slots[j].key !in cut ==>
      Probe(slots, slots[j].key, Hash(slots[j].key), 0) == Some(j)
  }

  lemma AddKeepsFindable(slots: Slots, cut: set<Name>, name: Name, id: nat)
    requires Short(slots) && FindableBut(slots, cut) && AddTo(slots, name, id).1
    ensures var slots' := AddTo(slots, name, id).0;
            Short(slots') && FindableBut(slots', cut + if |name| > 71 then {Truncated(name)} else {})
  {
    hide Hash, Probe;
    var slots' := AddTo(slots, name, id).0;
    var cut' := cut + if |name| > 71 then {Truncated(name)} else {};
    var j := Probe(slots, name, Hash(name), 0).value;
    forall i | 0 <= i < |slots'| && slots'[i].Used? && slots'[i].key !in cut'
      ensures Probe(slots', slots'[i].key, Hash(slots'[i].key), 0) == Some(i)
    {
      if i == j {
        ProbeFindsFilled(slots, name, id, Hash(name), 0);
      } else {
        ProbeAfterFill(slots, Truncated(name), id, j, slots[i].key, Hash(slots[i].key), 0);
      }
    }
  }

  /** A name that no slot holds is not found; one that is not found, and not cut, is in no slot. */
  lemma FoundIffHeld(slots: Slots, cut: set<Name>, name: Name)
    requires FindableBut(slots, cut) && name !in cut
    ensures Lookup(slots, name, Hash(name)).Some? <==> name in KeysIn(slots)
  {
    hide Hash, Probe;
    if name in KeysIn(slots) {
      var j :| 0 <= j < |slots| && slots[j].Used? && slots[j].key == name;
    }
  }

  lemma AddedIsFound(slots: Slots, cut: set<Name>, name: Name, id: nat, x: Name)
    requires Short(slots) && FindableBut(slots, cut) && AddTo(slots, name, id).1
    requires |x| <= 71 && x !in cut && (|name| > 71 ==> x != Truncated(name))
    ensures var slots' := AddTo(slots, name, id).0;
            Lookup(slots', x, Hash(x)) == if x == name then Some(id) else Lookup(slots, x, Hash(x))
  {
    hide Hash, Probe;
    var slots' := AddTo(slots, name, id).0;
    var j := Probe(slots, name, Hash(name), 0).value;
    if x == name {
      ProbeFindsFilled(slots, name, id, Hash(name), 0);
    } else {
      FoundIffHeld(slots, cut, x);
      if x in KeysIn(slots) {
        ProbeAfterFill(slots, Truncated(name), id, j, x, Hash(x), 0);
        var p := Probe(slots, x, Hash(x), 0).value;
        assert p != j;
      } else {
        AddKeepsFindable(slots, cut, name, id);
        FoundIffHeld(slots', cut + if |name| > 71 then {Truncated(name)} else {}, x);
        assert x !in KeysIn(slots');
      }
    }
  }

  /** The table's slots after any run whatever. */
  lemma {:induction false} RunKeepsFindable(ops: seq<(Name, nat)>)
    ensures Short(SlotsOf(ops)) && FindableBut(SlotsOf(ops), Cut(ops))
    ensures KeysIn(SlotsOf(ops)) == Stored(ops) && UsedSlots(SlotsOf(ops)) == Filled(ops) <= TABLE_SIZE
  {
    hide Hash, Probe;
    UsedSlotsAll(SlotsOf(ops));
    if ops == [] {
      NoneUsed(SlotsOf(ops));
    } else {
      var front, name, id := ops[..|ops| - 1], ops[|ops| - 1].0, ops[|ops| - 1].1;
      RunKeepsFindable(front);
      if Taken(ops) {
        AddKeepsFindable(SlotsOf(front), Cut(front), name, id);
        AddFills(SlotsOf(front), name, id);
      }
    }
  }

  lemma AddFills(slots: Slots, name: Name, id: nat)
    requires Short(slots) && AddTo(slots, name, id).1
    ensures var slots' := AddTo(slots, name, id).0;
            && KeysIn(slots') == KeysIn(slots) + {Truncated(name)}
            && UsedSlots(slots') == UsedSlots(slots) + if Lookup(slots, name, Hash(name)) == None then 1 else 0
  {
    hide Hash, Probe;
    var slots' := AddTo(slots, name, id).0;
    var j := Probe(slots, name, Hash(name), 0).value;
    UsedAfterFill(slots, j, slots'[j]);
    assert slots'[j].key == Truncated(name);
    forall x | x in KeysIn(slots) + {Truncated(name)} ensures x in KeysIn(slots') {
      if x == Truncated(name) {
        assert slots'[j].Used?;
      } else {
        var i :| 0 <= i < |slots| && slots[i].Used? && slots[i].key == x;
        assert slots'[i] == slots[i];
      }
    }
    forall x | x in KeysIn(slots') ensures x in KeysIn(slots) + {Truncated(name)} {
      var i :| 0 <= i < |slots'| && slots'[i].Used? && slots'[i].key == x;
      assert i != j ==> slots'[i] == slots[i];
    }
  }

  /**
   * After any run of additions, long names included: the table holds the names taken, cut to their
   * field, in as many slots as additions that found nothing; a long name is not found; and every
   * other name has the id last taken for it, unless it is what a longer one was cut to.
   */
  lemma {:induction false} TableAfterAnyRun(ops: seq<(Name, nat)>, x: Name)
    ensures KeysIn(SlotsOf(ops)) == Stored(ops) && UsedSlots(SlotsOf(ops)) == Filled(ops) <= TABLE_SIZE
    ensures |x| > 71 ==> Lookup(SlotsOf(ops), x, Hash(x)) == None
    ensures |x| <= 71 && x !in Cut(ops) ==> Lookup(SlotsOf(ops), x, Hash(x)) == Last(ops, x)
  {
    hide Hash, Probe;
    RunKeepsFindable(ops);
    if ops != [] {
      var front, name, id := ops[..|ops| - 1], ops[|ops| - 1].0, ops[|ops| - 1].1;
      TableAfterAnyRun(front, x);
      RunKeepsFindable(front);
      if Taken(ops) && |x| <= 71 && x !in Cut(ops) {
        AddedIsFound(SlotsOf(front), Cut(front), name, id, x);
      }
    }
  }

  /** An addition is refused exactly for the empty name and when every slot holds another. */
  lemma RefusedIffFull(slots: Slots, name: Name, id: nat)
    ensures !AddTo(slots, name, id).1 <==>
            name == [] || forall j :: 0 <= j < |slots| ==> slots[j].Used? && slots[j].key != name
  {
    hide Hash, Probe;
    ProbeGivesUp(slots, name, Hash(name));
  }

  /** What was added is found, exactly when the name fits its field. */
  lemma FoundIffItFits(slots: Slots, name: Name, id: nat)
    requires |slots| == TABLE_SIZE && AddTo(slots, name, id).1
    requires forall j :: 0 <= j < |slots| && slots[j].Used? ==> |slots[j].key| <= 71
    ensures Lookup(AddTo(slots, name, id).0, name, Hash(name)) == Some(id) <==> |name| <= 71
  {
    hide Hash;
    var h := Hash(name);
    var slots' := AddTo(slots, name, id).0;
    if |name| <= 71 {
      ProbeFindsFilled(slots, name, id, h, 0);
    } else {
      assert forall j :: 0 <= j < |slots'| && slots'[j].Used? ==> slots'[j].key != name;
    }
  }
}
