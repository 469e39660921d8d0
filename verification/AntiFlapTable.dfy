/** The guard in place: 256 entries searched from the front, never removed. */
module AntiFlapTable {
  import opened AntiFlap

  datatype Entry = Entry(key: nat, rec: Rec)

  predicate Distinct(es: seq<Entry>) { forall i, j :: 0 <= i < j < |es| ==> es[i].key != es[j].key }

  function Recs(es: seq<Entry>): map<nat, Rec> {
    if es == [] then map[] else Recs(es[..|es| - 1])[es[|es| - 1].key := es[|es| - 1].rec]
  }

  /** Repairs suppressed over all the entries. */
  function Suppressed(es: seq<Entry>): nat {
    if es == [] then 0 else Suppressed(es[..|es| - 1]) + es[|es| - 1].rec.suppressed
  }

  function FlappingIn(es: seq<Entry>): nat {
    if es == [] then 0 else FlappingIn(es[..|es| - 1]) + if es[|es| - 1].rec.flapping then 1 else 0
  }

  lemma {:induction false} RecsAt(es: seq<Entry>)
    requires Distinct(es)
    ensures |Recs(es)| == |es|
    ensures forall i :: 0 <= i < |es| ==> es[i].key in Recs(es) && Recs(es)[es[i].key] == es[i].rec
    ensures forall k :: k in Recs(es) ==> exists i :: 0 <= i < |es| && es[i].key == k
  {
    if es != [] {
      var before, last := es[..|es| - 1], es[|es| - 1];
      RecsAt(before);
      assert forall i :: 0 <= i < |before| ==> es[i] == before[i];
      assert last.key !in Recs(before);
    }
  }

  lemma {:induction false} RecsUpdate(es: seq<Entry>, i: nat, r: Rec)
    requires Distinct(es) && i < |es|
    ensures Distinct(es[i := Entry(es[i].key, r)])
    ensures Recs(es[i := Entry(es[i].key, r)]) == Recs(es)[es[i].key := r]
    ensures Suppressed(es[i := Entry(es[i].key, r)]) == Suppressed(es) - es[i].rec.suppressed + r.suppressed
  {
    var e := Entry(es[i].key, r);
    var before, last := es[..|es| - 1], es[|es| - 1];
    var after := es[i := e];
    if i == |es| - 1 {
      assert after[..|es| - 1] == before;
    } else {
      RecsUpdate(before, i, r);
      assert after[..|es| - 1] == before[i := e];
      assert last.key != e.key;
    }
  }

  lemma RecsPush(es: seq<Entry>, e: Entry)
    ensures Recs(es + [e]) == Recs(es)[e.key := e.rec]
    ensures Suppressed(es + [e]) == Suppressed(es) + e.rec.suppressed
  {
    var after := es + [e];
    assert after[..|after| - 1] == es && after[|after| - 1] == e;
  }

  class Table {
    const entries: array<Entry>
    var count: nat
    const cfg: Config
    var totalSuppressed: nat

    /** No object has two entries, and the total is the sum over the entries. */
    ghost predicate Valid()
      reads this, entries
    {
      && entries.Length == MAX_TRACKED && count <= MAX_TRACKED
      && Distinct(entries[..count]) && totalSuppressed == Suppressed(entries[..count])
    }

    ghost function Model(): Guard
      requires Valid()
      reads this, entries
    {
      Guard(Recs(entries[..count]), totalSuppressed)
    }

    constructor (config: Config)
      ensures Valid() && fresh(entries) && Model() == START.g
      ensures cfg.windowMs == (if config.windowMs == 0 then 5000 else config.windowMs)
      ensures cfg.maxCount == (if config.maxCount == 0 then 3 else config.maxCount)
    {
      entries := new Entry[MAX_TRACKED](_ => Entry(0, FRESH));
      count, totalSuppressed, cfg := 0, 0, Defaulted(config);
    }

    method FindEntry(key: nat) returns (i: nat)
      requires Valid()
      ensures i <= count
      ensures i < count ==> entries[i].key == key && key in Model().recs && Model().recs[key] == entries[i].rec
      ensures i == count ==> key !in Model().recs && forall j :: 0 <= j < count ==> entries[j].key != key
    {
      hide Recs, Suppressed;
      i := 0;
      while i < count && entries[i].key != key
        invariant i <= count && forall j :: 0 <= j < i ==> entries[j].key != key
      {
        i := i + 1;
      }
      RecsAt(entries[..count]);
      if i < count { assert entries[..count][i] == entries[i]; }
    }

    /** Replaces the record of entry `i` and adds what it newly suppressed to the total. */
    method Put(i: nat, r: Rec)
      requires Valid() && i < count && entries[i].rec.suppressed <= r.suppressed
      modifies `totalSuppressed, entries
      ensures Valid() && Model().recs == old(Model().recs[entries[i].key := r])
      ensures totalSuppressed == old(totalSuppressed) + r.suppressed - old(entries[i].rec.suppressed)
    {
      hide Recs, Suppressed;
      RecsUpdate(entries[..count], i, r);
      ghost var before := entries[..count];
      totalSuppressed := totalSuppressed + r.suppressed - entries[i].rec.suppressed;
      entries[i] := Entry(entries[i].key, r);
      assert entries[..count] == before[i := entries[i]];
    }

    method CreateEntry(key: nat)
      requires Valid() && count < MAX_TRACKED && key !in Model().recs
      requires forall j :: 0 <= j < count ==> entries[j].key != key
      modifies `count, entries
      ensures Valid() && count == old(count) + 1 && entries[count - 1] == Entry(key, FRESH)
      ensures Model().recs == old(Model().recs)[key := FRESH]
    {
      hide Recs, Suppressed;
      ghost var before := entries[..count];
      RecsPush(before, Entry(key, FRESH));
      entries[count] := Entry(key, FRESH);
      count := count + 1;
      assert entries[..count] == before + [Entry(key, FRESH)];
    }

    method CheckAndRecord(key: nat, now: nat) returns (allowed: bool)
      requires Valid()
      modifies this, entries
      ensures Valid() && (Model(), allowed) == Check(cfg, old(Model()), key, now)
    {
      hide Recs, Suppressed;
      ghost var g := Model();
      RecsAt(entries[..count]);
      var i := FindEntry(key);
      if i == count {
        if count >= MAX_TRACKED { return true; }
        CreateEntry(key);
      }
      var r := entries[i].rec;
      if r.flapping {
        Put(i, r.(suppressed := r.suppressed + 1));
        return false;
      }
      if r.count == 0 || now - r.start > WindowNs(cfg) {
        r := r.(start := now, count := 1);
      } else {
        r := r.(count := r.count + 1);
      }
      r := r.(repairs := r.repairs + 1);
      if r.count > cfg.maxCount {
        r := r.(flapping := true, suppressed := r.suppressed + 1);
        Put(i, r);
        assert Model() == Guard(g.recs[key := r], g.total + 1);
        return false;
      }
      Put(i, r);
      assert Model() == Guard(g.recs[key := r], g.total);
      return true;
    }

    method IsFlapping(key: nat) returns (b: bool)
      requires Valid()
      ensures b <==> key in Model().recs && Model().recs[key].flapping
    {
      var i := FindEntry(key);
      b := i < count && entries[i].rec.flapping;
    }

    method ClearFlapping(key: nat)
      requires Valid()
      modifies `totalSuppressed, entries
      ensures Valid() && Model() == Clear(old(Model()), key)
    {
      hide Recs, Suppressed;
      var i := FindEntry(key);
      if i < count {
        Put(i, entries[i].rec.(flapping := false, count := 0, start := 0));
      }
    }

    method GetStats() returns (tracked: nat, flapping: nat, suppressed: nat)
      requires Valid()
      ensures tracked == |Model().recs| && flapping == FlappingIn(entries[..count])
      ensures suppressed == Suppressed(entries[..count])
    {
      RecsAt(entries[..count]);
      flapping := 0;
      for i := 0 to count
        invariant flapping == FlappingIn(entries[..i])
      {
        assert entries[..i + 1][..i] == entries[..i];
        if entries[i].rec.flapping { flapping := flapping + 1; }
      }
      return count, flapping, totalSuppressed;
    }
  }
}
