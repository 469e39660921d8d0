/** Open addressing with linear probing, as the replay table and the message
    table use it: a key sits in the first slot, from its hash on, that was free. */
module Probing {
  import opened Bytes

  datatype Slot<+K, +V> = Empty | Used(key: K, val: V)

  /** Where a probe for `k` starting at `h` stops: at the first slot, `d` or more
      places on, that is empty or holds `k`. None when it has seen every slot. */
  function Probe<K(==), V>(slots: seq<Slot<K, V>>, k: K, h: nat, d: nat): (r: Option<nat>)
    requires d <= |slots|
    ensures r.Some? ==> r.value < |slots|
    ensures r.Some? ==> slots[r.value].Empty? || slots[r.value].key == k
    decreases |slots| - d
  {
    if d == |slots| then None
    else
      var j := (h + d) % |slots|;
      if slots[j].Empty? || slots[j].key == k then Some(j) else Probe(slots, k, h, d + 1)
  }

  /** Every stored key is where a probe for it stops. */
  ghost predicate Findable<K(!new), V(!new)>(slots: seq<Slot<K, V>>, hash: K -> nat) {
    forall j :: 0 <= j < |slots| && slots[j].Used? ==>
      Probe(slots, slots[j].key, hash(slots[j].key), 0) == Some(j)
  }

  /** The finite map a table stands for. */
  ghost function Contents<K(!new), V(!new)>(slots: seq<Slot<K, V>>, hash: K -> nat): map<K, V>
    requires Findable(slots, hash)
  {
    map j | 0 <= j < |slots| && slots[j].Used? :: slots[j].key := slots[j].val
  }

  lemma ContentsAt<K(!new), V(!new)>(slots: seq<Slot<K, V>>, hash: K -> nat, j: nat)
    requires Findable(slots, hash) && j < |slots| && slots[j].Used?
    ensures slots[j].key in Contents(slots, hash)
    ensures Contents(slots, hash)[slots[j].key] == slots[j].val
  {
  }

  function Lookup<K(==), V>(slots: seq<Slot<K, V>>, k: K, h: nat): Option<V> {
    match Probe(slots, k, h, 0)
    case Some(j) => if slots[j].Used? then Some(slots[j].val) else None
    case None => None
  }

  lemma LookupRefinesMap<K(!new), V(!new)>(slots: seq<Slot<K, V>>, hash: K -> nat, k: K)
    requires Findable(slots, hash)
    ensures var m := Contents(slots, hash);
      Lookup(slots, k, hash(k)) == if k in m then Some(m[k]) else None
  {
    var m := Contents(slots, hash);
    if k in m {
      var j :| 0 <= j < |slots| && slots[j].Used? && slots[j].key == k && slots[j].val == m[k];
    }
  }

  /** A probe gives up only when every slot holds another key. */
  lemma {:induction false} ProbeGivesUp<K, V>(slots: seq<Slot<K, V>>, k: K, h: nat)
    ensures Probe(slots, k, h, 0) == None <==>
            forall j :: 0 <= j < |slots| ==> slots[j].Used? && slots[j].key != k
  {
    if Probe(slots, k, h, 0) == None {
      forall j | 0 <= j < |slots| ensures slots[j].Used? && slots[j].key != k {
        var d := (j - h) % |slots|;
        SlotReached(h, j, |slots|);
        ProbePasses(slots, k, h, 0, d);
      }
    }
  }

  lemma SlotReached(h: nat, j: nat, n: nat)
    requires j < n
    ensures (h + (j - h) % n) % n == j
  {
    var q := (j - h) / n;
    assert j - h == q * n + (j - h) % n;
    DivideBack(0 - q, n, j);
  }

  lemma {:induction false} ProbePasses<K, V>(slots: seq<Slot<K, V>>, k: K, h: nat, d: nat, e: nat)
    requires d <= e < |slots| && Probe(slots, k, h, d) == None
    ensures slots[(h + e) % |slots|].Used? && slots[(h + e) % |slots|].key != k
    decreases |slots| - d
  {
    if d < e { ProbePasses(slots, k, h, d + 1, e); }
  }

  /** Filling the slot `j` leaves every probe for another key that stopped at a used slot alone. */
  lemma {:induction false} ProbeAfterFill<K, V>(slots: seq<Slot<K, V>>, k: K, v: V, j: nat, other: K, h: nat, d: nat)
    requires d <= |slots| && j < |slots| && other != k
    requires slots[j].Empty? || slots[j].key == k
    requires var p := Probe(slots, other, h, d); p.Some? && slots[p.value].Used?
    ensures Probe(slots[j := Used(k, v)], other, h, d) == Probe(slots, other, h, d)
    decreases |slots| - d
  {
    var i := (h + d) % |slots|;
    if slots[i].Used? && slots[i].key != other {
      ProbeAfterFill(slots, k, v, j, other, h, d + 1);
    }
  }

  lemma {:induction false} ProbeFindsFilled<K, V>(slots: seq<Slot<K, V>>, k: K, v: V, h: nat, d: nat)
    requires d <= |slots| && Probe(slots, k, h, d).Some?
    ensures var j := Probe(slots, k, h, d).value;
      Probe(slots[j := Used(k, v)], k, h, d) == Some(j)
    decreases |slots| - d
  {
    var i := (h + d) % |slots|;
    if slots[i].Used? && slots[i].key != k {
      ProbeFindsFilled(slots, k, v, h, d + 1);
    }
  }

  /** Storing at the slot a probe returns is a map update and keeps every key findable. */
  lemma StoreRefinesUpdate<K(!new), V(!new)>(slots: seq<Slot<K, V>>, hash: K -> nat, k: K, v: V)
    requires Findable(slots, hash) && Probe(slots, k, hash(k), 0).Some?
    ensures var slots' := slots[Probe(slots, k, hash(k), 0).value := Used(k, v)];
      Findable(slots', hash) && Contents(slots', hash) == Contents(slots, hash)[k := v]
  {
    var j := Probe(slots, k, hash(k), 0).value;
    var slots' := slots[j := Used(k, v)];
    forall i | 0 <= i < |slots'| && slots'[i].Used?
      ensures Probe(slots', slots'[i].key, hash(slots'[i].key), 0) == Some(i)
    {
      if i == j {
        ProbeFindsFilled(slots, k, v, hash(k), 0);
      } else {
        ProbeAfterFill(slots, k, v, j, slots[i].key, hash(slots[i].key), 0);
      }
    }
    var m, m' := Contents(slots, hash), Contents(slots', hash);
    forall x | x in m[k := v] ensures x in m' && m'[x] == m[k := v][x] {
      if x == k {
        ContentsAt(slots', hash, j);
      } else {
        var i :| 0 <= i < |slots| && slots[i].Used? && slots[i].key == x && slots[i].val == m[x];
        assert i != j;
        ContentsAt(slots', hash, i);
      }
    }
    forall x | x in m' ensures x in m[k := v] {
      var i :| 0 <= i < |slots'| && slots'[i].Used? && slots'[i].key == x;
      if i != j { ContentsAt(slots, hash, i); }
    }
  }

  /** A table of empty slots stands for the empty map. */
  lemma EmptyTable<K(!new), V(!new)>(slots: seq<Slot<K, V>>, hash: K -> nat)
    requires forall j :: 0 <= j < |slots| ==> slots[j].Empty?
    ensures Findable(slots, hash) && Contents(slots, hash) == map[]
  {
  }

  // ---- occupancy ------------------------------------------------------------------

  function UsedSlots<K, V>(slots: seq<Slot<K, V>>): nat {
    if slots == [] then 0
    else UsedSlots(slots[..|slots| - 1]) + (if slots[|slots| - 1].Used? then 1 else 0)
  }

  lemma {:induction false} UsedSlotsAll<K, V>(slots: seq<Slot<K, V>>)
    ensures UsedSlots(slots) <= |slots|
    ensures UsedSlots(slots) == |slots| <==> forall j :: 0 <= j < |slots| ==> slots[j].Used?
  {
    if slots != [] {
      var n := |slots| - 1;
      UsedSlotsAll(slots[..n]);
      assert forall j :: 0 <= j < n ==> slots[..n][j] == slots[j];
    }
  }

  ghost function KeysIn<K, V>(slots: seq<Slot<K, V>>): set<K> {
    set j | 0 <= j < |slots| && slots[j].Used? :: slots[j].key
  }

  lemma {:induction false} DistinctKeysCount<K, V>(slots: seq<Slot<K, V>>)
    requires forall i, j :: 0 <= i < j < |slots| && slots[i].Used? && slots[j].Used? ==> slots[i].key != slots[j].key
    ensures |KeysIn(slots)| == UsedSlots(slots)
  {
    if slots == [] {
      assert KeysIn(slots) == {};
    } else {
      var n := |slots| - 1;
      var front := slots[..n];
      DistinctKeysCount(front);
      assert forall j :: 0 <= j < n ==> front[j] == slots[j];
      if slots[n].Used? {
        assert KeysIn(slots) == KeysIn(front) + {slots[n].key};
      } else {
        assert KeysIn(slots) == KeysIn(front);
      }
    }
  }

  /** A probe gives up exactly when the table is full and does not hold the key. */
  lemma ProbeGivesUpWhenFull<K(!new), V(!new)>(slots: seq<Slot<K, V>>, hash: K -> nat, k: K)
    requires Findable(slots, hash)
    ensures var m := Contents(slots, hash);
      Probe(slots, k, hash(k), 0) == None <==> |m| == |slots| && k !in m
    ensures |Contents(slots, hash)| == UsedSlots(slots) <= |slots|
  {
    var m := Contents(slots, hash);
    ProbeGivesUp(slots, k, hash(k));
    UsedSlotsAll(slots);
    DistinctKeysCount(slots);
    assert m.Keys == KeysIn(slots);
    if k in m {
      var j :| 0 <= j < |slots| && slots[j].Used? && slots[j].key == k;
    }
    forall j | 0 <= j < |slots| && slots[j].Used? ensures slots[j].key in m { ContentsAt(slots, hash, j); }
  }
}
