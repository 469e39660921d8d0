/** Durable configuration: every mutation of the default store is logged, and
    boot replays the log through a last-writer-wins table into the store. */
module Persist {
  import opened Bytes
  import opened Dpa
  import opened ObjectStore
  import opened Wal
  import opened Probing

  // ---- object types on the wire ---------------------------------------------------

  function TypeToWal(t: ObjType): nat {
    match t
    case Iface => 1
    case Vrf => 2
    case NextHop => 3
    case NhGroup => 4
    case Route => 5
    case Acl => 6
    case Qos => 8
    case Bfd => 9
    case MplsLsp => 20
    case Tunnel => 21
    case Evpn => 22
    case Multicast => 23
    case QosBind => 24
    case Invalid => 0
    case Vlan => 0
  }

  function WalToType(w: nat): ObjType {
    match w
    case 1 => Iface
    case 2 => Vrf
    case 3 => NextHop
    case 4 => NhGroup
    case 5 => Route
    case 6 => Acl
    case 8 => Qos
    case 9 => Bfd
    case 20 => MplsLsp
    case 21 => Tunnel
    case 22 => Evpn
    case 23 => Multicast
    case 24 => QosBind
    case _ => Invalid
  }

  /** The keys the log can hold: a mapped type and a 32-bit id. */
  predicate Loggable(k: Key) { TypeToWal(k.objType) != 0 && k.id < WORD }

  /** The two type maps are inverse on the mapped types. */
  lemma TypeMapsInverse(t: ObjType, w: nat)
    ensures TypeToWal(t) != 0 ==> WalToType(TypeToWal(t)) == t
    ensures WalToType(w) != Invalid ==> TypeToWal(WalToType(w)) == w
    ensures WalToType(w) == Invalid || w != 0
  {
  }

  // ---- mutations and what they log ------------------------------------------------

  datatype Mutation = Create(k: Key, data: seq<byte>) | Update(k: Key, data: seq<byte>) | Delete(k: Key)

  /** The store operation, on the map the store stands for. */
  function Apply(m: map<Key, seq<byte>>, op: Mutation): (Status, map<Key, seq<byte>>) {
    match op
    case Create(k, data) =>
      if data == [] then (InvalidArg, m) else if k in m then (Exists, m) else (Ok, m[k := data])
    case Update(k, data) =>
      if data == [] then (InvalidArg, m) else if k in m then (Ok, m[k := data]) else (NotFound, m)
    case Delete(k) => (if k in m then Ok else NotFound, m - {k})
  }

  /** The record of a mutation; the length is cut to 32 bits. */
  function RecordOf(op: Mutation): Record {
    match op
    case Create(k, data) => Record(1, OP_CREATE, TypeToWal(k.objType), k.id, data[..|data| % WORD])
    case Update(k, data) => Record(1, OP_UPDATE, TypeToWal(k.objType), k.id, data[..|data| % WORD])
    case Delete(k) => Record(1, OP_DELETE, TypeToWal(k.objType), k.id, [])
  }

  /** What reaches the file of a mutation's frame. */
  function Written(op: Mutation, room: nat): seq<byte> {
    var f := Frame(RecordOf(op));
    if |f| <= room then f else f[..room]
  }

  // ---- the replay table -----------------------------------------------------------

  const REPLAY_SLOTS: nat := 4096

  datatype SlotKey = SlotKey(walType: nat, id: nat)
  datatype SlotVal = SlotVal(lastOp: byte, data: seq<byte>)

  function SlotHash(k: SlotKey): nat {
    (k.walType * 2654435761 + k.id) % WORD % REPLAY_SLOTS
  }

  function SlotOf(r: Record): SlotKey { SlotKey(r.objType, r.objId) }
  function SlotOfKey(k: Key): SlotKey { SlotKey(TypeToWal(k.objType), k.id) }

  predicate IsObjectOp(op: byte) { op == OP_CREATE || op == OP_UPDATE || op == OP_DELETE }

  /** One record into the table: the last writer of a key wins; a key that
      would be the 4097th is dropped. */
  function Admit(t: map<SlotKey, SlotVal>, r: Record): map<SlotKey, SlotVal> {
    if !IsObjectOp(r.opType) then t
    else if SlotOf(r) in t || |t| < REPLAY_SLOTS then t[SlotOf(r) := SlotVal(r.opType, r.data)]
    else t
  }

  function Table(rs: seq<Record>): map<SlotKey, SlotVal> {
    if rs == [] then map[] else Admit(Table(rs[..|rs| - 1]), rs[|rs| - 1])
  }

  type Slots = seq<Slot<SlotKey, SlotVal>>

  class ReplayTable {
    const slots: array<Slot<SlotKey, SlotVal>>

    ghost predicate Valid()
      reads this, slots
    {
      slots.Length == REPLAY_SLOTS && Findable(slots[..], SlotHash)
    }

    ghost function Map(): map<SlotKey, SlotVal>
      requires Valid()
      reads this, slots
    {
      Contents(slots[..], SlotHash)
    }

    constructor ()
      ensures Valid() && Map() == map[] && fresh(slots)
    {
      slots := new Slot<SlotKey, SlotVal>[REPLAY_SLOTS](_ => Empty);
      new;
      EmptyTable(slots[..], SlotHash);
    }

    /** Index of the slot for a key, or None when the table is full of others. */
    method ProbeSlot(k: SlotKey) returns (r: Option<nat>)
      requires Valid()
      ensures r == Probe(slots[..], k, SlotHash(k), 0)
    {
      hide SlotHash;
      var h := SlotHash(k);
      var i := 0;
      while i < REPLAY_SLOTS
        invariant 0 <= i <= REPLAY_SLOTS
        invariant Probe(slots[..], k, h, 0) == Probe(slots[..], k, h, i)
      {
        var j := (h + i) % REPLAY_SLOTS;
        if slots[j].Empty? { return Some(j); }
        if slots[j].key == k { return Some(j); }
        i := i + 1;
      }
      r := None;
    }

    /** The replay callback. */
    method Record(r: Record) returns (ok: bool)
      requires Valid()
      modifies slots
      ensures Valid() && Map() == Admit(old(Map()), r)
    {
      hide SlotHash, Probe;
      if r.opType != OP_CREATE && r.opType != OP_UPDATE && r.opType != OP_DELETE { return true; }
      var k := SlotKey(r.objType, r.objId);
      var p := ProbeSlot(k);
      ProbeGivesUpWhenFull(slots[..], SlotHash, k);
      if p.None? { return false; }
      StoreRefinesUpdate(slots[..], SlotHash, k, SlotVal(r.opType, r.data));
      ghost var before := slots[..];
      slots[p.value] := Used(k, SlotVal(r.opType, r.data));
      assert slots[..] == before[p.value := Used(k, SlotVal(r.opType, r.data))];
      ok := true;
    }
  }

  // ---- recovery -------------------------------------------------------------------

  function Get(m: map<Key, seq<byte>>, k: Key): Option<seq<byte>> {
    if k in m then Some(m[k]) else None
  }

  /** What one key holds after recovery applies its slot to a store that held `was`. */
  function Recovered(was: Option<seq<byte>>, v: SlotVal): Option<seq<byte>> {
    if v.lastOp == 0 then was
    else if v.lastOp == OP_DELETE then None
    else if v.data == [] then was
    else if v.lastOp == OP_UPDATE then Some(v.data)
    else if was.Some? then was else Some(v.data)
  }

  /** What key `k` holds after the table `t` is applied to a store that stood for `m`. */
  function RecoveredAt(m: map<Key, seq<byte>>, t: map<SlotKey, SlotVal>, k: Key): Option<seq<byte>> {
    if TypeToWal(k.objType) != 0 && SlotOfKey(k) in t then Recovered(Get(m, k), t[SlotOfKey(k)]) else Get(m, k)
  }

  /** The process's persistence state around the default store. */
  class Persistence {
    const store: Store
    const log: LogFile
    var enabled: bool
    var recovering: bool
    var recordsLogged: nat
    var recovered: nat

    ghost predicate Valid()
      reads this, store, store.buckets, store.entries`next
    {
      store.Valid()
    }

    /** Boot: an empty store over whatever log file is on disk. */
    constructor (log: LogFile)
      ensures Valid() && fresh(store) && fresh(store.buckets) && fresh(store.entries)
      ensures this.log == log && store.Contents() == map[]
      ensures enabled && !recovering && recordsLogged == 0 && recovered == 0
    {
      this.log := log;
      store := new Store(1024);
      enabled, recovering, recordsLogged, recovered := true, false, 0, 0;
    }

    /**
     * The hook the store calls after a successful mutation, on a device with `room` bytes left whose
     * sync works or not. A short write leaves a torn frame; the store is not told of either failure.
     */
    method OnMutation(op: Mutation, room: nat, synced: bool)
      modifies this`recordsLogged, log
      ensures log.bytes == old(log.bytes) + if enabled && !recovering && Loggable(op.k) then Written(op, room) else []
      ensures recordsLogged == old(recordsLogged) +
        if enabled && !recovering && Loggable(op.k) && |Frame(RecordOf(op))| <= room && synced then 1 else 0
    {
      if !enabled || recovering { return; }
      if op.k.id > 0xFFFF_FFFF { return; }
      if TypeToWal(op.k.objType) == 0 { return; }
      var ok := log.Append(RecordOf(op), room);
      if !ok { return; }
      if !synced { return; }
      recordsLogged := recordsLogged + 1;
    }

    method Mutate(op: Mutation, room: nat, synced: bool) returns (st: Status)
      requires Valid()
      modifies this`recordsLogged, store, store.buckets, store.entries, log
      ensures Valid() && fresh(store.entries - old(store.entries))
      ensures (st, store.Contents()) == Apply(old(store.Contents()), op)
      ensures st == Ok && enabled && !recovering && Loggable(op.k) ==> log.bytes == old(log.bytes) + Written(op, room)
      ensures !(st == Ok && enabled && !recovering && Loggable(op.k)) ==> log.bytes == old(log.bytes)
      ensures recovering ==> recordsLogged == old(recordsLogged)
    {
      hide Frame, Loggable, RecordOf, Written, Store.Valid, Store.Contents;
      match op {
        case Create(k, data) => st := store.Create(k, data);
        case Update(k, data) => st := store.Update(k, data);
        case Delete(k) => st := store.Delete(k);
      }
      if st == Ok { OnMutation(op, room, synced); }
    }

    /** Applies one used slot of the replay table. */
    method ApplySlot(sk: SlotKey, v: SlotVal) returns (applied: nat)
      requires Valid() && recovering && WalToType(sk.walType) != Invalid && v.lastOp != 0
      modifies this`recordsLogged, store, store.buckets, store.entries, log
      ensures Valid() && fresh(store.entries - old(store.entries))
      ensures log.bytes == old(log.bytes) && recordsLogged == old(recordsLogged)
      ensures var k := Key(WalToType(sk.walType), sk.id); var m := old(store.Contents());
        forall x :: Get(store.Contents(), x) == if x == k then Recovered(Get(m, k), v) else Get(m, x)
    {
      hide Store.Valid, Store.Contents;
      var k := Key(WalToType(sk.walType), sk.id);
      applied := 0;
      var st;
      if v.lastOp == OP_DELETE {
        st := Mutate(Delete(k), 0, true);
        applied := 1;
      } else if v.data != [] {
        if v.lastOp == OP_UPDATE {
          st := Mutate(Update(k, v.data), 0, true);
          if st == NotFound { st := Mutate(Create(k, v.data), 0, true); }
        } else {
          st := Mutate(Create(k, v.data), 0, true);
        }
        if st == Ok || st == Exists || st == NotFound { applied := 1; }
      }
    }

    /** Replays the log into the store. */
    method Recover() returns (applied: nat)
      requires Valid()
      modifies this, store, store.buckets, store.entries, log
      ensures Valid() && fresh(store.entries - old(store.entries)) && enabled == old(enabled)
      ensures log.bytes == old(log.bytes) && recordsLogged == old(recordsLogged)
      ensures enabled ==> !recovering
      ensures !enabled ==> store.Contents() == old(store.Contents())
      ensures enabled ==> forall k ::
        Get(store.Contents(), k) == RecoveredAt(old(store.Contents()), Table(Delivered(log.bytes)), k)
    {
      hide Store.Valid, Store.Contents, Delivered;
      applied := 0;
      if !enabled { return; }
      recovering := true;
      var table := ReplayLog();
      applied := ApplyTable(table);
      recovering := false;
      recovered := applied;
    }

    method ReplayLog() returns (table: ReplayTable)
      ensures fresh(table) && fresh(table.slots) && table.Valid()
      ensures table.Map() == Table(Delivered(log.bytes))
    {
      hide Delivered, ReplayTable.Valid, ReplayTable.Map;
      table := new ReplayTable();
      var records, n := Replay(log.bytes);
      for i := 0 to |records|
        invariant table.Valid() && table.Map() == Table(records[..i])
      {
        var ok := table.Record(records[i]);
        assert records[..i + 1][..i] == records[..i];
      }
      assert records[..|records|] == records;
    }

    method ApplyTable(table: ReplayTable) returns (applied: nat)
      requires Valid() && recovering && table.Valid()
      modifies this`recordsLogged, store, store.buckets, store.entries, log
      ensures Valid() && fresh(store.entries - old(store.entries))
      ensures log.bytes == old(log.bytes) && recordsLogged == old(recordsLogged)
      ensures forall k :: Get(store.Contents(), k) == RecoveredAt(old(store.Contents()), table.Map(), k)
    {
      hide Store.Valid, Store.Contents, Get, TypeToWal, WalToType, Probe, SlotHash;
      applied := 0;
      ghost var m, s := store.Contents(), table.slots[..];
      for i := 0 to REPLAY_SLOTS
        invariant Valid() && fresh(store.entries - old(store.entries)) && table.slots[..] == s
        invariant log.bytes == old(log.bytes) && recordsLogged == old(recordsLogged)
        invariant forall k :: Get(store.Contents(), k) == AppliedAt(m, s, i, k)
      {
        match table.slots[i] {
          case Empty =>
          case Used(sk, v) =>
            if v.lastOp != 0 && WalToType(sk.walType) != Invalid {
              var n := ApplySlot(sk, v);
              applied := applied + n;
            }
            forall k { SlotOfKeyInverse(sk, k); }
        }
      }
      forall k { AppliedAll(m, s, k); }
    }
  }

  /** The store key a slot applies to, when its type is mapped. */
  lemma SlotOfKeyInverse(sk: SlotKey, k: Key)
    ensures (TypeToWal(k.objType) != 0 && SlotOfKey(k) == sk) <==>
            (WalToType(sk.walType) != Invalid && k == Key(WalToType(sk.walType), sk.id))
  {
    TypeMapsInverse(k.objType, sk.walType);
  }

  /** What `k` holds once the first `i` slots have been applied in turn. */
  function AppliedAt(m: map<Key, seq<byte>>, s: Slots, i: nat, k: Key): Option<seq<byte>>
    requires i <= |s|
  {
    if i == 0 then Get(m, k)
    else if s[i - 1].Used? && TypeToWal(k.objType) != 0 && SlotOfKey(k) == s[i - 1].key
    then Recovered(AppliedAt(m, s, i - 1, k), s[i - 1].val)
    else AppliedAt(m, s, i - 1, k)
  }

  /** Each key has one slot at most, so the order of the slots does not matter. */
  lemma {:induction false} AppliedIsRecovered(m: map<Key, seq<byte>>, s: Slots, i: nat, k: Key)
    requires i <= |s| && Findable(s, SlotHash)
    ensures AppliedAt(m, s, i, k) ==
      if TypeToWal(k.objType) != 0 && exists j :: 0 <= j < i && s[j].Used? && s[j].key == SlotOfKey(k)
      then RecoveredAt(m, Contents(s, SlotHash), k) else Get(m, k)
  {
    hide Recovered, Probe, SlotHash, TypeToWal;
    if i > 0 {
      AppliedIsRecovered(m, s, i - 1, k);
      if s[i - 1].Used? { ContentsAt(s, SlotHash, i - 1); }
    }
  }

  lemma AppliedAll(m: map<Key, seq<byte>>, s: Slots, k: Key)
    requires Findable(s, SlotHash)
    ensures AppliedAt(m, s, |s|, k) == RecoveredAt(m, Contents(s, SlotHash), k)
  {
    hide Recovered, Probe, SlotHash, TypeToWal;
    AppliedIsRecovered(m, s, |s|, k);
    var t := Contents(s, SlotHash);
    if SlotOfKey(k) in t {
      var j :| 0 <= j < |s| && s[j].Used? && s[j].key == SlotOfKey(k);
    }
  }
}
