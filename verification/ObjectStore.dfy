/** The object registry: a chained hash table of blobs keyed by (type, id).
    The chains are linked through `next`; delete unlinks in place. */
module ObjectStore {
  import opened Bytes
  import opened Dpa

  const DEFAULT_BUCKET_COUNT: nat := 1024

  function Hash(k: Key, bucketCount: nat): (h: nat)
    requires bucketCount > 0
    ensures h < bucketCount
  {
    (Code(k.objType) * 2654435761 + k.id) % 0x1_0000_0000_0000_0000 % bucketCount
  }

  /** `order` lists the keys of `keys`, each exactly once. */
  ghost predicate Enumerates<K(!new)>(order: seq<K>, keys: set<K>) {
    && (forall i, j :: 0 <= i < j < |order| ==> order[i] != order[j])
    && (forall k :: k in keys <==> k in order)
  }

  class Entry {
    const key: Key
    var data: seq<byte>
    var next: Entry?

    constructor (key: Key, data: seq<byte>, next: Entry?)
      ensures this.key == key && this.data == data && this.next == next
    {
      this.key, this.data, this.next := key, data, next;
    }
  }

  /** The i-th entry of a chain, null past its end. */
  ghost function At(c: seq<Entry>, i: nat): Entry? {
    if i < |c| then c[i] else null
  }

  /** A chain with its i-th entry unlinked. */
  ghost function Without<T>(c: seq<T>, i: nat): seq<T>
    requires i < |c|
  {
    c[..i] + c[i + 1..]
  }

  lemma WithoutAt<T>(c: seq<T>, i: nat)
    requires i < |c|
    ensures |Without(c, i)| == |c| - 1
    ensures forall j :: 0 <= j < |c| - 1 ==> Without(c, i)[j] == c[if j < i then j else j + 1]
    ensures forall x :: x in c && x != c[i] ==> x in Without(c, i)
  {
    forall x | x in c && x != c[i] ensures x in Without(c, i) {
      var j :| 0 <= j < |c| && c[j] == x;
      assert Without(c, i)[if j < i then j else j - 1] == x;
    }
  }

  /** `head` starts the chain `c` of bucket `h` out of `n`: its entries follow one
      another through `next`, hash to `h` and are the ones `index` gives for their keys. */
  ghost predicate Chain(h: nat, n: nat, head: Entry?, c: seq<Entry>, index: map<Key, Entry>)
    reads c`next
  {
    && 0 < n
    && head == At(c, 0)
    && (forall i :: 0 <= i < |c| ==> c[i].next == At(c, i + 1))
    && (forall i, j :: 0 <= i < j < |c| ==> c[i] != c[j])
    && (forall i :: 0 <= i < |c| ==> c[i].key in index && index[c[i].key] == c[i] && Hash(c[i].key, n) == h)
  }

  lemma ChainMembers(h: nat, n: nat, head: Entry?, c: seq<Entry>, index: map<Key, Entry>)
    requires Chain(h, n, head, c, index)
    ensures 0 < n && forall e :: e in c ==> e.key in index && index[e.key] == e && Hash(e.key, n) == h
  {
    hide Hash;
  }

  /** A chain survives an index change that keeps its own entries. */
  lemma ChainReindexed(h: nat, n: nat, head: Entry?, c: seq<Entry>, index: map<Key, Entry>, index': map<Key, Entry>)
    requires Chain(h, n, head, c, index)
    requires forall k :: k in index && Hash(k, n) == h ==> k in index' && index'[k] == index[k]
    ensures Chain(h, n, head, c, index')
  {
    hide Hash;
  }

  lemma ChainPush(h: nat, n: nat, e: Entry, c: seq<Entry>, index: map<Key, Entry>)
    requires Chain(h, n, e.next, c, index) && e !in c && e.key !in index && Hash(e.key, n) == h
    ensures Chain(h, n, e, [e] + c, index[e.key := e])
  {
    hide Hash;
    var d := [e] + c;
    assert forall i :: 0 < i < |d| ==> d[i] == c[i - 1];
  }

  /** Bypassing the i-th entry leaves a chain of the others. */
  lemma ChainWithout(h: nat, n: nat, head: Entry?, c: seq<Entry>, index: map<Key, Entry>, i: nat)
    requires 0 < n && i < |c| && head == At(c, if i == 0 then 1 else 0)
    requires forall j :: 0 <= j < |c| && j != i ==> c[j].next == At(c, if j + 1 == i then i + 1 else j + 1)
    requires forall j, l :: 0 <= j < l < |c| ==> c[j] != c[l]
    requires forall j :: 0 <= j < |c| ==> c[j].key in index && index[c[j].key] == c[j] && Hash(c[j].key, n) == h
    ensures Chain(h, n, head, Without(c, i), index - {c[i].key})
  {
    hide Hash, Without, At;
    WithoutAt(c, i);
    var d := Without(c, i);
    AtIs(d, 0);
    AtIs(c, if i == 0 then 1 else 0);
    forall j | 0 <= j < |d| ensures d[j].next == At(d, j + 1) {
      var o := if j < i then j else j + 1;
      AtIs(d, j + 1);
      AtIs(c, if o + 1 == i then i + 1 else o + 1);
    }
  }

  lemma AtIs(c: seq<Entry>, i: nat)
    ensures At(c, i) == if i < |c| then c[i] else null
  {
  }

  class Store {
    const buckets: array<Entry?>
    var count: nat
    /** The chain hanging off each bucket, the entry of each key, and every entry ever linked. */
    ghost var chains: seq<seq<Entry>>
    ghost var index: map<Key, Entry>
    ghost var entries: set<Entry>

    ghost predicate Valid()
      reads this, buckets, entries`next
    {
      && |chains| == buckets.Length > 0
      && (forall h, i :: 0 <= h < |chains| && 0 <= i < |chains[h]| ==> chains[h][i] in entries)
      && (forall h :: 0 <= h < |chains| ==> Chain(h, buckets.Length, buckets[h], chains[h], index))
      && (forall k :: k in index ==> index[k].key == k && index[k] in chains[Hash(k, buckets.Length)])
      && count == |index|
    }

    /** The finite map the table stands for. */
    ghost function Contents(): map<Key, seq<byte>>
      reads this, buckets, entries
      requires Valid()
    {
      assert forall k :: k in index ==> index[k] in entries;
      map k | k in index :: index[k].data
    }

    constructor (bucketCount: nat)
      ensures Valid() && Contents() == map[]
      ensures buckets.Length == if bucketCount == 0 then DEFAULT_BUCKET_COUNT else bucketCount
      ensures fresh(buckets) && entries == {}
    {
      var n := if bucketCount == 0 then DEFAULT_BUCKET_COUNT else bucketCount;
      buckets := new Entry?[n](_ => null);
      count := 0;
      chains := seq(n, _ => []);
      index, entries := map[], {};
    }

    method Find(k: Key) returns (e: Entry?)
      requires Valid()
      ensures e == null <==> k !in index
      ensures e != null ==> e == index[k]
    {
      hide Hash;
      var h := Hash(k, buckets.Length);
      ghost var c := chains[h];
      assert Chain(h, buckets.Length, buckets[h], c, index);
      e := buckets[h];
      ghost var i := 0;
      while e != null
        invariant 0 <= i <= |c| && e == At(c, i)
        invariant forall j :: 0 <= j < i ==> c[j].key != k
        decreases |c| - i
      {
        if e.key == k { return; }
        e := e.next;
        i := i + 1;
      }
    }

    /** Pushes a new entry at the head of its bucket's chain. */
    method Link(k: Key, data: seq<byte>) returns (ghost e: Entry)
      requires Valid() && k !in index
      modifies this, buckets
      ensures Valid() && index == old(index)[k := e] && entries == old(entries) + {e} && fresh(e) && e.data == data
    {
      hide Hash, Chain;
      var n := buckets.Length;
      var h := Hash(k, n);
      ghost var c := chains[h];
      var entry := new Entry(k, data, buckets[h]);
      e := entry;
      buckets[h] := entry;
      count := count + 1;
      chains := chains[h := [e] + c];
      index, entries := index[k := e], entries + {e};
      ChainPush(h, n, e, c, old(index));
      forall g | 0 <= g < n && g != h ensures Chain(g, n, buckets[g], chains[g], index) {
        ChainReindexed(g, n, buckets[g], chains[g], old(index), index);
      }
    }

    method Create(k: Key, data: seq<byte>) returns (st: Status)
      requires Valid()
      modifies this, buckets
      ensures Valid() && fresh(entries - old(entries))
      ensures st == if data == [] then InvalidArg else if k in old(Contents()) then Exists else Ok
      ensures Contents() == if st == Ok then old(Contents())[k := data] else old(Contents())
    {
      hide Valid;
      if data == [] { return InvalidArg; }
      var found := Find(k);
      if found != null { return Exists; }
      ghost var e := Link(k, data);
      st := Ok;
    }

    /** Copies the object out when the caller's buffer is large enough. */
    method Read(k: Key, capacity: nat) returns (st: Status, out: seq<byte>, size: nat)
      requires Valid()
      ensures k !in Contents() ==> st == NotFound
      ensures k in Contents() ==> size == |Contents()[k]|
      ensures k in Contents() && capacity < |Contents()[k]| ==> st == InvalidArg
      ensures k in Contents() && capacity >= |Contents()[k]| ==> st == Ok && out == Contents()[k]
    {
      hide Hash, Chain;
      out, size := [], capacity;
      var e := Find(k);
      if e == null { return NotFound, out, size; }
      size := |e.data|;
      if capacity < size { return InvalidArg, out, size; }
      st, out := Ok, e.data;
    }

    method Update(k: Key, data: seq<byte>) returns (st: Status)
      requires Valid()
      modifies entries`data
      ensures Valid()
      ensures st == if data == [] then InvalidArg else if k in old(Contents()) then Ok else NotFound
      ensures Contents() == if st == Ok then old(Contents())[k := data] else old(Contents())
    {
      hide Hash, Chain;
      if data == [] { return InvalidArg; }
      var e := Find(k);
      if e == null { return NotFound; }
      e.data := data;
      st := Ok;
    }

    /** Makes the pointer that leads to the i-th entry of a chain lead past it. */
    method Bypass(h: nat, ghost i: nat, prev: Entry?, e: Entry)
      requires Valid() && h < buckets.Length && i < |chains[h]| && chains[h][i] == e
      requires prev == if i == 0 then null else chains[h][i - 1]
      modifies buckets, chains[h]`next
      ensures Chain(h, buckets.Length, buckets[h], Without(chains[h], i), index - {e.key})
      ensures forall g :: 0 <= g < buckets.Length && g != h ==>
                Chain(g, buckets.Length, buckets[g], chains[g], index - {e.key})
    {
      hide Hash, Without, At;
      var n := buckets.Length;
      forall g | 0 <= g < n ensures forall x :: x in chains[g] ==> x.key in index && Hash(x.key, n) == g {
        ChainMembers(g, n, buckets[g], chains[g], index);
      }
      BypassHere(h, i, prev, e);
      forall g | 0 <= g < n && g != h ensures Chain(g, n, buckets[g], chains[g], index - {e.key}) {
        ghost var c := chains[g];
        assert old(Chain(g, n, buckets[g], c, index));
        assert forall i :: 0 <= i < |c| ==> c[i] !in chains[h] && c[i].next == old(c[i].next);
        assert Chain(g, n, buckets[g], c, index);
        ChainReindexed(g, n, buckets[g], c, index, index - {e.key});
      }
    }

    method BypassHere(h: nat, ghost i: nat, prev: Entry?, e: Entry)
      requires h < buckets.Length == |chains| && i < |chains[h]| && chains[h][i] == e
      requires Chain(h, buckets.Length, buckets[h], chains[h], index)
      requires prev == if i == 0 then null else chains[h][i - 1]
      modifies buckets, chains[h]`next
      ensures Chain(h, buckets.Length, buckets[h], Without(chains[h], i), index - {e.key})
      ensures forall g :: 0 <= g < buckets.Length && g != h ==> buckets[g] == old(buckets[g])
    {
      hide Hash, Without;
      if prev != null { prev.next := e.next; } else { buckets[h] := e.next; }
      ChainWithout(h, buckets.Length, buckets[h], chains[h], index, i);
    }

    /** The chains and the index agree again once both have dropped the same entry. */
    lemma DroppedFromBoth(h: nat, i: nat, chains0: seq<seq<Entry>>, index0: map<Key, Entry>)
      requires h < |chains0| == buckets.Length && i < |chains0[h]|
      requires forall g, j :: 0 <= g < |chains0| && 0 <= j < |chains0[g]| ==> chains0[g][j] in entries
      requires forall k :: k in index0 ==> index0[k].key == k && index0[k] in chains0[Hash(k, buckets.Length)]
      requires chains0[h][i].key in index0 && index0[chains0[h][i].key] == chains0[h][i]
      requires chains == chains0[h := Without(chains0[h], i)]
      requires index == index0 - {chains0[h][i].key} && count == |index0| - 1
      requires forall g :: 0 <= g < |chains| ==> Chain(g, buckets.Length, buckets[g], chains[g], index)
      ensures Valid()
    {
      hide Hash, Without, Chain;
      WithoutAt(chains0[h], i);
      assert index0.Keys == index.Keys + {chains0[h][i].key};
      assert forall j :: 0 <= j < |chains[h]| ==> chains[h][j] == chains0[h][if j < i then j else j + 1];
    }

    /** Unlinks the i-th entry of bucket h's chain. */
    method Unlink(h: nat, ghost i: nat, prev: Entry?, e: Entry)
      requires Valid() && h < buckets.Length && i < |chains[h]| && chains[h][i] == e
      requires prev == if i == 0 then null else chains[h][i - 1]
      modifies this, buckets, entries`next
      ensures Valid() && index == old(index) - {e.key} && entries == old(entries)
    {
      hide Hash, Without, Chain, Valid;
      ghost var cs, ix := chains, index;
      Parts(h, i);
      Bypass(h, i, prev, e);
      count := count - 1;
      chains := cs[h := Without(cs[h], i)];
      index := ix - {e.key};
      DroppedFromBoth(h, i, cs, ix);
    }

    /** What validity says of the chains and the index, apart from the links. */
    lemma Parts(h: nat, i: nat)
      requires Valid() && h < buckets.Length && i < |chains[h]|
      ensures |chains| == buckets.Length && count == |index|
      ensures forall g, j :: 0 <= g < |chains| && 0 <= j < |chains[g]| ==> chains[g][j] in entries
      ensures forall k :: k in index ==> index[k].key == k && index[k] in chains[Hash(k, buckets.Length)]
      ensures chains[h][i].key in index && index[chains[h][i].key] == chains[h][i]
    {
      hide Hash;
      assert Chain(h, buckets.Length, buckets[h], chains[h], index);
    }

    method Remove(h: nat, ghost i: nat, prev: Entry?, e: Entry)
      requires Valid() && h < buckets.Length && i < |chains[h]| && chains[h][i] == e
      requires prev == if i == 0 then null else chains[h][i - 1]
      modifies this, buckets, entries`next
      ensures Valid() && entries == old(entries) && Contents() == old(Contents()) - {e.key}
    {
      hide Valid;
      Unlink(h, i, prev, e);
    }

    /** Walks the chain of `k`, keeping the entry before the one it is at. */
    method Locate(k: Key, h: nat) returns (prev: Entry?, e: Entry?, ghost i: nat)
      requires Valid() && h == Hash(k, buckets.Length)
      ensures e == null <==> k !in index
      ensures e != null ==> e.key == k && i < |chains[h]| && chains[h][i] == e
      ensures e != null ==> prev == if i == 0 then null else chains[h][i - 1]
    {
      hide Hash;
      ghost var c := chains[h];
      assert Chain(h, buckets.Length, buckets[h], c, index);
      prev, e, i := null, buckets[h], 0;
      while e != null
        invariant 0 <= i <= |c| && e == At(c, i)
        invariant prev == if i == 0 then null else c[i - 1]
        invariant forall j :: 0 <= j < i ==> c[j].key != k
        decreases |c| - i
      {
        if e.key == k { return; }
        prev := e;
        e := e.next;
        i := i + 1;
      }
    }

    method Delete(k: Key) returns (st: Status)
      requires Valid()
      modifies this, buckets, entries`next
      ensures Valid() && entries == old(entries)
      ensures st == if k in old(Contents()) then Ok else NotFound
      ensures Contents() == old(Contents()) - {k}
    {
      hide Hash, Chain;
      var h := Hash(k, buckets.Length);
      var prev, e, i := Locate(k, h);
      if e == null { return NotFound; }
      Remove(h, i, prev, e);
      st := Ok;
    }

    /** The keys in the first `i` entries of a chain. */
    ghost predicate Among(k: Key, c: seq<Entry>, i: nat) {
      exists j :: 0 <= j < i && j < |c| && c[j].key == k
    }

    /** One step along a chain reaches a key not seen before. */
    lemma NextIsNew(h: nat, i: nat)
      requires Valid() && h < |chains| && i < |chains[h]|
      ensures var c := chains[h]; var k := c[i].key;
        && k in index && Hash(k, buckets.Length) == h && !Among(k, c, i)
        && forall x :: Among(x, c, i + 1) <==> Among(x, c, i) || x == k
    {
      hide Hash;
      assert Chain(h, buckets.Length, buckets[h], chains[h], index);
      assert chains[h][i].next == At(chains[h], i + 1);
    }

    lemma WholeChain(h: nat)
      requires Valid() && h < |chains|
      ensures forall x :: x in index && Hash(x, buckets.Length) == h ==> Among(x, chains[h], |chains[h]|)
      ensures buckets[h] == At(chains[h], 0)
      ensures forall i :: 0 <= i < |chains[h]| ==> chains[h][i].next == At(chains[h], i + 1)
    {
      hide Hash;
      assert Chain(h, buckets.Length, buckets[h], chains[h], index);
    }

    /** The keys in the order the iteration callback sees them. */
    method Iterate() returns (order: seq<Key>)
      requires Valid()
      ensures Enumerates(order, Contents().Keys)
    {
      hide Hash, Chain, Among;
      order := [];
      ghost var n := buckets.Length;
      for h := 0 to buckets.Length
        invariant forall i, j :: 0 <= i < j < |order| ==> order[i] != order[j]
        invariant forall x :: x in order <==> x in index && Hash(x, n) < h
      {
        ghost var c := chains[h];
        WholeChain(h);
        var e := buckets[h];
        ghost var i := 0;
        assert forall x :: !Among(x, c, 0) by { NothingYet(c); }
        while e != null
          invariant 0 <= i <= |c| && e == At(c, i)
          invariant forall i, j :: 0 <= i < j < |order| ==> order[i] != order[j]
          invariant forall x :: x in order <==> x in index && (Hash(x, n) < h || (Hash(x, n) == h && Among(x, c, i)))
          decreases |c| - i
        {
          NextIsNew(h, i);
          order := order + [e.key];
          e := e.next;
          i := i + 1;
        }
      }
    }

    lemma NothingYet(c: seq<Entry>)
      ensures forall x :: !Among(x, c, 0)
    {
    }

    /** The objects of one type in one bucket. */
    method CountInBucket(h: nat, t: ObjType) returns (cnt: nat, ghost here: set<Key>)
      requires Valid() && h < buckets.Length
      ensures cnt == |here|
      ensures forall x :: x in here <==> x in index && x.objType == t && Hash(x, buckets.Length) == h
    {
      hide Hash, Chain, Among;
      cnt, here := 0, {};
      ghost var n := buckets.Length;
      ghost var c := chains[h];
      WholeChain(h);
      var e := buckets[h];
      ghost var i := 0;
      NothingYet(c);
      while e != null
        invariant 0 <= i <= |c| && e == At(c, i) && cnt == |here|
        invariant forall x :: x in here <==> x in index && x.objType == t && Hash(x, n) == h && Among(x, c, i)
        decreases |c| - i
      {
        NextIsNew(h, i);
        if e.key.objType == t {
          cnt := cnt + 1;
          here := here + {e.key};
        }
        e := e.next;
        i := i + 1;
      }
    }

    /** The number of objects of one type. */
    method CountOfType(t: ObjType) returns (cnt: nat)
      requires Valid()
      ensures cnt == |set k | k in Contents() && k.objType == t|
    {
      hide Hash, Chain, Among;
      cnt := 0;
      ghost var n := buckets.Length;
      ghost var seen: set<Key> := {};
      for h := 0 to buckets.Length
        invariant cnt == |seen|
        invariant forall x :: x in seen <==> x in index && x.objType == t && Hash(x, n) < h
      {
        var more, here := CountInBucket(h, t);
        assert seen !! here;
        cnt, seen := cnt + more, seen + here;
      }
      HashInRange(n);
      assert seen == set k | k in Contents() && k.objType == t;
    }
  }

  lemma HashInRange(n: nat)
    requires n > 0
    ensures forall k :: Hash(k, n) < n
  {
  }
}
