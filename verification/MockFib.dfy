/** The in-memory FIB of the netlink backend: 4096 route slots searched
    linearly, and 256 interface flags. */
module MockFib {
  import opened Bytes
  import opened Dpa
  import opened Probing

  const MAX_ROUTES: nat := 4096
  const MAX_IFACES: nat := 256

  /** The backend's idea of a route: table, first four address bytes, length. */
  datatype FibKey = FibKey(table: nat, addr: seq<byte>, len: nat)

  function FibKeyOf(vrf: nat, addr: Address, len: nat): FibKey { FibKey(vrf, addr[..4], len) }
  function RouteKey(r: RouteData): FibKey { FibKeyOf(r.vrf, r.prefix.ip.addr, r.prefix.len) }

  // ---- the operations on what the FIB stands for ----------------------------------

  /** The installed routes and the admin state of the known interfaces. */
  datatype Backend = Backend(fib: set<FibKey>, up: map<nat, bool>)

  /** An op either fails with an injected status and changes nothing, or runs. */
  function RouteAdd(b: Backend, r: RouteData, fault: Status): (Status, Backend) {
    if fault != Ok then (fault, b)
    else if r.prefix.ip.af != Ipv4 || r.prefix.len > 32 then (InvalidArg, b)
    else if RouteKey(r) in b.fib then (Ok, b)
    else if |b.fib| >= MAX_ROUTES then (NoMemory, b)
    else (Ok, b.(fib := b.fib + {RouteKey(r)}))
  }

  function RouteDel(b: Backend, r: RouteData, fault: Status): (Status, Backend) {
    if fault != Ok then (fault, b)
    else if r.prefix.ip.af != Ipv4 then (InvalidArg, b)
    else if RouteKey(r) !in b.fib then (NotFound, b)
    else (Ok, b.(fib := b.fib - {RouteKey(r)}))
  }

  function IfaceUp(b: Backend, ifindex: nat, up: bool, fault: Status): (Status, Backend) {
    if fault != Ok then (fault, b)
    else if ifindex == 0 || ifindex >= MAX_IFACES then (InvalidArg, b)
    else (Ok, b.(up := b.up[ifindex := up]))
  }

  // ---- the slots ------------------------------------------------------------------

  class Fib {
    const routes: array<Slot<FibKey, ()>>
    var routeCount: nat
    const ifaceUp: array<bool>
    const ifaceKnown: array<bool>

    /** No key sits in two slots, and the counter is the number of used slots. */
    ghost predicate Valid()
      reads this, routes, ifaceUp, ifaceKnown
    {
      && routes.Length == MAX_ROUTES && ifaceUp.Length == ifaceKnown.Length == MAX_IFACES && ifaceUp != ifaceKnown
      && (forall i, j :: 0 <= i < j < MAX_ROUTES && routes[i].Used? && routes[j].Used? ==>
            routes[i].key != routes[j].key)
      && routeCount == UsedSlots(routes[..])
    }

    ghost function State(): Backend
      requires Valid()
      reads this, routes, ifaceUp, ifaceKnown
    {
      Backend(KeysIn(routes[..]), map i | 0 <= i < MAX_IFACES && ifaceKnown[i] :: ifaceUp[i])
    }

    constructor ()
      ensures Valid() && State() == Backend({}, map[]) && fresh(routes) && fresh(ifaceUp) && fresh(ifaceKnown)
    {
      routes := new Slot<FibKey, ()>[MAX_ROUTES](_ => Empty);
      ifaceUp := new bool[MAX_IFACES](_ => false);
      ifaceKnown := new bool[MAX_IFACES](_ => false);
      routeCount := 0;
      new;
      assert KeysIn(routes[..]) == {};
      DistinctKeysCount(routes[..]);
    }

    method Find(k: FibKey) returns (i: nat)
      requires Valid()
      ensures i <= MAX_ROUTES
      ensures i == MAX_ROUTES ==> k !in State().fib
      ensures i < MAX_ROUTES ==> routes[i].Used? && routes[i].key == k && k in State().fib
    {
      i := 0;
      while i < MAX_ROUTES
        invariant i <= MAX_ROUTES
        invariant forall j :: 0 <= j < i ==> !(routes[j].Used? && routes[j].key == k)
      {
        if routes[i].Used? && routes[i].key == k {
          assert routes[..][i].key == k;
          return;
        }
        i := i + 1;
      }
    }

    method Alloc() returns (i: nat)
      requires Valid()
      ensures i <= MAX_ROUTES
      ensures i == MAX_ROUTES ==> |State().fib| >= MAX_ROUTES
      ensures i < MAX_ROUTES ==> routes[i].Empty? && |State().fib| < MAX_ROUTES
    {
      DistinctKeysCount(routes[..]);
      UsedSlotsAll(routes[..]);
      i := 0;
      while i < MAX_ROUTES
        invariant i <= MAX_ROUTES
        invariant forall j :: 0 <= j < i ==> routes[j].Used?
      {
        if routes[i].Empty? {
          assert routes[..][i].Empty?;
          return;
        }
        i := i + 1;
      }
    }

    method AddRoute(r: RouteData, fault: Status) returns (st: Status)
      requires Valid()
      modifies this, routes
      ensures Valid() && (st, State()) == RouteAdd(old(State()), r, fault)
    {
      hide Valid, State, RouteKey;
      if fault != Ok { return fault; }
      if r.prefix.ip.af != Ipv4 { return InvalidArg; }
      if r.prefix.len > 32 { return InvalidArg; }
      var k := RouteKey(r);
      var i := Find(k);
      if i < MAX_ROUTES { return Ok; }
      i := Alloc();
      if i == MAX_ROUTES { return NoMemory; }
      Occupy(i, k);
      return Ok;
    }

    method Occupy(i: nat, k: FibKey)
      requires Valid() && i < MAX_ROUTES && routes[i].Empty? && k !in State().fib
      modifies this, routes
      ensures Valid() && State() == old(State()).(fib := old(State().fib) + {k})
    {
      ghost var before := routes[..];
      routes[i] := Used(k, ());
      routeCount := routeCount + 1;
      assert routes[..] == before[i := Used(k, ())];
      KeysAfterWrite(before, i, Used(k, ()));
      assert State().up == old(State()).up;
    }

    method DelRoute(r: RouteData, fault: Status) returns (st: Status)
      requires Valid()
      modifies this, routes
      ensures Valid() && (st, State()) == RouteDel(old(State()), r, fault)
    {
      if fault != Ok { return fault; }
      if r.prefix.ip.af != Ipv4 { return InvalidArg; }
      var k := RouteKey(r);
      var i := Find(k);
      if i == MAX_ROUTES { return NotFound; }
      ghost var before := routes[..];
      UsedIsPositive(before, i);
      routes[i] := Empty;
      if routeCount > 0 { routeCount := routeCount - 1; }
      st := Ok;
      assert routes[..] == before[i := Empty];
      KeysAfterWrite(before, i, Empty);
      assert State().up == old(State()).up;
    }

    method SetIface(ifindex: nat, up: bool, fault: Status) returns (st: Status)
      requires Valid()
      modifies ifaceUp, ifaceKnown
      ensures Valid() && (st, State()) == IfaceUp(old(State()), ifindex, up, fault)
    {
      if fault != Ok { return fault; }
      if ifindex == 0 || ifindex >= MAX_IFACES { return InvalidArg; }
      ifaceKnown[ifindex] := true;
      ifaceUp[ifindex] := up;
      st := Ok;
      assert routes[..] == old(routes[..]);
      assert State().up == old(State()).up[ifindex := up];
    }
  }

  lemma UsedIsPositive(slots: seq<Slot<FibKey, ()>>, i: nat)
    requires i < |slots| && slots[i].Used?
    ensures UsedSlots(slots) > 0
  {
    CountAfterWrite(slots, i, slots[i]);
    CountAfterWrite(slots, i, Empty);
    assert slots[i := slots[i]] == slots;
  }

  function One(s: Slot<FibKey, ()>): nat { if s.Used? then 1 else 0 }

  lemma {:induction false} CountAfterWrite(slots: seq<Slot<FibKey, ()>>, i: nat, e: Slot<FibKey, ()>)
    requires i < |slots|
    ensures UsedSlots(slots[i := e]) + One(slots[i]) == UsedSlots(slots) + One(e)
  {
    var n := |slots| - 1;
    if i < n {
      CountAfterWrite(slots[..n], i, e);
      assert slots[i := e][..n] == slots[..n][i := e];
    } else {
      assert slots[i := e][..n] == slots[..n];
    }
  }

  /** Filling a free slot with a new key adds it; emptying a slot removes its key. */
  lemma KeysAfterWrite(slots: seq<Slot<FibKey, ()>>, i: nat, e: Slot<FibKey, ()>)
    requires i < |slots| && slots[i].Used? == e.Empty?
    requires forall a, b :: 0 <= a < b < |slots| && slots[a].Used? && slots[b].Used? ==> slots[a].key != slots[b].key
    ensures e.Used? ==> KeysIn(slots[i := e]) == KeysIn(slots) + {e.key}
    ensures e.Empty? ==> KeysIn(slots[i := e]) == KeysIn(slots) - {slots[i].key}
    ensures UsedSlots(slots[i := e]) == UsedSlots(slots) + One(e) - One(slots[i])
  {
    CountAfterWrite(slots, i, e);
    var t := slots[i := e];
    forall k | k in KeysIn(slots) && (slots[i].Used? ==> k != slots[i].key) ensures k in KeysIn(t) {
      var j :| 0 <= j < |slots| && slots[j].Used? && slots[j].key == k;
      assert t[j] == slots[j];
    }
    if e.Used? { assert t[i] == e; }
  }
}
