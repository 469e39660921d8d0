/** The management operations on static routes, in place on the object store's contents. */
module RouteConfig {
  import opened Bytes
  import opened Dpa
  import opened ObjectStore
  import opened Routes
  import opened RouteTheorems

  class RouteStore {
    /** What the store holds; the chained table behind it is proved to be such a map. */
    var objects: Objects

    constructor ()
      ensures objects == map[]
    {
      objects := map[];
    }

    /** The walk over the store, in an order of its own. */
    method Walk() returns (order: seq<Key>)
      ensures Enumerates(order, objects.Keys)
    {
      order := [];
      var left := objects.Keys;
      while left != {}
        invariant left <= objects.Keys && Enumerates(order, objects.Keys - left)
        decreases |left|
      {
        var k :| k in left;
        order, left := order + [k], left - {k};
      }
    }

    method Create(k: Key, o: Object) returns (st: Status)
      modifies this
      ensures if k in old(objects) then st == Exists && objects == old(objects)
              else st == Ok && objects == old(objects)[k := o]
    {
      if k in objects { return Exists; }
      objects := objects[k := o];
      return Ok;
    }

    method Update(k: Key, o: Object) returns (st: Status)
      modifies this
      ensures if k in old(objects) then st == Ok && objects == old(objects)[k := o]
              else st == NotFound && objects == old(objects)
    {
      if k !in objects { return NotFound; }
      objects := objects[k := o];
      return Ok;
    }

    /** The first match of the walk; with `skipZero`, an id of 0 does not count. */
    method FindStaticRoute(vrf: nat, prefix: Prefix, skipZero: bool) returns (found: Option<nat>)
      ensures !skipZero ==> IsFound(objects, vrf, prefix, found)
      ensures skipZero ==> IsCascade(objects, vrf, prefix, found)
    {
      var order := Walk();
      for i := 0 to |order|
        invariant forall j :: 0 <= j < i && order[j].objType == Route && !(skipZero && order[j].id == 0) ==>
          !Matches(objects, order[j].id, vrf, prefix)
      {
        var k := order[i];
        if k.objType == Route && Matches(objects, k.id, vrf, prefix) && !(skipZero && k.id == 0) { return Some(k.id); }
      }
      assert forall k :: k in objects ==> k in order;
      return None;
    }

    method FreshId(t: ObjType) returns (n: nat)
      ensures n == NextId(objects, t)
    {
      var order := Walk();
      var max := RESERVED;
      for i := 0 to |order|
        invariant max >= RESERVED && (max == RESERVED || Key(t, max) in objects)
        invariant forall j :: 0 <= j < i && order[j].objType == t ==> order[j].id <= max
      {
        assert order[i] in order;
        if order[i].objType == t && order[i].id > max { max := order[i].id; }
      }
      assert IsNext(objects, t, max + 1);
      NextIsUnique(objects, t, max + 1, NextId(objects, t));
      return max + 1;
    }

    /** Sets up a route to several gateways, or repoints one that has as many. */
    method SetRouteEcmp(vrf: nat, prefix: Prefix, hops: seq<Hop>, tx: Grant)
      returns (st: Status, ghost found: Option<nat>)
      modifies this
      ensures IsFound(old(objects), vrf, prefix, found)
      ensures (objects, st) == InTx(old(objects), SetEcmp(old(objects), vrf, prefix, hops, found), tx)
    {
      hide NextId, IsNext, RouteId, UpdateHops, Written;
      var f := FindStaticRoute(vrf, prefix, false);
      found := f;
      if |hops| == 0 || |hops| > MAX_PATHS { return InvalidArg, found; }
      var ipv4 := IsIpv4(hops);
      if !ipv4 { return InvalidArg, found; }
      if f.Some? {
        var g := GetGroup(objects, objects[Key(Route, f.value)].route.nhgroupId);
        if g.None? || g.value.count != |hops| { return InvalidArg, found; }
        UpdateHopsMeaning(objects, g.value.members, hops, 0);
        if !tx.record { return NoMemory, found; }
        st := UpdateAll(g.value.members, hops);
        return Commit(st, tx), found;
      }
      if !tx.record { return NoMemory, found; }
      var group := FreshId(NhGroup);
      NextIdAbove(objects, NhGroup, group);
      CreateHopsFresh(objects, hops, 0, NoMembers());
      var members := CreateAll(hops);
      st := FinishRoute(vrf, prefix, GroupData(group, |hops|, members, 0));
      st := Commit(st, tx);
    }

    static method IsIpv4(hops: seq<Hop>) returns (b: bool)
      ensures b <==> AllIpv4(hops)
    {
      for i := 0 to |hops|
        invariant forall j :: 0 <= j < i ==> hops[j].gateway.af == Ipv4
      {
        if hops[i].gateway.af != Ipv4 { return false; }
      }
      return true;
    }

    method UpdateAll(members: Members, hops: seq<Hop>) returns (st: Status)
      requires |hops| <= MAX_PATHS
      modifies this
      ensures (objects, st) == UpdateHops(old(objects), members, hops, 0)
    {
      st := Ok;
      for i := 0 to |hops|
        invariant st == Ok && UpdateHops(old(objects), members, hops, 0) == UpdateHops(objects, members, hops, i)
      {
        st := Update(Key(NextHop, members[i]), NextHopObj(EcmpHop(members[i], hops[i])));
        if st != Ok { return; }
      }
    }

    method CreateAll(hops: seq<Hop>) returns (members: Members)
      requires |hops| <= MAX_PATHS
      modifies this
      ensures (objects, members) == CreateHops(old(objects), hops, 0, NoMembers())
    {
      hide NextId, IsNext, EcmpHop;
      members := NoMembers();
      for i := 0 to |hops|
        invariant CreateHops(old(objects), hops, 0, NoMembers()) == CreateHops(objects, hops, i, members)
      {
        var next := FreshId(NextHop);
        NextIdAbove(objects, NextHop, next + i);
        var st := Create(Key(NextHop, next + i), NextHopObj(EcmpHop(next + i, hops[i])));
        members := members[i := next + i];
      }
    }

    /** The group, then the route. Giving up on the route takes nothing back. */
    method FinishRoute(vrf: nat, prefix: Prefix, group: GroupData) returns (st: Status)
      requires Key(NhGroup, group.id) !in objects
      modifies this
      ensures (objects, st) == AddRoute(old(objects), vrf, prefix, group)
    {
      hide RouteId;
      st := Create(Key(NhGroup, group.id), GroupObj(group));
      st := Create(Key(Route, RouteId(vrf, prefix, PROTO_STATIC)), RouteObj(NewRoute(vrf, prefix, group.id)));
    }

    method SetRoute(vrf: nat, prefix: Prefix, hop: Hop, tx: Grant) returns (st: Status, ghost found: Option<nat>)
      modifies this
      ensures IsFound(old(objects), vrf, prefix, found)
      ensures (objects, st) == InTx(old(objects), SetOne(old(objects), vrf, prefix, hop, found), tx)
    {
      hide NextId, IsNext, RouteId;
      var f := FindStaticRoute(vrf, prefix, false);
      found := f;
      if hop.gateway.af != Ipv4 { return InvalidArg, found; }
      if !tx.record { return NoMemory, found; }
      if f.Some? {
        var nh := FirstHop(objects, objects[Key(Route, f.value)].route.nhgroupId);
        st := Update(Key(NextHop, nh), NextHopObj(PlainHop(nh, hop)));
        return Commit(st, tx), found;
      }
      var nh := FreshId(NextHop);
      var group := FreshId(NhGroup);
      NextIdAbove(objects, NextHop, nh);
      NextIdAbove(objects, NhGroup, group);
      st := Create(Key(NextHop, nh), NextHopObj(PlainHop(nh, hop)));
      st := FinishRoute(vrf, prefix, GroupData(group, 1, NoMembers()[0 := nh], 0));
      st := Commit(st, tx);
    }

    /** An absent route is deleted without a transaction. */
    method DeleteRoute(vrf: nat, prefix: Prefix, tx: Grant) returns (st: Status, ghost found: Option<nat>)
      modifies this
      ensures IsCascade(old(objects), vrf, prefix, found)
      ensures (objects, st) == if found.None? then (old(objects), Ok)
                               else InTx(old(objects), Delete(old(objects), vrf, prefix, found), tx)
    {
      var f := FindStaticRoute(vrf, prefix, true);
      found := f;
      if f.None? { return Ok, found; }
      var group := objects[Key(Route, f.value)].route.nhgroupId;
      var g := if group == 0 then None else GetGroup(objects, group);
      if !tx.record { return NoMemory, found; }
      objects := objects - {Key(Route, f.value)};
      if g.None? { return Commit(Ok, tx), found; }
      objects := objects - {Key(NhGroup, group)};
      ghost var d := objects;
      var n := if g.value.count < MAX_CASCADE then g.value.count else MAX_CASCADE;
      for i := 0 to n
        invariant DropHops(d, g.value.members, n, 0) == DropHops(objects, g.value.members, n, i)
      {
        objects := objects - {Key(NextHop, g.value.members[i])};
      }
      return Commit(Ok, tx), found;
    }
  }
}
