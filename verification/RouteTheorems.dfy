/** Setting a static route makes it resolve as asked; deleting it takes everything back. */
module RouteTheorems {
  import opened Bytes
  import opened Dpa
  import opened Programming
  import opened Routes

  // ---- the hops created --------------------------------------------------------------------

  /** Nothing that was there is changed. */
  ghost predicate Extends(d: Objects, d': Objects) { forall k :: k in d ==> k in d' && d'[k] == d[k] }

  function HopKey(members: Members, j: nat): Key
    requires j < MAX_PATHS
  {
    Key(NextHop, members[j])
  }

  /** Members `i` to `n` are new next hops of `d'`, in ascending order, with the contents asked for. */
  ghost predicate Fresh(d: Objects, d': Objects, members: Members, hops: seq<Hop>, i: nat)
    requires |hops| <= MAX_PATHS
  {
    && (forall j :: i <= j < |hops| ==>
          && HopKey(members, j) !in d && HopKey(members, j) in d' && members[j] > RESERVED
          && d'[HopKey(members, j)] == NextHopObj(NextHopData(members[j], hops[j].gateway, hops[j].oif, 1, 1, [])))
    && (forall j, l :: i <= j < l < |hops| ==> members[j] < members[l])
    && (forall k :: k in d' ==> k in d || exists j :: i <= j < |hops| && k == HopKey(members, j))
  }

  lemma {:induction false} CreateHopsFresh(d: Objects, hops: seq<Hop>, i: nat, members: Members)
    requires i <= |hops| <= MAX_PATHS
    ensures var (d', members') := CreateHops(d, hops, i, members);
            && Extends(d, d') && Fresh(d, d', members', hops, i)
            && (forall j :: 0 <= j < i || |hops| <= j < MAX_PATHS ==> members'[j] == members[j])
            && forall j :: i <= j < |hops| ==> members'[j] >= NextId(d, NextHop)
    decreases |hops| - i
  {
    hide NextId, Fresh, Extends, IsNext;
    if i >= |hops| {
      NothingFresh(d, members, hops, i);
    } else {
      var next := NextId(d, NextHop);
      var id := next + i;
      NextIdAbove(d, NextHop, id);
      var d1 := AddHop(d, id, EcmpHop(id, hops[i]));
      CreateHopsFresh(d1, hops, i + 1, members[i := id]);
      NextIdPast(d1, NextHop, id);
      var (d', members') := CreateHops(d, hops, i, members);
      assert members'[i] == id;
      FreshStep(d, d1, d', members', hops, i);
    }
  }

  lemma NothingFresh(d: Objects, members: Members, hops: seq<Hop>, i: nat)
    requires |hops| <= MAX_PATHS && i >= |hops|
    ensures Extends(d, d) && Fresh(d, d, members, hops, i)
  {
  }

  /** No object has an id from the next one on. */
  lemma NextIdAbove(d: Objects, t: ObjType, id: nat)
    requires id >= NextId(d, t)
    ensures Key(t, id) !in d && id > RESERVED
  {
    hide NextId;
    NextIdIsNext(d, t);
  }

  lemma NextIdPast(d: Objects, t: ObjType, id: nat)
    requires Key(t, id) in d
    ensures id < NextId(d, t)
  {
    hide NextId;
    NextIdIsNext(d, t);
  }

  lemma NextIdIsNext(d: Objects, t: ObjType)
    ensures IsNext(d, t, NextId(d, t))
  {
  }

  lemma FreshStep(d: Objects, d1: Objects, d': Objects, members: Members, hops: seq<Hop>, i: nat)
    requires i < |hops| <= MAX_PATHS && members[i] > RESERVED
    requires Key(NextHop, members[i]) !in d && d1 == AddHop(d, members[i], EcmpHop(members[i], hops[i]))
    requires Extends(d1, d') && Fresh(d1, d', members, hops, i + 1)
    requires forall j :: i + 1 <= j < |hops| ==> members[j] > members[i]
    ensures Extends(d, d') && Fresh(d, d', members, hops, i)
  {
    assert HopKey(members, i) in d1;
    forall k | k in d' ensures k in d || exists j :: i <= j < |hops| && k == HopKey(members, j) {
      if k in d1 && k !in d {
        assert k == HopKey(members, i);
      }
    }
  }

  // ---- what the route resolves to ------------------------------------------------------------

  /** The gateway's own bytes, 16 for IPv6 and the first four otherwise, and the interface out. */
  function PathTo(h: Hop): Path {
    Path(if h.gateway.af == Ipv6 then h.gateway.addr else h.gateway.addr[..4], h.oif)
  }

  function Paths(hops: seq<Hop>): seq<Path> { seq(|hops|, i requires 0 <= i < |hops| => PathTo(hops[i])) }

  /** Group `group` of `d` holds exactly these gateways, in this order. */
  ghost predicate Holds(d: Objects, group: nat, members: Members, hops: seq<Hop>) {
    && 1 <= |hops| <= MAX_PATHS && group != 0
    && Key(NhGroup, group) in d && d[Key(NhGroup, group)].GroupObj?
    && d[Key(NhGroup, group)].group.count == |hops| && d[Key(NhGroup, group)].group.members == members
    && forall j :: 0 <= j < |hops| ==> HopIs(d, members, j, hops[j])
  }

  ghost predicate HopIs(d: Objects, members: Members, j: nat, h: Hop)
    requires j < MAX_PATHS
  {
    var k := HopKey(members, j);
    k in d && d[k].NextHopObj? && d[k].nh.gateway == h.gateway && d[k].nh.ifindex == h.oif
  }

  /** The data plane is given the gateways asked for, in the order asked. */
  ghost predicate Reaches(d: Objects, r: RouteData, hops: seq<Hop>) {
    Resolve(d, r).Some? && Resolve(d, r).value.paths == Paths(hops)
  }

  lemma HoldsReaches(d: Objects, r: RouteData, members: Members, hops: seq<Hop>)
    requires Holds(d, r.nhgroupId, members, hops) && r.flags == 0
    ensures Reaches(d, r, hops)
  {
    var g := GetGroup(d, r.nhgroupId).value;
    assert g.Size() == |hops| && g.members == members;
    forall j | 0 <= j < |hops|
      ensures GetNextHop(d, members[j]).Some? && PathOf(GetNextHop(d, members[j]).value) == PathTo(hops[j])
    {
      assert HopIs(d, members, j, hops[j]);
      assert HopKey(members, j) == Key(NextHop, members[j]);
    }
  }

  // ---- setting a route that is not there ---------------------------------------------------------

  predicate Valid(hops: seq<Hop>) { 1 <= |hops| <= 64 && AllIpv4(hops) }

  function RouteKeyOf(vrf: nat, prefix: Prefix): Key { Key(Route, RouteId(vrf, prefix, PROTO_STATIC)) }

  /** What a successful creation adds to `d`: hops, their group, and the route. */
  ghost predicate Created(d: Objects, d': Objects, vrf: nat, prefix: Prefix, members: Members, hops: seq<Hop>) {
    var group, k := NextId(d, NhGroup), RouteKeyOf(vrf, prefix);
    && Valid(hops) && k !in d && k in d' && d'[k] == RouteObj(RouteData(vrf, prefix, 2, 1, 0, group, 0))
    && Key(NhGroup, group) !in d && Holds(d', group, members, hops)
    && Extends(d, d')
    && (forall j, l :: 0 <= j < l < |hops| ==> members[j] < members[l])
    && (forall j :: 0 <= j < |hops| ==> HopKey(members, j) !in d)
    && forall x :: x in d' ==>
         x in d || x == k || x == Key(NhGroup, group) || exists j :: 0 <= j < |hops| && x == HopKey(members, j)
  }

  lemma SetCreates(d: Objects, vrf: nat, prefix: Prefix, hops: seq<Hop>) returns (members: Members)
    requires Valid(hops) && IsFound(d, vrf, prefix, None) && RouteKeyOf(vrf, prefix) !in d
    ensures var (d', st) := SetEcmp(d, vrf, prefix, hops, None);
            st == Ok && Created(d, d', vrf, prefix, members, hops)
  {
    hide RouteId, NextId, CreateHops, IsNext;
    var (d1, ms) := CreateHops(d, hops, 0, NoMembers());
    members := ms;
    CreateHopsFresh(d, hops, 0, NoMembers());
    var group := NextId(d, NhGroup);
    NextIdAbove(d, NhGroup, group);
    FinishCreates(d, d1, vrf, prefix, members, hops);
  }

  lemma FinishCreates(d: Objects, d1: Objects, vrf: nat, prefix: Prefix, members: Members, hops: seq<Hop>)
    requires Valid(hops) && RouteKeyOf(vrf, prefix) !in d
    requires Extends(d, d1) && Fresh(d, d1, members, hops, 0) && Key(NhGroup, NextId(d, NhGroup)) !in d
    requires NextId(d, NhGroup) != 0
    ensures var (d', st) := AddRoute(d1, vrf, prefix, GroupData(NextId(d, NhGroup), |hops|, members, 0));
            st == Ok && Created(d, d', vrf, prefix, members, hops)
  {
    hide RouteId, NextId, Holds;
    var group := NextId(d, NhGroup);
    var (d', st) := AddRoute(d1, vrf, prefix, GroupData(group, |hops|, members, 0));
    assert RouteKeyOf(vrf, prefix) !in d1;
    FreshHolds(d, d1, d', group, members, hops);
  }

  lemma FreshHolds(d: Objects, d1: Objects, d': Objects, group: nat, members: Members, hops: seq<Hop>)
    requires Valid(hops) && Fresh(d, d1, members, hops, 0) && group != 0
    requires Key(NhGroup, group) in d' && d'[Key(NhGroup, group)] == GroupObj(GroupData(group, |hops|, members, 0))
    requires forall j :: 0 <= j < |hops| ==>
               HopKey(members, j) in d' && d'[HopKey(members, j)] == d1[HopKey(members, j)]
    ensures Holds(d', group, members, hops)
  {
    forall j | 0 <= j < |hops| ensures HopIs(d', members, j, hops[j]) {
      assert HopKey(members, j) in d1;
    }
  }

  /** The route set is the one asked for, and nothing that was there is touched. */
  lemma SetResolves(d: Objects, vrf: nat, prefix: Prefix, hops: seq<Hop>)
    requires Valid(hops) && IsFound(d, vrf, prefix, None) && RouteKeyOf(vrf, prefix) !in d
    ensures var (d', st) := SetEcmp(d, vrf, prefix, hops, None);
            && st == Ok && Extends(d, d') && IsFound(d', vrf, prefix, Some(RouteId(vrf, prefix, PROTO_STATIC)))
            && RouteKeyOf(vrf, prefix) in d' && d'[RouteKeyOf(vrf, prefix)].RouteObj?
            && Reaches(d', d'[RouteKeyOf(vrf, prefix)].route, hops)
  {
    hide RouteId, NextId, SetEcmp, Resolve;
    var members := SetCreates(d, vrf, prefix, hops);
    var d' := SetEcmp(d, vrf, prefix, hops, None).0;
    HoldsReaches(d', d'[RouteKeyOf(vrf, prefix)].route, members, hops);
  }

  /**
   * A new route is set all or nothing exactly when no transaction can be opened, or its id is free
   * and the transaction can be committed. When a route of the other family or a colliding one holds
   * the id, the call fails and leaves the hops and the group behind; when only the lock is not had
   * in time, the call fails although the route is set.
   */
  lemma SetIsAtomicIff(d: Objects, vrf: nat, prefix: Prefix, hops: seq<Hop>, tx: Grant)
    requires Valid(hops) && IsFound(d, vrf, prefix, None)
    ensures var (d', st) := InTx(d, SetEcmp(d, vrf, prefix, hops, None), tx);
            (st == Ok || d' == d) <==> !tx.record || (RouteKeyOf(vrf, prefix) !in d && tx.lock)
  {
    hide RouteId, NextId;
    CreateHopsFresh(d, hops, 0, NoMembers());
    var group := NextId(d, NhGroup);
    assert IsNext(d, NhGroup, group) by { NextIdIsNext(d, NhGroup); }
    assert Key(NhGroup, group) !in d;
    if RouteKeyOf(vrf, prefix) !in d {
      var _ := SetCreates(d, vrf, prefix, hops);
    }
    assert Key(NhGroup, group) in SetEcmp(d, vrf, prefix, hops, None).0;
  }

  /** A deletion whose transaction cannot be committed reports a failure, and the route is gone. */
  lemma DeleteIsAtomicIff(d: Objects, vrf: nat, prefix: Prefix, id: nat, tx: Grant)
    requires IsCascade(d, vrf, prefix, Some(id))
    ensures var (d', st) := InTx(d, Delete(d, vrf, prefix, Some(id)), tx);
            && ((st == Ok || d' == d) <==> !tx.record || tx.lock)
            && (Key(Route, id) in d' <==> !tx.record)
  {
    hide DropHops;
    var group := d[Key(Route, id)].route.nhgroupId;
    if group != 0 && GetGroup(d, group).Some? {
      var g := GetGroup(d, group).value;
      var n := if g.count < MAX_CASCADE then g.count else MAX_CASCADE;
      DropHopsMeaning(d - {Key(Route, id)} - {Key(NhGroup, group)}, g.members, n, 0);
    }
  }

  // ---- and deleting it again -----------------------------------------------------------------------

  lemma {:induction false} DropHopsMeaning(d: Objects, members: Members, n: nat, i: nat)
    requires i <= n <= MAX_CASCADE
    ensures var d' := DropHops(d, members, n, i);
            && Extends(d', d)
            && forall k :: k in d' <==> k in d && forall j :: i <= j < n ==> k != HopKey(members, j)
    decreases n - i
  {
    if i < n {
      DropHopsMeaning(d - {HopKey(members, i)}, members, n, i + 1);
    }
  }

  /**
   * Deleting a route just set restores the store exactly when it has at most sixteen gateways and its
   * id is not 0, which deletion takes for no route.
   */
  lemma DeleteUndoesSet(d: Objects, vrf: nat, prefix: Prefix, hops: seq<Hop>, found: Option<nat>)
    requires Valid(hops) && IsFound(d, vrf, prefix, None) && RouteKeyOf(vrf, prefix) !in d
    requires IsCascade(SetEcmp(d, vrf, prefix, hops, None).0, vrf, prefix, found)
    ensures Delete(SetEcmp(d, vrf, prefix, hops, None).0, vrf, prefix, found) == (d, Ok) <==>
            |hops| <= 16 && RouteId(vrf, prefix, PROTO_STATIC) != 0
  {
    hide RouteId, NextId, SetEcmp, DropHops, Delete, Holds;
    var members := SetCreates(d, vrf, prefix, hops);
    var d' := SetEcmp(d, vrf, prefix, hops, None).0;
    DeleteCreated(d, d', vrf, prefix, members, hops);
    OnlyNewMatches(d, d', vrf, prefix, members, hops);
    if found.None? {
      AbsentIsLeft(d', vrf, prefix);
      assert RouteKeyOf(vrf, prefix) in d' && RouteKeyOf(vrf, prefix) !in d;
    } else {
      assert found.value == RouteId(vrf, prefix, PROTO_STATIC);
    }
  }

  lemma AbsentIsLeft(d: Objects, vrf: nat, prefix: Prefix)
    ensures Delete(d, vrf, prefix, None) == (d, Ok)
  {
  }

  lemma OnlyNewMatches(d: Objects, d': Objects, vrf: nat, prefix: Prefix, members: Members, hops: seq<Hop>)
    requires Created(d, d', vrf, prefix, members, hops) && IsFound(d, vrf, prefix, None)
    ensures forall id :: Matches(d', id, vrf, prefix) ==> id == RouteId(vrf, prefix, PROTO_STATIC)
  {
    hide RouteId, NextId, Holds;
    forall id | Matches(d', id, vrf, prefix) ensures id == RouteId(vrf, prefix, PROTO_STATIC) {
      assert Key(Route, id) in d ==> Matches(d, id, vrf, prefix);
    }
  }

  lemma DeleteCreated(d: Objects, d': Objects, vrf: nat, prefix: Prefix, members: Members, hops: seq<Hop>)
    requires Created(d, d', vrf, prefix, members, hops)
    ensures Matches(d', RouteId(vrf, prefix, PROTO_STATIC), vrf, prefix)
    ensures Delete(d', vrf, prefix, Some(RouteId(vrf, prefix, PROTO_STATIC))) == (d, Ok) <==> |hops| <= 16
  {
    hide RouteId, NextId, DropHops;
    var group, k := NextId(d, NhGroup), RouteKeyOf(vrf, prefix);
    var n := if |hops| < MAX_CASCADE then |hops| else MAX_CASCADE;
    var d1 := d' - {k} - {Key(NhGroup, group)};
    DropHopsMeaning(d1, members, n, 0);
    var d2 := DropHops(d1, members, n, 0);
    assert Delete(d', vrf, prefix, Some(k.id)) == (d2, Ok);
    if |hops| <= MAX_CASCADE {
      assert d2 == d by {
        forall x ensures x in d2 <==> x in d {
        }
        assert d2.Keys == d.Keys;
      }
    } else {
      assert HopIs(d', members, MAX_CASCADE, hops[MAX_CASCADE]);
      var left := HopKey(members, MAX_CASCADE);
      assert left in d1 && left in d2 && left !in d;
    }
  }

  // ---- setting it once more ---------------------------------------------------------------------------

  /** How many members from the `i`th on are there before one that is gone. */
  function Present(d: Objects, members: Members, n: nat, i: nat): (stop: nat)
    requires i <= n <= MAX_PATHS
    ensures i <= stop <= n && (stop < n ==> HopKey(members, stop) !in d)
    ensures forall j :: i <= j < stop ==> HopKey(members, j) in d
    decreases n - i
  {
    if i == n || HopKey(members, i) !in d then i else Present(d, members, n, i + 1)
  }

  /** No member after the `j`th is the same one again. */
  ghost predicate Last(members: Members, j: nat, n: nat)
    requires j < n <= MAX_PATHS
  {
    forall l :: j < l < n ==> members[l] != members[j]
  }

  lemma {:induction false} LastOf(members: Members, j: nat, n: nat) returns (l: nat)
    requires j < n <= MAX_PATHS
    ensures j <= l < n && members[l] == members[j] && Last(members, l, n)
    decreases n - j
  {
    l := j;
    if !Last(members, j, n) {
      var m :| j < m < n && members[m] == members[j];
      l := LastOf(members, m, n);
    }
  }

  /**
   * The members are overwritten up to the first that is gone, which fails the call but undoes
   * nothing. A repeated member keeps what was written last.
   */
  lemma {:induction false} UpdateHopsMeaning(d: Objects, members: Members, hops: seq<Hop>, i: nat)
    requires i <= |hops| <= MAX_PATHS
    ensures var (d', st) := UpdateHops(d, members, hops, i);
            var stop := Present(d, members, |hops|, i);
            && d'.Keys == d.Keys && st == (if stop == |hops| then Ok else NotFound)
            && (forall j :: i <= j < stop && Last(members, j, stop) ==> Written(d', members, j, hops[j]))
            && forall k :: k in d && (forall j :: i <= j < stop ==> k != HopKey(members, j)) ==> d'[k] == d[k]
    decreases |hops| - i
  {
    hide Present;
    if i < |hops| && HopKey(members, i) in d {
      var d1 := AddHop(d, members[i], EcmpHop(members[i], hops[i]));
      assert d1.Keys == d.Keys;
      UpdateHopsMeaning(d1, members, hops, i + 1);
      var (d', st) := UpdateHops(d, members, hops, i);
      var stop := Present(d, members, |hops|, i);
      assert stop == Present(d1, members, |hops|, i + 1);
      if Last(members, i, stop) {
        assert forall j :: i < j < stop ==> HopKey(members, i) != HopKey(members, j);
        assert d'[HopKey(members, i)] == d1[HopKey(members, i)];
      }
    }
  }

  ghost predicate Written(d: Objects, members: Members, j: nat, h: Hop)
    requires j < MAX_PATHS
  {
    HopKey(members, j) in d && d[HopKey(members, j)] == NextHopObj(NextHopData(members[j], h.gateway, h.oif, 1, 1, []))
  }

  /** Wherever a member stands twice, the same path is asked for. */
  ghost predicate Agrees(members: Members, hops: seq<Hop>)
    requires |hops| <= MAX_PATHS
  {
    forall j, l :: 0 <= j < l < |hops| && members[j] == members[l] ==> PathTo(hops[j]) == PathTo(hops[l])
  }

  /**
   * Setting a route that is there, whatever has become of its group: with as many gateways as the
   * group counts, no object is added, the call succeeds exactly when no member is gone, and the
   * route leads to the gateways asked for exactly when, besides, no member is given two paths.
   * With more or fewer gateways it is refused and changes nothing.
   */
  lemma SetAgain(d: Objects, vrf: nat, prefix: Prefix, id: nat, hops: seq<Hop>)
    requires Matches(d, id, vrf, prefix) && Valid(hops)
    ensures var (d', st) := SetEcmp(d, vrf, prefix, hops, Some(id));
            var r := d[Key(Route, id)].route;
            var g := GetGroup(d, r.nhgroupId);
            if g.None? || g.value.count != |hops| then (d', st) == (d, InvalidArg)
            else
              var stop := Present(d, g.value.members, |hops|, 0);
              && d'.Keys == d.Keys && st == (if stop == |hops| then Ok else NotFound)
              && (forall j :: 0 <= j < stop && Last(g.value.members, j, stop) ==>
                    Written(d', g.value.members, j, hops[j]))
              && d'[Key(Route, id)] == d[Key(Route, id)]
              && (r.flags == 0 && r.nhgroupId != 0 ==>
                    (Reaches(d', r, hops) <==> st == Ok && Agrees(g.value.members, hops)))
  {
    hide RouteId, NextId, UpdateHops, Resolve, Written;
    var r := d[Key(Route, id)].route;
    var g := GetGroup(d, r.nhgroupId);
    if g.Some? && g.value.count == |hops| {
      UpdateHopsMeaning(d, g.value.members, hops, 0);
      var (d', st) := SetEcmp(d, vrf, prefix, hops, Some(id));
      assert (d', st) == UpdateHops(d, g.value.members, hops, 0);
      if r.flags == 0 && r.nhgroupId != 0 {
        assert GetGroup(d', r.nhgroupId) == g;
        UpdatedReaches(d', r, g.value, hops);
      }
    }
  }

  /** The path through a member, if it is there. */
  function PathVia(d: Objects, id: nat): Option<Path> {
    match GetNextHop(d, id)
    case None => None
    case Some(nh) => Some(PathOf(nh))
  }

  lemma ReachesIff(d: Objects, r: RouteData, g: GroupData, hops: seq<Hop>)
    requires r.flags == 0 && r.nhgroupId != 0 && GetGroup(d, r.nhgroupId) == Some(g)
    requires 1 <= |hops| <= MAX_PATHS && g.count == |hops|
    ensures Reaches(d, r, hops) <==> forall j :: 0 <= j < |hops| ==> PathVia(d, g.members[j]) == Some(PathTo(hops[j]))
  {
    hide GetNextHop, PathOf, PathTo;
    assert g.Size() == |hops|;
    if forall j :: 0 <= j < |hops| ==> PathVia(d, g.members[j]) == Some(PathTo(hops[j])) {
      assert Resolve(d, r).value.paths == Paths(hops);
    } else if Reaches(d, r, hops) {
      forall j | 0 <= j < |hops| ensures PathVia(d, g.members[j]) == Some(PathTo(hops[j])) {
        assert GetNextHop(d, g.members[j]).Some?;
        assert Resolve(d, r).value.paths[j] == Paths(hops)[j];
      }
    }
  }

  lemma UpdatedReaches(d: Objects, r: RouteData, g: GroupData, hops: seq<Hop>)
    requires r.flags == 0 && r.nhgroupId != 0 && GetGroup(d, r.nhgroupId) == Some(g)
    requires Valid(hops) && g.count == |hops|
    requires Present(d, g.members, |hops|, 0) == |hops| ==>
               forall j :: 0 <= j < |hops| && Last(g.members, j, |hops|) ==> Written(d, g.members, j, hops[j])
    ensures Reaches(d, r, hops) <==> Present(d, g.members, |hops|, 0) == |hops| && Agrees(g.members, hops)
  {
    hide Reaches, PathTo, Last, PathVia, Written;
    ReachesIff(d, r, g, hops);
    var ms, stop := g.members, Present(d, g.members, |hops|, 0);
    if stop < |hops| {
      assert HopKey(ms, stop) !in d;
      GoneLeadsNowhere(d, ms, stop);
    } else if Agrees(ms, hops) {
      forall j | 0 <= j < |hops| ensures PathVia(d, ms[j]) == Some(PathTo(hops[j])) {
        var l := LastOf(ms, j, |hops|);
        WrittenLeads(d, ms, l, hops[l]);
        assert j < l ==> PathTo(hops[j]) == PathTo(hops[l]);
      }
    }
  }

  lemma GoneLeadsNowhere(d: Objects, members: Members, j: nat)
    requires j < MAX_PATHS && HopKey(members, j) !in d
    ensures PathVia(d, members[j]) == None
  {
  }

  lemma WrittenLeads(d: Objects, members: Members, j: nat, h: Hop)
    requires j < MAX_PATHS && Written(d, members, j, h)
    ensures PathVia(d, members[j]) == Some(PathTo(h))
  {
  }

  /** A group whose members are all there and all different. */
  ghost predicate Sound(d: Objects, group: nat, members: Members, hops: seq<Hop>) {
    Holds(d, group, members, hops) && forall j, l :: 0 <= j < l < |hops| ==> members[j] != members[l]
  }

  /** A route held by `id` whose group is sound. */
  ghost predicate Stands(d: Objects, vrf: nat, prefix: Prefix, id: nat, members: Members, hops: seq<Hop>) {
    && Matches(d, id, vrf, prefix) && d[Key(Route, id)].route.flags == 0
    && Sound(d, d[Key(Route, id)].route.nhgroupId, members, hops)
  }

  /** A route that was set stands, so that it can be set again and again. */
  lemma CreatedStands(d: Objects, d': Objects, vrf: nat, prefix: Prefix, members: Members, hops: seq<Hop>)
    requires Created(d, d', vrf, prefix, members, hops)
    ensures Stands(d', vrf, prefix, RouteId(vrf, prefix, PROTO_STATIC), members, hops)
  {
    hide RouteId, NextId, Holds, Extends;
    var k := RouteKeyOf(vrf, prefix);
    assert d'[k].route == NewRoute(vrf, prefix, NextId(d, NhGroup));
  }

  /** A route that was set can be set again, to any gateways, if there are as many of them. */
  lemma SetTwice(d: Objects, vrf: nat, prefix: Prefix, was: seq<Hop>, hops: seq<Hop>)
    requires Valid(was) && Valid(hops) && IsFound(d, vrf, prefix, None) && RouteKeyOf(vrf, prefix) !in d
    ensures var id := RouteId(vrf, prefix, PROTO_STATIC);
            var d1 := SetEcmp(d, vrf, prefix, was, None).0;
            && IsFound(d1, vrf, prefix, Some(id))
            && var (d2, st) := SetEcmp(d1, vrf, prefix, hops, Some(id));
               if |hops| != |was| then (d2, st) == (d1, InvalidArg)
               else st == Ok && d2.Keys == d1.Keys && Reaches(d2, d1[RouteKeyOf(vrf, prefix)].route, hops)
  {
    hide RouteId, NextId, SetEcmp, Resolve, Extends;
    var id := RouteId(vrf, prefix, PROTO_STATIC);
    var members := SetCreates(d, vrf, prefix, was);
    var d1 := SetEcmp(d, vrf, prefix, was, None).0;
    CreatedStands(d, d1, vrf, prefix, members, was);
    SetAgain(d1, vrf, prefix, id, hops);
    forall j | 0 <= j < |was| ensures HopKey(members, j) in d1 {
      assert HopIs(d1, members, j, was[j]);
    }
  }

  /** What the single-gateway form leaves of a route's gateways: all but the first. */
  lemma SetOneReplacesTheFirst(d: Objects, vrf: nat, prefix: Prefix, id: nat, members: Members, was: seq<Hop>, hop: Hop)
    requires Stands(d, vrf, prefix, id, members, was) && hop.gateway.af == Ipv4
    ensures var (d', st) := SetOne(d, vrf, prefix, hop, Some(id));
            && st == Ok && d'.Keys == d.Keys && Stands(d', vrf, prefix, id, members, was[0 := hop])
            && Reaches(d', d'[Key(Route, id)].route, was[0 := hop])
            && (Reaches(d', d'[Key(Route, id)].route, [hop]) <==> |was| == 1)
  {
    hide RouteId, NextId, Resolve;
    assert HopIs(d, members, 0, was[0]);
    var d' := SetOne(d, vrf, prefix, hop, Some(id)).0;
    var hops := was[0 := hop];
    forall j | 0 <= j < |hops| ensures HopIs(d', members, j, hops[j]) {
      assert HopIs(d, members, j, was[j]);
    }
    HoldsReaches(d', d'[Key(Route, id)].route, members, hops);
    assert |Paths(hops)| == |hops| && |Paths([hop])| == 1;
    if |was| == 1 { assert hops == [hop]; }
  }

  /** Without a group, or with an empty one, it takes next hop 0 for the first gateway. */
  lemma SetOneWithoutMembers(d: Objects, vrf: nat, prefix: Prefix, id: nat, hop: Hop)
    requires Matches(d, id, vrf, prefix) && hop.gateway.af == Ipv4
    requires var k := Key(NhGroup, d[Key(Route, id)].route.nhgroupId);
             k.id == 0 || k !in d || !d[k].GroupObj? || d[k].group.count == 0
    ensures SetOne(d, vrf, prefix, hop, Some(id)) ==
            if Key(NextHop, 0) !in d then (d, NotFound)
            else (d[Key(NextHop, 0) := NextHopObj(NextHopData(0, hop.gateway, hop.oif, 0, 0, []))], Ok)
  {
  }

  /** The single-gateway form on an absent route. */
  lemma SetOneResolves(d: Objects, vrf: nat, prefix: Prefix, hop: Hop)
    requires hop.gateway.af == Ipv4 && IsFound(d, vrf, prefix, None) && RouteKeyOf(vrf, prefix) !in d
    ensures var (d', st) := SetOne(d, vrf, prefix, hop, None);
            && st == Ok && Extends(d, d') && IsFound(d', vrf, prefix, Some(RouteId(vrf, prefix, PROTO_STATIC)))
            && Reaches(d', d'[RouteKeyOf(vrf, prefix)].route, [hop])
            && exists id :: Key(NextHop, id) !in d && Key(NextHop, id) in d' &&
                            d'[Key(NextHop, id)] == NextHopObj(NextHopData(id, hop.gateway, hop.oif, 0, 0, []))
  {
    hide RouteId, NextId, IsNext, Resolve;
    var nh, group := NextId(d, NextHop), NextId(d, NhGroup);
    NextIdAbove(d, NextHop, nh);
    NextIdAbove(d, NhGroup, group);
    var d' := SetOne(d, vrf, prefix, hop, None).0;
    var members := NoMembers()[0 := nh];
    assert HopKey(members, 0) == Key(NextHop, nh);
    assert HopIs(d', members, 0, [hop][0]);
    HoldsReaches(d', d'[RouteKeyOf(vrf, prefix)].route, members, [hop]);
  }

  // ---- ids stay proper ------------------------------------------------------------------------------------

  /** The management operations, each on the route its walk found. */
  datatype Call =
    | SetMany(vrf: nat, prefix: Prefix, hops: seq<Hop>)
    | SetSingle(vrf: nat, prefix: Prefix, hop: Hop)
    | Remove(vrf: nat, prefix: Prefix)

  /** `d'` is what the call may leave of `d`, within a transaction that is granted `tx`. */
  ghost predicate Leaves(d: Objects, call: Call, tx: Grant, d': Objects) {
    match call
    case SetMany(vrf, prefix, hops) =>
      exists found :: IsFound(d, vrf, prefix, found) && d' == InTx(d, SetEcmp(d, vrf, prefix, hops, found), tx).0
    case SetSingle(vrf, prefix, hop) =>
      exists found :: IsFound(d, vrf, prefix, found) && d' == InTx(d, SetOne(d, vrf, prefix, hop, found), tx).0
    case Remove(vrf, prefix) =>
      exists found :: IsCascade(d, vrf, prefix, found) &&
        d' == if found.None? then d else InTx(d, Delete(d, vrf, prefix, found), tx).0
  }

  /** A history of stores, each left by a call on the one before. */
  ghost predicate History(ds: seq<Objects>, calls: seq<Call>, txs: seq<Grant>) {
    && |ds| == |calls| + 1 && |txs| == |calls|
    && forall i :: 0 <= i < |calls| ==> Leaves(ds[i], calls[i], txs[i], ds[i + 1])
  }

  /** No static route appears but under its own id. */
  ghost predicate Proper(d: Objects, d': Objects) {
    forall k :: k in d' && k.objType == Route ==>
      (k in d && d'[k] == d[k])
      || (d'[k].RouteObj? && k == RouteKeyOf(d'[k].route.vrf, d'[k].route.prefix))
  }

  lemma ProperKeepsKeyed(d: Objects, d': Objects)
    requires Keyed(d) && Proper(d, d')
    ensures Keyed(d')
  {
    hide RouteId;
    forall id | Key(Route, id) in d' && d'[Key(Route, id)].RouteObj? && d'[Key(Route, id)].route.proto == PROTO_STATIC
      ensures id == RouteId(d'[Key(Route, id)].route.vrf, d'[Key(Route, id)].route.prefix, PROTO_STATIC)
    {
      assert Key(Route, id).objType == Route;
    }
  }

  lemma AddRouteIsProper(d: Objects, d1: Objects, vrf: nat, prefix: Prefix, group: GroupData)
    requires forall k :: k in d1 && k.objType == Route ==> k in d && d1[k] == d[k]
    ensures Proper(d, AddRoute(d1, vrf, prefix, group).0)
  {
    hide RouteId;
  }

  lemma SetManyIsProper(d: Objects, vrf: nat, prefix: Prefix, hops: seq<Hop>, found: Option<nat>)
    requires IsFound(d, vrf, prefix, found)
    ensures Proper(d, SetEcmp(d, vrf, prefix, hops, found).0)
  {
    hide RouteId, NextId, CreateHops, AddRoute, UpdateHops, Present, Written;
    if hops != [] && |hops| <= MAX_PATHS && AllIpv4(hops) {
      if found.None? {
        CreateHopsFresh(d, hops, 0, NoMembers());
        var (d1, members) := CreateHops(d, hops, 0, NoMembers());
        AddRouteIsProper(d, d1, vrf, prefix, GroupData(NextId(d, NhGroup), |hops|, members, 0));
      } else {
        var g := GetGroup(d, d[Key(Route, found.value)].route.nhgroupId);
        if g.Some? && g.value.count == |hops| { UpdateHopsMeaning(d, g.value.members, hops, 0); }
      }
    }
  }

  lemma SetSingleIsProper(d: Objects, vrf: nat, prefix: Prefix, hop: Hop, found: Option<nat>)
    requires IsFound(d, vrf, prefix, found)
    ensures Proper(d, SetOne(d, vrf, prefix, hop, found).0)
  {
    hide RouteId, NextId, AddRoute;
    if hop.gateway.af == Ipv4 && found.None? {
      var nh, group := NextId(d, NextHop), NextId(d, NhGroup);
      AddRouteIsProper(d, AddHop(d, nh, PlainHop(nh, hop)), vrf, prefix, GroupData(group, 1, NoMembers()[0 := nh], 0));
    }
  }

  lemma RemoveIsProper(d: Objects, vrf: nat, prefix: Prefix, found: Option<nat>)
    requires IsCascade(d, vrf, prefix, found)
    ensures Proper(d, Delete(d, vrf, prefix, found).0)
  {
    hide RouteId, DropHops;
    if found.Some? {
      var group := d[Key(Route, found.value)].route.nhgroupId;
      if group != 0 && GetGroup(d, group).Some? {
        var g := GetGroup(d, group).value;
        var n := if g.count < MAX_CASCADE then g.count else MAX_CASCADE;
        DropHopsMeaning(d - {Key(Route, found.value)} - {Key(NhGroup, group)}, g.members, n, 0);
      }
    }
  }

  lemma CallIsProper(d: Objects, call: Call, tx: Grant, d': Objects)
    requires Leaves(d, call, tx, d')
    ensures Proper(d, d')
  {
    hide RouteId, NextId, SetEcmp, SetOne, Delete;
    match call
    case SetMany(vrf, prefix, hops) =>
      var found :| IsFound(d, vrf, prefix, found) && d' == InTx(d, SetEcmp(d, vrf, prefix, hops, found), tx).0;
      SetManyIsProper(d, vrf, prefix, hops, found);
    case SetSingle(vrf, prefix, hop) =>
      var found :| IsFound(d, vrf, prefix, found) && d' == InTx(d, SetOne(d, vrf, prefix, hop, found), tx).0;
      SetSingleIsProper(d, vrf, prefix, hop, found);
    case Remove(vrf, prefix) =>
      var found :| IsCascade(d, vrf, prefix, found) &&
        d' == if found.None? then d else InTx(d, Delete(d, vrf, prefix, found), tx).0;
      RemoveIsProper(d, vrf, prefix, found);
  }

  /** Over every sequence of calls, whatever fails, static routes stay under their own ids. */
  lemma {:induction false} CallsKeepKeyed(ds: seq<Objects>, calls: seq<Call>, txs: seq<Grant>, n: nat)
    requires History(ds, calls, txs) && Keyed(ds[0]) && n < |ds|
    ensures Keyed(ds[n])
  {
    hide Keyed, Leaves, Proper;
    if n > 0 {
      CallsKeepKeyed(ds, calls, txs, n - 1);
      CallIsProper(ds[n - 1], calls[n - 1], txs[n - 1], ds[n]);
      ProperKeepsKeyed(ds[n - 1], ds[n]);
    }
  }

  /** So every call finds the same route, whatever the order of its walk, from an empty store on. */
  lemma FoundIsUniqueForever(
    ds: seq<Objects>, calls: seq<Call>, txs: seq<Grant>, n: nat,
    vrf: nat, prefix: Prefix, a: Option<nat>, b: Option<nat>)
    requires History(ds, calls, txs) && ds[0] == map[] && n < |ds|
    requires IsFound(ds[n], vrf, prefix, a) && IsFound(ds[n], vrf, prefix, b)
    ensures a == b
  {
    hide Leaves, IsFound, RouteId;
    CallsKeepKeyed(ds, calls, txs, n);
    FoundIsUnique(ds[n], vrf, prefix, a, b);
  }
}
