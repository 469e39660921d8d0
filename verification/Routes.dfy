/**
 * Static routes as the management side sets and deletes them: a route, a group of next hops and the
 * next hops themselves, created and removed together.
 */
module Routes {
  import opened Bytes
  import opened Dpa

  const PROTO_STATIC: nat := 2
  const FLAG_ECMP: nat := 1
  const MAX_PATHS: nat := 64
  const MAX_CASCADE: nat := 16
  const RESERVED: nat := 100

  /** One gateway with the interface it is reached through. */
  datatype Hop = Hop(gateway: IpAddr, oif: nat)

  // ---- finding ---------------------------------------------------------------------------

  predicate Matches(d: Objects, id: nat, vrf: nat, prefix: Prefix) {
    var k := Key(Route, id);
    && k in d && d[k].RouteObj? && d[k].route.vrf == vrf && d[k].route.proto == PROTO_STATIC
    && d[k].route.prefix == prefix
  }

  /** The walk over the store met this route first, or none at all. */
  ghost predicate IsFound(d: Objects, vrf: nat, prefix: Prefix, found: Option<nat>) {
    match found
    case Some(id) => Matches(d, id, vrf, prefix)
    case None => forall id :: !Matches(d, id, vrf, prefix)
  }

  /** Likewise for deletion, which takes the id 0 for no route at all. */
  ghost predicate IsCascade(d: Objects, vrf: nat, prefix: Prefix, found: Option<nat>) {
    match found
    case Some(id) => id != 0 && Matches(d, id, vrf, prefix)
    case None => forall id :: id != 0 ==> !Matches(d, id, vrf, prefix)
  }

  function Mix(h: nat, x: nat): nat { Xor(h, x) * 1099511628211 % 0x1_0000_0000_0000_0000 }

  function MixAll(h: nat, bytes: seq<byte>): nat
    decreases |bytes|
  {
    if bytes == [] then h else MixAll(Mix(h, bytes[0]), bytes[1..])
  }

  /** The id a route is stored under; the address family plays no part in it. */
  function RouteId(vrf: nat, prefix: Prefix, proto: nat): nat {
    Mix(Mix(MixAll(Mix(14695981039346656037, vrf), prefix.ip.addr), prefix.len), proto)
  }

  /** Static routes are stored under their own ids, as creating them ensures. */
  ghost predicate Keyed(d: Objects) {
    forall id :: Key(Route, id) in d && d[Key(Route, id)].RouteObj? && d[Key(Route, id)].route.proto == PROTO_STATIC ==>
                   id == RouteId(d[Key(Route, id)].route.vrf, d[Key(Route, id)].route.prefix, PROTO_STATIC)
  }

  /** Whatever the order of the walk, the same route is found. */
  lemma FoundIsUnique(d: Objects, vrf: nat, prefix: Prefix, a: Option<nat>, b: Option<nat>)
    requires Keyed(d) && IsFound(d, vrf, prefix, a) && IsFound(d, vrf, prefix, b)
    ensures a == b
  {
    hide RouteId;
    if a.Some? && b.Some? {
      assert Matches(d, a.value, vrf, prefix) && Matches(d, b.value, vrf, prefix);
      var ka, kb := Key(Route, a.value), Key(Route, b.value);
      assert a.value == RouteId(d[ka].route.vrf, d[ka].route.prefix, PROTO_STATIC);
      assert b.value == RouteId(d[kb].route.vrf, d[kb].route.prefix, PROTO_STATIC);
    }
  }

  // ---- fresh ids ----------------------------------------------------------------------------

  ghost predicate IsNext(d: Objects, t: ObjType, n: nat) {
    && n > 100 && (forall k :: k in d && k.objType == t ==> k.id < n)
    && (n == 101 || Key(t, n - 1) in d)
  }

  ghost function Ids(d: Objects, t: ObjType): set<nat> { set k | k in d && k.objType == t :: k.id }

  ghost function Largest(s: set<nat>): (m: nat)
    ensures m >= RESERVED && (m == RESERVED || m in s) && forall x :: x in s ==> x <= m
  {
    if s == {} then RESERVED
    else
      var x :| x in s;
      var m := Largest(s - {x});
      assert forall y :: y in s ==> y == x || y in s - {x};
      if x > m then x else m
  }

  /** One more than the largest id in use, and than 100. */
  ghost function NextId(d: Objects, t: ObjType): (n: nat)
    ensures IsNext(d, t, n)
  {
    var s := Ids(d, t);
    assert forall k :: k in d && k.objType == t ==> k.id in s;
    assert forall x :: x in s ==> Key(t, x) in d;
    Largest(s) + 1
  }

  lemma NextIsUnique(d: Objects, t: ObjType, a: nat, b: nat)
    requires IsNext(d, t, a) && IsNext(d, t, b)
    ensures a == b
  {
  }

  // ---- setting --------------------------------------------------------------------------------

  function NewRoute(vrf: nat, prefix: Prefix, group: nat): RouteData {
    RouteData(vrf, prefix, PROTO_STATIC, 1, 0, group, 0)
  }

  function EcmpHop(id: nat, h: Hop): NextHopData { NextHopData(id, h.gateway, h.oif, 1, FLAG_ECMP, []) }

  function PlainHop(id: nat, h: Hop): NextHopData { NextHopData(id, h.gateway, h.oif, 0, 0, []) }

  function NoMembers(): Members { seq(64, _ => 0) }

  predicate AllIpv4(hops: seq<Hop>) { forall i :: 0 <= i < |hops| ==> hops[i].gateway.af == Ipv4 }

  function AddHop(d: Objects, id: nat, nh: NextHopData): Objects { d[Key(NextHop, id) := NextHopObj(nh)] }

  /** Creates the hops from the `i`th on; each asks for the next id again and adds its own position. */
  ghost function CreateHops(d: Objects, hops: seq<Hop>, i: nat, members: Members): (Objects, Members)
    requires |hops| <= MAX_PATHS
    decreases |hops| - i
  {
    if i >= |hops| then (d, members)
    else
      var id := NextId(d, NextHop) + i;
      CreateHops(AddHop(d, id, EcmpHop(id, hops[i])), hops, i + 1, members[i := id])
  }

  /** The route goes in last; if its id is taken, what was created before it stays. */
  function AddRoute(d: Objects, vrf: nat, prefix: Prefix, group: GroupData): (Objects, Status) {
    var d := d[Key(NhGroup, group.id) := GroupObj(group)];
    var k := Key(Route, RouteId(vrf, prefix, PROTO_STATIC));
    if k in d then (d, Exists) else (d[k := RouteObj(NewRoute(vrf, prefix, group.id))], Ok)
  }

  /** Overwrites the first hops of a group, stopping at one that is gone. */
  function UpdateHops(d: Objects, members: Members, hops: seq<Hop>, i: nat): (Objects, Status)
    requires |hops| <= MAX_PATHS
    decreases |hops| - i
  {
    if i >= |hops| then (d, Ok)
    else if Key(NextHop, members[i]) !in d then (d, NotFound)
    else UpdateHops(AddHop(d, members[i], EcmpHop(members[i], hops[i])), members, hops, i + 1)
  }

  ghost function SetEcmp(d: Objects, vrf: nat, prefix: Prefix, hops: seq<Hop>, found: Option<nat>): (Objects, Status)
    requires IsFound(d, vrf, prefix, found)
  {
    if hops == [] || |hops| > MAX_PATHS || !AllIpv4(hops) then (d, InvalidArg)
    else match found
      case Some(id) =>
        (match GetGroup(d, d[Key(Route, id)].route.nhgroupId)
         case None => (d, InvalidArg)
         case Some(g) => if g.count != |hops| then (d, InvalidArg) else UpdateHops(d, g.members, hops, 0))
      case None =>
        var group := NextId(d, NhGroup);
        var (d', members) := CreateHops(d, hops, 0, NoMembers());
        AddRoute(d', vrf, prefix, GroupData(group, |hops|, members, 0))
  }

  /** The first hop of a route's group; 0 when there is none. */
  function FirstHop(d: Objects, group: nat): nat {
    if group == 0 then 0
    else match GetGroup(d, group)
      case Some(g) => if g.count > 0 then g.members[0] else 0
      case None => 0
  }

  ghost function SetOne(d: Objects, vrf: nat, prefix: Prefix, hop: Hop, found: Option<nat>): (Objects, Status)
    requires IsFound(d, vrf, prefix, found)
  {
    if hop.gateway.af != Ipv4 then (d, InvalidArg)
    else match found
      case Some(id) =>
        var nh := FirstHop(d, d[Key(Route, id)].route.nhgroupId);
        if Key(NextHop, nh) !in d then (d, NotFound) else (AddHop(d, nh, PlainHop(nh, hop)), Ok)
      case None =>
        var nh, group := NextId(d, NextHop), NextId(d, NhGroup);
        AddRoute(AddHop(d, nh, PlainHop(nh, hop)), vrf, prefix, GroupData(group, 1, NoMembers()[0 := nh], 0))
  }

  // ---- transactions -------------------------------------------------------------------------------

  /** What the process grants a transaction: room for its record, and the writer's lock in time. */
  datatype Grant = Grant(record: bool, lock: bool)

  function Commit(st: Status, tx: Grant): Status { if st == Ok && !tx.lock then TxTimeout else st }

  /**
   * An operation within its transaction. Refused arguments open none; a transaction that cannot be
   * opened changes nothing; one that cannot be committed undoes nothing.
   */
  function InTx(d: Objects, r: (Objects, Status), tx: Grant): (Objects, Status) {
    if r.1 == InvalidArg then r else if !tx.record then (d, NoMemory) else (r.0, Commit(r.1, tx))
  }

  // ---- deleting -----------------------------------------------------------------------------------

  function DropHops(d: Objects, members: Members, n: nat, i: nat): Objects
    requires n <= MAX_CASCADE
    decreases n - i
  {
    if i >= n then d else DropHops(d - {Key(NextHop, members[i])}, members, n, i + 1)
  }

  /** At most sixteen of the group's hops go with it. */
  function Delete(d: Objects, vrf: nat, prefix: Prefix, found: Option<nat>): (Objects, Status)
    requires found.Some? ==> Matches(d, found.value, vrf, prefix)
  {
    match found
    case None => (d, Ok)
    case Some(id) =>
      var group := d[Key(Route, id)].route.nhgroupId;
      var g := if group == 0 then None else GetGroup(d, group);
      var d := d - {Key(Route, id)};
      if g.None? then (d, Ok)
      else
        var n := if g.value.count < MAX_CASCADE then g.value.count else MAX_CASCADE;
        (DropHops(d - {Key(NhGroup, group)}, g.value.members, n, 0), Ok)
  }
}
