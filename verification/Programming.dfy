/** The programming pipeline: desired objects are compared with a ledger of what
    was programmed, driven into the backend, withdrawn, and swept. */
module Programming {
  import opened Bytes
  import opened Dpa
  import opened MockFib

  // ---- dependencies and resolution ------------------------------------------------

  /** The objects a route's programming depends on: its group and the members in use. */
  datatype DepView =
    | NoDeps
    | GroupGone
    | Deps(group: GroupData, members: seq<Option<NextHopData>>)

  function ViewOf(d: Objects, o: Object): (v: DepView)
    ensures v.Deps? ==> |v.members| == v.group.Size()
  {
    if !o.RouteObj? || o.route.nhgroupId == 0 then NoDeps
    else match GetGroup(d, o.route.nhgroupId)
         case None => GroupGone
         case Some(g) => Deps(g, seq(g.Size(), i requires 0 <= i < g.Size() => GetNextHop(d, g.members[i])))
  }

  /** The 64-bit hashes of the structs a digest is made from. */
  datatype Hashes = Hashes(group: GroupData -> nat, nextHop: NextHopData -> nat)

  const GROUP_GONE: nat := 0xDEADBEEF
  const MEMBER_GONE: nat := 0x535A4A

  function MemberHash(h: Hashes, m: Option<NextHopData>): nat {
    match m
    case Some(nh) => h.nextHop(nh)
    case None => MEMBER_GONE
  }

  function FoldMembers(h: Hashes, acc: nat, ms: seq<Option<NextHopData>>): nat {
    if ms == [] then acc
    else Xor(FoldMembers(h, acc, ms[..|ms| - 1]), MemberHash(h, ms[|ms| - 1]))
  }

  function Digest(h: Hashes, v: DepView): nat {
    match v
    case NoDeps => 0
    case GroupGone => GROUP_GONE
    case Deps(g, ms) => FoldMembers(h, h.group(g), ms)
  }

  method DepDigest(h: Hashes, d: Objects, o: Object) returns (dep: nat)
    ensures dep == Digest(h, ViewOf(d, o))
  {
    if !o.RouteObj? || o.route.nhgroupId == 0 { return 0; }
    match GetGroup(d, o.route.nhgroupId) {
      case None => return GROUP_GONE;
      case Some(g) =>
        dep := h.group(g);
        ghost var ms := ViewOf(d, o).members;
        var i := 0;
        while i < g.count && i < 64
          invariant 0 <= i <= |ms| && dep == FoldMembers(h, h.group(g), ms[..i])
          decreases 64 - i
        {
          match GetNextHop(d, g.members[i]) {
            case Some(nh) => dep := Xor(dep, h.nextHop(nh));
            case None => dep := Xor(dep, MEMBER_GONE);
          }
          assert ms[..i + 1][..i] == ms[..i];
          i := i + 1;
        }
        assert ms[..|ms|] == ms;
    }
  }

  /** A gateway as the backend receives it: 16 bytes for IPv6, the first four otherwise. */
  datatype Path = Path(gateway: seq<byte>, oif: nat)
  datatype Resolved = Resolved(route: RouteData, hasGateway: bool, first: Path, paths: seq<Path>)

  function GatewayBytes(a: IpAddr): seq<byte> { if a.af == Ipv6 then a.addr else a.addr[..4] }
  function PathOf(nh: NextHopData): Path { Path(GatewayBytes(nh.gateway), nh.ifindex) }

  /** Next-hop resolution; None is the "retry later" answer. */
  function Resolve(d: Objects, r: RouteData): Option<Resolved> {
    if r.Blackhole() then Some(Resolved(r, false, Path([], 0), []))
    else if r.nhgroupId == 0 then None
    else match GetGroup(d, r.nhgroupId)
         case None => None
         case Some(g) =>
           if g.count == 0 then None
           else if exists i :: 0 <= i < g.Size() && GetNextHop(d, g.members[i]).None? then None
           else
             var nh := GetNextHop(d, g.members[0]).value;
             Some(Resolved(r, nh.gateway.af != Unspec,
                           Path(if nh.gateway.af == Unspec then [] else GatewayBytes(nh.gateway), nh.ifindex),
                           seq(g.Size(), i requires 0 <= i < g.Size() => PathOf(GetNextHop(d, g.members[i]).value))))
  }

  method ResolveRoute(d: Objects, r: RouteData) returns (out: Option<Resolved>)
    ensures out == Resolve(d, r)
  {
    if r.Blackhole() { return Some(Resolved(r, false, Path([], 0), [])); }
    if r.nhgroupId == 0 { return None; }
    var found := GetGroup(d, r.nhgroupId);
    if found.None? || found.value.count == 0 { return None; }
    var g := found.value;
    var nh := GetNextHop(d, g.members[0]);
    if nh.None? { return None; }
    var hasGateway := false;
    var gateway: seq<byte> := [];
    if nh.value.gateway.af == Ipv4 {
      hasGateway, gateway := true, nh.value.gateway.addr[..4];
    } else if nh.value.gateway.af == Ipv6 {
      hasGateway, gateway := true, nh.value.gateway.addr;
    }
    var n := if g.count > 64 then 64 else g.count;
    var paths: seq<Path> := [];
    for i := 0 to n
      invariant |paths| == i
      invariant forall j :: 0 <= j < i ==>
        GetNextHop(d, g.members[j]).Some? && paths[j] == PathOf(GetNextHop(d, g.members[j]).value)
    {
      var member := GetNextHop(d, g.members[i]);
      if member.None? { return None; }
      paths := paths + [PathOf(member.value)];
    }
    out := Some(Resolved(r, hasGateway, Path(gateway, nh.value.ifindex), paths));
    assert paths == Resolve(d, r).value.paths;
  }

  // ---- the pipeline on values -----------------------------------------------------

  datatype Rec = Rec(dep: nat, obj: Object)

  datatype Op =
    | OpIfaceUp(ifindex: nat, up: bool) | OpAddrSet(iface: IfaceData) | OpAddrDel(iface: IfaceData)
    | OpRouteAdd(resolved: Resolved) | OpRouteDel(route: RouteData) | OpVrfAdd(vrf: VrfData)

  /** Three fields are history: `views` has the dependencies each ledger entry was
      programmed with, `installed` the next hops the backend last accepted for each
      of its keys, and `ops` the backend calls issued. */
  datatype State = State(desired: Objects, ledger: map<Key, Rec>, backend: Backend, dirty: bool,
                         views: map<Key, DepView>, installed: map<FibKey, Resolved>, ops: seq<Op>)

  /** The status each backend op returns if it is called; Ok lets it run. */
  datatype Faults = Faults(ifaceUp: Status, addrSet: Status, addrDel: Status,
                           routeAdd: Status, routeDel: Status, vrfAdd: Status)

  const NoFaults: Faults := Faults(Ok, Ok, Ok, Ok, Ok, Ok)

  predicate TypeSkipped(t: ObjType) {
    t in {Acl, Qos, QosBind, Bfd, MplsLsp, Tunnel, Evpn, Multicast, NextHop, NhGroup}
  }

  /** Issues the ops for one object: status, backend and calls made. */
  function ProgramOne(d: Objects, b: Backend, o: Object, f: Faults): (Status, Backend, seq<Op>) {
    match o
    case IfaceObj(i) =>
      var (st, b1) := IfaceUp(b, i.ifindex, i.adminUp, f.ifaceUp);
      var ops := [OpIfaceUp(i.ifindex, i.adminUp)];
      if st != Ok then (st, b1, ops)
      else if i.ipv4.ip.af != Unspec || i.ipv6.ip.af != Unspec then (f.addrSet, b1, ops + [OpAddrSet(i)])
      else (Ok, b1, ops)
    case RouteObj(r) =>
      (match Resolve(d, r)
       case None => (Retry, b, [])
       case Some(rr) =>
         var (st, b1) := RouteAdd(b, r, f.routeAdd);
         (st, b1, [OpRouteAdd(rr)]))
    case VrfObj(v) => (f.vrfAdd, b, [OpVrfAdd(v)])
    case _ => (NotSupported, b, [])
  }

  /** The old addresses of an interface whose addresses changed must go first. */
  function StaleAddresses(s: State, k: Key): Option<IfaceData>
    requires k in s.desired
  {
    if s.desired[k].IfaceObj? && k in s.ledger && s.ledger[k].obj.IfaceObj? then
      var was, now := s.ledger[k].obj.iface, s.desired[k].iface;
      if was.ipv4 != now.ipv4 || was.ipv6 != now.ipv6 then Some(was) else None
    else None
  }

  function AddrDel(i: IfaceData, fault: Status): Status {
    if fault != Ok then fault else if i.ifindex == 0 then InvalidArg else Ok
  }

  /** Drops a key from the ledger; any store mutation marks the state dirty. */
  function Forget(s: State, k: Key): State {
    s.(ledger := s.ledger - {k}, views := s.views - {k}, dirty := true)
  }

  /** Desired bytes and dependency digest are those of the ledger. */
  predicate InSync(h: Hashes, s: State, k: Key) {
    k in s.desired && k in s.ledger && s.ledger[k] == Rec(Digest(h, ViewOf(s.desired, s.desired[k])), s.desired[k])
  }

  function Committed(s: State, d: Objects): State { s.(desired := d, dirty := true) }

  /** The pass's callback for one desired object. */
  function ProgramEntry(h: Hashes, s: State, k: Key, f: Faults): State
    requires k in s.desired
  {
    if TypeSkipped(k.objType) || InSync(h, s, k) then s
    else
      var stale := StaleAddresses(s, k);
      var s0 := if stale.Some? then s.(ops := s.ops + [OpAddrDel(stale.value)]) else s;
      if stale.Some? && AddrDel(stale.value, f.addrDel) != Ok then s0
      else ProgramObject(h, s0, k, f)
  }

  function ProgramObject(h: Hashes, s: State, k: Key, f: Faults): State
    requires k in s.desired
  {
    var o := s.desired[k];
    var (st, b, ops) := ProgramOne(s.desired, s.backend, o, f);
    var s1 := s.(backend := b, ops := s.ops + ops);
    if st == Ok then
      var v := ViewOf(s.desired, o);
      s1.(ledger := s.ledger[k := Rec(Digest(h, v), o)], views := s.views[k := v], dirty := true,
          installed := Accept(s.installed, s.desired, o))
    else if st == Retry && k in s.ledger && s.ledger[k].obj.RouteObj? && k.objType == Route then
      Withdraw(s1, k, f)
    else s1
  }

  /** The accepted next hops after an object was programmed. */
  function Accept(installed: map<FibKey, Resolved>, d: Objects, o: Object): map<FibKey, Resolved> {
    if o.RouteObj? && Resolve(d, o.route).Some? then installed[RouteKey(o.route) := Resolve(d, o.route).value]
    else installed
  }

  /** Takes a programmed route out of the backend and, if that worked, out of the ledger. */
  function Withdraw(s: State, k: Key, f: Faults): State
    requires k in s.ledger && s.ledger[k].obj.RouteObj?
  {
    var r := s.ledger[k].obj.route;
    var (st, b) := RouteDel(s.backend, r, f.routeDel);
    var s1 := s.(backend := b, ops := s.ops + [OpRouteDel(r)]);
    if st == Ok then Forget(s1.(installed := s.installed - {RouteKey(r)}), k) else s1
  }

  /** A pass over the desired objects, in the order the store iterates them. */
  function Pass(h: Hashes, s: State, order: seq<Key>, faults: seq<Faults>): (s': State)
    requires |faults| == |order| && forall k :: k in order ==> k in s.desired
    ensures s'.desired == s.desired
  {
    if order == [] then s
    else
      var n := |order| - 1;
      ProgramEntry(h, Pass(h, s, order[..n], faults[..n]), order[n], faults[n])
  }

  /** What a pass reports: objects tried, programmed, and neither programmed nor taken out. */
  datatype Tally = Tally(attempted: nat, ok: nat, failed: nat)

  /** The tally of one entry, `s` becoming `s'`. */
  function EntryTally(h: Hashes, s: State, s': State, k: Key): Tally {
    if TypeSkipped(k.objType) || InSync(h, s, k) then Tally(0, 0, 0)
    else if InSync(h, s', k) then Tally(1, 1, 0)
    else Tally(1, 0, if k in s.ledger && k !in s'.ledger then 0 else 1)
  }

  function PassTally(h: Hashes, s: State, order: seq<Key>, faults: seq<Faults>): Tally
    requires |faults| == |order| && forall k :: k in order ==> k in s.desired
  {
    if order == [] then Tally(0, 0, 0)
    else
      var n := |order| - 1;
      var s0 := Pass(h, s, order[..n], faults[..n]);
      var t, e := PassTally(h, s, order[..n], faults[..n]),
                  EntryTally(h, s0, ProgramEntry(h, s0, order[n], faults[n]), order[n]);
      Tally(t.attempted + e.attempted, t.ok + e.ok, t.failed + e.failed)
  }

  const SWEEP_MAX: nat := 256

  /** The tombstones a sweep collects: the first 256 ledger keys no longer desired. */
  function Collect(desired: Objects, order: seq<Key>): (c: seq<Key>)
    ensures |c| <= SWEEP_MAX
  {
    if order == [] then []
    else
      var n := |order| - 1;
      var c := Collect(desired, order[..n]);
      if |c| < SWEEP_MAX && order[n] !in desired then c + [order[n]] else c
  }

  /** Withdraws one collected tombstone. */
  function SweepOne(s: State, k: Key, f: Faults): State {
    if k !in s.ledger then s
    else match s.ledger[k].obj
         case RouteObj(_) => Withdraw(s, k, f)
         case IfaceObj(i) =>
           var (_, b) := IfaceUp(s.backend, i.ifindex, false, f.ifaceUp);
           Forget(s.(backend := b, ops := s.ops + [OpIfaceUp(i.ifindex, false)]), k)
         case _ => Forget(s, k)
  }

  function SweepAll(s: State, ids: seq<Key>, faults: seq<Faults>): (s': State)
    requires |faults| == |ids|
    ensures s'.desired == s.desired
  {
    if ids == [] then s
    else
      var n := |ids| - 1;
      SweepOne(SweepAll(s, ids[..n], faults[..n]), ids[n], faults[n])
  }

  function Sweep(s: State, order: seq<Key>, faults: seq<Faults>): State
    requires |faults| == SWEEP_MAX
  {
    var ids := Collect(s.desired, order);
    SweepAll(s, ids, faults[..|ids|])
  }

  // ---- the pipeline in place ------------------------------------------------------

  class Pipeline {
    const hashes: Hashes
    const fib: Fib
    /** The default store, as other code last left it. */
    var desired: Objects
    var ledger: map<Key, Rec>
    var dirty: bool
    const sweepIds: array<Key>
    var sweepCount: nat
    ghost var views: map<Key, DepView>
    ghost var installed: map<FibKey, Resolved>
    ghost var ops: seq<Op>

    ghost predicate Valid()
      reads this, fib, fib.routes, fib.ifaceUp, fib.ifaceKnown
    {
      fib.Valid() && sweepIds.Length == SWEEP_MAX
    }

    ghost function Abs(): State
      requires Valid()
      reads this, fib, fib.routes, fib.ifaceUp, fib.ifaceKnown
    {
      State(desired, ledger, fib.State(), dirty, views, installed, ops)
    }

    constructor (hashes: Hashes, fib: Fib)
      requires fib.Valid()
      ensures Valid() && this.hashes == hashes && this.fib == fib && fresh(sweepIds)
      ensures Abs() == State(map[], map[], fib.State(), false, map[], map[], [])
    {
      this.hashes, this.fib := hashes, fib;
      desired, ledger, dirty, sweepCount := map[], map[], false, 0;
      views, installed, ops := map[], map[], [];
      sweepIds := new Key[SWEEP_MAX](_ => Key(Invalid, 0));
    }

    /** Other code replaces the desired objects; the store marks the state dirty. */
    method Commit(d: Objects)
      requires Valid()
      modifies this`desired, this`dirty
      ensures Valid() && Abs() == Committed(old(Abs()), d)
    {
      desired, dirty := d, true;
    }

    method Issue(o: Object, f: Faults) returns (st: Status)
      requires Valid()
      modifies this`ops, fib, fib.routes, fib.ifaceUp, fib.ifaceKnown
      ensures Valid()
      ensures (st, fib.State(), ops) ==
              (var (st', b, issued) := ProgramOne(desired, old(fib.State()), o, f); (st', b, old(ops) + issued))
    {
      hide Fib.Valid, Fib.State;
      assert ops + [] == ops;
      match o {
        case IfaceObj(i) =>
          st := fib.SetIface(i.ifindex, i.adminUp, f.ifaceUp);
          ops := ops + [OpIfaceUp(i.ifindex, i.adminUp)];
          if st != Ok { return; }
          if i.ipv4.ip.af != Unspec || i.ipv6.ip.af != Unspec {
            st := f.addrSet;
            ops := ops + [OpAddrSet(i)];
            assert ops == old(ops) + ([OpIfaceUp(i.ifindex, i.adminUp)] + [OpAddrSet(i)]);
          }
        case RouteObj(r) =>
          if r.nhgroupId == 0 && !r.Blackhole() { return Retry; }
          var rr := ResolveRoute(desired, r);
          if rr.None? { return Retry; }
          st := fib.AddRoute(r, f.routeAdd);
          ops := ops + [OpRouteAdd(rr.value)];
        case VrfObj(v) =>
          st := f.vrfAdd;
          ops := ops + [OpVrfAdd(v)];
        case _ => st := NotSupported;
      }
    }

    method WithdrawRoute(k: Key, f: Faults) returns (st: Status)
      requires Valid() && k in ledger && ledger[k].obj.RouteObj?
      modifies this`ledger, this`views, this`installed, this`dirty, this`ops, fib, fib.routes
      ensures Valid() && Abs() == Withdraw(old(Abs()), k, f)
      ensures ledger == if st == Ok then old(ledger) - {k} else old(ledger)
    {
      hide Fib.Valid, Fib.State, RouteDel, RouteKey;
      var r := ledger[k].obj.route;
      st := fib.DelRoute(r, f.routeDel);
      ops := ops + [OpRouteDel(r)];
      if st == Ok {
        ledger, views, dirty := ledger - {k}, views - {k}, true;
        installed := installed - {RouteKey(r)};
      }
    }

    /** One desired object, and what the pass's counters gain. */
    method Entry(k: Key, f: Faults) returns (attempted: nat, ok: nat, failed: nat)
      requires Valid() && k in desired
      modifies this`ledger, this`views, this`installed, this`dirty, this`ops
      modifies fib, fib.routes, fib.ifaceUp, fib.ifaceKnown
      ensures Valid() && Abs() == ProgramEntry(hashes, old(Abs()), k, f)
      ensures Tally(attempted, ok, failed) == EntryTally(hashes, old(Abs()), Abs(), k)
    {
      hide Fib.Valid, Fib.State, ProgramObject, Digest, ViewOf;
      attempted, ok, failed := 0, 0, 0;
      if TypeSkipped(k.objType) { return; }
      var o := desired[k];
      var dep := DepDigest(hashes, desired, o);
      if k in ledger && ledger[k].dep == dep && ledger[k].obj == o { return; }
      attempted := 1;
      if o.IfaceObj? && k in ledger && ledger[k].obj.IfaceObj? {
        var was := ledger[k].obj.iface;
        if was.ipv4 != o.iface.ipv4 || was.ipv6 != o.iface.ipv6 {
          ops := ops + [OpAddrDel(was)];
          var dst := AddrDel(was, f.addrDel);
          if dst != Ok { failed := 1; return; }
        }
      }
      ok, failed := Program(k, dep, f);
    }

    /** Issues the object's ops and records the outcome in the ledger. */
    method Program(k: Key, dep: nat, f: Faults) returns (ok: nat, failed: nat)
      requires Valid() && k in desired && dep == Digest(hashes, ViewOf(desired, desired[k]))
      modifies this`ledger, this`views, this`installed, this`dirty, this`ops
      modifies fib, fib.routes, fib.ifaceUp, fib.ifaceKnown
      ensures Valid() && Abs() == ProgramObject(hashes, old(Abs()), k, f)
      ensures if ok == 1 then failed == 0 && ledger == old(ledger)[k := Rec(dep, desired[k])]
              else ok == 0 && failed == (if k in old(ledger) && k !in ledger then 0 else 1)
                   && ledger == (if failed == 0 then old(ledger) - {k} else old(ledger))
    {
      hide Fib.Valid, Fib.State, ProgramOne, Withdraw, Digest, ViewOf, Accept;
      ok, failed := 0, 0;
      var o := desired[k];
      var st := Issue(o, f);
      if st != Ok {
        failed := 1;
        if st == Retry && k in ledger && k.objType == Route && ledger[k].obj.RouteObj? {
          var dst := WithdrawRoute(k, f);
          if dst == Ok { failed := 0; }
        }
        return;
      }
      ok := 1;
      ledger, views, dirty := ledger[k := Rec(dep, o)], views[k := ViewOf(desired, o)], true;
      installed := Accept(installed, desired, o);
    }

    method Run(order: seq<Key>, faults: seq<Faults>) returns (attempted: nat, ok: nat, failed: nat)
      requires Valid() && |faults| == |order| && forall k :: k in order ==> k in desired
      modifies this`ledger, this`views, this`installed, this`dirty, this`ops
      modifies fib, fib.routes, fib.ifaceUp, fib.ifaceKnown
      ensures Valid() && Abs() == Pass(hashes, old(Abs()), order, faults)
      ensures Tally(attempted, ok, failed) == PassTally(hashes, old(Abs()), order, faults)
    {
      attempted, ok, failed := 0, 0, 0;
      for i := 0 to |order|
        invariant Valid() && desired == old(desired)
        invariant Abs() == Pass(hashes, old(Abs()), order[..i], faults[..i])
        invariant Tally(attempted, ok, failed) == PassTally(hashes, old(Abs()), order[..i], faults[..i])
      {
        var a, b, c := Entry(order[i], faults[i]);
        attempted, ok, failed := attempted + a, ok + b, failed + c;
        assert order[..i + 1][..i] == order[..i] && faults[..i + 1][..i] == faults[..i];
      }
      assert order[..|order|] == order && faults[..|faults|] == faults;
    }

    /** The sweep's first half: candidates are collected before any is withdrawn. */
    method CollectTombstones(order: seq<Key>)
      requires Valid()
      modifies this`sweepCount, sweepIds
      ensures sweepCount <= SWEEP_MAX && sweepIds[..sweepCount] == Collect(desired, order)
    {
      sweepCount := 0;
      for i := 0 to |order|
        invariant sweepCount <= SWEEP_MAX && sweepIds[..sweepCount] == Collect(desired, order[..i])
      {
        if sweepCount < SWEEP_MAX && order[i] !in desired {
          sweepIds[sweepCount] := order[i];
          sweepCount := sweepCount + 1;
        }
        assert order[..i + 1][..i] == order[..i];
      }
      assert order[..|order|] == order;
    }

    method SweepTombstone(k: Key, f: Faults) returns (issued: nat, failed: nat)
      requires Valid()
      modifies this`ledger, this`views, this`installed, this`dirty, this`ops
      modifies fib, fib.routes, fib.ifaceUp, fib.ifaceKnown
      ensures Valid() && Abs() == SweepOne(old(Abs()), k, f)
      ensures issued + failed <= 1
      ensures issued == 1 <==> k in old(ledger) && k !in ledger
    {
      hide Fib.Valid, Fib.State, IfaceUp, Withdraw;
      issued, failed := 0, 0;
      if k !in ledger { return; }
      match ledger[k].obj {
        case RouteObj(_) =>
          var st := WithdrawRoute(k, f);
          if st != Ok { failed := 1; return; }
        case IfaceObj(i) =>
          var _ := fib.SetIface(i.ifindex, false, f.ifaceUp);
          ops := ops + [OpIfaceUp(i.ifindex, false)];
          ledger, views, dirty := ledger - {k}, views - {k}, true;
        case _ =>
          ledger, views, dirty := ledger - {k}, views - {k}, true;
      }
      issued := 1;
    }

    method RunSweep(order: seq<Key>, faults: seq<Faults>) returns (issued: nat, failed: nat)
      requires Valid() && |faults| == SWEEP_MAX
      modifies this, sweepIds, fib, fib.routes, fib.ifaceUp, fib.ifaceKnown
      ensures Valid() && Abs() == Sweep(old(Abs()), order, faults)
      ensures issued + failed <= SWEEP_MAX
    {
      issued, failed := 0, 0;
      CollectTombstones(order);
      ghost var ids := Collect(desired, order);
      for i := 0 to sweepCount
        invariant desired == old(desired) && sweepCount == |ids| <= SWEEP_MAX
        invariant Valid() && sweepIds[..sweepCount] == ids && issued + failed <= i
        invariant Abs() == SweepAll(old(Abs()), ids[..i], faults[..i])
      {
        assert sweepIds[i] == ids[i];
        var a, b := SweepTombstone(sweepIds[i], faults[i]);
        issued, failed := issued + a, failed + b;
        assert ids[..i + 1][..i] == ids[..i] && faults[..i + 1][..i] == faults[..i];
      }
      assert ids[..|ids|] == ids;
    }
  }
}
