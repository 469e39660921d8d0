/** What the backend is told about routes and VRFs, and what its table holds after any run of calls. */
module BackendLaws {
  import opened Bytes
  import opened Convergence
  import opened Dpa
  import opened MockFib
  import opened Programming
  import opened ProgrammingTheorems

  // ---- the table --------------------------------------------------------------------------------

  datatype FibCall = Add(r: RouteData) | Del(r: RouteData)

  const NO_ROUTES := Backend({}, map[])

  function AfterCalls(calls: seq<FibCall>): Backend {
    if calls == [] then NO_ROUTES
    else
      var b := AfterCalls(calls[..|calls| - 1]);
      match calls[|calls| - 1]
      case Add(r) => RouteAdd(b, r, Ok).1
      case Del(r) => RouteDel(b, r, Ok).1
  }

  /** An IPv4 route of this VRF to this prefix, the address given by its four bytes. */
  predicate LeadsTo(r: RouteData, vrf: nat, four: seq<byte>, len: nat) {
    r.prefix.ip.af == Ipv4 && r.vrf == vrf && r.prefix.ip.addr[..4] == four && r.prefix.len == len
  }

  /** The last call about the prefix added a route. */
  predicate Stands(calls: seq<FibCall>, vrf: nat, four: seq<byte>, len: nat) {
    calls != [] &&
    var c := calls[|calls| - 1];
    if LeadsTo(c.r, vrf, four, len) then c.Add? && len <= 32
    else Stands(calls[..|calls| - 1], vrf, four, len)
  }

  /** The prefixes routes were ever added for. */
  function Added(calls: seq<FibCall>): set<FibKey> {
    if calls == [] then {}
    else
      var c := calls[|calls| - 1];
      Added(calls[..|calls| - 1])
      + if c.Add? && c.r.prefix.ip.af == Ipv4 && c.r.prefix.len <= 32 then
          {FibKey(c.r.vrf, c.r.prefix.ip.addr[..4], c.r.prefix.len)}
        else {}
  }

  lemma {:induction false} OnlyAdded(calls: seq<FibCall>)
    ensures AfterCalls(calls).fib <= Added(calls)
  {
    if calls != [] { OnlyAdded(calls[..|calls| - 1]); }
  }

  /** There is room for one more of the prefixes as long as there are no more than 4096 of them. */
  lemma RoomForOne(fib: set<FibKey>, all: set<FibKey>, k: FibKey)
    requires fib <= all && k in all && k !in fib && |all| <= 4096
    ensures |fib| < 4096
  {
    SubsetSize(fib + {k}, all);
  }

  /**
   * If routes were added for no more than 4096 prefixes, the table has a route for a prefix of a VRF
   * exactly when the last call about that prefix of that VRF added one.
   */
  lemma {:induction false} TableAfterCalls(calls: seq<FibCall>, vrf: nat, four: seq<byte>, len: nat)
    requires |Added(calls)| <= 4096
    ensures FibKey(vrf, four, len) in AfterCalls(calls).fib <==> Stands(calls, vrf, four, len)
  {
    if calls != [] {
      var before, c := calls[..|calls| - 1], calls[|calls| - 1];
      SubsetSize(Added(before), Added(calls));
      TableAfterCalls(before, vrf, four, len);
      OnlyAdded(before);
      var k, fib := FibKey(c.r.vrf, c.r.prefix.ip.addr[..4], c.r.prefix.len), AfterCalls(before).fib;
      if k in Added(calls) && k !in fib { RoomForOne(fib, Added(calls), k); }
      if len > 32 { NothingLonger(calls, vrf, four, len); }
    }
  }

  lemma {:induction false} NothingLonger(calls: seq<FibCall>, vrf: nat, four: seq<byte>, len: nat)
    requires len > 32
    ensures FibKey(vrf, four, len) !in AfterCalls(calls).fib
  {
    if calls != [] { NothingLonger(calls[..|calls| - 1], vrf, four, len); }
  }

  /** What a call answers: other families and lengths above 32 are refused, a route not there is not found. */
  lemma AnswersAfterCalls(calls: seq<FibCall>, r: RouteData)
    requires |Added(calls) + {FibKey(r.vrf, r.prefix.ip.addr[..4], r.prefix.len)}| <= 4096
    ensures var b := AfterCalls(calls);
            && RouteAdd(b, r, Ok).0 == (if r.prefix.ip.af != Ipv4 || r.prefix.len > 32 then InvalidArg else Ok)
            && RouteDel(b, r, Ok).0 == (if r.prefix.ip.af != Ipv4 then InvalidArg
                                        else if Stands(calls, r.vrf, r.prefix.ip.addr[..4], r.prefix.len) then Ok
                                        else NotFound)
  {
    hide AfterCalls, Stands, Added;
    var k, fib := FibKey(r.vrf, r.prefix.ip.addr[..4], r.prefix.len), AfterCalls(calls).fib;
    var all := Added(calls) + {k};
    SubsetSize(Added(calls), all);
    OnlyAdded(calls);
    TableAfterCalls(calls, r.vrf, r.prefix.ip.addr[..4], r.prefix.len);
    if k !in fib { RoomForOne(fib, all, k); }
  }

  /** With 4096 routes in it the table takes no other; one that is there already is accepted. */
  lemma FullTable(b: Backend, r: RouteData)
    requires |b.fib| == 4096 && r.prefix.ip.af == Ipv4 && r.prefix.len <= 32
    ensures RouteAdd(b, r, Ok) ==
            (if FibKey(r.vrf, r.prefix.ip.addr[..4], r.prefix.len) in b.fib then Ok else NoMemory, b)
  {
  }

  // ---- next hops ------------------------------------------------------------------------------------

  predicate HopThere(d: Objects, id: nat) { Key(NextHop, id) in d && d[Key(NextHop, id)].NextHopObj? }

  /** The route's group is there with at least one member, and so are its first 64 members. */
  predicate Reachable(d: Objects, r: RouteData) {
    var k := Key(NhGroup, r.nhgroupId);
    && r.nhgroupId != 0 && k in d && d[k].GroupObj? && d[k].group.count > 0
    && forall i :: 0 <= i < d[k].group.count && i < 64 ==> HopThere(d, d[k].group.members[i])
  }

  /** A route is put off exactly when it is no blackhole and a dependency is missing. */
  lemma ResolvesIff(d: Objects, r: RouteData)
    ensures Resolve(d, r).Some? <==> r.flags % 2 == 1 || Reachable(d, r)
  {
    if r.flags % 2 == 0 && r.nhgroupId != 0 && GetGroup(d, r.nhgroupId).Some? {
      var g := GetGroup(d, r.nhgroupId).value;
      assert forall i :: 0 <= i < g.Size() ==> (HopThere(d, g.members[i]) <==> GetNextHop(d, g.members[i]).Some?);
    }
  }

  /** What the backend is given for a route: every member's own gateway and interface, in order. */
  lemma ResolvedHops(d: Objects, r: RouteData, i: nat)
    requires r.flags % 2 == 0 && Reachable(d, r)
    requires var g := d[Key(NhGroup, r.nhgroupId)].group; i < g.count && i < 64
    ensures Resolve(d, r).Some?
    ensures var rr, g := Resolve(d, r).value, d[Key(NhGroup, r.nhgroupId)].group;
            var first, nh := d[Key(NextHop, g.members[0])].nh, d[Key(NextHop, g.members[i])].nh;
            && HopThere(d, g.members[0]) && HopThere(d, g.members[i])
            && rr.route == r && |rr.paths| == (if g.count < 64 then g.count else 64)
            && rr.paths[i].oif == nh.ifindex
            && rr.paths[i].gateway == nh.gateway.addr[..if nh.gateway.af == Ipv6 then 16 else 4]
            && rr.hasGateway == (first.gateway.af == Ipv4 || first.gateway.af == Ipv6)
            && rr.first.oif == first.ifindex
            && rr.first.gateway ==
               first.gateway.addr[..match first.gateway.af case Ipv6 => 16 case Ipv4 => 4 case Unspec => 0]
  {
    ResolvesIff(d, r);
    var g := d[Key(NhGroup, r.nhgroupId)].group;
    assert HopThere(d, g.members[0]) && HopThere(d, g.members[i]);
  }

  lemma BlackholesHaveNoHops(d: Objects, r: RouteData)
    requires r.flags % 2 == 1
    ensures Resolve(d, r) == Some(Resolved(r, false, Path([], 0), []))
  {
  }

  // ---- calls ------------------------------------------------------------------------------------------

  /** A route not in sync is added with what it resolves to; one that does not resolve, or is put off, is taken out. */
  lemma RouteCalls(h: Hashes, s: State, k: Key, f: Faults)
    requires k in s.desired && s.desired[k].RouteObj? && k.objType == Route && !InSync(h, s, k)
    ensures var s', rr := ProgramEntry(h, s, k, f), Resolve(s.desired, s.desired[k].route);
            var out := if k in s.ledger && s.ledger[k].obj.RouteObj? then [OpRouteDel(s.ledger[k].obj.route)] else [];
            s'.ops == s.ops + (if rr.None? then out
                               else if f.routeAdd == Retry then [OpRouteAdd(rr.value)] + out
                               else [OpRouteAdd(rr.value)])
  {
    hide Digest, Resolve, ViewOf, RouteKey;
    var rr := Resolve(s.desired, s.desired[k].route);
    if rr.Some? && k in s.ledger && s.ledger[k].obj.RouteObj? {
      var out := OpRouteDel(s.ledger[k].obj.route);
      assert s.ops + [OpRouteAdd(rr.value)] + [out] == s.ops + ([OpRouteAdd(rr.value)] + [out]);
    }
    assert s.ops + [] == s.ops;
  }

  /** A VRF not in sync is added, and recorded if that worked. */
  lemma VrfCalls(h: Hashes, s: State, k: Key, f: Faults)
    requires k in s.desired && s.desired[k].VrfObj? && k.objType == Vrf && !InSync(h, s, k)
    ensures var s', v := ProgramEntry(h, s, k, f), s.desired[k].vrf;
            && s'.ops == s.ops + [OpVrfAdd(v)] && s'.backend == s.backend
            && s'.ledger == if f.vrfAdd == Ok then s.ledger[k := Rec(Digest(h, NoDeps), VrfObj(v))] else s.ledger
  {
    hide Digest;
  }

  /** Every other type of object, and an object in sync, is left alone. */
  lemma NoCalls(h: Hashes, s: State, k: Key, f: Faults)
    requires k in s.desired
    requires k.objType !in {Iface, Route, Vrf, Vlan, Invalid} || s.desired[k].RawObj? || InSync(h, s, k)
    ensures ProgramEntry(h, s, k, f) == s
  {
    hide Digest, Resolve, ViewOf;
    assert s.ops + [] == s.ops;
    match k.objType
    case Iface => assert s.desired[k].RawObj? ==> s == s.(backend := s.backend, ops := s.ops + []);
    case _ =>
  }

  /** What a swept entry tells the backend: a route goes, an interface goes down, a VRF is just forgotten. */
  lemma SweepCalls(s: State, k: Key, f: Faults)
    requires k in s.ledger
    ensures SweepOne(s, k, f).ops == s.ops + match s.ledger[k].obj
                                             case RouteObj(r) => [OpRouteDel(r)]
                                             case IfaceObj(i) => [OpIfaceUp(i.ifindex, false)]
                                             case _ => []
    ensures !s.ledger[k].obj.RouteObj? ==> k !in SweepOne(s, k, f).ledger
  {
    hide RouteKey;
    assert s.ops + [] == s.ops;
  }

  // ---- what a pass reports --------------------------------------------------------------------------

  predicate Distinct(order: seq<Key>) { forall i, j :: 0 <= i < j < |order| ==> order[i] != order[j] }

  /** A key the pass has nothing left to do for: in sync, or a route taken out until it resolves. */
  predicate Settled(h: Hashes, s: State, k: Key) { TypeSkipped(k.objType) || InSync(h, s, k) || k !in s.ledger }

  lemma SettledStays(h: Hashes, s: State, x: Key, f: Faults, k: Key)
    requires x in s.desired && x != k && Settled(h, s, k)
    ensures Settled(h, ProgramEntry(h, s, x, f), k) && ProgramEntry(h, s, x, f).desired == s.desired
  {
    hide Digest, ProgramObject, ViewOf, TypeSkipped;
    EntryIsLocal(h, s, x, f, k);
    ObjectKeepsDesired(h, s, x, f);
    if StaleAddresses(s, x).Some? {
      ObjectKeepsDesired(h, s.(ops := s.ops + [OpAddrDel(StaleAddresses(s, x).value)]), x, f);
    }
  }

  lemma ObjectKeepsDesired(h: Hashes, s: State, x: Key, f: Faults)
    requires x in s.desired
    ensures ProgramObject(h, s, x, f).desired == s.desired
  {
    hide Digest, ViewOf, ProgramOne, Accept, RouteDel;
  }

  /** A pass that reports no failure has left every object in sync or out of the ledger. */
  lemma {:induction false} NoFailureMeansSettled(h: Hashes, s: State, order: seq<Key>, faults: seq<Faults>)
    requires |faults| == |order| && (forall k :: k in order ==> k in s.desired) && Distinct(order)
    requires PassTally(h, s, order, faults).failed == 0
    ensures forall k :: k in order ==> Settled(h, Pass(h, s, order, faults), k)
  {
    hide InSync, ProgramEntry, TypeSkipped;
    if order != [] {
      var n := |order| - 1;
      var before, x := Pass(h, s, order[..n], faults[..n]), order[n];
      NoFailureMeansSettled(h, s, order[..n], faults[..n]);
      assert x in order;
      forall k | k in order ensures Settled(h, ProgramEntry(h, before, x, faults[n]), k) {
        if k != x {
          assert k in order[..n];
          SettledStays(h, before, x, faults[n], k);
        } else {
          LastSettles(h, before, x, faults[n]);
        }
      }
    }
  }

  lemma LastSettles(h: Hashes, s: State, x: Key, f: Faults)
    requires x in s.desired && EntryTally(h, s, ProgramEntry(h, s, x, f), x).failed == 0
    ensures Settled(h, ProgramEntry(h, s, x, f), x)
  {
    hide Digest, ProgramObject;
  }

  /** Every attempt is a success, a failure or a route taken out. */
  lemma {:induction false} TallyAddsUp(h: Hashes, s: State, order: seq<Key>, faults: seq<Faults>)
    requires |faults| == |order| && forall k :: k in order ==> k in s.desired
    ensures var t := PassTally(h, s, order, faults); t.ok + t.failed <= t.attempted <= |order|
  {
    hide InSync, ProgramEntry, TypeSkipped, Pass;
    if order != [] {
      var n := |order| - 1;
      TallyAddsUp(h, s, order[..n], faults[..n]);
    }
  }

  // ---- what a sweep takes -----------------------------------------------------------------------------

  /** The keys no longer desired, in the order of the ledger. */
  function Gone(desired: Objects, order: seq<Key>): seq<Key> {
    if order == [] then [] else (if order[0] in desired then [] else [order[0]]) + Gone(desired, order[1..])
  }

  lemma {:induction false} GoneAtEnd(desired: Objects, order: seq<Key>)
    requires order != []
    ensures var n := |order| - 1;
            Gone(desired, order) == Gone(desired, order[..n]) + if order[n] in desired then [] else [order[n]]
    decreases |order|
  {
    var n := |order| - 1;
    if n == 0 {
      assert order[1..] == [] && order[..0] == [];
    } else {
      GoneAtEnd(desired, order[1..]);
      assert order[1..][..n - 1] == order[..n][1..];
    }
  }

  /** One sweep collects the first 256 of them. */
  lemma {:induction false} SweepTakesFirst(desired: Objects, order: seq<Key>)
    ensures var gone := Gone(desired, order);
            Collect(desired, order) == if |gone| <= 256 then gone else gone[..256]
    decreases |order|
  {
    hide Gone;
    if order == [] {
      NothingGone(desired);
    } else {
      SweepTakesFirst(desired, order[..|order| - 1]);
      GoneAtEnd(desired, order);
    }
  }

  lemma NothingGone(desired: Objects)
    ensures Gone(desired, []) == []
  {
  }

  // ---- the dirty flag -----------------------------------------------------------------------------------

  predicate Marked(s: State, s': State) {
    s'.dirty || (!s.dirty && s'.desired == s.desired && s'.ledger == s.ledger)
  }

  lemma ObjectMarks(h: Hashes, s: State, k: Key, f: Faults)
    requires k in s.desired
    ensures Marked(s, ProgramObject(h, s, k, f))
  {
    hide Digest, ViewOf, ProgramOne, Accept, RouteDel, RouteKey;
  }

  lemma SweepMarks(s: State, k: Key, f: Faults)
    ensures Marked(s, SweepOne(s, k, f))
  {
    hide RouteDel, RouteKey, IfaceUp;
  }

  lemma StepMarks(h: Hashes, s: State, step: Step)
    ensures Marked(s, Take(h, s, step))
  {
    hide ProgramObject, SweepOne, InSync, TypeSkipped;
    match step
    case Commit(_) =>
    case SweepKey(k, f) => SweepMarks(s, k, f);
    case Program(k, f) =>
      if k in s.desired {
        ObjectMarks(h, s, k, f);
        if StaleAddresses(s, k).Some? {
          ObjectMarks(h, s.(ops := s.ops + [OpAddrDel(StaleAddresses(s, k).value)]), k, f);
        }
      }
  }

  function TakeAll(h: Hashes, s: State, steps: seq<Step>): State
    decreases |steps|
  {
    if steps == [] then s else TakeAll(h, Take(h, s, steps[0]), steps[1..])
  }

  /** However commits, programming and sweeping go on, a state not marked dirty is as it was when the mark was taken. */
  lemma {:induction false} CleanMeansUnchanged(h: Hashes, s: State, steps: seq<Step>)
    ensures var s' := TakeAll(h, s, steps);
            s'.dirty || (!s.dirty && s'.desired == s.desired && s'.ledger == s.ledger)
    decreases |steps|
  {
    hide Take;
    if steps != [] {
      StepMarks(h, s, steps[0]);
      CleanMeansUnchanged(h, Take(h, s, steps[0]), steps[1..]);
    }
  }
}
