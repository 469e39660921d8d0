/** What every step of the pipeline keeps, and what passes and sweeps reach. */
module ProgrammingTheorems {
  import opened Bytes
  import opened Dpa
  import opened MockFib
  import opened Programming

  // ---- what may be committed ------------------------------------------------------

  predicate LedgerRoute(s: State, k: Key) { k in s.ledger && s.ledger[k].obj.RouteObj? }

  /** Where the backend keeps a route of the ledger. */
  function TableKey(s: State, k: Key): FibKey
    requires LedgerRoute(s, k)
  {
    RouteKey(s.ledger[k].obj.route)
  }

  /** A desired route the backend may take: it takes no other family than IPv4. */
  predicate Asked(d: Objects, k: Key) { k in d && d[k].RouteObj? && d[k].route.prefix.ip.af == Ipv4 }

  /**
   * Objects sit under keys of their type; and among the routes the ledger has and the IPv4 routes
   * `d` asks for, two share their place in the table exactly when they share their store key.
   */
  ghost predicate Apart(s: State, d: Objects) {
    && (forall k :: k in d ==> WellTyped(k, d[k]))
    && (forall a, b :: LedgerRoute(s, a) && LedgerRoute(s, b) && a != b ==> TableKey(s, a) != TableKey(s, b))
    && (forall a, b :: LedgerRoute(s, a) && Asked(d, b) ==> (a == b <==> TableKey(s, a) == RouteKey(d[b].route)))
    && (forall a, b :: Asked(d, a) && Asked(d, b) && a != b ==> RouteKey(d[a].route) != RouteKey(d[b].route))
  }

  /** Routes of other families may be added at will, sharing address bytes or not. */
  lemma OtherFamiliesAreFree(s: State, d: Objects, id: nat, r: RouteData)
    requires Apart(s, d) && r.prefix.ip.af != Ipv4
    ensures Apart(s, d[Key(Route, id) := RouteObj(r)])
  {
    var d' := d[Key(Route, id) := RouteObj(r)];
    assert forall k :: Asked(d', k) ==> Asked(d, k) && d'[k] == d[k];
  }

  // ---- the ledger/FIB invariant ---------------------------------------------------

  ghost function LedgerFib(s: State): set<FibKey> { set k | k in s.ledger && LedgerRoute(s, k) :: TableKey(s, k) }

  /** Next-hop resolution from a dependency view alone. */
  function ResolveView(r: RouteData, v: DepView): Option<Resolved> {
    if r.Blackhole() then Some(Resolved(r, false, Path([], 0), []))
    else if v.Deps? && v.members != [] && None !in v.members then
      var nh := v.members[0].value;
      Some(Resolved(r, nh.gateway.af != Unspec,
                    Path(if nh.gateway.af == Unspec then [] else GatewayBytes(nh.gateway), nh.ifindex),
                    seq(|v.members|, i requires 0 <= i < |v.members| => PathOf(v.members[i].value))))
    else None
  }

  /** Resolution only looks at the dependency view. */
  lemma ResolutionFactors(d: Objects, r: RouteData)
    ensures Resolve(d, r) == ResolveView(r, ViewOf(d, RouteObj(r)))
  {
    var v := ViewOf(d, RouteObj(r));
    if v.Deps? && !r.Blackhole() {
      assert forall i :: 0 <= i < |v.members| ==> v.members[i] == GetNextHop(d, v.group.members[i]);
      if None in v.members {
        var i :| 0 <= i < |v.members| && v.members[i] == None;
        assert GetNextHop(d, v.group.members[i]).None?;
      } else if v.members != [] {
        assert Resolve(d, r).value.paths == ResolveView(r, v).value.paths;
      }
    }
  }

  ghost predicate GoodEntry(h: Hashes, s: State, k: Key)
    requires k in s.ledger
  {
    var o := s.ledger[k].obj;
    && WellTyped(k, o) && (o.RouteObj? || o.IfaceObj? || o.VrfObj?)
    && (o.IfaceObj? ==> 0 < o.iface.ifindex < MAX_IFACES)
    && k in s.views && s.ledger[k].dep == Digest(h, s.views[k])
    && (o.RouteObj? ==>
          && o.route.prefix.ip.af == Ipv4 && o.route.prefix.len <= 32 && RouteKey(o.route) in s.installed
          && ResolveView(o.route, s.views[k]) == Some(s.installed[RouteKey(o.route)]))
  }

  /** The FIB holds exactly the keys of the ledger's routes, each with the next
      hops its route resolved to when it was last programmed. */
  ghost predicate Inv(h: Hashes, s: State) {
    && Apart(s, s.desired)
    && (forall k :: k in s.ledger ==> GoodEntry(h, s, k))
    && s.backend.fib == s.installed.Keys == LedgerFib(s)
  }

  lemma LedgerFibAfterProgram(s: State, s': State, k: Key)
    requires k in s'.ledger && s'.ledger == s.ledger[k := s'.ledger[k]]
    requires LedgerRoute(s, k) ==> LedgerRoute(s', k) && TableKey(s', k) == TableKey(s, k)
    ensures LedgerFib(s') == if LedgerRoute(s', k) then LedgerFib(s) + {TableKey(s', k)} else LedgerFib(s)
  {
    hide RouteKey;
    var a, b, ledger := LedgerFib(s), LedgerFib(s'), s.ledger[k := s'.ledger[k]];
    forall y | y != k ensures LedgerRoute(s', y) <==> LedgerRoute(s, y) {
      assert y in ledger <==> y in s.ledger;
      assert y in s.ledger ==> ledger[y] == s.ledger[y];
    }
    forall x | x in b ensures x in a || (LedgerRoute(s', k) && x == TableKey(s', k)) {
      var y :| y in s'.ledger && LedgerRoute(s', y) && TableKey(s', y) == x;
      assert y != k ==> LedgerRoute(s, y) && TableKey(s, y) == x;
    }
    forall x | x in a ensures x in b {
      var y :| y in s.ledger && LedgerRoute(s, y) && TableKey(s, y) == x;
      assert LedgerRoute(s', y) && TableKey(s', y) == x;
    }
  }

  /** Programming moves a route of the desired objects into the ledger; forgetting takes one away. */
  lemma ApartKept(s: State, s': State)
    requires Apart(s, s.desired) && s'.desired == s.desired
    requires forall x :: LedgerRoute(s', x) ==>
      || (LedgerRoute(s, x) && s'.ledger[x].obj == s.ledger[x].obj)
      || (Asked(s.desired, x) && s'.ledger[x].obj == s.desired[x])
    ensures Apart(s', s'.desired)
  {
    hide RouteKey;
  }

  /** Adding a programmed route to the ledger and its key to the FIB. */
  lemma InvAfterProgram(h: Hashes, s: State, s': State, k: Key)
    requires Inv(h, s) && s'.desired == s.desired
    requires k in s'.ledger && s'.ledger == s.ledger[k := s'.ledger[k]] && s'.views.Keys >= s.views.Keys
    requires forall x :: x in s.ledger && x != k ==> s'.views[x] == s.views[x]
    requires GoodEntry(h, s', k)
    requires LedgerRoute(s', k) ==> Asked(s.desired, k) && s'.ledger[k].obj == s.desired[k]
    requires LedgerRoute(s, k) ==> LedgerRoute(s', k)
    requires s'.backend.fib == if LedgerRoute(s', k) then s.backend.fib + {TableKey(s', k)} else s.backend.fib
    requires LedgerRoute(s', k) ==> s'.installed == s.installed[TableKey(s', k) := s'.installed[TableKey(s', k)]]
    requires !LedgerRoute(s', k) ==> s'.installed == s.installed
    ensures Inv(h, s')
  {
    hide RouteKey, ResolveView, Digest, WellTyped, LedgerFib;
    ApartKept(s, s');
    LedgerFibAfterProgram(s, s', k);
    forall x | x in s'.ledger ensures GoodEntry(h, s', x) {
      if x != k {
        assert GoodEntry(h, s, x);
        assert LedgerRoute(s, x) && LedgerRoute(s', k) ==> TableKey(s', x) != TableKey(s', k);
      }
    }
  }

  lemma LedgerFibAfterForget(s: State, s': State, k: Key)
    requires Apart(s, s.desired) && k in s.ledger && s'.ledger == s.ledger - {k}
    ensures LedgerFib(s') == if LedgerRoute(s, k) then LedgerFib(s) - {TableKey(s, k)} else LedgerFib(s)
  {
    hide RouteKey;
    forall x ensures LedgerRoute(s', x) <==> LedgerRoute(s, x) && x != k {
    }
    assert forall x :: LedgerRoute(s', x) ==> TableKey(s', x) == TableKey(s, x);
    var a, b := LedgerFib(s), LedgerFib(s');
    forall x | x in a && !(LedgerRoute(s, k) && x == TableKey(s, k)) ensures x in b {
      var y :| LedgerRoute(s, y) && TableKey(s, y) == x;
      assert LedgerRoute(s', y);
    }
  }

  /** Taking a key out of the ledger and, if it is a route, out of the FIB. */
  lemma InvAfterForget(h: Hashes, s: State, s': State, k: Key)
    requires Inv(h, s) && k in s.ledger && s'.desired == s.desired
    requires s'.ledger == s.ledger - {k} && s'.views == s.views - {k}
    requires s'.backend.fib == if LedgerRoute(s, k) then s.backend.fib - {TableKey(s, k)} else s.backend.fib
    requires s'.installed == if LedgerRoute(s, k) then s.installed - {TableKey(s, k)} else s.installed
    ensures Inv(h, s')
  {
    hide RouteKey, ResolveView, Digest, WellTyped, LedgerFib;
    ApartKept(s, s');
    LedgerFibAfterForget(s, s', k);
    forall x | x in s'.ledger ensures GoodEntry(h, s', x) {
      assert GoodEntry(h, s, x);
      assert LedgerRoute(s, x) && LedgerRoute(s, k) ==> TableKey(s, x) != TableKey(s, k);
    }
  }

  lemma InvAfterWithdraw(h: Hashes, s: State, k: Key, f: Faults)
    requires Inv(h, s) && LedgerRoute(s, k)
    ensures Inv(h, Withdraw(s, k, f))
    ensures f.routeDel == Ok ==> k !in Withdraw(s, k, f).ledger
  {
    assert GoodEntry(h, s, k);
    assert TableKey(s, k) in LedgerFib(s);
    var s' := Withdraw(s, k, f);
    if s'.ledger != s.ledger {
      InvAfterForget(h, s, s', k);
    } else {
      InvSame(h, s, s');
    }
  }

  /** The invariant does not look at the flags or the trace, and at the desired objects only in part. */
  lemma InvSame(h: Hashes, s: State, s': State)
    requires Inv(h, s) && (s'.desired == s.desired || Apart(s, s'.desired))
    requires s'.ledger == s.ledger && s'.views == s.views && s'.installed == s.installed
    requires s'.backend.fib == s.backend.fib
    ensures Inv(h, s')
  {
    hide RouteKey, ResolveView, Digest, WellTyped;
    assert forall k :: LedgerRoute(s', k) <==> LedgerRoute(s, k);
    assert forall k :: LedgerRoute(s, k) ==> TableKey(s', k) == TableKey(s, k);
    assert LedgerFib(s') == LedgerFib(s);
    forall k | k in s'.ledger ensures GoodEntry(h, s', k) { assert GoodEntry(h, s, k); }
  }

  /** What issuing the ops of one object does to the FIB. */
  lemma ProgramOneEffect(d: Objects, b: Backend, o: Object, f: Faults)
    ensures var (st, b', _) := ProgramOne(d, b, o, f);
      && (st == Ok ==> o.RouteObj? || o.VrfObj? || (o.IfaceObj? && 0 < o.iface.ifindex < MAX_IFACES))
      && (st == Ok && o.RouteObj? ==>
            && o.route.prefix.ip.af == Ipv4 && o.route.prefix.len <= 32 && Resolve(d, o.route).Some?
            && b'.fib == b.fib + {RouteKey(o.route)})
      && (st != Ok || !o.RouteObj? ==> b'.fib == b.fib)
  {
    hide Resolve;
  }

  lemma InvAfterProgramObject(h: Hashes, s: State, k: Key, f: Faults)
    requires Inv(h, s) && k in s.desired
    ensures Inv(h, ProgramObject(h, s, k, f))
  {
    hide Withdraw, RouteKey, Resolve, Digest, ProgramOne, LedgerFib;
    var o := s.desired[k];
    var (st, b, ops) := ProgramOne(s.desired, s.backend, o, f);
    ProgramOneEffect(s.desired, s.backend, o, f);
    assert WellTyped(k, o);
    if st == Ok {
      var s' := ProgramObject(h, s, k, f);
      if k in s.ledger { assert GoodEntry(h, s, k); }
      if o.RouteObj? { ResolutionFactors(s.desired, o.route); }
      assert GoodEntry(h, s', k);
      InvAfterProgram(h, s, s', k);
    } else {
      var s1 := s.(backend := b, ops := s.ops + ops);
      InvSame(h, s, s1);
      if st == Retry && LedgerRoute(s, k) && k.objType == Route {
        InvAfterWithdraw(h, s1, k, f);
      }
    }
  }

  /** One desired object, whatever op fails, keeps the invariant. */
  lemma InvAfterProgramEntry(h: Hashes, s: State, k: Key, f: Faults)
    requires Inv(h, s) && k in s.desired
    ensures Inv(h, ProgramEntry(h, s, k, f))
  {
    hide ProgramObject, Digest;
    var stale := StaleAddresses(s, k);
    var s0 := if stale.Some? then s.(ops := s.ops + [OpAddrDel(stale.value)]) else s;
    InvSame(h, s, s0);
    InvAfterProgramObject(h, s0, k, f);
  }

  lemma InvAfterSweepOne(h: Hashes, s: State, k: Key, f: Faults)
    requires Inv(h, s)
    ensures Inv(h, SweepOne(s, k, f))
    ensures f == NoFaults ==> k !in SweepOne(s, k, f).ledger
  {
    hide Withdraw;
    if k in s.ledger {
      if s.ledger[k].obj.RouteObj? {
        InvAfterWithdraw(h, s, k, f);
      } else {
        InvAfterForget(h, s, SweepOne(s, k, f), k);
      }
    }
  }

  /** Sweeping a route away leaves the table in step exactly when no other ledger route has its place. */
  lemma SweepKeepsIff(s: State, k: Key)
    requires s.backend.fib == LedgerFib(s) && LedgerRoute(s, k)
    requires s.ledger[k].obj.route.prefix.ip.af == Ipv4
    ensures var s' := SweepOne(s, k, NoFaults);
      s'.backend.fib == LedgerFib(s') <==> forall x :: LedgerRoute(s, x) && x != k ==> TableKey(s, x) != TableKey(s, k)
  {
    hide RouteKey;
    var s' := SweepOne(s, k, NoFaults);
    assert TableKey(s, k) in s.backend.fib;
    assert forall x :: LedgerRoute(s', x) <==> LedgerRoute(s, x) && x != k;
    assert forall x :: LedgerRoute(s', x) ==> TableKey(s', x) == TableKey(s, x);
    if x :| LedgerRoute(s, x) && x != k && TableKey(s, x) == TableKey(s, k) {
      assert LedgerRoute(s', x) && TableKey(s', x) in LedgerFib(s');
    } else {
      forall y | y in LedgerFib(s) && y != TableKey(s, k) ensures y in LedgerFib(s') {
        var x :| x in s.ledger && LedgerRoute(s, x) && TableKey(s, x) == y;
        assert LedgerRoute(s', x);
      }
      assert s'.backend.fib == LedgerFib(s');
    }
  }

  // ---- every run ------------------------------------------------------------------

  /** The smallest steps of the system, in any order and with any op failing. */
  datatype Step =
    | Commit(d: Objects)
    | Program(k: Key, f: Faults)
    | SweepKey(k: Key, f: Faults)

  function Take(h: Hashes, s: State, step: Step): State {
    match step
    case Commit(d) => Committed(s, d)
    case Program(k, f) => if k in s.desired then ProgramEntry(h, s, k, f) else s
    case SweepKey(k, f) => SweepOne(s, k, f)
  }

  const Start: State := State(map[], map[], Backend({}, map[]), false, map[], map[], [])

  function Exec(h: Hashes, steps: seq<Step>): State {
    if steps == [] then Start else Take(h, Exec(h, steps[..|steps| - 1]), steps[|steps| - 1])
  }

  /** Every commit keeps apart from what the ledger has at that moment. */
  ghost predicate AllApart(h: Hashes, steps: seq<Step>) {
    forall i :: 0 <= i < |steps| && steps[i].Commit? ==> Apart(Exec(h, steps[..i]), steps[i].d)
  }

  /** After any interleaving of commits, programming and sweeping, with any op
      failing at any point, the FIB is the image of the ledger. */
  lemma {:induction false} LedgerMatchesFib(h: Hashes, steps: seq<Step>)
    requires AllApart(h, steps)
    ensures Inv(h, Exec(h, steps))
  {
    hide ProgramEntry, SweepOne, Apart, GoodEntry, LedgerFib;
    if steps == [] {
      StartIsSound(h);
    } else {
      var front, last := steps[..|steps| - 1], steps[|steps| - 1];
      var s := Exec(h, front);
      assert forall i :: 0 <= i < |front| ==> front[..i] == steps[..i];
      LedgerMatchesFib(h, front);
      match last {
        case Commit(d) => InvSame(h, s, Committed(s, d));
        case Program(k, f) => if k in s.desired { InvAfterProgramEntry(h, s, k, f); }
        case SweepKey(k, f) => InvAfterSweepOne(h, s, k, f);
      }
    }
  }

  lemma StartIsSound(h: Hashes)
    ensures Inv(h, Start)
  {
  }

  lemma DesiredKept(h: Hashes, s: State, k: Key, f: Faults)
    requires k in s.desired
    ensures ProgramEntry(h, s, k, f).desired == s.desired
  {
    hide Digest, ViewOf, ProgramOne, Resolve, InSync, StaleAddresses, ProgramObject, TypeSkipped, AddrDel;
    ObjectKeepsDesired(h, s, k, f);
    if StaleAddresses(s, k).Some? {
      ObjectKeepsDesired(h, s.(ops := s.ops + [OpAddrDel(StaleAddresses(s, k).value)]), k, f);
    }
  }

  lemma ObjectKeepsDesired(h: Hashes, s: State, k: Key, f: Faults)
    requires k in s.desired
    ensures ProgramObject(h, s, k, f).desired == s.desired
  {
    hide Digest, ViewOf, ProgramOne, Accept, RouteDel, RouteKey;
  }

  // ---- skipping is sound ----------------------------------------------------------

  /** The digest tells these two dependency views apart. */
  predicate NoCollision(h: Hashes, a: DepView, b: DepView) { Digest(h, a) == Digest(h, b) ==> a == b }

  /** A route skipped as in sync resolves now to what the backend last accepted for it. */
  lemma SkippingIsSound(h: Hashes, s: State, k: Key)
    requires Inv(h, s) && InSync(h, s, k) && s.desired[k].RouteObj?
    requires k in s.views && NoCollision(h, s.views[k], ViewOf(s.desired, s.desired[k]))
    ensures RouteKey(s.desired[k].route) in s.installed
    ensures Resolve(s.desired, s.desired[k].route) == Some(s.installed[RouteKey(s.desired[k].route)])
    ensures s.views[k] == ViewOf(s.desired, s.desired[k])
  {
    hide Resolve, ResolveView, Digest, ViewOf, LedgerFib;
    assert GoodEntry(h, s, k);
    ResolutionFactors(s.desired, s.desired[k].route);
  }

  // ---- what the digest cannot see ---------------------------------------------------

  /** How often `id` occurs. */
  function Occurrences(id: nat, ids: seq<nat>): nat {
    if ids == [] then 0 else Occurrences(id, ids[..|ids| - 1]) + if ids[|ids| - 1] == id then 1 else 0
  }

  /** The members of a group that count. */
  function InUse(g: GroupData): seq<nat> { g.members[..g.Size()] }

  function Fetch(d: Objects, ids: seq<nat>): seq<Option<NextHopData>> {
    seq(|ids|, i requires 0 <= i < |ids| => GetNextHop(d, ids[i]))
  }

  lemma FoldPush(h: Hashes, acc: nat, ms: seq<Option<NextHopData>>, m: Option<NextHopData>)
    ensures FoldMembers(h, acc, ms + [m]) == Xor(FoldMembers(h, acc, ms), MemberHash(h, m))
  {
    var all := ms + [m];
    assert all[..|ms|] == ms;
  }

  /** Each pair of occurrences cancels out; an odd one trades the old hash for the new. */
  lemma {:induction false} FoldAfterReplacing(h: Hashes, acc: nat, d: Objects, ids: seq<nat>, id: nat, nh: NextHopData)
    ensures var was := FoldMembers(h, acc, Fetch(d, ids));
      FoldMembers(h, acc, Fetch(d[Key(NextHop, id) := NextHopObj(nh)], ids)) ==
      if Occurrences(id, ids) % 2 == 0 then was
      else Xor(Xor(was, MemberHash(h, GetNextHop(d, id))), h.nextHop(nh))
  {
    hide Xor, FoldMembers;
    var d' := d[Key(NextHop, id) := NextHopObj(nh)];
    if ids == [] {
      assert Fetch(d, ids) == Fetch(d', ids);
    } else {
      var front, last := ids[..|ids| - 1], ids[|ids| - 1];
      var x, a, b := MemberHash(h, GetNextHop(d, last)), MemberHash(h, GetNextHop(d, id)), h.nextHop(nh);
      FoldAfterReplacing(h, acc, d, front, id, nh);
      assert Fetch(d, ids) == Fetch(d, front) + [GetNextHop(d, last)];
      assert Fetch(d', ids) == Fetch(d', front) + [GetNextHop(d', last)];
      FoldPush(h, acc, Fetch(d, front), GetNextHop(d, last));
      FoldPush(h, acc, Fetch(d', front), GetNextHop(d', last));
      var f := FoldMembers(h, acc, Fetch(d, front));
      if last == id {
        XorTwice(f, a);
        XorTwice(Xor(f, a), b);
      } else {
        XorSwap(Xor(f, a), b, x);
        XorSwap(f, a, x);
      }
    }
  }

  /**
   * Replacing a next hop escapes the digest exactly when the group lists it an even number of times,
   * or the two structs hash alike.
   */
  lemma DigestBlindIffEven(h: Hashes, d: Objects, r: RouteData, id: nat, nh: NextHopData)
    requires r.nhgroupId != 0 && GetGroup(d, r.nhgroupId).Some?
    ensures var d' := d[Key(NextHop, id) := NextHopObj(nh)];
      Digest(h, ViewOf(d', RouteObj(r))) == Digest(h, ViewOf(d, RouteObj(r))) <==>
      || Occurrences(id, InUse(GetGroup(d, r.nhgroupId).value)) % 2 == 0
      || MemberHash(h, GetNextHop(d, id)) == h.nextHop(nh)
  {
    hide Xor, FoldMembers, Occurrences;
    var d' := d[Key(NextHop, id) := NextHopObj(nh)];
    var g := GetGroup(d, r.nhgroupId).value;
    var ids := InUse(g);
    assert ViewOf(d, RouteObj(r)) == Deps(g, Fetch(d, ids));
    assert ViewOf(d', RouteObj(r)) == Deps(g, Fetch(d', ids));
    FoldAfterReplacing(h, h.group(g), d, ids, id, nh);
    var f, a, b := FoldMembers(h, h.group(g), Fetch(d, ids)), MemberHash(h, GetNextHop(d, id)), h.nextHop(nh);
    XorTwice(f, a);
    if Xor(Xor(f, a), b) == f {
      XorCommutes(Xor(f, a), a);
      XorCommutes(Xor(f, a), b);
      XorCancels(a, b, Xor(f, a));
    }
  }

  /** A next hop listed twice, or four times: its gateway changes under the digest's nose. */
  lemma RepeatedMemberIsInvisible(h: Hashes, d: Objects, r: RouteData, id: nat, nh: NextHopData, i: nat)
    requires !r.Blackhole() && r.nhgroupId != 0 && GetGroup(d, r.nhgroupId).Some? && Resolve(d, r).Some?
    requires var g := GetGroup(d, r.nhgroupId).value;
      i < g.Size() && g.members[i] == id && Occurrences(id, InUse(g)) % 2 == 0
    requires GetNextHop(d, id).Some? && PathOf(GetNextHop(d, id).value) != PathOf(nh)
    ensures var d' := d[Key(NextHop, id) := NextHopObj(nh)];
      && Digest(h, ViewOf(d', RouteObj(r))) == Digest(h, ViewOf(d, RouteObj(r)))
      && Resolve(d', r) != Resolve(d, r)
  {
    hide Digest, ViewOf, Occurrences;
    var d' := d[Key(NextHop, id) := NextHopObj(nh)];
    DigestBlindIffEven(h, d, r, id, nh);
    assert Resolve(d, r).value.paths[i] == PathOf(GetNextHop(d, id).value);
    assert GetGroup(d', r.nhgroupId) == GetGroup(d, r.nhgroupId);
    if Resolve(d', r).Some? {
      assert Resolve(d', r).value.paths[i] == PathOf(nh);
    }
  }
}
