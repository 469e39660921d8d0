/** What a pass and enough sweeps reach when no op fails. */
module Convergence {
  import opened Bytes
  import opened Dpa
  import opened MockFib
  import opened Programming
  import opened ProgrammingTheorems
  import opened ObjectStore

  // ---- one entry comes to rest ----------------------------------------------------

  /** The backend refuses this object however often it is tried. */
  predicate Refused(d: Objects, o: Object) {
    match o
    case RouteObj(r) => Resolve(d, r).Some? && (r.prefix.ip.af != Ipv4 || r.prefix.len > 32)
    case IfaceObj(i) => i.ifindex == 0 || i.ifindex >= MAX_IFACES
    case _ => false
  }

  /** Programming this entry again would change nothing. */
  predicate AtRest(h: Hashes, s: State, k: Key) {
    && k in s.desired
    && (TypeSkipped(k.objType) || InSync(h, s, k) || Refused(s.desired, s.desired[k])
        || match s.desired[k]
           case RouteObj(r) => Resolve(s.desired, r).None? && k !in s.ledger
           case IfaceObj(_) => false
           case VrfObj(_) => false
           case _ => true)
  }

  /** The ledger and its history say the same about `k`. */
  predicate SameAt(s: State, s': State, k: Key) {
    && (k in s.ledger <==> k in s'.ledger) && (k in s.views <==> k in s'.views)
    && (k in s.ledger ==> s.ledger[k] == s'.ledger[k])
    && (k in s.views ==> s.views[k] == s'.views[k])
  }

  ghost function DesiredKeys(d: Objects): set<FibKey> { set k | k in d && Asked(d, k) :: RouteKey(d[k].route) }

  /** The FIB has a slot for all it holds and all that is desired. */
  ghost predicate Room(s: State) {
    |s.backend.fib + DesiredKeys(s.desired)| <= MAX_ROUTES
  }

  lemma RoomForOne(s: State, k: Key)
    requires Room(s) && Asked(s.desired, k) && RouteKey(s.desired[k].route) !in s.backend.fib
    ensures |s.backend.fib| < MAX_ROUTES
  {
    hide RouteKey;
    var x := RouteKey(s.desired[k].route);
    assert x in DesiredKeys(s.desired);
    ProperSubsetSize(s.backend.fib, s.backend.fib + DesiredKeys(s.desired), x);
  }

  lemma ProperSubsetSize<T>(a: set<T>, b: set<T>, x: T)
    requires a <= b && x in b && x !in a
    ensures |a| < |b|
  {
    SubsetSize(a, b - {x});
  }

  /** No digest collision between what an entry was programmed with and what it has now. */
  predicate Trusted(h: Hashes, s: State, k: Key) {
    k in s.desired && k in s.views ==> NoCollision(h, s.views[k], ViewOf(s.desired, s.desired[k]))
  }

  /** What a pass without failures has done to one desired object. */
  predicate Outcome(h: Hashes, s: State, s': State, k: Key)
    requires k in s.desired
  {
    match s.desired[k]
    case RouteObj(r) =>
      if TypeSkipped(k.objType) || Refused(s.desired, s.desired[k]) then SameAt(s, s', k)
      else if Resolve(s.desired, r).None? then k !in s'.ledger
      else InSync(h, s', k) && k in s'.views && s'.views[k] == ViewOf(s.desired, s.desired[k])
    case RawObj(_) => SameAt(s, s', k)
    case _ => true
  }

  /** A route the backend takes: it ends in sync with what is desired. */
  lemma GoodRouteProgrammed(h: Hashes, s: State, k: Key)
    requires Inv(h, s) && Room(s) && k in s.desired && s.desired[k].RouteObj?
    requires Resolve(s.desired, s.desired[k].route).Some? && !Refused(s.desired, s.desired[k])
    ensures var s' := ProgramObject(h, s, k, NoFaults);
      InSync(h, s', k) && k in s'.views && s'.views[k] == ViewOf(s.desired, s.desired[k])
  {
    hide Resolve, Digest, ViewOf, LedgerFib, Room, Accept, Inv;
    if RouteKey(s.desired[k].route) !in s.backend.fib { RoomForOne(s, k); }
  }

  /** A route whose next hops are gone: it leaves the ledger. */
  lemma DeadRouteWithdrawn(h: Hashes, s: State, k: Key)
    requires Inv(h, s) && k in s.desired && s.desired[k].RouteObj?
    requires Resolve(s.desired, s.desired[k].route).None?
    ensures k !in ProgramObject(h, s, k, NoFaults).ledger
  {
    hide Resolve, Digest, ViewOf, Withdraw, LedgerFib, ResolveView;
    if k in s.ledger {
      assert GoodEntry(h, s, k);
      assert s.ops + [] == s.ops;
      InvAfterWithdraw(h, s, k, NoFaults);
    }
  }

  lemma EntryComesToRest(h: Hashes, s: State, k: Key)
    requires Inv(h, s) && k in s.desired
    requires Room(s) && Trusted(h, s, k)
    ensures var s' := ProgramEntry(h, s, k, NoFaults);
      AtRest(h, s', k) && Outcome(h, s, s', k)
  {
    hide Resolve, Digest, ViewOf, LedgerFib, Room, ResolveView, Withdraw, Accept;
    var o := s.desired[k];
    assert WellTyped(k, o);
    DesiredKept(h, s, k, NoFaults);
    if k in s.ledger { assert GoodEntry(h, s, k); }
    if o.RouteObj? {
      hide ProgramOne;
      if InSync(h, s, k) {
        SkippingIsSound(h, s, k);
      } else if Resolve(s.desired, o.route).None? {
        DeadRouteWithdrawn(h, s, k);
      } else if Refused(s.desired, o) {
        RefusedChangesNothing(h, s, k);
      } else {
        GoodRouteProgrammed(h, s, k);
      }
    }
  }

  /** A refused route is offered to the backend again and nothing else happens. */
  lemma RefusedChangesNothing(h: Hashes, s: State, k: Key)
    requires k in s.desired && s.desired[k].RouteObj? && Refused(s.desired, s.desired[k])
    ensures var s' := ProgramObject(h, s, k, NoFaults); s' == s.(ops := s'.ops) && s'.ops != s.ops && s.ops <= s'.ops
  {
    hide Resolve, Digest, ViewOf;
  }

  /** Programming one key leaves the others alone. */
  lemma EntryIsLocal(h: Hashes, s: State, k: Key, f: Faults, x: Key)
    requires k in s.desired && x != k
    ensures SameAt(s, ProgramEntry(h, s, k, f), x)
  {
    hide Digest, ViewOf, Resolve, InSync, StaleAddresses, ProgramObject, TypeSkipped, AddrDel;
    ObjectIsLocal(h, s, k, f, x);
    if StaleAddresses(s, k).Some? {
      ObjectIsLocal(h, s.(ops := s.ops + [OpAddrDel(StaleAddresses(s, k).value)]), k, f, x);
    }
  }

  lemma ObjectIsLocal(h: Hashes, s: State, k: Key, f: Faults, x: Key)
    requires k in s.desired && x != k
    ensures SameAt(s, ProgramObject(h, s, k, f), x)
  {
    hide Digest, ViewOf, ProgramOne, Accept, RouteDel, RouteKey;
  }

  /** Programming a key stays within the room. */
  lemma EntryStaysInRoom(h: Hashes, s: State, k: Key, f: Faults)
    requires k in s.desired
    ensures ProgramEntry(h, s, k, f).backend.fib <= s.backend.fib + DesiredKeys(s.desired)
  {
    hide Resolve, Digest, ViewOf, ProgramOne, Accept;
    ProgramOneEffect(s.desired, s.backend, s.desired[k], f);
  }

  // ---- a pass ---------------------------------------------------------------------

  function Clean(n: nat): (fs: seq<Faults>)
    ensures |fs| == n && forall i :: 0 <= i < n ==> fs[i] == NoFaults
  {
    seq(n, _ => NoFaults)
  }

  ghost predicate PassFacts(h: Hashes, s: State, order: seq<Key>, s': State)
    requires forall k :: k in order ==> k in s.desired
  {
    && s'.desired == s.desired && Inv(h, s')
    && s'.backend.fib <= s.backend.fib + DesiredKeys(s.desired)
    && (forall k :: k in order ==> AtRest(h, s', k) && Outcome(h, s, s', k))
    && (forall k :: k !in order ==> SameAt(s, s', k))
  }

  lemma RestTransfers(h: Hashes, s: State, s1: State, s': State, k: Key)
    requires s1.desired == s.desired == s'.desired && k in s.desired && SameAt(s1, s', k)
    ensures AtRest(h, s1, k) ==> AtRest(h, s', k)
    ensures Outcome(h, s, s1, k) ==> Outcome(h, s, s', k)
  {
    hide Resolve, Digest, ViewOf;
  }

  lemma OutcomeFrom(h: Hashes, s: State, s1: State, s': State, k: Key)
    requires s1.desired == s.desired == s'.desired && k in s.desired && SameAt(s, s1, k)
    ensures Outcome(h, s1, s', k) ==> Outcome(h, s, s', k)
    ensures Trusted(h, s, k) ==> Trusted(h, s1, k)
  {
    hide Resolve, Digest, ViewOf;
  }

  lemma {:induction false} PassOutcome(h: Hashes, s: State, order: seq<Key>)
    requires Inv(h, s) && Room(s)
    requires forall i, j :: 0 <= i < j < |order| ==> order[i] != order[j]
    requires forall k :: k in order ==> k in s.desired && Trusted(h, s, k)
    ensures PassFacts(h, s, order, Pass(h, s, order, Clean(|order|)))
  {
    hide ProgramEntry, Inv, AtRest, Outcome, SameAt, Trusted, DesiredKeys;
    var s' := Pass(h, s, order, Clean(|order|));
    if order == [] {
      forall k ensures SameAt(s, s', k) { SameAsItself(s, k); }
    } else {
      var n := |order| - 1;
      var front, k := order[..n], order[n];
      assert Clean(|order|)[..n] == Clean(n);
      PassOutcome(h, s, front);
      var s1 := Pass(h, s, front, Clean(n));
      assert k !in front;
      RoomShrinks(s, s1);
      OutcomeFrom(h, s, s1, s1, k);
      EntryComesToRest(h, s1, k);
      InvAfterProgramEntry(h, s1, k, NoFaults);
      EntryStaysInRoom(h, s1, k, NoFaults);
      OutcomeFrom(h, s, s1, s', k);
      forall x | x != k ensures SameAt(s1, s', x) { EntryIsLocal(h, s1, k, NoFaults, x); }
      forall x | x in front ensures AtRest(h, s', x) && Outcome(h, s, s', x) { RestTransfers(h, s, s1, s', x); }
      forall x | x !in order ensures SameAt(s, s', x) { SameAtTwice(s, s1, s', x); }
      assert forall x :: x in order ==> x in front || x == k;
    }
  }

  lemma SameAsItself(s: State, k: Key)
    ensures SameAt(s, s, k)
  {
  }

  lemma SameAtTwice(s: State, s1: State, s': State, k: Key)
    requires SameAt(s, s1, k) && SameAt(s1, s', k)
    ensures SameAt(s, s', k)
  {
  }

  lemma RoomShrinks(s: State, s1: State)
    requires Room(s) && s1.desired == s.desired
    requires s1.backend.fib <= s.backend.fib + DesiredKeys(s.desired)
    ensures Room(s1)
  {
    SubsetSize(s1.backend.fib + DesiredKeys(s1.desired), s.backend.fib + DesiredKeys(s.desired));
  }

  // ---- a second pass --------------------------------------------------------------

  /** An entry at rest issues an op only if the backend refuses it, and changes nothing. */
  lemma RestingEntry(h: Hashes, s: State, k: Key)
    requires Inv(h, s) && AtRest(h, s, k)
    ensures var s' := ProgramEntry(h, s, k, NoFaults);
      && s' == s.(ops := s'.ops) && s.ops <= s'.ops
      && (s'.ops == s.ops <==> TypeSkipped(k.objType) || !Refused(s.desired, s.desired[k]))
  {
    hide Resolve, Digest, ViewOf, LedgerFib, ResolveView, Withdraw, Accept;
    var o := s.desired[k];
    assert WellTyped(k, o);
    assert s.ops + [] == s.ops;
    if k in s.ledger { assert GoodEntry(h, s, k); }
    if o.RouteObj? && !TypeSkipped(k.objType) && !InSync(h, s, k) && Refused(s.desired, o) {
      RefusedChangesNothing(h, s, k);
    }
  }

  /** With everything at rest a pass changes nothing: not the ledger, not the backend,
      not the dirty flag. It issues an op exactly when the backend refuses some object. */
  lemma {:induction false} RestingPass(h: Hashes, s: State, order: seq<Key>)
    requires Inv(h, s)
    requires forall k :: k in order ==> AtRest(h, s, k)
    ensures forall k :: k in order ==> k in s.desired
    ensures var s' := Pass(h, s, order, Clean(|order|));
      && s' == s.(ops := s'.ops) && s.ops <= s'.ops
      && (s'.ops == s.ops <==>
          forall k :: k in order ==> TypeSkipped(k.objType) || !Refused(s.desired, s.desired[k]))
  {
    hide ProgramEntry, Refused, Resolve, Digest, ViewOf, GoodEntry, LedgerFib;
    if order != [] {
      var n := |order| - 1;
      var front, k := order[..n], order[n];
      assert Clean(|order|)[..n] == Clean(n);
      RestingPass(h, s, front);
      var s1 := Pass(h, s, front, Clean(n));
      InvSame(h, s, s1);
      assert AtRest(h, s, k);
      RestTransfers(h, s, s, s1, k);
      RestingEntry(h, s1, k);
      assert forall x :: x in order <==> x in front || x == k;
    }
  }

  /** After a pass without failures, a second pass over the same desired objects is quiet. */
  lemma SecondPassIsQuiet(h: Hashes, s: State, order: seq<Key>, again: seq<Key>)
    requires Inv(h, s) && Room(s)
    requires Enumerates(order, s.desired.Keys) && Enumerates(again, s.desired.Keys)
    requires forall k :: Trusted(h, s, k)
    ensures var s1 := Pass(h, s, order, Clean(|order|)).(dirty := false);
      var s2 := Pass(h, s1, again, Clean(|again|));
      && s2 == s1.(ops := s2.ops)
      && (s2.ops == s1.ops <==>
          forall k :: k in s.desired ==> TypeSkipped(k.objType) || !Refused(s.desired, s.desired[k]))
  {
    hide ProgramEntry, Refused, Resolve, Trusted, Room, Inv, AtRest, Outcome, Pass;
    PassOutcome(h, s, order);
    var s0 := Pass(h, s, order, Clean(|order|));
    var s1 := s0.(dirty := false);
    InvSame(h, s0, s1);
    forall k | k in again ensures AtRest(h, s1, k) {
      assert AtRest(h, s0, k);
      RestTransfers(h, s0, s0, s1, k);
    }
    RestingPass(h, s1, again);
  }

  // ---- sweeps ---------------------------------------------------------------------

  ghost function Tombstones(s: State): set<Key> { set k | k in s.ledger && k !in s.desired }

  lemma {:induction false} CollectMeaning(desired: Objects, order: seq<Key>)
    requires forall i, j :: 0 <= i < j < |order| ==> order[i] != order[j]
    ensures var c := Collect(desired, order);
      && (forall i, j :: 0 <= i < j < |c| ==> c[i] != c[j])
      && (forall k :: k in c ==> k in order && k !in desired)
      && (|c| < SWEEP_MAX ==> forall k :: k in order && k !in desired ==> k in c)
  {
    if order != [] {
      CollectMeaning(desired, order[..|order| - 1]);
    }
  }

  /** A sweep without failures drops exactly the keys it collected. */
  lemma {:induction false} SweepAllDrops(h: Hashes, s: State, ids: seq<Key>)
    requires Inv(h, s)
    ensures var s' := SweepAll(s, ids, Clean(|ids|));
      && Inv(h, s') && s'.desired == s.desired
      && (forall k :: k in ids ==> k !in s'.ledger)
      && (forall k :: k !in ids ==> SameAt(s, s', k))
  {
    hide SweepOne, Inv, SameAt;
    var s' := SweepAll(s, ids, Clean(|ids|));
    if ids == [] {
      forall k ensures SameAt(s, s', k) { SameAsItself(s, k); }
    } else {
      var n := |ids| - 1;
      var front, k := ids[..n], ids[n];
      assert Clean(|ids|)[..n] == Clean(n);
      SweepAllDrops(h, s, front);
      var s1 := SweepAll(s, front, Clean(n));
      InvAfterSweepOne(h, s1, k, NoFaults);
      forall x ensures x != k ==> SameAt(s1, s', x) ensures x in front ==> x !in s'.ledger {
        SweepIsLocal(s1, k, NoFaults, x);
      }
      forall x | x !in ids ensures SameAt(s, s', x) { SameAtTwice(s, s1, s', x); }
      assert forall x :: x in ids ==> x in front || x == k;
    }
  }

  lemma SweepIsLocal(s: State, k: Key, f: Faults, x: Key)
    ensures x != k ==> SameAt(s, SweepOne(s, k, f), x)
    ensures x in SweepOne(s, k, f).ledger ==> x in s.ledger
  {
    hide RouteDel;
  }

  lemma SweepDrops(h: Hashes, s: State, order: seq<Key>)
    requires Inv(h, s) && Enumerates(order, s.ledger.Keys)
    ensures var s' := Sweep(s, order, Clean(SWEEP_MAX));
      && Inv(h, s') && s'.desired == s.desired
      && (Tombstones(s') == {} || |Tombstones(s')| == |Tombstones(s)| - SWEEP_MAX)
      && (forall k :: k in s.desired ==> SameAt(s, s', k))
  {
    hide Inv, Collect, Clean, SameAt, Tombstones, SweepAll;
    var ids := Collect(s.desired, order);
    CollectMeaning(s.desired, order);
    assert Clean(SWEEP_MAX)[..|ids|] == Clean(|ids|);
    SweepAllDrops(h, s, ids);
    TombstonesAfter(s, SweepAll(s, ids, Clean(|ids|)), ids);
  }

  lemma TombstonesAfter(s: State, s': State, ids: seq<Key>)
    requires s'.desired == s.desired && |ids| <= SWEEP_MAX
    requires forall i, j :: 0 <= i < j < |ids| ==> ids[i] != ids[j]
    requires forall k :: k in ids ==> k in s.ledger && k !in s.desired && k !in s'.ledger
    requires forall k :: k !in ids ==> SameAt(s, s', k)
    requires |ids| < SWEEP_MAX ==> forall k :: k in s.ledger && k !in s.desired ==> k in ids
    ensures Tombstones(s') == {} || |Tombstones(s')| == |Tombstones(s)| - SWEEP_MAX
  {
    var gone := set k | k in ids;
    forall k ensures k in Tombstones(s') <==> k in Tombstones(s) && k !in gone {
      if k !in ids { assert SameAt(s, s', k); }
    }
    assert Tombstones(s') == Tombstones(s) - gone;
    DistinctSize(ids);
    assert gone <= Tombstones(s);
    assert |Tombstones(s) - gone| == |Tombstones(s)| - |gone|;
  }

  lemma {:induction false} DistinctSize<T>(q: seq<T>)
    requires forall i, j :: 0 <= i < j < |q| ==> q[i] != q[j]
    ensures |set x | x in q| == |q|
  {
    if q != [] {
      var n := |q| - 1;
      DistinctSize(q[..n]);
      assert (set x | x in q) == (set x | x in q[..n]) + {q[n]};
    } else {
      assert (set x | x in q) == {};
    }
  }

  /** Sweeps one after the other, each over the ledger as the one before left it. */
  function Sweeps(s: State, orders: seq<seq<Key>>): State
    decreases |orders|
  {
    if orders == [] then s else Sweeps(Sweep(s, orders[0], Clean(SWEEP_MAX)), orders[1..])
  }

  ghost predicate Iterations(s: State, orders: seq<seq<Key>>)
    decreases |orders|
  {
    orders == [] ||
    (Enumerates(orders[0], s.ledger.Keys) && Iterations(Sweep(s, orders[0], Clean(SWEEP_MAX)), orders[1..]))
  }

  /** ceil(k / 256) sweeps drop k tombstones, and nothing else. */
  lemma {:induction false} SweepsDrain(h: Hashes, s: State, orders: seq<seq<Key>>)
    requires Inv(h, s) && Iterations(s, orders)
    requires |Tombstones(s)| <= SWEEP_MAX * |orders|
    ensures var s' := Sweeps(s, orders);
      && Inv(h, s') && s'.desired == s.desired && Tombstones(s') == {}
      && (forall k :: k in s.desired ==> SameAt(s, s', k))
    decreases |orders|
  {
    hide Inv, Sweep, SameAt, Tombstones;
    if orders == [] {
      forall k ensures SameAt(s, s, k) { SameAsItself(s, k); }
    } else {
      SweepDrops(h, s, orders[0]);
      var s1 := Sweep(s, orders[0], Clean(SWEEP_MAX));
      SweepsDrain(h, s1, orders[1..]);
      forall k | k in s.desired ensures SameAt(s, Sweeps(s, orders), k) {
        SameAtTwice(s, s1, Sweeps(s, orders), k);
      }
    }
  }

  // ---- convergence ----------------------------------------------------------------

  /** A desired route the backend can hold: resolvable, IPv4, at most 32 bits. */
  predicate Wanted(d: Objects, k: Key) {
    && k in d && d[k].RouteObj? && Resolve(d, d[k].route).Some?
    && d[k].route.prefix.ip.af == Ipv4 && d[k].route.prefix.len <= 32
  }

  ghost function WantedKeys(d: Objects): set<FibKey> { set k | k in d && Wanted(d, k) :: RouteKey(d[k].route) }

  /** A programmed route whose desired object turned into one the backend refuses:
      same store key, but another address family, or bytes that are no route. */
  predicate Stale(s: State, k: Key) {
    && LedgerRoute(s, k) && k in s.desired
    && (s.desired[k].RawObj? ||
        (s.desired[k].RouteObj? && Resolve(s.desired, s.desired[k].route).Some?
         && s.desired[k].route.prefix.ip.af != Ipv4))
  }

  ghost function StaleKeys(s: State): set<FibKey> { set k | k in s.ledger && Stale(s, k) :: TableKey(s, k) }

  /** What is left of the ledger's routes: the wanted ones as desired, the stale ones as they were. */
  ghost predicate Survives(s: State, s': State, k: Key) {
    && (LedgerRoute(s', k) <==> Wanted(s.desired, k) || Stale(s, k))
    && (Wanted(s.desired, k) ==> s'.ledger[k].obj == s.desired[k])
    && (Stale(s, k) ==> s'.ledger[k].obj == s.ledger[k].obj)
  }

  lemma DesiredAndLedger(h: Hashes, s: State, k: Key)
    requires Inv(h, s) && k in s.desired
    ensures WellTyped(k, s.desired[k])
    ensures LedgerRoute(s, k) && Asked(s.desired, k) ==>
              s.desired[k].route.prefix.len == s.ledger[k].obj.route.prefix.len
  {
    assert LedgerRoute(s, k) && Asked(s.desired, k) ==> TableKey(s, k) == RouteKey(s.desired[k].route);
  }

  /** Which ledger routes are left once a pass and the sweeps are done. */
  lemma SurvivingRoutes(h: Hashes, s: State, order: seq<Key>, s1: State, s': State, k: Key)
    requires Inv(h, s) && Enumerates(order, s.desired.Keys)
    requires PassFacts(h, s, order, s1)
    requires Inv(h, s') && s'.desired == s1.desired && Tombstones(s') == {}
    requires k in s.desired ==> SameAt(s1, s', k)
    ensures Survives(s, s', k)
    ensures Wanted(s.desired, k) ==> k in s'.views && s'.views[k] == ViewOf(s.desired, s.desired[k])
  {
    hide Resolve, ViewOf, Inv, AtRest, Outcome, SameAt;
    if k in s.desired {
      assert k in order;
      DesiredSurvives(h, s, s1, s', k);
    } else {
      assert k !in Tombstones(s');
    }
  }

  lemma DesiredSurvives(h: Hashes, s: State, s1: State, s': State, k: Key)
    requires Inv(h, s) && Inv(h, s') && k in s.desired && s'.desired == s1.desired == s.desired
    requires AtRest(h, s1, k) && Outcome(h, s, s1, k) && SameAt(s1, s', k)
    ensures Survives(s, s', k)
    ensures Wanted(s.desired, k) ==> k in s'.views && s'.views[k] == ViewOf(s.desired, s.desired[k])
  {
    hide Resolve, Digest, ViewOf, ResolveView, LedgerFib, RouteKey, Apart;
    DesiredAndLedger(h, s, k);
    if k in s.ledger { assert GoodEntry(h, s, k); }
    if k in s'.ledger { assert GoodEntry(h, s', k); }
  }

  /** One pass and enough sweeps, with no op failing: the FIB holds exactly the wanted
      routes, each with the next hops it resolves to now, plus the stale ones; so it is
      exactly the wanted routes if and only if none is stale. */
  lemma Converges(h: Hashes, s: State, order: seq<Key>, orders: seq<seq<Key>>)
    requires Inv(h, s) && Room(s)
    requires Enumerates(order, s.desired.Keys) && forall k :: Trusted(h, s, k)
    requires Iterations(Pass(h, s, order, Clean(|order|)), orders)
    requires |Tombstones(s)| <= SWEEP_MAX * |orders|
    ensures Settled(s, Sweeps(Pass(h, s, order, Clean(|order|)), orders))
  {
    hide Resolve, ViewOf, Wanted, Stale, Sweeps, Pass, AtRest, Outcome, SameAt, Survives, Inv, Delivered;
    hide WantedKeys, StaleKeys, Tombstones, Iterations, Room, Trusted, Clean;
    var s1 := Pass(h, s, order, Clean(|order|));
    PassOutcome(h, s, order);
    assert Tombstones(s1) == Tombstones(s) by { PassKeepsTombstones(h, s, order, s1); }
    SweepsDrain(h, s1, orders);
    var s' := Sweeps(s1, orders);
    forall k ensures Survives(s, s', k) && (Wanted(s.desired, k) ==> Delivered(s, s', k)) {
      SurvivingRoutes(h, s, order, s1, s', k);
      if Wanted(s.desired, k) { WantedIsInstalled(h, s, s', k); }
    }
    FinalFib(h, s, s');
  }

  /**
   * The table holds the wanted routes and the stale ones, hence the wanted ones exactly when none is
   * stale; and for each wanted route the backend has the next hops it resolves to.
   */
  ghost predicate Settled(s: State, s': State) {
    && s'.desired == s.desired
    && s'.backend.fib == s'.installed.Keys == WantedKeys(s.desired) + StaleKeys(s)
    && (forall k :: Wanted(s.desired, k) ==> Delivered(s, s', k))
    && (s'.backend.fib == WantedKeys(s.desired) <==> forall k :: !Stale(s, k))
  }

  /** The backend holds for `k` what it resolves to. */
  predicate Delivered(s: State, s': State, k: Key) {
    && k in s.desired && s.desired[k].RouteObj? && RouteKey(s.desired[k].route) in s'.installed
    && Resolve(s.desired, s.desired[k].route) == Some(s'.installed[RouteKey(s.desired[k].route)])
  }

  lemma WantedIsInstalled(h: Hashes, s: State, s': State, k: Key)
    requires Inv(h, s') && Wanted(s.desired, k) && Survives(s, s', k)
    requires k in s'.views && s'.views[k] == ViewOf(s.desired, s.desired[k])
    ensures Delivered(s, s', k)
  {
    hide Resolve, Digest, ViewOf, ResolveView, LedgerFib;
    assert GoodEntry(h, s', k);
    ResolutionFactors(s.desired, s.desired[k].route);
  }

  lemma PassKeepsTombstones(h: Hashes, s: State, order: seq<Key>, s1: State)
    requires Enumerates(order, s.desired.Keys) && PassFacts(h, s, order, s1)
    ensures Tombstones(s1) == Tombstones(s)
  {
    hide Inv, AtRest, Outcome;
    forall k ensures k in Tombstones(s1) <==> k in Tombstones(s) {
      if k !in s.desired { assert SameAt(s, s1, k); }
    }
  }

  /** So it does after any run whatever: any commits, programming and sweeping, any call failing. */
  lemma ConvergesAfterAnyRun(h: Hashes, steps: seq<Step>, order: seq<Key>, orders: seq<seq<Key>>)
    requires AllApart(h, steps) && Room(Exec(h, steps))
    requires Enumerates(order, Exec(h, steps).desired.Keys) && forall k :: Trusted(h, Exec(h, steps), k)
    requires Iterations(Pass(h, Exec(h, steps), order, Clean(|order|)), orders)
    requires |Tombstones(Exec(h, steps))| <= SWEEP_MAX * |orders|
    ensures Settled(Exec(h, steps), Sweeps(Pass(h, Exec(h, steps), order, Clean(|order|)), orders))
  {
    hide Exec, AllApart, Room, Trusted, Iterations, Tombstones, Settled, Sweeps, Pass, Clean, Inv;
    LedgerMatchesFib(h, steps);
    Converges(h, Exec(h, steps), order, orders);
  }

  lemma FinalFib(h: Hashes, s: State, s': State)
    requires Inv(h, s) && Inv(h, s') && forall k :: Survives(s, s', k)
    ensures s'.backend.fib == s'.installed.Keys == WantedKeys(s.desired) + StaleKeys(s)
    ensures s'.backend.fib == WantedKeys(s.desired) <==> forall k :: !Stale(s, k)
  {
    hide RouteKey, Wanted, Resolve, Digest, ResolveView, WantedKeys, StaleKeys, LedgerFib, Stale, Survives, Apart;
    FibOfTwo(s, s');
    if k :| Stale(s, k) {
      StaleIsApart(s, k);
    } else {
      NoneStale(s);
    }
  }

  lemma FibOfTwo(s: State, s': State)
    requires forall k :: Survives(s, s', k)
    ensures LedgerFib(s') == WantedKeys(s.desired) + StaleKeys(s)
  {
    hide RouteKey, Resolve;
    var w, t, f := WantedKeys(s.desired), StaleKeys(s), LedgerFib(s');
    forall x | x in f ensures x in w || x in t {
      var k :| k in s'.ledger && LedgerRoute(s', k) && TableKey(s', k) == x;
      assert Survives(s, s', k);
    }
    forall x | x in w ensures x in f {
      var k :| k in s.desired && Wanted(s.desired, k) && RouteKey(s.desired[k].route) == x;
      assert Survives(s, s', k);
    }
    forall x | x in t ensures x in f {
      var k :| k in s.ledger && Stale(s, k) && TableKey(s, k) == x;
      assert Survives(s, s', k);
    }
  }

  lemma StaleIsApart(s: State, k: Key)
    requires Apart(s, s.desired) && Stale(s, k)
    ensures TableKey(s, k) in StaleKeys(s) && TableKey(s, k) !in WantedKeys(s.desired)
  {
    hide RouteKey, Resolve;
    forall x | Wanted(s.desired, x) ensures RouteKey(s.desired[x].route) != TableKey(s, k) {
      assert Asked(s.desired, x) && x != k;
    }
  }

  lemma NoneStale(s: State)
    requires forall k :: !Stale(s, k)
    ensures StaleKeys(s) == {}
  {
    hide RouteKey;
  }

  // ---- runs that end wrong ----------------------------------------------------------

  /** A route that needs no next hop and that the backend takes. */
  predicate Plain(r: RouteData) { r.Blackhole() && r.prefix.ip.af == Ipv4 && r.prefix.len <= 32 }

  function Only(k: Key, r: RouteData): Objects { map[k := RouteObj(r)] }

  lemma PlainIsProgrammed(h: Hashes, s: State, k: Key, r: RouteData)
    requires k.objType == Route && s.desired == Only(k, r) && k !in s.ledger
    requires Plain(r) && |s.backend.fib| < MAX_ROUTES
    ensures var s' := ProgramEntry(h, s, k, NoFaults);
      && s'.desired == s.desired && s'.backend.fib == s.backend.fib + {RouteKey(r)}
      && s'.ledger == s.ledger[k := Rec(Digest(h, ViewOf(s.desired, RouteObj(r))), RouteObj(r))]
  {
    hide Digest, ViewOf, RouteKey;
    assert s.backend.fib + {RouteKey(r)} == s.backend.fib || RouteKey(r) !in s.backend.fib;
  }

  lemma ExecStep(h: Hashes, steps: seq<Step>, i: nat)
    requires i < |steps|
    ensures Exec(h, steps[..i + 1]) == Take(h, Exec(h, steps[..i]), steps[i])
  {
    hide Take;
    assert steps[..i + 1][..i] == steps[..i];
  }

  /** The state after one route was committed and programmed, and another set of objects committed. */
  lemma AfterFirst(h: Hashes, steps: seq<Step>, k: Key, r: RouteData, d: Objects)
    requires k.objType == Route && Plain(r) && |steps| >= 3
    requires steps[..3] == [Commit(Only(k, r)), Program(k, NoFaults), Commit(d)]
    ensures var s := Exec(h, steps[..3]);
      && s.desired == d && s.backend.fib == {RouteKey(r)}
      && s.ledger == map[k := Rec(Digest(h, ViewOf(Only(k, r), RouteObj(r))), RouteObj(r))]
    ensures Exec(h, steps[..0]) == Start && Exec(h, steps[..2]).ledger == Exec(h, steps[..3]).ledger
  {
    hide Digest, ViewOf, RouteKey, ProgramEntry, Exec;
    assert steps[0] == steps[..3][0] && steps[1] == steps[..3][1] && steps[2] == steps[..3][2];
    ExecStep(h, steps, 0);
    ExecStep(h, steps, 1);
    ExecStep(h, steps, 2);
    ExecOfNothing(h);
    assert steps[..0] == [];
    PlainIsProgrammed(h, Exec(h, steps[..1]), k, r);
  }

  lemma ExecOfNothing(h: Hashes)
    ensures Exec(h, []) == Start
  {
  }

  function FamilyChange(k: Key, q: RouteData, r: RouteData): seq<Step> {
    [Commit(Only(k, q)), Program(k, NoFaults), Commit(Only(k, r)), Program(k, NoFaults)]
  }

  /** The address family is not part of a route's store key. Replacing an IPv4 route
      by its IPv6 namesake leaves the IPv4 entry in the FIB, though nothing wants it. */
  lemma FamilyChangeLeavesStaleRoute(h: Hashes, k: Key, q: RouteData, r: RouteData)
    requires k.objType == Route && Plain(q) && r == q.(prefix := r.prefix) && r.prefix.ip.af == Ipv6
    ensures AllApart(h, FamilyChange(k, q, r))
    ensures var s := Exec(h, FamilyChange(k, q, r));
      Stale(s, k) && AtRest(h, s, k) && s.backend.fib == {RouteKey(q)} && WantedKeys(s.desired) == {}
  {
    hide Digest, RouteKey, ProgramEntry, ProgramObject, Exec;
    var steps := FamilyChange(k, q, r);
    AfterFirst(h, steps, k, q, Only(k, r));
    ExecStep(h, steps, 3);
    assert steps[..4] == steps;
    var s := Exec(h, steps[..3]);
    assert Refused(s.desired, s.desired[k]) && !InSync(h, s, k);
    RefusedChangesNothing(h, s, k);
    RefusedEntry(h, s, k);
  }

  lemma RefusedEntry(h: Hashes, s: State, k: Key)
    requires k in s.desired && s.desired[k].RouteObj? && k.objType == Route && !InSync(h, s, k)
    ensures ProgramEntry(h, s, k, NoFaults) == ProgramObject(h, s, k, NoFaults)
  {
    hide Digest, ViewOf, ProgramObject;
  }

  /** The same destination, asked for under another store key: a static route, say, becomes another protocol's. */
  function ProtocolChange(a: Key, q: RouteData, b: Key, r: RouteData): seq<Step> {
    [Commit(Only(a, q)), Program(a, NoFaults), Commit(Only(b, r)), Program(b, NoFaults), SweepKey(a, NoFaults)]
  }

  /**
   * The new route is taken as already there, and the sweep of the old one takes it out. It stays
   * lost: the ledger has it in sync, and no programming changes anything.
   */
  lemma ProtocolChangeLosesRoute(h: Hashes, a: Key, q: RouteData, b: Key, r: RouteData)
    requires a.objType == b.objType == Route && a != b && Plain(q) && Plain(r) && RouteKey(q) == RouteKey(r)
    ensures var s := Exec(h, ProtocolChange(a, q, b, r));
      && Wanted(s.desired, b) && s.backend.fib == {} && InSync(h, s, b)
      && forall f :: ProgramEntry(h, s, b, f) == s
  {
    hide Digest, ViewOf, RouteKey, ProgramEntry, Exec;
    var steps := ProtocolChange(a, q, b, r);
    AfterFirst(h, steps, a, q, Only(b, r));
    PlainIsProgrammed(h, Exec(h, steps[..3]), b, r);
    ExecStep(h, steps, 3);
    ExecStep(h, steps, 4);
    assert steps[..5] == steps;
    var s := Exec(h, steps);
    assert {RouteKey(q)} + {RouteKey(r)} == {RouteKey(q)};
    forall f ensures ProgramEntry(h, s, b, f) == s { SkippedEntry(h, s, b, f); }
  }

  lemma SkippedEntry(h: Hashes, s: State, k: Key, f: Faults)
    requires InSync(h, s, k)
    ensures ProgramEntry(h, s, k, f) == s
  {
  }
}
