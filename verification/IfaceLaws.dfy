/** What the backend is told about interfaces: the admin state it holds, and the calls in their order. */
module IfaceLaws {
  import opened Convergence
  import opened Dpa
  import opened MockFib
  import opened ObjectStore
  import opened Programming
  import opened ProgrammingTheorems

  /** `k` is programmed as an interface with index `i`. */
  predicate Programmed(s: State, k: Key, i: nat) {
    k in s.ledger && s.ledger[k].obj.IfaceObj? && s.ledger[k].obj.iface.ifindex == i
  }

  predicate Desired(d: Objects, k: Key, i: nat) { k in d && d[k].IfaceObj? && d[k].iface.ifindex == i }

  /** No interface but `k`, programmed or in `d`, has the index `i`. */
  ghost predicate Owns(s: State, d: Objects, k: Key, i: nat) {
    forall x :: Programmed(s, x, i) || Desired(d, x, i) ==> x == k
  }

  /** The backend has the interface in the admin state it was last programmed with. */
  predicate Shows(s: State, k: Key, i: nat) {
    Programmed(s, k, i) ==> i in s.backend.up && s.backend.up[i] == s.ledger[k].obj.iface.adminUp
  }

  predicate HasAddress(i: IfaceData) { i.ipv4.ip.af != Unspec || i.ipv6.ip.af != Unspec }

  predicate SameAddresses(a: IfaceData, b: IfaceData) { a.ipv4 == b.ipv4 && a.ipv6 == b.ipv6 }

  /** Programming this entry changes the admin state and then fails to set the addresses. */
  predicate HalfDone(s: State, k: Key, i: nat, f: Faults) {
    && Desired(s.desired, k, i) && Programmed(s, k, i) && k.objType == Iface && 0 < i < 256
    && var now, was := s.desired[k].iface, s.ledger[k].obj.iface;
       && now.adminUp != was.adminUp && HasAddress(now) && f.ifaceUp == Ok && f.addrSet != Ok
       && (SameAddresses(now, was) || f.addrDel == Ok)
  }

  // ---- one entry -------------------------------------------------------------------------------

  /** The calls made for an interface that is not in sync, and what they do. */
  lemma InterfaceCalls(h: Hashes, s: State, k: Key, f: Faults)
    requires k in s.desired && s.desired[k].IfaceObj? && k.objType == Iface && !InSync(h, s, k)
    ensures var s' := ProgramEntry(h, s, k, f); var now := s.desired[k].iface;
            var moved := k in s.ledger && s.ledger[k].obj.IfaceObj? && !SameAddresses(now, s.ledger[k].obj.iface);
            var first := if moved then [OpAddrDel(s.ledger[k].obj.iface)] else [];
            if moved && (f.addrDel != Ok || s.ledger[k].obj.iface.ifindex == 0) then s' == s.(ops := s.ops + first)
            else
              var upOk := f.ifaceUp == Ok && 0 < now.ifindex < 256;
              && s'.ops == s.ops + first + [OpIfaceUp(now.ifindex, now.adminUp)]
                           + (if upOk && HasAddress(now) then [OpAddrSet(now)] else [])
              && s'.backend.up == (if upOk then s.backend.up[now.ifindex := now.adminUp] else s.backend.up)
              && s'.ledger == (if upOk && (HasAddress(now) ==> f.addrSet == Ok)
                               then s.ledger[k := Rec(Digest(h, NoDeps), IfaceObj(now))] else s.ledger)
              && s'.desired == s.desired
  {
    hide Digest;
    var stale := StaleAddresses(s, k);
    var s0 := if stale.Some? then s.(ops := s.ops + [OpAddrDel(stale.value)]) else s;
    assert stale.None? ==> s.ops + [] == s.ops;
    var now := s.desired[k].iface;
    assert s0.ops + ([OpIfaceUp(now.ifindex, now.adminUp)] + [OpAddrSet(now)]) ==
           s0.ops + [OpIfaceUp(now.ifindex, now.adminUp)] + [OpAddrSet(now)];
    assert s0.ops + [OpIfaceUp(now.ifindex, now.adminUp)] + [] == s0.ops + [OpIfaceUp(now.ifindex, now.adminUp)];
  }

  /** When an address changes, the old ones are taken away before the new ones are given. */
  lemma OldAddressesGoFirst(h: Hashes, s: State, k: Key)
    requires k in s.desired && s.desired[k].IfaceObj? && k.objType == Iface
    requires k in s.ledger && s.ledger[k].obj.IfaceObj? && s.ledger[k].obj.iface.ifindex != 0
    requires var now := s.desired[k].iface;
             !SameAddresses(now, s.ledger[k].obj.iface) && HasAddress(now) && 0 < now.ifindex < 256
    ensures var now := s.desired[k].iface;
            ProgramEntry(h, s, k, NoFaults).ops ==
            s.ops + [OpAddrDel(s.ledger[k].obj.iface), OpIfaceUp(now.ifindex, now.adminUp), OpAddrSet(now)]
  {
    hide ProgramEntry, Digest;
    var now, was := s.desired[k].iface, s.ledger[k].obj.iface;
    InterfaceCalls(h, s, k, NoFaults);
    assert s.ops + [OpAddrDel(was)] + [OpIfaceUp(now.ifindex, now.adminUp)] + [OpAddrSet(now)] ==
           s.ops + [OpAddrDel(was), OpIfaceUp(now.ifindex, now.adminUp), OpAddrSet(now)];
  }

  /** An object that is no interface leaves the admin states alone. */
  lemma OthersLeaveUp(h: Hashes, s: State, k: Key, f: Faults)
    requires k in s.desired && !s.desired[k].IfaceObj?
    ensures ProgramEntry(h, s, k, f).backend.up == s.backend.up
  {
    hide Digest, Resolve, ViewOf;
  }

  /** Programming one entry keeps the backend's admin state in step exactly when it is not half done. */
  lemma ProgramShowsIff(h: Hashes, s: State, x: Key, f: Faults, k: Key, i: nat)
    requires x in s.desired && WellTyped(x, s.desired[x]) && Owns(s, s.desired, k, i) && Shows(s, k, i)
    requires k in s.ledger ==> WellTyped(k, s.ledger[k].obj)
    ensures var s' := ProgramEntry(h, s, x, f);
            && (Shows(s', k, i) <==> !(x == k && HalfDone(s, k, i, f)))
            && Owns(s', s.desired, k, i)
  {
    hide Digest, ProgramEntry, ProgramObject, ProgramOne;
    var s' := ProgramEntry(h, s, x, f);
    forall y | y != x ensures Programmed(s', y, i) <==> Programmed(s, y, i) { EntryIsLocal(h, s, x, f, y); }
    if x != k { EntryIsLocal(h, s, x, f, k); }
    if InSync(h, s, x) || TypeSkipped(x.objType) {
      SkippedStays(h, s, x, f);
    } else if s.desired[x].IfaceObj? {
      InterfaceCalls(h, s, x, f);
      assert Desired(s.desired, x, i) ==> x == k;
      assert Programmed(s', x, i) ==> Programmed(s, x, i) || Desired(s.desired, x, i);
    } else {
      OthersLeaveUp(h, s, x, f);
      OthersStayNoInterface(h, s, x, f, i);
    }
  }

  lemma SkippedStays(h: Hashes, s: State, k: Key, f: Faults)
    requires k in s.desired && (InSync(h, s, k) || TypeSkipped(k.objType))
    ensures ProgramEntry(h, s, k, f) == s
  {
  }

  lemma OthersStayNoInterface(h: Hashes, s: State, k: Key, f: Faults, i: nat)
    requires k in s.desired && !s.desired[k].IfaceObj?
    ensures Programmed(ProgramEntry(h, s, k, f), k, i) ==>
              Programmed(s, k, i) && ProgramEntry(h, s, k, f).ledger[k] == s.ledger[k]
  {
    hide Digest, Resolve, ViewOf;
  }

  /** What sweeping one key takes away. */
  predicate Taken(s: State, s': State, x: Key) {
    && s'.desired == s.desired
    && (s'.ledger == s.ledger - {x} || (s'.ledger == s.ledger && !(x in s.ledger && s.ledger[x].obj.IfaceObj?)))
  }

  lemma WithdrawUp(s: State, x: Key, f: Faults)
    requires LedgerRoute(s, x)
    ensures Withdraw(s, x, f).backend.up == s.backend.up && Taken(s, Withdraw(s, x, f), x)
  {
    hide RouteKey;
  }

  /** Sweeping an interface in range brings it down; sweeping anything else leaves the states alone. */
  lemma SweepUp(s: State, x: Key, f: Faults)
    ensures var s' := SweepOne(s, x, f);
            && Taken(s, s', x)
            && s'.backend.up == (if x in s.ledger && s.ledger[x].obj.IfaceObj? && f.ifaceUp == Ok
                                    && 0 < s.ledger[x].obj.iface.ifindex < 256
                                 then s.backend.up[s.ledger[x].obj.iface.ifindex := false] else s.backend.up)
  {
    hide Withdraw;
    if LedgerRoute(s, x) { WithdrawUp(s, x, f); }
  }

  lemma SweepShows(s: State, x: Key, f: Faults, k: Key, i: nat)
    requires Owns(s, s.desired, k, i) && Shows(s, k, i)
    ensures var s' := SweepOne(s, x, f);
            Shows(s', k, i) && Owns(s', s.desired, k, i) && s'.desired == s.desired
  {
    hide SweepOne;
    SweepUp(s, x, f);
    assert Programmed(s, x, i) ==> x == k;
    assert forall y :: Programmed(SweepOne(s, x, f), y, i) ==> Programmed(s, y, i);
  }

  // ---- every run -----------------------------------------------------------------------------

  /** At every commit of the run `k` is the one interface with index `i`. */
  ghost predicate AllOwn(h: Hashes, steps: seq<Step>, k: Key, i: nat) {
    forall n :: 0 <= n < |steps| && steps[n].Commit? ==> Owns(Exec(h, steps[..n]), steps[n].d, k, i)
  }

  /** No programming of `k` in the run is half done. */
  ghost predicate NoneHalfDone(h: Hashes, steps: seq<Step>, k: Key, i: nat) {
    forall n :: 0 <= n < |steps| && steps[n].Program? && steps[n].k == k ==>
      !HalfDone(Exec(h, steps[..n]), k, i, steps[n].f)
  }

  /** Over every interleaving the backend has the interface as the ledger says. */
  lemma {:induction false} AdminStateFollowsLedger(h: Hashes, steps: seq<Step>, k: Key, i: nat)
    requires AllApart(h, steps) && AllOwn(h, steps, k, i) && NoneHalfDone(h, steps, k, i)
    ensures var s := Exec(h, steps); Shows(s, k, i) && Owns(s, s.desired, k, i)
  {
    hide ProgramEntry, SweepOne, Apart, GoodEntry, LedgerFib, Owns, Shows, HalfDone, Inv;
    if steps == [] {
      NothingShown(k, i);
    } else {
      var front, last := steps[..|steps| - 1], steps[|steps| - 1];
      var s := Exec(h, front);
      assert forall n :: 0 <= n < |front| ==> front[..n] == steps[..n];
      AdminStateFollowsLedger(h, front, k, i);
      LedgerMatchesFib(h, front);
      match last {
        case Commit(d) => CommitShows(s, d, k, i);
        case Program(x, f) =>
          if x in s.desired {
            TypesAreRight(h, s, x, k);
            ProgramShowsIff(h, s, x, f, k, i);
            DesiredKept(h, s, x, f);
          }
        case SweepKey(x, f) => SweepShows(s, x, f, k, i);
      }
    }
  }

  lemma NothingShown(k: Key, i: nat)
    ensures Shows(Start, k, i) && Owns(Start, Start.desired, k, i)
  {
  }

  lemma CommitShows(s: State, d: Objects, k: Key, i: nat)
    requires Shows(s, k, i) && Owns(s, d, k, i)
    ensures Shows(Committed(s, d), k, i) && Owns(Committed(s, d), d, k, i)
  {
    forall x ensures Programmed(Committed(s, d), x, i) <==> Programmed(s, x, i) {
    }
  }

  lemma TypesAreRight(h: Hashes, s: State, x: Key, k: Key)
    requires Inv(h, s) && x in s.desired
    ensures WellTyped(x, s.desired[x]) && (k in s.ledger ==> WellTyped(k, s.ledger[k].obj))
  {
    hide Digest, ResolveView, RouteKey;
    if k in s.ledger { assert GoodEntry(h, s, k); }
  }

  // ---- passes and sweeps -----------------------------------------------------------------------

  lemma {:induction false} PassShows(h: Hashes, s: State, order: seq<Key>, k: Key, i: nat)
    requires Inv(h, s) && Owns(s, s.desired, k, i) && Shows(s, k, i) && forall x :: x in order ==> x in s.desired
    ensures var s' := Pass(h, s, order, Clean(|order|));
            Inv(h, s') && Shows(s', k, i) && Owns(s', s.desired, k, i)
  {
    hide ProgramEntry, Inv, Owns, Shows;
    if order != [] {
      var n := |order| - 1;
      assert Clean(|order|)[..n] == Clean(n);
      PassShows(h, s, order[..n], k, i);
      var s1 := Pass(h, s, order[..n], Clean(n));
      TypesAreRight(h, s1, order[n], k);
      InvAfterProgramEntry(h, s1, order[n], NoFaults);
      ProgramShowsIff(h, s1, order[n], NoFaults, k, i);
      NotHalfDone(s1, k, i);
    }
  }

  lemma NotHalfDone(s: State, k: Key, i: nat)
    ensures !HalfDone(s, k, i, NoFaults)
  {
  }

  /** After a pass without failures every interface in range is in sync, and up or down as desired. */
  lemma InterfacesAfterPass(h: Hashes, s: State, order: seq<Key>, k: Key, i: nat)
    requires Inv(h, s) && Room(s) && Enumerates(order, s.desired.Keys) && forall x :: Trusted(h, s, x)
    requires Desired(s.desired, k, i) && 0 < i < 256 && Owns(s, s.desired, k, i) && Shows(s, k, i)
    ensures var s' := Pass(h, s, order, Clean(|order|));
            InSync(h, s', k) && i in s'.backend.up && s'.backend.up[i] == s.desired[k].iface.adminUp
  {
    hide Inv, Owns, Room, Trusted, Pass, Outcome, SameAt, Digest, ViewOf;
    PassOutcome(h, s, order);
    PassShows(h, s, order, k, i);
    assert k in order;
    var s' := Pass(h, s, order, Clean(|order|));
    assert AtRest(h, s', k);
    TypesAreRight(h, s, k, k);
  }

  /** What a sweep brings down stays down. */
  lemma {:induction false} SweepAllKeepsDown(s: State, ids: seq<Key>, i: nat)
    requires i in s.backend.up && !s.backend.up[i]
    ensures var s' := SweepAll(s, ids, Clean(|ids|)); i in s'.backend.up && !s'.backend.up[i]
  {
    hide SweepOne;
    if ids != [] {
      var n := |ids| - 1;
      assert Clean(|ids|)[..n] == Clean(n);
      SweepAllKeepsDown(s, ids[..n], i);
      SweepUp(SweepAll(s, ids[..n], Clean(n)), ids[n], NoFaults);
    }
  }

  lemma {:induction false} SweepAllBringsDown(s: State, ids: seq<Key>, k: Key, i: nat)
    requires Programmed(s, k, i) && 0 < i < 256
    ensures var s' := SweepAll(s, ids, Clean(|ids|));
            if k in ids then i in s'.backend.up && !s'.backend.up[i] else Programmed(s', k, i)
  {
    hide SweepOne;
    if ids != [] {
      var n := |ids| - 1;
      var front, x := ids[..n], ids[n];
      assert Clean(|ids|)[..n] == Clean(n);
      SweepAllBringsDown(s, front, k, i);
      SweepUp(SweepAll(s, front, Clean(n)), x, NoFaults);
      assert k in ids <==> k in front || k == x;
    }
  }

  lemma {:induction false} SweepsKeepDown(s: State, orders: seq<seq<Key>>, i: nat)
    requires i in s.backend.up && !s.backend.up[i]
    ensures var s' := Sweeps(s, orders); i in s'.backend.up && !s'.backend.up[i]
    decreases |orders|
  {
    hide SweepAll, Collect;
    if orders != [] {
      var ids := Collect(s.desired, orders[0]);
      assert Clean(SWEEP_MAX)[..|ids|] == Clean(|ids|);
      SweepAllKeepsDown(s, ids, i);
      SweepsKeepDown(Sweep(s, orders[0], Clean(SWEEP_MAX)), orders[1..], i);
    }
  }

  /** Once the tombstones are drained, every interface among them is down. */
  lemma {:induction false} SweptInterfacesAreDown(h: Hashes, s: State, orders: seq<seq<Key>>, k: Key, i: nat)
    requires Inv(h, s) && Iterations(s, orders) && |Tombstones(s)| <= SWEEP_MAX * |orders|
    requires Programmed(s, k, i) && k !in s.desired && 0 < i < 256
    ensures var s' := Sweeps(s, orders); i in s'.backend.up && !s'.backend.up[i]
    decreases |orders|
  {
    hide SweepAll, Collect, Inv, SameAt;
    assert k in Tombstones(s);
    if orders != [] {
      var ids := Collect(s.desired, orders[0]);
      assert Clean(SWEEP_MAX)[..|ids|] == Clean(|ids|);
      var s1 := Sweep(s, orders[0], Clean(SWEEP_MAX));
      SweepAllBringsDown(s, ids, k, i);
      SweepDrops(h, s, orders[0]);
      if k in ids {
        SweepsKeepDown(s1, orders[1..], i);
      } else {
        SweptInterfacesAreDown(h, s1, orders[1..], k, i);
      }
    }
  }

  // ---- a run that ends wrong ---------------------------------------------------------------------

  /** Up without addresses; then down with one, whose setting fails; then as at first. */
  function Detour(k: Key, a: IfaceData, b: IfaceData, fault: Status): seq<Step> {
    [Commit(map[k := IfaceObj(a)]), Program(k, NoFaults),
     Commit(map[k := IfaceObj(b)]), Program(k, NoFaults.(addrSet := fault)),
     Commit(map[k := IfaceObj(a)])]
  }

  /**
   * The admin state is changed before the addresses are, and the ledger is written after both. If the
   * addresses fail and the old state is asked for again, the ledger has it in sync and the backend
   * does not, for good.
   */
  lemma DetourLosesAdminState(h: Hashes, k: Key, a: IfaceData, b: IfaceData, fault: Status)
    requires k.objType == Iface && 0 < a.ifindex == b.ifindex < 256 && !HasAddress(a) && HasAddress(b)
    requires a.adminUp != b.adminUp && fault != Ok
    ensures var s := Exec(h, Detour(k, a, b, fault));
            && InSync(h, s, k) && s.desired[k].iface.adminUp == a.adminUp
            && a.ifindex in s.backend.up && s.backend.up[a.ifindex] != a.adminUp
            && forall f :: ProgramEntry(h, s, k, f) == s
  {
    hide Digest, ProgramEntry, Exec;
    var steps := Detour(k, a, b, fault);
    ExecStep(h, steps, 0);
    ExecStep(h, steps, 1);
    ExecStep(h, steps, 2);
    ExecStep(h, steps, 3);
    ExecStep(h, steps, 4);
    ExecOfNothing(h);
    assert steps[..0] == [] && steps[..5] == steps;
    InterfaceCalls(h, Exec(h, steps[..1]), k, NoFaults);
    InterfaceCalls(h, Exec(h, steps[..3]), k, NoFaults.(addrSet := fault));
    var s := Exec(h, steps);
    forall f ensures ProgramEntry(h, s, k, f) == s { SkippedEntry(h, s, k, f); }
  }
}
