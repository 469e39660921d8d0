/** What recovery rebuilds from the log of any history of mutations. */
module PersistTheorems {
  import opened Bytes
  import opened Dpa
  import opened Wal
  import opened WalTheorems
  import opened Persist
  import opened ObjectStore

  /** The store's map and the records logged, as Persistence.Mutate leaves them. */
  datatype Durable = Durable(m: map<Key, seq<byte>>, rs: seq<Record>)

  /** A mutation, or the process ending and the next one recovering. */
  datatype Event = Do(op: Mutation) | Restart

  /** The mutation goes through and is logged. */
  predicate Logs(d: Durable, op: Mutation) { Apply(d.m, op).0 == Ok && Loggable(op.k) }

  function Step(d: Durable, e: Event): Durable {
    match e
    case Do(op) => Durable(Apply(d.m, op).1, if Logs(d, op) then d.rs + [RecordOf(op)] else d.rs)
    case Restart => Durable(Restored(Log(d.rs)), d.rs)
  }

  /** Any number of process lifetimes on one log, from an empty store and an empty log. */
  function Run(es: seq<Event>): Durable {
    if es == [] then Durable(map[], []) else Step(Run(es[..|es| - 1]), es[|es| - 1])
  }

  /** The moment of the first mutation whose record has a payload above 1 MiB, or the end. */
  function Spoiled(es: seq<Event>): (p: nat)
    ensures p <= |es|
  {
    if es == [] then 0
    else
      var before, e := es[..|es| - 1], es[|es| - 1];
      var p := Spoiled(before);
      if p < |before| || (e.Do? && Logs(Run(before), e.op) && |RecordOf(e.op).data| > 0x10_0000) then p else |es|
  }

  /** The first 4096 distinct keys of the log, in order of appearance. */
  function Admitted(rs: seq<Record>): set<SlotKey> {
    if rs == [] then {}
    else
      var a := Admitted(rs[..|rs| - 1]);
      var k := SlotOf(rs[|rs| - 1]);
      if k in a || |a| < 4096 then a + {k} else a
  }

  /** Every key of the log. */
  function Logged(rs: seq<Record>): set<SlotKey> {
    set i | 0 <= i < |rs| :: SlotOf(rs[i])
  }

  /** What recovery from the log `file` into an empty store gives for `k`. */
  function AfterRecovery(file: seq<byte>, k: Key): Option<seq<byte>> {
    RecoveredAt(map[], Table(Delivered(file)), k)
  }

  /** The keys a replay table speaks of. */
  function KeysOf(t: map<SlotKey, SlotVal>): set<Key> {
    set sk | sk in t :: Key(WalToType(sk.walType), sk.id)
  }

  /** The store a process starts with after recovering from `file`. */
  function Restored(file: seq<byte>): map<Key, seq<byte>> {
    map k | k in KeysOf(Table(Delivered(file))) && AfterRecovery(file, k).Some? :: AfterRecovery(file, k).value
  }

  lemma RestoredAt(file: seq<byte>, k: Key)
    ensures Get(Restored(file), k) == AfterRecovery(file, k)
  {
    hide Delivered, TypeToWal, WalToType;
    var t := Table(Delivered(file));
    if AfterRecovery(file, k).Some? {
      SlotOfKeyInverse(SlotOfKey(k), k);
      assert SlotOfKey(k) in t;
      assert k in KeysOf(t);
    }
  }

  // ---- the log of a history -------------------------------------------------------

  lemma RecordFits(op: Mutation)
    requires Loggable(op.k)
    ensures Fits(RecordOf(op)) && IsObjectOp(RecordOf(op).opType) && SlotOf(RecordOf(op)) == SlotOfKey(op.k)
  {
  }

  lemma SlotOfKeyInjective(a: Key, b: Key)
    requires TypeToWal(a.objType) != 0 && SlotOfKey(a) == SlotOfKey(b)
    ensures a == b
  {
    TypeMapsInverse(a.objType, 0);
    TypeMapsInverse(b.objType, 0);
  }

  /** What a record keeps of a value: its length is cut to 32 bits, and an empty rest is nothing. */
  function Kept(v: Option<seq<byte>>): Option<seq<byte>> {
    if v.None? || |v.value| % WORD == 0 then None else Some(v.value[..|v.value| % WORD])
  }

  /** What is kept once is kept again. */
  lemma KeptIsKept(v: Option<seq<byte>>)
    ensures Kept(Kept(v)) == Kept(v)
    ensures v.Some? && 0 < |v.value| < WORD ==> Kept(v) == v
  {
    if Kept(v).Some? {
      var x := Kept(v).value;
      assert x[..|x|] == x;
    }
    if v.Some? { assert v.value[..|v.value|] == v.value; }
  }

  /** What a slot of the replay table says its key holds. */
  function Told(v: SlotVal): Option<seq<byte>> {
    if v.lastOp == OP_DELETE || v.data == [] then None else Some(v.data)
  }

  /** What the replay table says of a key is what is kept of the value the store holds for it. */
  ghost predicate Agrees(d: Durable, k: Key) {
    && (k in d.m && Loggable(k) ==> SlotOfKey(k) in Logged(d.rs))
    && (Loggable(k) && SlotOfKey(k) in Table(d.rs) ==>
          var v := Table(d.rs)[SlotOfKey(k)];
          IsObjectOp(v.lastOp) && |v.data| < WORD && Told(v) == Kept(Get(d.m, k)))
  }

  /** Over every run of lifetimes, up to the first oversized record. */
  lemma HistoryInvariant(es: seq<Event>)
    ensures var d := Run(es[..Spoiled(es)]);
      AllReplayable(d.rs) && Table(d.rs).Keys == Admitted(d.rs) && forall k :: Agrees(d, k)
  {
    var part := es[..Spoiled(es)];
    SpoiledPart(es);
    RecordsOfHistory(part);
    TableKeysAreAdmitted(Run(part).rs);
    forall k ensures Agrees(Run(part), k) { HistoryAgrees(part, k); }
  }

  predicate Unspoiled(es: seq<Event>) { Spoiled(es) == |es| }

  /** The part before the first oversized record has none. */
  lemma {:induction false} SpoiledPart(es: seq<Event>)
    ensures Unspoiled(es[..Spoiled(es)])
  {
    hide Run, Logs;
    if Spoiled(es) == |es| {
      assert es[..|es|] == es;
    } else {
      var before := es[..|es| - 1];
      SpoiledPart(before);
      assert before[..Spoiled(before)] == es[..Spoiled(es)];
    }
  }

  lemma UnspoiledFront(es: seq<Event>)
    requires es != [] && Unspoiled(es)
    ensures var before, e := es[..|es| - 1], es[|es| - 1];
      && Unspoiled(before) && (e.Do? && Logs(Run(before), e.op) ==> |RecordOf(e.op).data| <= 0x10_0000)
  {
  }

  lemma {:induction false} RecordsOfHistory(es: seq<Event>)
    ensures AllFit(Run(es).rs)
    ensures forall i :: 0 <= i < |Run(es).rs| ==> IsObjectOp(Run(es).rs[i].opType)
    ensures Unspoiled(es) ==> AllReplayable(Run(es).rs)
  {
    hide Loggable, Restored;
    if es != [] {
      var before, e := es[..|es| - 1], es[|es| - 1];
      RecordsOfHistory(before);
      if Unspoiled(es) { UnspoiledFront(es); }
      if e.Do? && Logs(Run(before), e.op) { RecordFits(e.op); }
    }
  }

  lemma {:induction false} TableKeysAreAdmitted(rs: seq<Record>)
    requires forall i :: 0 <= i < |rs| ==> IsObjectOp(rs[i].opType)
    ensures Table(rs).Keys == Admitted(rs)
  {
    if rs != [] {
      var rs0 := rs[..|rs| - 1];
      TableKeysAreAdmitted(rs0);
      assert |Table(rs0)| == |Table(rs0).Keys|;
    }
  }

  lemma {:induction false} HistoryAgrees(es: seq<Event>, k: Key)
    requires Unspoiled(es)
    ensures Agrees(Run(es), k)
  {
    hide Loggable, TypeToWal, Restored, Logged, Agrees, Kept, Table, Apply;
    if es == [] {
      NothingAgrees(k);
    } else {
      var before, e := es[..|es| - 1], es[|es| - 1];
      UnspoiledFront(es);
      HistoryAgrees(before, k);
      var d0, d := Run(before), Run(es);
      if e.Restart? {
        RecordsOfHistory(before);
        RestartAgrees(d0, k);
      } else if Logs(d0, e.op) {
        assert d.rs[..|d.rs| - 1] == d0.rs;
        LoggedGrows(d.rs);
        LoggedStep(d0, e.op, k);
      } else {
        UnloggedStep(d0, e.op, k);
      }
    }
  }

  lemma NothingAgrees(k: Key)
    ensures Agrees(Durable(map[], []), k)
  {
  }

  lemma NothingLogged()
    ensures Logged([]) == {}
  {
  }

  /** What is recovered agrees with the log it was recovered from. */
  lemma RestartAgrees(d: Durable, k: Key)
    requires Agrees(d, k) && AllReplayable(d.rs)
    ensures Agrees(Step(d, Restart), k)
  {
    hide Restored, Delivered, Logged, Log;
    RestoredAt(Log(d.rs), k);
    DeliveredAll(d.rs);
    TableIsLogged(d.rs);
    KeptIsKept(Get(d.m, k));
  }

  lemma DeliveredAll(rs: seq<Record>)
    requires AllReplayable(rs)
    ensures Delivered(Log(rs)) == rs
  {
    hide Delivered, Log;
    ReplayDeliversLog(rs, []);
    NothingToDeliver();
    assert Log(rs) + [] == Log(rs) && rs + [] == rs;
  }

  lemma {:induction false} TableIsLogged(rs: seq<Record>)
    ensures Table(rs).Keys <= Logged(rs)
  {
    hide Logged;
    if rs != [] {
      TableIsLogged(rs[..|rs| - 1]);
      LoggedGrows(rs);
    }
  }

  lemma LoggedStep(d0: Durable, op: Mutation, k: Key)
    requires Agrees(d0, k) && Loggable(op.k) && Apply(d0.m, op).0 == Ok
    requires var d := Step(d0, Do(op));
      d.rs[..|d.rs| - 1] == d0.rs && Logged(d.rs) == Logged(d0.rs) + {SlotOfKey(op.k)}
    ensures Agrees(Step(d0, Do(op)), k)
  {
    var d := Step(d0, Do(op));
    RecordFits(op);
    if Loggable(k) && SlotOfKey(k) == SlotOfKey(op.k) { SlotOfKeyInjective(op.k, k); }
  }

  lemma UnloggedStep(d0: Durable, op: Mutation, k: Key)
    requires Agrees(d0, k) && !Logs(d0, op)
    ensures Agrees(Step(d0, Do(op)), k)
  {
    hide Loggable, Table, Logged, Kept;
    assert Get(Apply(d0.m, op).1, k) == Get(d0.m, k) || (k == op.k && !Loggable(k));
  }

  // ---- crash recovery -------------------------------------------------------------

  /** The part of the store that the log can give back: of values under 4 GiB, all. */
  function Rebuilt(d: Durable, k: Key): Option<seq<byte>> {
    if Loggable(k) && SlotOfKey(k) in Admitted(d.rs) then Kept(Get(d.m, k)) else None
  }

  /** Recovery rebuilds, key by key, exactly what the store held before the first oversized record was
      logged, for the loggable keys among the first 4096 distinct keys of the log. */
  lemma CrashRecovery(es: seq<Event>, k: Key)
    ensures AfterRecovery(Log(Run(es).rs), k) == Rebuilt(Run(es[..Spoiled(es)]), k)
  {
    hide Delivered, Spoiled, Run, Rebuilt;
    ReadUpToSpoiled(es);
    HistoryInvariant(es);
    TableRebuilds(Run(es[..Spoiled(es)]), k);
  }

  lemma TableRebuilds(d: Durable, k: Key)
    requires Agrees(d, k) && AllReplayable(d.rs) && Table(d.rs).Keys == Admitted(d.rs)
    ensures RecoveredAt(map[], Table(d.rs), k) == Rebuilt(d, k)
  {
    if TypeToWal(k.objType) != 0 && SlotOfKey(k) in Table(d.rs) {
      AdmittedIsLogged(d.rs);
      assert SlotOfKey(k) in Logged(d.rs);
      var i :| 0 <= i < |d.rs| && SlotOf(d.rs[i]) == SlotOfKey(k);
      assert Replayable(d.rs[i]);
    }
  }

  /** What can be read of the log is the log of the part before the first oversized record. */
  lemma ReadUpToSpoiled(es: seq<Event>)
    ensures AllFit(Run(es).rs) && Run(es[..Spoiled(es)]).rs == Run(es).rs[..Readable(Run(es).rs)]
    ensures Delivered(Log(Run(es).rs)) == Run(es[..Spoiled(es)]).rs
  {
    hide Delivered, Log;
    RecordsOfHistory(es);
    SpoiledIsReadable(es);
    ReplayUpToOversized(Run(es).rs);
  }

  lemma {:induction false} SpoiledIsReadable(es: seq<Event>)
    ensures Run(es[..Spoiled(es)]).rs == Run(es).rs[..Readable(Run(es).rs)]
  {
    hide Restored, Loggable, Readable;
    if es != [] {
      var before, e := es[..|es| - 1], es[|es| - 1];
      SpoiledIsReadable(before);
      var rs, p := Run(before).rs, Spoiled(before);
      ReadableIs(rs);
      ReadableIs(Run(es).rs);
      if p < |before| {
        assert before[..p] == es[..p];
        SpoiledMeans(before);
        if e.Do? && Logs(Run(before), e.op) { ReadableKept(rs, RecordOf(e.op)); }
      } else {
        assert before[..p] == before && es[..|before|] == before && es[..|es|] == es;
        RecordsOfHistory(before);
        ReadableAll(rs);
        if e.Do? && Logs(Run(before), e.op) {
          RecordFits(e.op);
          ReadablePush(rs, RecordOf(e.op));
        }
      }
    }
  }

  lemma ReadableIs(rs: seq<Record>)
    ensures Readable(rs) <= |rs|
  {
  }

  /** Once spoiled, the log has a record that stops the replay. */
  lemma {:induction false} SpoiledMeans(es: seq<Event>)
    requires Spoiled(es) < |es|
    ensures Readable(Run(es).rs) < |Run(es).rs|
  {
    hide Restored, Loggable, Readable;
    var before, e := es[..|es| - 1], es[|es| - 1];
    var rs := Run(before).rs;
    if Spoiled(before) < |before| {
      SpoiledMeans(before);
      if e.Do? && Logs(Run(before), e.op) { ReadableKept(rs, RecordOf(e.op)); }
    } else {
      RecordsOfHistory(before);
      ReadableAll(rs);
      RecordFits(e.op);
      ReadablePush(rs, RecordOf(e.op));
    }
  }

  lemma {:induction false} ReadableKept(rs: seq<Record>, r: Record)
    requires Readable(rs) < |rs|
    ensures Readable(rs + [r]) == Readable(rs)
  {
    if |rs[0].data| <= 0x10_0000 {
      ReadableKept(rs[1..], r);
      assert (rs + [r])[1..] == rs[1..] + [r];
    }
  }

  lemma ReadableAll(rs: seq<Record>)
    requires AllReplayable(rs)
    ensures Readable(rs) == |rs|
  {
  }

  lemma {:induction false} ReadablePush(rs: seq<Record>, r: Record)
    requires Readable(rs) == |rs|
    ensures Readable(rs + [r]) == if |r.data| <= 0x10_0000 then |rs| + 1 else |rs|
  {
    if rs == [] {
      assert rs + [r] == [r] && [r][1..] == [];
    } else {
      ReadablePush(rs[1..], r);
      assert (rs + [r])[1..] == rs[1..] + [r];
    }
  }

  lemma {:induction false} AdmittedIsLogged(rs: seq<Record>)
    ensures Admitted(rs) <= Logged(rs)
    ensures |Admitted(rs)| <= 4096
    ensures |Logged(rs)| <= 4096 ==> Admitted(rs) == Logged(rs)
  {
    if rs != [] {
      var n := |rs| - 1;
      AdmittedIsLogged(rs[..n]);
      LoggedGrows(rs);
      hide Logged;
      SubsetSize(Logged(rs[..n]), Logged(rs));
      if SlotOf(rs[n]) !in Logged(rs[..n]) {
        assert |Logged(rs)| == |Logged(rs[..n])| + 1;
      }
    }
  }

  lemma LoggedGrows(rs: seq<Record>)
    requires rs != []
    ensures Logged(rs) == Logged(rs[..|rs| - 1]) + {SlotOf(rs[|rs| - 1])}
  {
    var n := |rs| - 1;
    assert forall i :: 0 <= i < n ==> rs[..n][i] == rs[i];
  }

  /** The log can give this key back. */
  predicate Recoverable(d: Durable, k: Key) { Loggable(k) && SlotOfKey(k) in Admitted(d.rs) }

  /**
   * Nothing is lost or changed exactly when every live key is recoverable, and the recoverable keys
   * hold what was kept of them before the first oversized record.
   */
  lemma RecoveryIsExact(es: seq<Event>)
    ensures var d, part := Run(es), Run(es[..Spoiled(es)]);
      (forall k :: AfterRecovery(Log(d.rs), k) == Get(d.m, k)) <==>
      (forall k :: if Recoverable(part, k) then Kept(Get(part.m, k)) == Get(d.m, k) else k !in d.m)
  {
    hide AfterRecovery, Recoverable, Run, Spoiled;
    var d, part := Run(es), Run(es[..Spoiled(es)]);
    forall k ensures AfterRecovery(Log(d.rs), k) == if Recoverable(part, k) then Kept(Get(part.m, k)) else None {
      CrashRecovery(es, k);
      RebuiltIs(part, k);
    }
    if forall k :: AfterRecovery(Log(d.rs), k) == Get(d.m, k) {
      forall k ensures if Recoverable(part, k) then Kept(Get(part.m, k)) == Get(d.m, k) else k !in d.m {
        assert AfterRecovery(Log(d.rs), k) == Get(d.m, k);
      }
    }
  }

  lemma RebuiltIs(d: Durable, k: Key)
    ensures Rebuilt(d, k) == if Recoverable(d, k) then Kept(Get(d.m, k)) else None
  {
  }

  // ---- within the table ----------------------------------------------------------------

  /** Loggable keys and payloads of at most 1 MiB only, and no more keys than the table has slots. */
  ghost predicate Moderate(es: seq<Event>) {
    && (forall i :: 0 <= i < |es| && es[i].Do? ==>
          Loggable(es[i].op.k) && (es[i].op.Delete? || |es[i].op.data| <= 0x10_0000))
    && |Touched(es)| <= 4096
  }

  function Touched(es: seq<Event>): set<Key> { set i | 0 <= i < |es| && es[i].Do? :: es[i].op.k }

  lemma TouchedFront(es: seq<Event>)
    requires es != []
    ensures Touched(es[..|es| - 1]) <= Touched(es)
    ensures es[|es| - 1].Do? ==> es[|es| - 1].op.k in Touched(es)
  {
    var before := es[..|es| - 1];
    forall k | k in Touched(before) ensures k in Touched(es) {
      var i :| 0 <= i < |before| && before[i].Do? && before[i].op.k == k;
      assert es[i].op.k == k;
    }
  }

  lemma ModerateFront(es: seq<Event>)
    requires es != [] && Moderate(es)
    ensures Moderate(es[..|es| - 1])
  {
    var before := es[..|es| - 1];
    TouchedFront(es);
    SubsetSize(Touched(before), Touched(es));
  }

  lemma {:induction false} ModerateIsUnspoiled(es: seq<Event>)
    requires Moderate(es)
    ensures Unspoiled(es)
  {
    hide Run, Logs;
    if es != [] {
      ModerateFront(es);
      ModerateIsUnspoiled(es[..|es| - 1]);
    }
  }

  /** Nothing of the store's values is lost in a record. */
  ghost predicate Whole(m: map<Key, seq<byte>>) { forall k :: Kept(Get(m, k)) == Get(m, k) }

  lemma {:induction false} ModerateIsWhole(es: seq<Event>)
    requires Moderate(es)
    ensures Whole(Run(es).m)
  {
    hide Restored, Moderate;
    if es != [] {
      var before, e := es[..|es| - 1], es[|es| - 1];
      ModerateFront(es);
      ModerateIsWhole(before);
      if e.Restart? {
        forall k ensures Kept(Get(Run(es).m, k)) == Get(Run(es).m, k) { RestoredIsWhole(before, k); }
      } else {
        ModerateLast(es);
        StepIsWhole(Run(before), e.op);
      }
    }
  }

  lemma ModerateLast(es: seq<Event>)
    requires Moderate(es) && es != [] && es[|es| - 1].Do?
    ensures var op := es[|es| - 1].op;
      op.Delete? || |op.data| <= 0x10_0000
  {
  }

  lemma StepIsWhole(d: Durable, op: Mutation)
    requires Whole(d.m) && (op.Delete? || |op.data| <= 0x10_0000)
    ensures Whole(Apply(d.m, op).1)
  {
    var m := Apply(d.m, op).1;
    forall k ensures Kept(Get(m, k)) == Get(m, k) {
      assert Kept(Get(d.m, k)) == Get(d.m, k);
      KeptIsKept(Get(m, k));
    }
  }

  lemma RestoredIsWhole(es: seq<Event>, k: Key)
    ensures var v := Get(Restored(Log(Run(es).rs)), k);
      Kept(v) == v
  {
    hide Restored, Delivered, Run, Rebuilt, AfterRecovery;
    RestoredAt(Log(Run(es).rs), k);
    CrashRecovery(es, k);
    RebuiltIs(Run(es[..Spoiled(es)]), k);
    KeptIsKept(Get(Run(es[..Spoiled(es)]).m, k));
  }

  /** With mapped types, 32-bit ids, at most 1 MiB and at most 4096 keys, nothing is lost. */
  lemma RecoveryWithinTheTable(es: seq<Event>)
    requires Moderate(es)
    ensures var d := Run(es);
      forall k :: AfterRecovery(Log(d.rs), k) == Get(d.m, k)
  {
    hide Run, Moderate, Logged, Admitted, Restored, AfterRecovery;
    var d := Run(es);
    ModerateIsUnspoiled(es);
    assert es[..|es|] == es;
    HistoryInvariant(es);
    AllRecoverable(es);
    ModerateIsWhole(es);
    RecoveryIsExact(es);
  }

  lemma AllRecoverable(es: seq<Event>)
    requires Moderate(es) && forall k :: Agrees(Run(es), k)
    ensures forall k :: k in Run(es).m ==> Recoverable(Run(es), k)
  {
    hide Run, Logged, Admitted;
    var d := Run(es);
    LoggedKeysWereTouched(es);
    ImageSize(Touched(es));
    SubsetSize(Logged(d.rs), SlotsOf(Touched(es)));
    AdmittedIsLogged(d.rs);
    forall k | k in d.m ensures Recoverable(d, k) {
      assert Agrees(d, k);
      assert k in Touched(es);
    }
  }

  function SlotsOf(keys: set<Key>): set<SlotKey> { set k | k in keys :: SlotOfKey(k) }

  lemma {:induction false} LoggedKeysWereTouched(es: seq<Event>)
    requires Moderate(es)
    ensures Run(es).m.Keys <= Touched(es) && Logged(Run(es).rs) <= SlotsOf(Touched(es))
  {
    hide Touched, Logged, Restored;
    if es == [] {
      NothingLogged();
    } else {
      var before, e := es[..|es| - 1], es[|es| - 1];
      ModerateFront(es);
      LoggedKeysWereTouched(before);
      TouchedFront(es);
      var d0, d := Run(before), Run(es);
      if e.Restart? {
        forall k | k in d.m ensures k in Touched(es) { RestoredWasTouched(before, k); }
      } else if Logs(d0, e.op) {
        LoggedGrows(d.rs);
        assert d.rs[..|d.rs| - 1] == d0.rs;
      }
    }
  }

  /** A key that comes back was logged. */
  lemma RestoredWasTouched(es: seq<Event>, k: Key)
    requires Moderate(es) && Logged(Run(es).rs) <= SlotsOf(Touched(es)) && k in Restored(Log(Run(es).rs))
    ensures k in Touched(es)
  {
    hide Touched, Logged, Restored, Run, Moderate, Delivered, Log, Table;
    var rs := Run(es).rs;
    ModerateIsUnspoiled(es);
    RecordsOfHistory(es);
    RestoredAt(Log(rs), k);
    DeliveredAll(rs);
    TableIsLogged(rs);
    assert SlotOfKey(k) in SlotsOf(Touched(es));
    var x :| x in Touched(es) && SlotOfKey(x) == SlotOfKey(k);
    SlotOfKeyInjective(k, x);
  }

  lemma {:induction false} ImageSize(keys: set<Key>)
    ensures |SlotsOf(keys)| <= |keys|
  {
    var image := SlotsOf(keys);
    if keys == {} {
      assert image == {};
    } else {
      var x :| x in keys;
      ImageSize(keys - {x});
      var rest := SlotsOf(keys - {x});
      assert image == rest + {SlotOfKey(x)};
    }
  }

  // ---- restarts ------------------------------------------------------------------------

  /** The mutations alone. */
  function Mutations(es: seq<Event>): seq<Event> {
    if es == [] then []
    else Mutations(es[..|es| - 1]) + if es[|es| - 1].Do? then [es[|es| - 1]] else []
  }

  /** Within the table, restarting in between, however often, makes no difference. */
  lemma {:induction false} RestartsAreInvisible(es: seq<Event>)
    requires Moderate(es)
    ensures Run(es) == Run(Mutations(es))
  {
    hide Restored, Moderate;
    if es != [] {
      var before, e := es[..|es| - 1], es[|es| - 1];
      ModerateFront(es);
      RestartsAreInvisible(before);
      if e.Restart? {
        var d := Run(before);
        RecoveryWithinTheTable(before);
        SameMap(d.m, Restored(Log(d.rs)), d.rs);
        assert Mutations(es) == Mutations(before);
      } else {
        var ops := Mutations(es);
        assert ops[..|ops| - 1] == Mutations(before);
      }
    }
  }

  lemma SameMap(m: map<Key, seq<byte>>, n: map<Key, seq<byte>>, rs: seq<Record>)
    requires n == Restored(Log(rs)) && forall k :: AfterRecovery(Log(rs), k) == Get(m, k)
    ensures m == n
  {
    hide Restored, AfterRecovery;
    forall k ensures Get(n, k) == Get(m, k) { RestoredAt(Log(rs), k); }
    SameContents(m, n);
  }

  // ---- crash at any byte ----------------------------------------------------------

  /** Every prefix of the log is the log of a prefix of the history. */
  lemma {:induction false} LogPrefixIsHistoryPrefix(es: seq<Event>, n: nat) returns (p: nat)
    requires n <= |Run(es).rs|
    ensures p <= |es| && Run(es[..p]).rs == Run(es).rs[..n]
  {
    hide Restored;
    if n == |Run(es).rs| {
      p := |es|;
      assert es[..p] == es;
    } else {
      var before := es[..|es| - 1];
      assert Run(before).rs <= Run(es).rs;
      p := LogPrefixIsHistoryPrefix(before, n);
      assert before[..p] == es[..p];
    }
  }

  /** A crash that leaves any prefix of the log's bytes rebuilds the store of an earlier moment: that
      of the last record still whole, or of the first oversized one. */
  lemma CrashAtAnyByte(es: seq<Event>, cut: nat) returns (p: nat)
    requires cut <= |Log(Run(es).rs)|
    ensures var rs := Run(es).rs; var n := WholeRecords(rs, cut);
      && p <= |es| && Run(es[..p]).rs == rs[..if n <= Readable(rs) then n else Readable(rs)]
      && Unspoiled(es[..p])
      && forall k :: AfterRecovery(Log(rs)[..cut], k) == Rebuilt(Run(es[..p]), k)
  {
    hide Delivered, Log, RecoveredAt, Rebuilt, Run, Spoiled;
    var rs := Run(es).rs;
    RecordsOfHistory(es);
    var whole := WholeRecords(rs, cut);
    var n := if whole <= Readable(rs) then whole else Readable(rs);
    TornLogUpToOversized(rs, cut);
    p := LogPrefixIsHistoryPrefix(es, n);
    var part := es[..p];
    UnspoiledIffReadable(part, rs, n);
    assert part[..|part|] == part;
    HistoryInvariant(part);
    forall k { TableRebuilds(Run(part), k); }
  }

  lemma UnspoiledIffReadable(part: seq<Event>, rs: seq<Record>, n: nat)
    requires n <= Readable(rs) && Run(part).rs == rs[..n]
    ensures Unspoiled(part)
  {
    hide Run;
    if Spoiled(part) < |part| {
      SpoiledMeans(part);
    }
  }

  // ---- the process, end to end ----------------------------------------------------

  /** Processes on one log file, one after another, performing the history. */
  method Live(es: seq<Event>) returns (p: Persistence)
    ensures p.Valid() && p.store.Contents() == Run(es).m && p.log.bytes == Log(Run(es).rs)
  {
    hide Store.Valid, Store.Contents, Frame, Restored, Apply;
    var log := new LogFile();
    p := new Persistence(log);
    for i := 0 to |es|
      invariant p.Valid() && p.enabled && !p.recovering
      invariant fresh(p) && fresh(p.log) && fresh(p.store) && fresh(p.store.buckets) && fresh(p.store.entries)
      invariant p.store.Contents() == Run(es[..i]).m && p.log.bytes == Log(Run(es[..i]).rs)
    {
      assert es[..i + 1][..i] == es[..i];
      match es[i] {
        case Do(op) =>
          var st := p.Mutate(op, |Frame(RecordOf(op))|, true);
          LogAppend(Run(es[..i]).rs, [RecordOf(op)]);
          LogOfOne(RecordOf(op));
        case Restart =>
          p := Reboot(p.log);
      }
    }
    assert es[..|es|] == es;
  }

  lemma LogOfOne(r: Record)
    ensures Log([r]) == Frame(r)
  {
    hide Frame;
    assert Log([]) == [];
  }

  /** The next process on the same log file: it starts with what recovery gives and appends nothing. */
  method Reboot(log: LogFile) returns (p: Persistence)
    modifies log
    ensures p.Valid() && p.log == log && log.bytes == old(log.bytes) && p.enabled && !p.recovering
    ensures fresh(p) && fresh(p.store) && fresh(p.store.buckets) && fresh(p.store.entries)
    ensures p.store.Contents() == Restored(log.bytes)
  {
    hide Store.Valid, Store.Contents, RecoveredAt, Restored, Delivered;
    p := new Persistence(log);
    var applied := p.Recover();
    ghost var m := p.store.Contents();
    forall k ensures Get(Restored(log.bytes), k) == Get(m, k) { RestoredAt(log.bytes, k); }
    SameContents(m, Restored(log.bytes));
  }

  lemma SameContents(m: map<Key, seq<byte>>, n: map<Key, seq<byte>>)
    requires forall k :: Get(n, k) == Get(m, k)
    ensures m == n
  {
    forall k | k in m ensures k in n && n[k] == m[k] { assert Get(n, k) == Get(m, k); }
    forall k | k in n ensures k in m { assert Get(n, k) == Get(m, k); }
  }
}
