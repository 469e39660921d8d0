/**
 * The reconciler's anti-flap guard: repairs of an object are counted in windows of fixed length,
 * and an object repaired too often in one window is denied repair until an operator clears it.
 */
module AntiFlap {
  import opened Bytes

  const MAX_TRACKED: nat := 256

  datatype Config = Config(windowMs: nat, maxCount: nat)

  function Defaulted(c: Config): (r: Config)
    ensures r.windowMs > 0 && r.maxCount > 0
  {
    Config(if c.windowMs == 0 then 5000 else c.windowMs, if c.maxCount == 0 then 3 else c.maxCount)
  }

  function WindowNs(c: Config): nat { c.windowMs * 1_000_000 }

  datatype Rec = Rec(start: nat, count: nat, flapping: bool, suppressed: nat, repairs: nat)

  const FRESH := Rec(0, 0, false, 0, 0)

  /** One request to repair a tracked object: the new record, and whether it may go ahead. */
  function Judge(cfg: Config, r: Rec, now: nat): (Rec, bool) {
    if r.flapping then (r.(suppressed := r.suppressed + 1), false)
    else
      var r := if r.count == 0 || now - r.start > WindowNs(cfg) then r.(start := now, count := 1)
               else r.(count := r.count + 1);
      var r := r.(repairs := r.repairs + 1);
      if r.count > cfg.maxCount then (r.(flapping := true, suppressed := r.suppressed + 1), false) else (r, true)
  }

  datatype Guard = Guard(recs: map<nat, Rec>, total: nat)

  function Check(cfg: Config, g: Guard, key: nat, now: nat): (Guard, bool) {
    if key !in g.recs && |g.recs| >= MAX_TRACKED then (g, true)
    else
      var (r, allowed) := Judge(cfg, if key in g.recs then g.recs[key] else FRESH, now);
      (Guard(g.recs[key := r], if allowed then g.total else g.total + 1), allowed)
  }

  function Clear(g: Guard, key: nat): Guard {
    if key in g.recs then g.(recs := g.recs[key := g.recs[key].(flapping := false, count := 0, start := 0)]) else g
  }

  // ---- runs ------------------------------------------------------------------------------

  datatype Event = Request(key: nat, now: nat) | Cleared(key: nat)

  /** The guard, and the times each object was allowed repair since it was last cleared. */
  datatype Trace = Trace(g: Guard, allowed: map<nat, seq<nat>>)

  function Times(t: Trace, key: nat): seq<nat> { if key in t.allowed then t.allowed[key] else [] }

  function Step(cfg: Config, t: Trace, e: Event): Trace {
    match e
    case Cleared(key) => Trace(Clear(t.g, key), t.allowed[key := []])
    case Request(key, now) =>
      var (g, ok) := Check(cfg, t.g, key, now);
      Trace(g, if ok then t.allowed[key := Times(t, key) + [now]] else t.allowed)
  }

  const START := Trace(Guard(map[], 0), map[])

  function Run(cfg: Config, events: seq<Event>): Trace {
    if events == [] then START else Step(cfg, Run(cfg, events[..|events| - 1]), events[|events| - 1])
  }

  /** The last time asked, which the clock never goes back on. */
  function Clock(events: seq<Event>): nat {
    if events == [] then 0
    else
      var e := events[|events| - 1];
      if e.Request? then e.now else Clock(events[..|events| - 1])
  }

  predicate Monotonic(events: seq<Event>) {
    events == [] ||
    var before, e := events[..|events| - 1], events[|events| - 1];
    Monotonic(before) && (e.Request? ==> Clock(before) <= e.now)
  }

  // ---- no object is repaired too often -------------------------------------------------------

  predicate Ascending(a: seq<nat>) { forall i, j :: 0 <= i <= j < |a| ==> a[i] <= a[j] }

  /** Any 2 * max repairs allowed in a row take longer than a window of `w` nanoseconds. */
  predicate Spaced(w: nat, max: nat, a: seq<nat>)
    requires max > 0
  {
    forall i :: 0 <= i && i + 2 * max <= |a| ==> a[i] + w < a[i + 2 * max - 1]
  }

  /** What an object's record says of the times it was allowed. */
  predicate Explains(cfg: Config, r: Rec, a: seq<nat>)
    requires cfg.maxCount > 0
  {
    && r.count <= |a|
    && (r.count == 0 ==> a == [])
    && r.count <= cfg.maxCount
    && (r.count > 0 ==> a[|a| - r.count] == r.start)
    && forall j :: 0 <= j && j + cfg.maxCount <= |a| - r.count ==> a[j] + WindowNs(cfg) < r.start
  }

  predicate Kept(cfg: Config, t: Trace, key: nat, clock: nat)
    requires cfg.maxCount > 0
  {
    var a := Times(t, key);
    && Ascending(a) && (a != [] ==> a[|a| - 1] <= clock)
    && (key in t.g.recs ==>
          && Spaced(WindowNs(cfg), cfg.maxCount, a)
          && (!t.g.recs[key].flapping ==> Explains(cfg, t.g.recs[key], a)))
    && (key !in t.g.recs ==> a == [] || |t.g.recs| >= MAX_TRACKED)
  }

  lemma JudgeKeeps(cfg: Config, r: Rec, a: seq<nat>, now: nat)
    requires cfg.maxCount > 0 && Ascending(a) && Spaced(WindowNs(cfg), cfg.maxCount, a)
    requires !r.flapping && Explains(cfg, r, a)
    requires a != [] ==> a[|a| - 1] <= now
    ensures var (r', ok) := Judge(cfg, r, now);
            && (ok ==> !r'.flapping && Explains(cfg, r', a + [now]))
            && (ok ==> Spaced(WindowNs(cfg), cfg.maxCount, a + [now]) && Ascending(a + [now]))
            && (!ok ==> r'.flapping)
  {
    hide WindowNs;
    var (r', ok) := Judge(cfg, r, now);
    if ok {
      var b := a + [now];
      assert r.count > 0 ==> r.start <= a[|a| - 1] <= now;
      forall j | 0 <= j && j + cfg.maxCount <= |b| - r'.count ensures b[j] + WindowNs(cfg) < r'.start {
        if r'.count == 1 && r.count > 0 {
          assert a[j] <= a[|a| - r.count] == r.start;
        }
      }
      forall i | 0 <= i && i + 2 * cfg.maxCount <= |b| ensures b[i] + WindowNs(cfg) < b[i + 2 * cfg.maxCount - 1] {
        if i + 2 * cfg.maxCount == |b| {
          assert i + cfg.maxCount <= |b| - r'.count;
          assert r'.start <= now;
        }
      }
    }
  }

  lemma StepKeeps(cfg: Config, t: Trace, e: Event, key: nat, clock: nat)
    requires cfg.maxCount > 0 && Kept(cfg, t, key, clock) && (e.Request? ==> clock <= e.now)
    ensures Kept(cfg, Step(cfg, t, e), key, if e.Request? then e.now else clock)
  {
    hide Judge, Explains, Spaced, Ascending;
    var a := Times(t, key);
    if e.key != key {
      assert Times(Step(cfg, t, e), key) == a;
      TrackedStay(cfg, t, e);
    } else if e.Cleared? {
      NothingYet(cfg, Rec(0, 0, false, 0, 0));
      if key in t.g.recs { NothingYet(cfg, t.g.recs[key].(flapping := false, count := 0, start := 0)); }
    } else if key in t.g.recs {
      if t.g.recs[key].flapping {
        FlappingIsDenied(cfg, t.g.recs[key], e.now);
      } else {
        JudgeKeeps(cfg, t.g.recs[key], a, e.now);
      }
    } else if |t.g.recs| >= MAX_TRACKED {
      AscendingPush(a, e.now);
    } else {
      NothingYet(cfg, FRESH);
      JudgeKeeps(cfg, FRESH, a, e.now);
    }
  }

  lemma TrackedStay(cfg: Config, t: Trace, e: Event)
    ensures |t.g.recs| <= |Step(cfg, t, e).g.recs|
  {
    hide Judge;
  }

  lemma NothingYet(cfg: Config, r: Rec)
    requires cfg.maxCount > 0 && r.count == 0
    ensures Explains(cfg, r, []) && Spaced(WindowNs(cfg), cfg.maxCount, []) && Ascending([])
  {
  }

  lemma FlappingIsDenied(cfg: Config, r: Rec, now: nat)
    requires r.flapping
    ensures Judge(cfg, r, now) == (r.(suppressed := r.suppressed + 1), false)
  {
  }

  lemma AscendingPush(a: seq<nat>, now: nat)
    requires Ascending(a) && (a != [] ==> a[|a| - 1] <= now)
    ensures Ascending(a + [now])
  {
  }

  lemma {:induction false} RunKeeps(cfg: Config, events: seq<Event>, key: nat)
    requires cfg.maxCount > 0 && Monotonic(events)
    ensures Kept(cfg, Run(cfg, events), key, Clock(events))
  {
    hide Step, Kept;
    if events == [] {
      StartKept(cfg, key);
    } else {
      var before, e := events[..|events| - 1], events[|events| - 1];
      RunKeeps(cfg, before, key);
      StepKeeps(cfg, Run(cfg, before), e, key, Clock(before));
    }
  }

  lemma StartKept(cfg: Config, key: nat)
    requires cfg.maxCount > 0
    ensures Kept(cfg, START, key, 0)
  {
  }

  /**
   * Over every run, however requests for other objects and clearings are interleaved: of the
   * repairs of a tracked object allowed since it was last cleared, fewer than 2 * max fall into any
   * stretch as long as the window.
   */
  lemma RepairsAreSpaced(cfg: Config, events: seq<Event>, key: nat)
    requires cfg.maxCount > 0 && Monotonic(events) && key in Run(cfg, events).g.recs
    ensures Spaced(cfg.windowMs * 1_000_000, cfg.maxCount, Times(Run(cfg, events), key))
  {
    hide Spaced, Run;
    RunKeeps(cfg, events, key);
  }

  // ---- one window allows exactly the first max ---------------------------------------------------

  /** A request of the object at `now` starts a window: its first one, or the last window is over. */
  predicate Opens(cfg: Config, t: Trace, key: nat, now: nat) {
    if key in t.g.recs then
      var r := t.g.recs[key];
      !r.flapping && (r.count == 0 || now > r.start + cfg.windowMs * 1_000_000)
    else |t.g.recs| < 256
  }

  /** When repair of the object was asked for. */
  function Asked(events: seq<Event>, key: nat): seq<nat> {
    if events == [] then []
    else
      var before, e := Asked(events[..|events| - 1], key), events[|events| - 1];
      if e.Request? && e.key == key then before + [e.now] else before
  }

  predicate WithinWindow(cfg: Config, now: nat, asks: seq<nat>) {
    forall i :: 0 <= i < |asks| ==> now <= asks[i] <= now + cfg.windowMs * 1_000_000
  }

  /** The record of an object asked for at these times in one window, and what it was allowed. */
  predicate InWindow(cfg: Config, t: Trace, key: nat, base: seq<nat>, asks: seq<nat>)
    requires asks != []
  {
    && key in t.g.recs
    && var r := t.g.recs[key];
       if |asks| <= cfg.maxCount then
         !r.flapping && r.start == asks[0] && r.count == |asks| && Times(t, key) == base + asks
       else r.flapping && Times(t, key) == base + asks[..cfg.maxCount]
  }

  lemma WindowOpens(cfg: Config, t: Trace, key: nat, now: nat)
    requires cfg.maxCount > 0 && Opens(cfg, t, key, now)
    ensures InWindow(cfg, Step(cfg, t, Request(key, now)), key, Times(t, key), [now])
  {
  }

  lemma WindowGoesOn(cfg: Config, t: Trace, key: nat, base: seq<nat>, asks: seq<nat>, now: nat)
    requires cfg.maxCount > 0 && asks != [] && InWindow(cfg, t, key, base, asks)
    requires asks[0] <= now <= asks[0] + cfg.windowMs * 1_000_000
    ensures InWindow(cfg, Step(cfg, t, Request(key, now)), key, base, asks + [now])
  {
    assert |asks| >= cfg.maxCount ==> (asks + [now])[..cfg.maxCount] == asks[..cfg.maxCount];
    assert |asks| == cfg.maxCount ==> asks[..cfg.maxCount] == asks;
    assert base + asks + [now] == base + (asks + [now]);
  }

  lemma {:induction false} WindowCounts(cfg: Config, t: Trace, key: nat, now: nat, es: seq<Event>)
    requires cfg.maxCount > 0 && Opens(cfg, t, key, now) && Cleared(key) !in es
    requires WithinWindow(cfg, now, Asked(es, key))
    ensures InWindow(cfg, RunFrom(cfg, Step(cfg, t, Request(key, now)), es), key, Times(t, key), [now] + Asked(es, key))
    decreases |es|
  {
    hide Judge, Opens;
    var first := Step(cfg, t, Request(key, now));
    if es == [] {
      WindowOpens(cfg, t, key, now);
      assert [now] + [] == [now];
    } else {
      var before, e := es[..|es| - 1], es[|es| - 1];
      var asks := Asked(before, key);
      assert forall i :: 0 <= i < |asks| ==> asks[i] == Asked(es, key)[i];
      WindowCounts(cfg, t, key, now, before);
      if e.Request? && e.key == key {
        assert Asked(es, key)[|asks|] == e.now;
        WindowGoesOn(cfg, RunFrom(cfg, first, before), key, Times(t, key), [now] + asks, e.now);
        assert [now] + asks + [e.now] == [now] + (asks + [e.now]);
      } else {
        assert e in es && e.key != key;
      }
    }
  }

  /**
   * Of the requests within a window of the one that started it, exactly the first max are allowed,
   * whatever else is asked or cleared in between; one more, and the object is flapping.
   */
  lemma OneWindow(cfg: Config, t: Trace, key: nat, now: nat, es: seq<Event>)
    requires cfg.maxCount > 0 && Opens(cfg, t, key, now) && Cleared(key) !in es
    requires WithinWindow(cfg, now, Asked(es, key))
    ensures var t', asks := RunFrom(cfg, Step(cfg, t, Request(key, now)), es), [now] + Asked(es, key);
            && Times(t', key) == Times(t, key) + (if |asks| <= cfg.maxCount then asks else asks[..cfg.maxCount])
            && (Flapping(t', key) <==> |asks| > cfg.maxCount)
  {
    hide Step, RunFrom, Opens, Asked;
    WindowCounts(cfg, t, key, now, es);
  }

  // ---- a flapping object stays denied -----------------------------------------------------------

  predicate Flapping(t: Trace, key: nat) { key in t.g.recs && t.g.recs[key].flapping }

  function RunFrom(cfg: Config, t: Trace, events: seq<Event>): Trace {
    if events == [] then t else Step(cfg, RunFrom(cfg, t, events[..|events| - 1]), events[|events| - 1])
  }

  /** Nothing but clearing the object itself lets it be repaired again. */
  lemma {:induction false} DeniedUntilCleared(cfg: Config, t: Trace, events: seq<Event>, key: nat)
    requires Flapping(t, key) && forall e :: e in events ==> e != Cleared(key)
    ensures Flapping(RunFrom(cfg, t, events), key) && Times(RunFrom(cfg, t, events), key) == Times(t, key)
  {
    if events != [] {
      var before := events[..|events| - 1];
      assert forall e :: e in before ==> e in events;
      DeniedUntilCleared(cfg, t, before, key);
      assert events[|events| - 1] in events;
    }
  }

  /** Once cleared, it is allowed the next repair at once. */
  lemma ClearingLetsItRepair(cfg: Config, t: Trace, key: nat, now: nat)
    requires cfg.maxCount > 0 && key in t.g.recs
    ensures var t' := RunFrom(cfg, t, [Cleared(key), Request(key, now)]);
            Times(t', key) == [now] && !Flapping(t', key)
  {
    var c, r := Cleared(key), Request(key, now);
    assert [c, r][..1] == [c] && [c][..0] == [];
    assert RunFrom(cfg, t, [c]) == Step(cfg, t, c);
  }

  // ---- what the counters tell -----------------------------------------------------------------

  /** The requests denied, of one object and of all. */
  function Denials(cfg: Config, events: seq<Event>, key: nat): nat {
    if events == [] then 0
    else
      var before, e := events[..|events| - 1], events[|events| - 1];
      Denials(cfg, before, key)
      + if e.Request? && e.key == key && !Check(cfg, Run(cfg, before).g, e.key, e.now).1 then 1 else 0
  }

  function AllDenials(cfg: Config, events: seq<Event>): nat {
    if events == [] then 0
    else
      var before, e := events[..|events| - 1], events[|events| - 1];
      AllDenials(cfg, before) + if e.Request? && !Check(cfg, Run(cfg, before).g, e.key, e.now).1 then 1 else 0
  }

  /** The requests of an object that found it tracked, or room for it, and not flapping. */
  function Counted(cfg: Config, events: seq<Event>, key: nat): nat {
    if events == [] then 0
    else
      var before, e := events[..|events| - 1], events[|events| - 1];
      var t := Run(cfg, before);
      Counted(cfg, before, key)
      + if e.Request? && e.key == key && !Flapping(t, key) && (key in t.g.recs || |t.g.recs| < 256) then 1 else 0
  }

  /** Over every run the counters are what happened: denied requests, in all and of each object, and repairs. */
  lemma {:induction false} CountersTell(cfg: Config, events: seq<Event>, key: nat)
    ensures var g := Run(cfg, events).g;
            && g.total == AllDenials(cfg, events)
            && (if key in g.recs then g.recs[key].suppressed else 0) == Denials(cfg, events, key)
            && (if key in g.recs then g.recs[key].repairs else 0) == Counted(cfg, events, key)
  {
    if events != [] { CountersTell(cfg, events[..|events| - 1], key); }
  }

  // ---- what the documentation promises -----------------------------------------------------------

  /** No more than max repairs in any stretch as long as the window. */
  predicate Sliding(cfg: Config, a: seq<nat>) {
    forall i :: 0 <= i && i + cfg.maxCount < |a| ==> a[i] + cfg.windowMs * 1_000_000 < a[i + cfg.maxCount]
  }

  predicate Promise(cfg: Config, events: seq<Event>, key: nat) {
    Monotonic(events) ==> Sliding(cfg, Times(Run(cfg, events), key))
  }

  /** The objects repair was ever requested for. */
  function Requested(events: seq<Event>): set<nat> {
    set i | 0 <= i < |events| && events[i].Request? :: events[i].key
  }

  /** The table has room for them all. */
  predicate Roomy(events: seq<Event>) { |Requested(events)| <= MAX_TRACKED }

  lemma RequestedPush(events: seq<Event>)
    requires events != []
    ensures var before, e := events[..|events| - 1], events[|events| - 1];
            Requested(events) == Requested(before) + if e.Request? then {e.key} else {}
  {
    var before := events[..|events| - 1];
    assert forall i :: 0 <= i < |before| ==> before[i] == events[i];
    forall k | k in Requested(before) ensures k in Requested(events) {
      var i :| 0 <= i < |before| && before[i].Request? && before[i].key == k;
      assert events[i].key == k;
    }
  }

  /** With room for all, exactly the requested objects are tracked, and no other was ever allowed. */
  lemma {:induction false} RoomyTracksAll(cfg: Config, events: seq<Event>)
    requires Roomy(events)
    ensures Run(cfg, events).g.recs.Keys == Requested(events)
    ensures forall k :: k !in Requested(events) ==> Times(Run(cfg, events), k) == []
  {
    hide Judge, Requested;
    if events == [] {
      NoRequests();
    } else {
      var before, e := events[..|events| - 1], events[|events| - 1];
      RequestedPush(events);
      SubsetSize(Requested(before), Requested(events));
      RoomyTracksAll(cfg, before);
      var t := Run(cfg, before);
      assert |t.g.recs| == |t.g.recs.Keys|;
      if e.Request? && e.key !in t.g.recs {
        assert |Requested(events)| == |Requested(before)| + 1;
      }
    }
  }

  lemma NoRequests()
    ensures Requested([]) == {}
  {
  }

  /** The same moment, `n` times. */
  function Copies(t: nat, n: nat): seq<nat> { seq(n, _ => t) }

  function Asks(now: nat, n: nat): seq<Event> { seq(n, _ => Request(0, now)) }

  /** One repair, the rest of the window's at its very end, and a full window's right after. */
  function Burst(cfg: Config): seq<Event>
    requires cfg.maxCount > 0
  {
    var w := WindowNs(cfg);
    Asks(0, 1) + Asks(w, cfg.maxCount - 1) + Asks(w + 1, cfg.maxCount)
  }

  /**
   * While the table has room for every object, counting in fixed windows keeps the promise for every
   * object in every run exactly when the limit is one repair.
   */
  lemma PromiseIffOne(cfg: Config)
    requires cfg.maxCount > 0 && cfg.windowMs > 0
    ensures (forall events, key :: Roomy(events) ==> Promise(cfg, events, key)) <==> cfg.maxCount == 1
  {
    hide Run, Monotonic, Clock, Requested;
    if cfg.maxCount == 1 {
      forall events, key | Roomy(events) ensures Promise(cfg, events, key) {
        RoomyPromise(cfg, events, key);
      }
    } else {
      BurstCounts(cfg);
      BurstIsRoomy(cfg);
      var a := BurstTimes(cfg);
      assert a[1] == WindowNs(cfg) && a[1 + cfg.maxCount] == WindowNs(cfg) + 1;
      assert !Promise(cfg, Burst(cfg), 0);
    }
  }

  lemma RoomyPromise(cfg: Config, events: seq<Event>, key: nat)
    requires cfg.maxCount == 1 && Roomy(events)
    ensures Promise(cfg, events, key)
  {
    hide Run, Requested;
    RoomyTracksAll(cfg, events);
    if Monotonic(events) && key in Requested(events) {
      RepairsAreSpaced(cfg, events, key);
    }
  }

  lemma BurstIsRoomy(cfg: Config)
    requires cfg.maxCount > 0
    ensures Roomy(Burst(cfg))
  {
    assert Requested(Burst(cfg)) <= {0};
    SubsetSize(Requested(Burst(cfg)), {0});
  }

  /** One request each for the objects 1 to n. */
  function Crowd(n: nat): seq<Event> { seq(n, i requires 0 <= i < n => Request(i + 1, 0)) }

  /** A full table, and object 0 not in it. */
  predicate Crowded(cfg: Config, events: seq<Event>, a: seq<nat>) {
    && Monotonic(events) && Clock(events) == 0
    && |Run(cfg, events).g.recs| >= MAX_TRACKED && 0 !in Run(cfg, events).g.recs
    && Times(Run(cfg, events), 0) == a
  }

  lemma {:induction false} CrowdFills(cfg: Config, n: nat)
    requires n <= MAX_TRACKED
    ensures var t := Run(cfg, Crowd(n));
            && (forall k :: k in t.g.recs ==> 1 <= k <= n) && |t.g.recs| == n
            && Times(t, 0) == [] && Monotonic(Crowd(n)) && Clock(Crowd(n)) == 0
  {
    hide Judge, Run, Monotonic, Clock;
    if n == 0 {
      assert Crowd(0) == [];
      EmptyRun(cfg);
    } else {
      CrowdFills(cfg, n - 1);
      assert Crowd(n) == Crowd(n - 1) + [Request(n, 0)];
      RunPush(cfg, Crowd(n - 1), Request(n, 0));
      var t, t' := Run(cfg, Crowd(n - 1)), Run(cfg, Crowd(n));
      assert t'.g.recs.Keys == t.g.recs.Keys + {n};
      assert |t'.g.recs.Keys| == |t.g.recs.Keys| + 1 && |t'.g.recs| == |t'.g.recs.Keys|;
    }
  }

  /** An object the table has no room for is allowed every repair. */
  lemma {:induction false} UntrackedIsUnlimited(cfg: Config, before: seq<Event>, n: nat)
    requires Crowded(cfg, before, [])
    ensures Crowded(cfg, before + Asks(0, n), Copies(0, n))
  {
    hide Run, Monotonic, Clock, Judge;
    if n == 0 {
      assert before + Asks(0, 0) == before;
    } else {
      UntrackedIsUnlimited(cfg, before, n - 1);
      var mid := before + Asks(0, n - 1);
      assert before + Asks(0, n) == mid + [Request(0, 0)];
      RunPush(cfg, mid, Request(0, 0));
      assert Copies(0, n) == Copies(0, n - 1) + [0];
    }
  }

  /** With 256 objects tracked, the next is repaired as often as asked, all at one instant. */
  lemma CrowdBreaks(cfg: Config, n: nat)
    requires n == MAX_TRACKED
    ensures !Promise(cfg, Crowd(n) + Asks(0, cfg.maxCount + 1), 0)
  {
    hide Run, Monotonic, Clock;
    CrowdFills(cfg, n);
    UntrackedIsUnlimited(cfg, Crowd(n), cfg.maxCount + 1);
    var a := Times(Run(cfg, Crowd(n) + Asks(0, cfg.maxCount + 1)), 0);
    assert a[0] == 0 && a[cfg.maxCount] == 0;
  }

  /** So no limit keeps the promise over all runs. */
  lemma NeverPromised(cfg: Config)
    ensures exists events, key :: !Promise(cfg, events, key)
  {
    hide Promise;
    CrowdBreaks(cfg, MAX_TRACKED);
  }

  lemma RunPush(cfg: Config, before: seq<Event>, e: Event)
    ensures Run(cfg, before + [e]) == Step(cfg, Run(cfg, before), e)
    ensures Monotonic(before + [e]) <==> Monotonic(before) && (e.Request? ==> Clock(before) <= e.now)
    ensures Clock(before + [e]) == if e.Request? then e.now else Clock(before)
  {
    hide Step;
    var events := before + [e];
    assert events[..|events| - 1] == before && events[|events| - 1] == e;
  }

  predicate Counts(cfg: Config, events: seq<Event>, start: nat, count: nat, a: seq<nat>) {
    var t := Run(cfg, events);
    && Monotonic(events) && 0 in t.g.recs && !t.g.recs[0].flapping
    && t.g.recs[0].start == start && t.g.recs[0].count == count > 0 && Times(t, 0) == a
  }

  /** One more request: counted in its window, or the first of another. */
  lemma AskAgain(cfg: Config, es: seq<Event>, now: nat, start: nat, count: nat, a: seq<nat>)
    requires Counts(cfg, es, start, count, a) && start <= now && Clock(es) <= now && cfg.maxCount > 0
    ensures var es' := es + [Request(0, now)];
            && Clock(es') == now
            && (now > start + WindowNs(cfg) ==> Counts(cfg, es', now, 1, a + [now]))
            && (now <= start + WindowNs(cfg) && count < cfg.maxCount ==> Counts(cfg, es', start, count + 1, a + [now]))
  {
    hide Run, WindowNs, Monotonic, Clock;
    RunPush(cfg, es, Request(0, now));
  }

  lemma OneCopyMore(t: nat, n: nat)
    ensures Copies(t, n + 1) == Copies(t, n) + [t] && Asks(t, n + 1) == Asks(t, n) + [Request(0, t)]
  {
  }

  /** Requests for one object inside one window are counted one by one. */
  lemma {:induction false} AsksCount(cfg: Config, es: seq<Event>, now: nat, n: nat, start: nat, count: nat, a: seq<nat>)
    requires Counts(cfg, es, start, count, a) && Clock(es) <= now
    requires start <= now <= start + WindowNs(cfg) && count + n <= cfg.maxCount
    ensures Counts(cfg, es + Asks(now, n), start, count + n, a + Copies(now, n))
    ensures Clock(es + Asks(now, n)) <= now
  {
    hide WindowNs, Clock, Counts;
    if n == 0 {
      assert es + Asks(now, n) == es && a + Copies(now, n) == a;
    } else {
      AsksCount(cfg, es, now, n - 1, start, count, a);
      AskAgain(cfg, es + Asks(now, n - 1), now, start, count + n - 1, a + Copies(now, n - 1));
      OneCopyMore(now, n - 1);
      assert es + Asks(now, n - 1) + [Request(0, now)] == es + Asks(now, n);
      assert a + Copies(now, n - 1) + [now] == a + Copies(now, n);
    }
  }

  /** The times of the burst: the second repair and the one a whole limit later are a window apart. */
  function BurstTimes(cfg: Config): seq<nat>
    requires cfg.maxCount > 0
  {
    [0] + Copies(WindowNs(cfg), cfg.maxCount - 1) + [WindowNs(cfg) + 1] + Copies(WindowNs(cfg) + 1, cfg.maxCount - 1)
  }

  lemma BurstCounts(cfg: Config)
    requires cfg.maxCount > 1 && cfg.windowMs > 0
    ensures Counts(cfg, Burst(cfg), WindowNs(cfg) + 1, cfg.maxCount, BurstTimes(cfg))
  {
    hide Run, WindowNs, Monotonic, Clock;
    var w, m := WindowNs(cfg), cfg.maxCount;
    WindowIsLong(cfg);
    FirstAsk(cfg);
    var first := [Request(0, 0)];
    AsksCount(cfg, first, w, m - 1, 0, 1, [0]);
    var second := first + Asks(w, m - 1);
    AskAgain(cfg, second, w + 1, 0, m, [0] + Copies(w, m - 1));
    var third := second + [Request(0, w + 1)];
    AsksCount(cfg, third, w + 1, m - 1, w + 1, 1, [0] + Copies(w, m - 1) + [w + 1]);
    assert third + Asks(w + 1, m - 1) == Burst(cfg);
  }

  lemma FirstAsk(cfg: Config)
    requires cfg.maxCount > 0
    ensures Counts(cfg, [Request(0, 0)], 0, 1, [0]) && Clock([Request(0, 0)]) == 0
  {
    EmptyRun(cfg);
    RunPush(cfg, [], Request(0, 0));
    hide Run, Monotonic, Clock;
    assert [] + [Request(0, 0)] == [Request(0, 0)];
  }

  lemma EmptyRun(cfg: Config)
    ensures Run(cfg, []) == START && Monotonic([]) && Clock([]) == 0
  {
  }

  lemma WindowIsLong(cfg: Config)
    requires cfg.windowMs > 0
    ensures WindowNs(cfg) >= 1
  {
  }
}
