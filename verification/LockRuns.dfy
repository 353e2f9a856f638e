// Whole runs of the ward's tick (android/jni/src/warden.rs): assess, burn the pool
// the assessment names, assess again, drive the edge machine. The device runs each
// interval under the verdict of the tick before it, while the charge is chosen at
// the tick that ends it, so the two are accounted for separately.

module LockRuns {
  import opened Seqs
  import opened ScheduleMeaning
  import opened WardSchedule
  import opened ExtensionLedger
  import opened LockDecision
  import EdgeMachine

  // The most seconds one tick may charge.
  const MAX_TICK_ELAPSED: nat := 300

  // Between two ticks: the ledger, the last tick's clock (None after a start), and
  // whether its verdict lets the device run.
  datatype Standing = Standing(ledger: Ledger, last: Option<int>, running: bool)

  // The inputs of a tick are assessed over the standing ledger.
  function Here(t: Inputs, l: Ledger): Inputs { t.(ledger := l) }

  // Clock seconds since the last tick; a clock that went back gives none.
  function Gap(s: Standing, now: int): nat {
    if s.last.None? || now < s.last.value then 0 else now - s.last.value
  }

  function Elapsed(s: Standing, now: int): nat { Min(Gap(s, now), MAX_TICK_ELAPSED) }

  function Burned(l: Ledger, day: string, elapsed: nat, free: bool, run: Run): Ledger {
    var l1 := if free then BurnSchedule(l, day, elapsed) else l;
    if run.NamedPool? then BurnTime(l1, day, run.id, elapsed) else l1
  }

  // The ledger once the interval has been charged.
  function Charged(s: Standing, t: Inputs): Ledger {
    var elapsed := Elapsed(s, t.now);
    if elapsed == 0 then s.ledger
    else
      var pre := Assess(Here(t, s.ledger));
      Burned(s.ledger, t.day, elapsed, pre.burnSchedulePool, pre.run)
  }

  function Next(s: Standing, t: Inputs): Standing {
    var l := Charged(s, t);
    Standing(l, Some(t.now), !Assess(Here(t, l)).rem.locked)
  }

  function After(s: Standing, ticks: seq<Inputs>): Standing
    decreases |ticks|
  {
    if ticks == [] then s else After(Next(s, ticks[0]), ticks[1..])
  }

  class Warden {
    var ledger: Ledger
    var last: Option<int>
    ghost var running: bool
    const edge: EdgeMachine.EdgeMachine

    ghost function State(): Standing
      reads this
    {
      Standing(ledger, last, running)
    }

    constructor (l: Ledger)
      ensures State() == Standing(l, None, false)
      ensures edge.State() == EdgeMachine.FRESH && fresh(edge)
    {
      ledger, last, running := l, None, false;
      edge := new EdgeMachine.EdgeMachine();
    }

    method ElapsedSince(now: int) returns (elapsed: nat)
      ensures elapsed == Elapsed(State(), now)
    {
      if last.None? { return 0; }
      var d := now - last.value;
      elapsed := if d < 0 then 0 else if d > MAX_TICK_ELAPSED then MAX_TICK_ELAPSED else d;
    }

    method Tick(t: Inputs) returns (v: Verdict, effs: seq<EdgeMachine.Effect>)
      modifies this, edge
      ensures State() == Next(old(State()), t)
      ensures v == Assess(Here(t, ledger)) && running == !v.rem.locked
      ensures edge.State() == EdgeMachine.Next(old(edge.State()), v.rem)
      ensures effs == EdgeMachine.Effects(old(edge.State()), v.rem)
    {
      var elapsed := ElapsedSince(t.now);
      if elapsed > 0 {
        var pre := Assess(Here(t, ledger));
        if pre.burnSchedulePool {
          ledger := BurnSchedule(ledger, t.day, elapsed);
        }
        if pre.run.NamedPool? {
          ledger := BurnTime(ledger, t.day, pre.run.id, elapsed);
        }
      }
      v := Assess(Here(t, ledger));
      effs := edge.Tick(v.rem);
      last := Some(t.now);
      running := !v.rem.locked;
    }
  }

  // --- what an interval ran and what was taken for it ---------------------------------

  datatype Pool = FreePool | TimePoolOf(id: string)

  function FreeLeft(l: Ledger): nat { SatSub(l.scheduleSecs, l.scheduleConsumed) }

  function TimeLeftOf(l: Ledger, id: string): nat {
    if id in l.timePools then PoolLeft(l.timePools[id]) else 0
  }

  function Left(l: Ledger, p: Pool): nat {
    if p.FreePool? then FreeLeft(l) else TimeLeftOf(l, p.id)
  }

  // The pool a closed tick charges: the named one its assessment runs, else Free's,
  // locked or not.
  function ChargedPool(s: Standing, t: Inputs): Pool {
    var pre := Assess(Here(t, s.ledger));
    if pre.run.NamedPool? then TimePoolOf(pre.run.id) else FreePool
  }

  // What that pool holds today, before the tick.
  function Holds(s: Standing, t: Inputs): nat {
    if t.day == s.ledger.dayKey then Left(s.ledger, ChargedPool(s, t)) else 0
  }

  // Seconds the device ran since the last tick, under that tick's verdict.
  function Ran(s: Standing, t: Inputs): nat { if s.running then Gap(s, t.now) else 0 }

  function Taken(s: Standing, t: Inputs): nat { Min(Elapsed(s, t.now), Holds(s, t)) }

  // Run but not taken from any pool; taken though the device did not run.
  function Short(s: Standing, t: Inputs): nat { SatSub(Ran(s, t), Taken(s, t)) }
  function Over(s: Standing, t: Inputs): nat { SatSub(Taken(s, t), Ran(s, t)) }

  function Sum(f: (Standing, Inputs) -> nat, s: Standing, ticks: seq<Inputs>): nat
    decreases |ticks|
  {
    if ticks == [] then 0 else f(s, ticks[0]) + Sum(f, Next(s, ticks[0]), ticks[1..])
  }

  // The schedule is closed at every tick, and the device's times do not change.
  predicate ClosedTick(t: Inputs, times: seq<NamedTime>) {
    WellFormed(t) && ScheduleClosed(t) && t.times == Some(times)
  }

  predicate ClosedRun(ticks: seq<Inputs>, times: seq<NamedTime>) {
    forall k :: 0 <= k < |ticks| ==> ClosedTick(ticks[k], times)
  }

  predicate OneDay(ticks: seq<Inputs>, day: string) {
    forall k :: 0 <= k < |ticks| ==> ticks[k].day == day
  }

  // A pool's worth when it may be overrun by up to step-1 seconds at its end.
  function Worth(left: nat, step: nat): nat
    requires step >= 1
  {
    if left == 0 then 0 else left + step - 1
  }

  function TimesWorth(l: Ledger, ids: seq<string>, step: nat): nat
    requires step >= 1
  {
    if ids == [] then 0 else Worth(TimeLeftOf(l, ids[0]), step) + TimesWorth(l, ids[1..], step)
  }

  function IdsOf(times: seq<NamedTime>): (r: seq<string>)
    ensures NoDup(r)
  {
    Distinct(Map((t: NamedTime) => t.id, times))
  }

  // All that may run while the schedule stays closed: Free's pool and the pools of
  // the defined times.
  function PoolsWorth(l: Ledger, times: seq<NamedTime>, step: nat): nat
    requires step >= 1
  {
    Worth(FreeLeft(l), step) + TimesWorth(l, IdsOf(times), step)
  }

  // ... in plain seconds.
  function PoolsLeft(l: Ledger, times: seq<NamedTime>): nat { PoolsWorth(l, times, 1) }

  lemma IdsOfAreKnown(times: seq<NamedTime>, id: string)
    requires id in KnownIds(Some(times))
    ensures id in IdsOf(times)
  {
    var t :| t in times && t.id == id;
    var k :| 0 <= k < |times| && times[k] == t;
    var ids := Map((t: NamedTime) => t.id, times);
    assert ids[k] == id;
  }

  // --- one charge ---------------------------------------------------------------------

  lemma BurnScheduleTakes(l: Ledger, day: string, n: nat, id: string)
    ensures FreeLeft(BurnSchedule(l, day, n)) == if day == l.dayKey then SatSub(FreeLeft(l), n) else 0
    ensures TimeLeftOf(BurnSchedule(l, day, n), id) == if day == l.dayKey then TimeLeftOf(l, id) else 0
  {
  }

  lemma BurnTimeTakes(l: Ledger, day: string, burned: string, n: nat, id: string)
    ensures FreeLeft(BurnTime(l, day, burned, n)) == if day == l.dayKey then FreeLeft(l) else 0
    ensures TimeLeftOf(BurnTime(l, day, burned, n), id)
         == if day != l.dayKey then 0
            else if id == burned then SatSub(TimeLeftOf(l, id), n) else TimeLeftOf(l, id)
  {
  }

  // A closed tick names exactly one pool, and a named one is a defined time's.
  lemma ClosedTickCharges(l: Ledger, t: Inputs, times: seq<NamedTime>)
    requires ClosedTick(t, times)
    ensures var v := Assess(Here(t, l));
      && v.burnSchedulePool == v.run.WindowRun?
      && (v.run.NamedPool? ==> v.run.id in KnownIds(Some(times)))
  {
    assert ScheduleClosed(Here(t, l));
  }

  // A closed tick takes its seconds, or all that is left, from the one pool it
  // charges; on the ledger's day every other pool keeps what it had.
  lemma TickChargesOnePool(s: Standing, t: Inputs, times: seq<NamedTime>, p: Pool)
    requires ClosedTick(t, times) && t.day == s.ledger.dayKey
    ensures Left(Charged(s, t), p) == Left(s.ledger, p) - if p == ChargedPool(s, t) then Taken(s, t) else 0
    ensures Charged(s, t).dayKey == s.ledger.dayKey
  {
    ClosedTickCharges(s.ledger, t, times);
    var v := Assess(Here(t, s.ledger));
    var id := if p.TimePoolOf? then p.id else "";
    BurnScheduleTakes(s.ledger, t.day, Elapsed(s, t.now), id);
    if v.run.NamedPool? { BurnTimeTakes(s.ledger, t.day, v.run.id, Elapsed(s, t.now), id); }
  }

  // On a new day a charge finds the pools gone.
  lemma NewDayClearsPools(s: Standing, t: Inputs, times: seq<NamedTime>, p: Pool)
    requires ClosedTick(t, times) && t.day != s.ledger.dayKey
    ensures Left(Charged(s, t), p) <= Left(s.ledger, p) && Taken(s, t) == 0
  {
    ClosedTickCharges(s.ledger, t, times);
    var v := Assess(Here(t, s.ledger));
    var id := if p.TimePoolOf? then p.id else "";
    BurnScheduleTakes(s.ledger, t.day, Elapsed(s, t.now), id);
    if v.run.NamedPool? { BurnTimeTakes(s.ledger, t.day, v.run.id, Elapsed(s, t.now), id); }
  }

  lemma {:induction false} TimesWorthMonotone(l: Ledger, m: Ledger, ids: seq<string>, step: nat)
    requires step >= 1
    requires forall id :: id in ids ==> TimeLeftOf(m, id) <= TimeLeftOf(l, id)
    ensures TimesWorth(m, ids, step) <= TimesWorth(l, ids, step)
  {
    if ids != [] {
      assert ids[0] in ids;
      TimesWorthMonotone(l, m, ids[1..], step);
    }
  }

  lemma {:induction false} TimesWorthSame(l: Ledger, m: Ledger, ids: seq<string>, step: nat)
    requires step >= 1 && forall id :: id in ids ==> TimeLeftOf(m, id) == TimeLeftOf(l, id)
    ensures TimesWorth(m, ids, step) == TimesWorth(l, ids, step)
  {
    if ids != [] {
      assert ids[0] in ids;
      TimesWorthSame(l, m, ids[1..], step);
    }
  }

  // If one listed pool changes, the total changes by that pool's worth.
  lemma {:induction false} TimesWorthChanges(l: Ledger, m: Ledger, ids: seq<string>, step: nat, id: string)
    requires step >= 1 && id in ids && NoDup(ids)
    requires forall j :: j in ids && j != id ==> TimeLeftOf(m, j) == TimeLeftOf(l, j)
    ensures TimesWorth(m, ids, step) - TimesWorth(l, ids, step)
         == Worth(TimeLeftOf(m, id), step) - Worth(TimeLeftOf(l, id), step)
  {
    assert ids[0] in ids;
    assert ids[0] !in ids[1..];
    if ids[0] == id {
      TimesWorthSame(l, m, ids[1..], step);
    } else {
      TimesWorthChanges(l, m, ids[1..], step, id);
    }
  }

  // The pools' total changes by what the charged pool's worth does.
  lemma TickChangesTheWorth(s: Standing, t: Inputs, times: seq<NamedTime>, step: nat)
    requires step >= 1 && ClosedTick(t, times) && t.day == s.ledger.dayKey
    ensures PoolsWorth(s.ledger, times, step) - PoolsWorth(Charged(s, t), times, step)
         == Worth(Holds(s, t), step) - Worth(Holds(s, t) - Taken(s, t), step)
  {
    var l, m, ids, p := s.ledger, Charged(s, t), IdsOf(times), ChargedPool(s, t);
    TickChargesOnePool(s, t, times, FreePool);
    TickChargesOnePool(s, t, times, p);
    forall id ensures TimeLeftOf(m, id) == TimeLeftOf(l, id) - if p == TimePoolOf(id) then Taken(s, t) else 0 {
      TickChargesOnePool(s, t, times, TimePoolOf(id));
    }
    if p.TimePoolOf? {
      ClosedTickCharges(l, t, times);
      IdsOfAreKnown(times, p.id);
      TimesWorthChanges(l, m, ids, step, p.id);
    } else {
      TimesWorthSame(l, m, ids, step);
    }
  }

  lemma WorthNeverGrows(s: Standing, t: Inputs, times: seq<NamedTime>, step: nat)
    requires step >= 1 && ClosedTick(t, times)
    ensures PoolsWorth(Charged(s, t), times, step) <= PoolsWorth(s.ledger, times, step)
  {
    if t.day == s.ledger.dayKey {
      TickChangesTheWorth(s, t, times, step);
    } else {
      NewDayClearsPools(s, t, times, FreePool);
      forall id ensures TimeLeftOf(Charged(s, t), id) <= TimeLeftOf(s.ledger, id) {
        NewDayClearsPools(s, t, times, TimePoolOf(id));
      }
      TimesWorthMonotone(s.ledger, Charged(s, t), IdsOf(times), step);
    }
  }

  lemma RestIsClosed(ticks: seq<Inputs>, times: seq<NamedTime>)
    requires ticks != [] && ClosedRun(ticks, times)
    ensures ClosedTick(ticks[0], times) && ClosedRun(ticks[1..], times)
  {
    assert forall k :: 0 <= k < |ticks[1..]| ==> ticks[1..][k] == ticks[k + 1];
  }

  // --- exact accounts --------------------------------------------------------------------

  // The books of a tick: what ran and is left, plus what was charged for nothing, is
  // what there was plus what ran for nothing; a new day only loses pools.
  lemma TickBalances(s: Standing, t: Inputs, times: seq<NamedTime>)
    requires ClosedTick(t, times)
    ensures var end, start := PoolsLeft(Charged(s, t), times), PoolsLeft(s.ledger, times);
      && Ran(s, t) + end + Over(s, t) <= start + Short(s, t)
      && (t.day == s.ledger.dayKey ==> Ran(s, t) + end + Over(s, t) == start + Short(s, t))
  {
    if t.day == s.ledger.dayKey {
      TickChangesTheWorth(s, t, times, 1);
    } else {
      WorthNeverGrows(s, t, times, 1);
    }
  }

  // Over every closed run without grants, whatever the budget, the stand-downs and the
  // clock do: the seconds the device ran are what the pools lost, plus the seconds it
  // ran unpaid, less those charged while it did not run. Across a change of day the
  // pools may lose more.
  lemma {:induction false} ExactAccount(s: Standing, ticks: seq<Inputs>, times: seq<NamedTime>)
    requires ClosedRun(ticks, times)
    ensures var end, start := PoolsLeft(After(s, ticks).ledger, times), PoolsLeft(s.ledger, times);
      && Sum(Ran, s, ticks) + end + Sum(Over, s, ticks) <= start + Sum(Short, s, ticks)
      && (OneDay(ticks, s.ledger.dayKey) ==>
            Sum(Ran, s, ticks) + end + Sum(Over, s, ticks) == start + Sum(Short, s, ticks))
    decreases |ticks|
  {
    if ticks != [] {
      RestIsClosed(ticks, times);
      TickBalances(s, ticks[0], times);
      ExactAccount(Next(s, ticks[0]), ticks[1..], times);
      if OneDay(ticks, s.ledger.dayKey) {
        assert ticks[0].day == s.ledger.dayKey;
        TickChargesOnePool(s, ticks[0], times, FreePool);
        assert OneDay(ticks[1..], s.ledger.dayKey) by {
          assert forall k :: 0 <= k < |ticks[1..]| ==> ticks[1..][k] == ticks[k + 1];
        }
      }
    }
  }

  // An interval run under an unlocked verdict is no longer than a tick may charge, nor
  // than what the pool charged for it holds.
  predicate Covered(s: Standing, t: Inputs) {
    s.running ==> Gap(s, t.now) <= MAX_TICK_ELAPSED && Gap(s, t.now) <= Holds(s, t)
  }

  predicate AllCovered(s: Standing, ticks: seq<Inputs>)
    decreases |ticks|
  {
    ticks == [] || (Covered(s, ticks[0]) && AllCovered(Next(s, ticks[0]), ticks[1..]))
  }

  // Every second the device ran is paid for exactly when every interval is covered.
  lemma {:induction false} PaidExactlyWhenCovered(s: Standing, ticks: seq<Inputs>)
    ensures Sum(Short, s, ticks) == 0 <==> AllCovered(s, ticks)
    decreases |ticks|
  {
    if ticks != [] { PaidExactlyWhenCovered(Next(s, ticks[0]), ticks[1..]); }
  }

  // Then the device never ran longer than the pools it started with allow.
  lemma CoveredRunStaysWithinThePools(s: Standing, ticks: seq<Inputs>, times: seq<NamedTime>)
    requires ClosedRun(ticks, times) && AllCovered(s, ticks)
    ensures Sum(Ran, s, ticks) + PoolsLeft(After(s, ticks).ledger, times) <= PoolsLeft(s.ledger, times)
  {
    PaidExactlyWhenCovered(s, ticks);
    ExactAccount(s, ticks, times);
  }

  // --- steady ticking --------------------------------------------------------------------

  // A tick that comes no later than the verdict in force promised, and within the cap,
  // is covered if it charges the pool that verdict ran on.
  lemma PromptTickIsCovered(before: Standing, t: Inputs, u: Inputs, times: seq<NamedTime>)
    requires ClosedTick(t, times) && ClosedTick(u, times)
    requires var s := Next(before, t);
      && u.day == t.day
      && Gap(s, u.now) <= MAX_TICK_ELAPSED && (s.running ==> Gap(s, u.now) <= Assess(Here(t, s.ledger)).rem.effective)
      && Assess(Here(u, s.ledger)).run == Assess(Here(t, s.ledger)).run
    ensures Covered(Next(before, t), u)
  {
    var s := Next(before, t);
    if s.running {
      var here := Here(t, s.ledger);
      assert ScheduleClosed(here);
      ClosedOpensOnlyFromPools(here);
    }
  }

  // The tick comes within the cap, and within `step` seconds or before the pool it
  // charges runs dry.
  predicate PacedTick(s: Standing, t: Inputs, step: nat) {
    s.running ==>
      Gap(s, t.now) <= MAX_TICK_ELAPSED && (Gap(s, t.now) <= step || Gap(s, t.now) <= Holds(s, t))
  }

  predicate Paced(s: Standing, ticks: seq<Inputs>, step: nat)
    decreases |ticks|
  {
    ticks == [] || (PacedTick(s, ticks[0], step) && Paced(Next(s, ticks[0]), ticks[1..], step))
  }

  // Seconds run up to a tick that finds nothing in the pool it charges: a stand-down,
  // a spent budget or a new day has come between.
  function CutOff(s: Standing, t: Inputs): nat { if Holds(s, t) == 0 then Ran(s, t) else 0 }

  lemma TickTakesItsSeconds(s: Standing, t: Inputs, times: seq<NamedTime>, step: nat)
    requires step >= 1 && ClosedTick(t, times)
    requires PacedTick(s, t, step)
    ensures Ran(s, t) + PoolsWorth(Charged(s, t), times, step) <= PoolsWorth(s.ledger, times, step) + CutOff(s, t)
  {
    WorthNeverGrows(s, t, times, step);
    if Holds(s, t) > 0 { TickChangesTheWorth(s, t, times, step); }
  }

  // Over every paced closed run the seconds the device ran are paid for by the pools,
  // each overrun only by the tick that empties it, but for the intervals that a
  // stand-down, the budget or a new day cut off. At one tick a second, with nothing
  // cut off, that is the pools' exact total.
  lemma {:induction false} ClosedRunIsPaidFor(s: Standing, ticks: seq<Inputs>, times: seq<NamedTime>, step: nat)
    requires step >= 1 && ClosedRun(ticks, times) && Paced(s, ticks, step)
    ensures Sum(Ran, s, ticks) + PoolsWorth(After(s, ticks).ledger, times, step)
         <= PoolsWorth(s.ledger, times, step) + Sum(CutOff, s, ticks)
    decreases |ticks|
  {
    if ticks != [] {
      RestIsClosed(ticks, times);
      TickTakesItsSeconds(s, ticks[0], times, step);
      ClosedRunIsPaidFor(Next(s, ticks[0]), ticks[1..], times, step);
    }
  }

  // Once those pools are empty every later verdict of a closed run is locked.
  lemma {:induction false} EmptyPoolsStayLocked(s: Standing, ticks: seq<Inputs>, times: seq<NamedTime>)
    requires ClosedRun(ticks, times) && PoolsLeft(s.ledger, times) == 0
    ensures PoolsLeft(After(s, ticks).ledger, times) == 0
    ensures ticks != [] ==> !After(s, ticks).running
    decreases |ticks|
  {
    if ticks != [] {
      RestIsClosed(ticks, times);
      WorthNeverGrows(s, ticks[0], times, 1);
      EmptyPoolsLockNow(Charged(s, ticks[0]), ticks[0], times);
      EmptyPoolsStayLocked(Next(s, ticks[0]), ticks[1..], times);
    }
  }

  lemma EmptyPoolsLockNow(l: Ledger, t: Inputs, times: seq<NamedTime>)
    requires ClosedTick(t, times) && PoolsLeft(l, times) == 0
    ensures Assess(Here(t, l)).rem.locked
  {
    var here := Here(t, l);
    if !Assess(here).rem.locked {
      assert ScheduleClosed(here);
      ClosedOpensOnlyFromPools(here);
      if Assess(here).run.NamedPool? {
        var id := Assess(here).run.id;
        IdsOfAreKnown(times, id);
        WorthOfOne(l, IdsOf(times), id);
      }
      assert false;
    }
  }

  lemma {:induction false} WorthOfOne(l: Ledger, ids: seq<string>, id: string)
    requires id in ids
    ensures TimeLeftOf(l, id) <= TimesWorth(l, ids, 1)
  {
    if ids[0] != id { WorthOfOne(l, ids[1..], id); }
  }

  // --- four intervals that are not covered --------------------------------------------------

  const PAUSED := WireSchedule(1, "UTC", Some(true), map[], None)

  function At(now: int, l: Ledger, times: seq<NamedTime>, standDown: Option<int>, zone: Zone): Inputs {
    Inputs(now, Some(PAUSED), Some(times), NO_QUOTA, l, "monday", 50_000, standDown, zone)
  }

  lemma PausedIsClosed(now: int, l: Ledger, times: seq<NamedTime>, standDown: Option<int>, zone: Zone)
    ensures Status(At(now, l, times, standDown, zone)) == Some(Closed(Paused, None))
    ensures ClosedTick(At(now, l, times, standDown, zone), times)
  {
    assert !HasTaggedWindow(PAUSED);
  }

  lemma SumOfTwo(f: (Standing, Inputs) -> nat, s: Standing, t: Inputs, u: Inputs)
    ensures Sum(f, s, [t, u]) == f(s, t) + f(Next(s, t), u)
    ensures After(s, [t, u]) == Next(Next(s, t), u)
  {
    assert [t, u][1..] == [u] && [u][1..] == [];
    assert Sum(f, Next(s, t), [u]) == f(Next(s, t), u);
    assert After(Next(s, t), [u]) == Next(Next(s, t), u);
  }

  function FreeGrant(secs: nat): Ledger { RawLedger("monday", secs, 0, 0, 0, 0, map[], 0) }

  // A start, then a tick `gap` seconds later, on a grant of Free time.
  lemma FreeGrantInterval(grant: nat, gap: nat, zone: Zone)
    requires 0 < grant <= 50_000
    ensures var l := FreeGrant(grant);
      var s := Standing(l, None, false);
      var t, u := At(0, l, [], None, zone), At(gap, l, [], None, zone);
      && Next(s, t) == Standing(l, Some(0), true) && Assess(Here(t, l)).rem.effective == grant
      && Ran(Next(s, t), u) == gap && Holds(Next(s, t), u) == grant
      && Sum(Ran, s, [t, u]) == gap && Sum(Short, s, [t, u]) == SatSub(gap, Min(Min(gap, MAX_TICK_ELAPSED), grant))
  {
    var l := FreeGrant(grant);
    var s := Standing(l, None, false);
    var t, u := At(0, l, [], None, zone), At(gap, l, [], None, zone);
    PausedIsClosed(0, l, [], None, zone);
    PausedIsClosed(gap, l, [], None, zone);
    assert Charged(s, t) == l;
    assert Assess(Here(t, l)).rem.effective == grant;
    assert Assess(Here(u, l)).run.WindowRun?;
    SumOfTwo(Ran, s, t, u);
    SumOfTwo(Short, s, t, u);
  }

  // A long gap: 1000 seconds inside a grant of 6000, promised, and 700 of them unpaid,
  // for a tick charges 300 at most.
  lemma LongGapIsUnpaid(zone: Zone)
    ensures var l := FreeGrant(6000);
      var s := Standing(l, None, false);
      var ticks := [At(0, l, [], None, zone), At(1000, l, [], None, zone)];
      Sum(Ran, s, ticks) == 1000 && Sum(Short, s, ticks) == 700
  {
    FreeGrantInterval(6000, 1000, zone);
  }

  // A late tick: a minute's grant found spent 100 seconds later has let the device run
  // for 100.
  lemma SlowTickOverruns(zone: Zone)
    ensures var l := FreeGrant(60);
      var s := Standing(l, None, false);
      var ticks := [At(0, l, [], None, zone), At(100, l, [], None, zone)];
      Sum(Ran, s, ticks) == 100 && Sum(Short, s, ticks) == 40
  {
    FreeGrantInterval(60, 100, zone);
  }

  function NamedGrant(secs: nat): Ledger { RawLedger("monday", 0, 0, 0, 0, 0, map["a" := TimePool(secs, 0, 1)], 1) }

  // A stand-down that bites at the tick: the minute before it ran on a named pool, and
  // that pool is not charged for it.
  lemma StandDownIntervalIsUnpaid(zone: Zone)
    ensures var l, times := NamedGrant(3600), [NamedTime("a", "A", None)];
      var s := Standing(l, None, false);
      var ticks := [At(0, l, times, Some(60), zone), At(60, l, times, Some(0), zone)];
      Sum(Ran, s, ticks) == 60 && Sum(Short, s, ticks) == 60 && After(s, ticks).ledger == l
  {
    var l, times := NamedGrant(3600), [NamedTime("a", "A", None)];
    var s := Standing(l, None, false);
    var t, u := At(0, l, times, Some(60), zone), At(60, l, times, Some(0), zone);
    PausedIsClosed(0, l, times, Some(60), zone);
    PausedIsClosed(60, l, times, Some(0), zone);
    assert Charged(s, t) == l;
    assert "a" in KnownIds(Some(times)) by { assert times[0] in times; }
    assert Runnable(l, KnownIds(Some(times)), "a");
    assert IsMostRecent(l, "monday", KnownIds(Some(times)), "a");
    MostRecentIsUnique(l, "monday", KnownIds(Some(times)), "a");
    assert Assess(Here(t, l)).run == NamedPool("a");
    FailSafeLocks(Here(u, l));
    SumOfTwo(Ran, s, t, u);
    SumOfTwo(Short, s, t, u);
  }

  // The other way round, a stand-down's own seconds burn Free's grant though the device
  // is locked.
  lemma LockedIntervalIsCharged(zone: Zone)
    ensures var l := FreeGrant(600);
      var s := Standing(l, None, false);
      var ticks := [At(0, l, [], Some(0), zone), At(100, l, [], Some(0), zone)];
      Sum(Ran, s, ticks) == 0 && Sum(Over, s, ticks) == 100
  {
    var l := FreeGrant(600);
    var s := Standing(l, None, false);
    var t, u := At(0, l, [], Some(0), zone), At(100, l, [], Some(0), zone);
    PausedIsClosed(0, l, [], Some(0), zone);
    PausedIsClosed(100, l, [], Some(0), zone);
    FailSafeLocks(Here(t, l));
    FailSafeLocks(Here(u, l));
    SumOfTwo(Ran, s, t, u);
    SumOfTwo(Over, s, t, u);
  }
}
