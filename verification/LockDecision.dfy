// The Android lock decision (android/jni/src/times.rs `assess`) over the
// today-only extension ledger (core/crates/charter-schedule/src/extension.rs).

module ExtensionLedger {
  import opened Seqs

  datatype TimePool = TimePool(secs: nat, consumed: nat, seqNo: nat)

  // The day key is computed by the caller from the ledger's own zone.
  datatype RawLedger = RawLedger(
    dayKey: string,
    scheduleSecs: nat,
    scheduleConsumed: nat,
    scheduleDeduct: nat,
    budgetSecs: nat,
    budgetDeduct: nat,
    timePools: map<string, TimePool>,
    topupSeq: nat)

  // Top-up numbers are unique, so "most recently topped up" is one pool, and no
  // pool is burned past what it holds.
  predicate Ordered(l: RawLedger) {
    && (forall i, j :: i in l.timePools && j in l.timePools && i != j ==>
          l.timePools[i].seqNo != l.timePools[j].seqNo)
    && (forall i :: i in l.timePools ==>
          l.timePools[i].seqNo <= l.topupSeq && l.timePools[i].consumed <= l.timePools[i].secs)
    && l.scheduleConsumed <= l.scheduleSecs
  }

  // Every operation below returns a ledger, so every operation keeps this.
  type Ledger = l: RawLedger | Ordered(l) witness RawLedger("", 0, 0, 0, 0, 0, map[], 0)

  function SatSub(a: nat, b: nat): nat { if a < b then 0 else a - b }

  function Min(a: int, b: int): int { if a < b then a else b }

  function Rolled(l: Ledger, day: string): Ledger {
    if day != l.dayKey then RawLedger(day, 0, 0, 0, 0, 0, map[], 0) else l
  }

  function ScheduleExtra(l: Ledger, day: string): nat {
    if day != l.dayKey then 0 else SatSub(l.scheduleSecs, l.scheduleConsumed)
  }

  function ScheduleDeducted(l: Ledger, day: string): nat {
    if day != l.dayKey then 0 else l.scheduleDeduct
  }

  function PoolLeft(p: TimePool): nat { SatSub(p.secs, p.consumed) }

  function TimeExtra(l: Ledger, day: string, id: string): nat {
    if day != l.dayKey || id !in l.timePools then 0 else PoolLeft(l.timePools[id])
  }

  function BurnSchedule(l: Ledger, day: string, elapsed: nat): Ledger {
    var r := Rolled(l, day);
    if r.scheduleConsumed < r.scheduleSecs
    then r.(scheduleConsumed := Min(r.scheduleConsumed + elapsed, r.scheduleSecs))
    else r
  }

  function BurnTime(l: Ledger, day: string, id: string, elapsed: nat): Ledger {
    var r := Rolled(l, day);
    if id in r.timePools then
      var p := r.timePools[id];
      r.(timePools := r.timePools[id := p.(consumed := Min(p.consumed + elapsed, p.secs))])
    else r
  }

  // A grant to a named time's pool (its request id already found to be new).
  function TopUpTime(l: Ledger, day: string, id: string, minutes: nat): Ledger {
    var r := Rolled(l, day);
    var p := if id in r.timePools then r.timePools[id] else TimePool(0, 0, 0);
    r.(topupSeq := r.topupSeq + 1,
       timePools := r.timePools[id := p.(secs := p.secs + minutes * 60, seqNo := r.topupSeq + 1)])
  }

  // A grant to Free's schedule pool.
  function TopUpSchedule(l: Ledger, day: string, minutes: nat): Ledger {
    var r := Rolled(l, day);
    r.(scheduleSecs := r.scheduleSecs + minutes * 60)
  }

  // A pool the device may run: known, and with seconds left.
  predicate Runnable(l: Ledger, known: set<string>, id: string) {
    id in l.timePools && id in known && l.timePools[id].secs > l.timePools[id].consumed
  }

  predicate IsMostRecent(l: Ledger, day: string, known: set<string>, id: string) {
    && day == l.dayKey && Runnable(l, known, id)
    && forall j :: j in l.timePools && Runnable(l, known, j) ==> l.timePools[j].seqNo <= l.timePools[id].seqNo
  }

  // The runnable pool with the highest top-up number.
  function MostRecent(l: Ledger, day: string, known: set<string>): (r: Option<string>)
    ensures r.Some? ==> IsMostRecent(l, day, known, r.value)
    ensures r.None? ==> day != l.dayKey || forall j :: !Runnable(l, known, j)
  {
    if day != l.dayKey then None
    else
      var ids := set j | j in l.timePools && Runnable(l, known, j);
      assert forall j :: Runnable(l, known, j) ==> j in ids;
      if ids == {} then None
      else
        HasLatest(l.timePools, ids);
        var id :| IsLatest(l.timePools, ids, id);
        Some(id)
  }

  predicate IsLatest(pools: map<string, TimePool>, ids: set<string>, id: string)
    requires ids <= pools.Keys
  {
    id in ids && forall j :: j in ids ==> pools[j].seqNo <= pools[id].seqNo
  }

  lemma {:induction false} HasLatest(pools: map<string, TimePool>, ids: set<string>)
    requires ids != {} && ids <= pools.Keys
    ensures exists id :: IsLatest(pools, ids, id)
    decreases ids
  {
    var x :| x in ids;
    var rest := ids - {x};
    if rest == {} {
      assert IsLatest(pools, ids, x) by { assert forall j :: j in ids && j != x ==> j in rest; }
    } else {
      HasLatest(pools, rest);
      var y :| IsLatest(pools, rest, y);
      var best := if pools[x].seqNo <= pools[y].seqNo then y else x;
      assert forall j :: j in ids ==> j == x || j in rest;
      assert IsLatest(pools, ids, best);
    }
  }

  lemma MostRecentIsUnique(l: Ledger, day: string, known: set<string>, a: string)
    requires IsMostRecent(l, day, known, a)
    ensures MostRecent(l, day, known) == Some(a)
  {
    var r := MostRecent(l, day, known);
    assert r.Some?;
    assert l.timePools[r.value].seqNo == l.timePools[a].seqNo;
  }
}

module LockDecision {
  import opened Seqs
  import opened ScheduleMeaning
  import opened WardSchedule
  import opened ExtensionLedger

  datatype LockReason = MalformedLock | StandDownLock | ScheduleLock | BudgetLock

  datatype Run = WindowRun | NamedPool(id: string)

  // `-1` is "no cap": the budget dimension as the quota arithmetic gives it.
  datatype Quota = Quota(secs: int, day: int, week: int)

  const NO_QUOTA := Quota(-1, -1, -1)

  datatype Remaining = Remaining(
    effective: int,
    scheduleSecs: int,
    budgetSecs: int,
    extensionSecs: int,
    locked: bool,
    reason: Option<LockReason>,
    nextOpen: Option<nat>,
    budgetDay: int,
    budgetWeek: int)

  // `quota` is the budget's answer when usage counts; `eod` how many seconds
  // are left of today; `day` the ledger's day key for `now`; `standDown` the seconds
  // until a stand-down bites, if one is in force.
  datatype Inputs = Inputs(
    now: int,
    schedule: Option<WireSchedule>,
    times: Option<seq<NamedTime>>,
    quota: Quota,
    ledger: Ledger,
    day: string,
    eod: nat,
    standDown: Option<int>,
    zone: Zone)

  datatype Verdict = Verdict(
    rem: Remaining,
    activeTime: Option<string>,
    run: Run,
    status: Option<TimedStatus>,
    countsAgainstBudget: bool,
    burnSchedulePool: bool)

  predicate WellFormed(inp: Inputs) {
    inp.quota.secs >= -1
  }

  function MinUnbounded(a: int, b: int): int {
    if a < 0 && b < 0 then -1 else if a < 0 then b else if b < 0 then a else Min(a, b)
  }

  function Defined(times: Option<seq<NamedTime>>, id: string): Option<NamedTime> {
    if times.None? then None else TimeOf(times.value, id)
  }

  predicate Counts(t: NamedTime) { t.countsAgainstBudget == Some(true) }

  function Status(inp: Inputs): Option<TimedStatus> {
    if inp.schedule.None? then None
    else Some(StatusOf(inp.schedule.value, inp.times, inp.zone, inp.now))
  }

  // The named time the window itself names.
  function WindowNamed(inp: Inputs): Option<NamedTime> {
    match Status(inp)
    case Some(Open(Some(id), _)) => Defined(inp.times, id)
    case _ => None
  }

  predicate WindowCounts(inp: Inputs) {
    var n := WindowNamed(inp);
    n.None? || Counts(n.value)
  }

  function BudgetPart(inp: Inputs): Quota {
    if WindowCounts(inp) then inp.quota else NO_QUOTA
  }

  // Free's pool carries on past this span's end: the span is Free and what
  // follows is not another open span (or no window is tagged at all).
  predicate PoolExtendsSpan(inp: Inputs, time: Option<string>, spanEnd: int) {
    && time.None?
    && (inp.schedule.None? || !HasTaggedWindow(inp.schedule.value)
        || !StatusOf(inp.schedule.value, inp.times, inp.zone, spanEnd).Open?)
  }

  function ScheduleSecs(inp: Inputs): int {
    var ext, ded := ScheduleExtra(inp.ledger, inp.day), ScheduleDeducted(inp.ledger, inp.day);
    match Status(inp)
    case None => -1
    case Some(Unbounded) => -1
    case Some(Unparseable) => 0
    case Some(Open(time, spanEnd)) =>
      var base := Max(spanEnd - inp.now, 0);
      if PoolExtendsSpan(inp, time, spanEnd)
      then Min(SatSub(base + ext, ded), inp.eod)
      else Min(base, inp.eod)
    case Some(Closed(_, _)) => Min(SatSub(ext, ded), inp.eod)
  }

  predicate ScheduleClosed(inp: Inputs) {
    Status(inp).Some? && Status(inp).value.Closed?
  }

  predicate Malformed(inp: Inputs) { Status(inp) == Some(Unparseable) }

  function StandDownCap(inp: Inputs): int
    requires inp.standDown.Some?
  {
    Max(inp.standDown.value, 0)
  }

  // Seconds left before named pools are tried.
  function FreeEffective(inp: Inputs): int {
    var charter := MinUnbounded(ScheduleSecs(inp), BudgetPart(inp).secs);
    if inp.standDown.None? then charter
    else if charter < 0 then StandDownCap(inp)
    else Min(charter, StandDownCap(inp))
  }

  function FreeReason(inp: Inputs): Option<LockReason> {
    if FreeEffective(inp) != 0 then None
    else if Malformed(inp) then Some(MalformedLock)
    else if inp.standDown.Some? && StandDownCap(inp) == 0 then Some(StandDownLock)
    else if ScheduleSecs(inp) == 0 then Some(ScheduleLock)
    else Some(BudgetLock)
  }

  // The named pool that carries the device, and for how long.
  function PoolRun(inp: Inputs): Option<(string, int)> {
    var reason := FreeReason(inp);
    if reason != Some(ScheduleLock) && reason != Some(BudgetLock) then None
    else
      var id := MostRecent(inp.ledger, inp.day, KnownIds(inp.times));
      if id.None? then None
      else
        var pool := Min(TimeExtra(inp.ledger, inp.day, id.value), inp.eod);
        var eff := if inp.standDown.Some? then Min(pool, StandDownCap(inp)) else pool;
        if eff > 0 then Some((id.value, eff)) else None
  }

  // Decide the tick.
  function Assess(inp: Inputs): Verdict {
    var status := Status(inp);
    var b := BudgetPart(inp);
    var reason := FreeReason(inp);
    var l := inp.ledger;
    var budgetNet := if inp.day != l.dayKey then 0 else l.budgetSecs - l.budgetDeduct;
    var rem := Remaining(
      FreeEffective(inp), ScheduleSecs(inp), b.secs,
      ScheduleExtra(l, inp.day) - ScheduleDeducted(l, inp.day) + budgetNet,
      FreeEffective(inp) == 0, reason,
      if reason == Some(ScheduleLock) && ScheduleClosed(inp) then status.value.secondsToOpen else None,
      b.day, b.week);
    var pool := PoolRun(inp);
    if pool.Some? then
      var (id, eff) := pool.value;
      var t := Defined(inp.times, id);
      Verdict(rem.(locked := false, reason := None, effective := eff, scheduleSecs := eff, nextOpen := None),
              Some(id), NamedPool(id), status, t.Some? && Counts(t.value), false)
    else
      Verdict(rem,
              if rem.locked || WindowNamed(inp).None? then None else Some(WindowNamed(inp).value.id),
              WindowRun, status, rem.locked || WindowCounts(inp), ScheduleClosed(inp))
  }

  // --- soundness ---------------------------------------------------------------

  // Locked, out of time and having a reason are one thing, in every verdict.
  lemma LockedMeansNoTimeMeansReason(inp: Inputs)
    requires WellFormed(inp)
    ensures var v := Assess(inp);
      && (v.rem.locked <==> v.rem.effective == 0)
      && (v.rem.locked <==> v.rem.reason.Some?)
      && v.rem.effective >= -1
  {
  }

  // A malformed schedule and a stand-down that has bitten always lock; no pool runs.
  lemma FailSafeLocks(inp: Inputs)
    requires WellFormed(inp)
    requires Malformed(inp) || (inp.standDown.Some? && inp.standDown.value <= 0)
    ensures var v := Assess(inp);
      && v.rem.locked && v.run.WindowRun? && v.activeTime.None?
      && v.rem.reason == Some(if Malformed(inp) then MalformedLock else StandDownLock)
  {
  }

  lemma StandDownCapsEveryRun(inp: Inputs)
    requires WellFormed(inp) && inp.standDown.Some?
    ensures 0 <= Assess(inp).rem.effective <= StandDownCap(inp)
  {
  }

  // What a closed schedule can still run, an undefined tag included: Free off
  // Free's schedule pool, or a defined time off that time's pool. Nothing else.
  lemma ClosedOpensOnlyFromPools(inp: Inputs)
    requires WellFormed(inp) && ScheduleClosed(inp) && !Assess(inp).rem.locked
    ensures var v := Assess(inp);
      match v.run
      case WindowRun =>
        && v.activeTime.None? && v.burnSchedulePool
        && 0 < v.rem.effective <= ScheduleExtra(inp.ledger, inp.day) - ScheduleDeducted(inp.ledger, inp.day)
      case NamedPool(id) =>
        && v.activeTime == Some(id) && Defined(inp.times, id).Some? && !v.burnSchedulePool
        && 0 < v.rem.effective <= TimeExtra(inp.ledger, inp.day, id)
  {
    var v := Assess(inp);
    if v.run.NamedPool? {
      var id := v.run.id;
      assert id in KnownIds(inp.times);
    }
  }

  // While the device runs, what is charged is one pool at most, and no pool at
  // all when a window decides.
  lemma OnePoolBurns(inp: Inputs)
    requires WellFormed(inp)
    ensures var v := Assess(inp);
      && !(v.burnSchedulePool && v.run.NamedPool?)
      && (!v.rem.locked && !ScheduleClosed(inp) && v.run.WindowRun? ==> !v.burnSchedulePool)
  {
  }

  // The window's named time runs, and is exempt, exactly as its definition says.
  lemma ExemptTimeIgnoresBudget(inp: Inputs, t: NamedTime)
    requires WellFormed(inp) && WindowNamed(inp) == Some(t) && !Counts(t) && inp.standDown.None?
    ensures var v := Assess(inp);
      && v.rem.budgetSecs == -1
      && (ScheduleSecs(inp) > 0 ==>
            && v.rem.effective == ScheduleSecs(inp) && !v.rem.locked
            && v.activeTime == Some(t.id) && !v.countsAgainstBudget)
  {
  }

  function WithoutNamedPools(inp: Inputs): Inputs {
    inp.(ledger := inp.ledger.(timePools := map[]))
  }

  // Named pools only ever unlock: they change the verdict exactly when Free's own
  // window and pool leave the device locked by schedule or budget and some defined
  // time's pool has seconds left today; then the one topped up last carries it for
  // its seconds, within the day and the stand-down. Otherwise nothing is different.
  lemma NamedPoolsOnlyUnlock(inp: Inputs)
    requires WellFormed(inp)
    ensures var v, bare := Assess(inp), Assess(WithoutNamedPools(inp));
      var id := MostRecent(inp.ledger, inp.day, KnownIds(inp.times));
      && bare.run.WindowRun?
      && (v.run.NamedPool? <==>
            (bare.rem.reason == Some(ScheduleLock) || bare.rem.reason == Some(BudgetLock)) && id.Some? && inp.eod > 0)
      && (v.run.NamedPool? ==>
            && id == Some(v.run.id) && v.activeTime == id
            && v.rem.effective == Min(Min(TimeExtra(inp.ledger, inp.day, id.value), inp.eod),
                                      if inp.standDown.Some? then StandDownCap(inp) else inp.eod))
      && (!v.run.NamedPool? ==> v == bare)
  {
    var bare := WithoutNamedPools(inp);
    assert Status(bare) == Status(inp) && BudgetPart(bare) == BudgetPart(inp);
    assert ScheduleSecs(bare) == ScheduleSecs(inp);
    assert MostRecent(bare.ledger, inp.day, KnownIds(inp.times)).None?;
  }

  // The budget is charged unless a defined time that does not count is running, and
  // what runs as a time is always one the device defines.
  lemma ChargedUnlessExempt(inp: Inputs)
    requires WellFormed(inp)
    ensures var v := Assess(inp);
      && (v.rem.locked ==> v.activeTime.None?)
      && (v.activeTime.Some? ==> Defined(inp.times, v.activeTime.value).Some?)
      && (v.countsAgainstBudget <==> v.activeTime.None? || Counts(Defined(inp.times, v.activeTime.value).value))
  {
    if Assess(inp).run.NamedPool? {
      assert Assess(inp).run.id in KnownIds(inp.times);
    }
  }

  // --- grants never lock ---------------------------------------------------------

  // "At least as much time", with -1 as infinity.
  predicate AtLeast(a: int, b: int) { a < 0 || (0 <= b <= a) }

  lemma MoreScheduleMoreFree(inp: Inputs, l: Ledger)
    requires WellFormed(inp)
    requires ScheduleDeducted(l, inp.day) <= ScheduleDeducted(inp.ledger, inp.day)
    requires ScheduleExtra(l, inp.day) >= ScheduleExtra(inp.ledger, inp.day)
    ensures var more := inp.(ledger := l);
      && AtLeast(ScheduleSecs(more), ScheduleSecs(inp))
      && AtLeast(FreeEffective(more), FreeEffective(inp))
  {
    var more := inp.(ledger := l);
    assert Status(more) == Status(inp);
    assert WindowNamed(more) == WindowNamed(inp);
    assert BudgetPart(more) == BudgetPart(inp);
  }

  // Enlarging Free's schedule pool never turns an unlocked verdict locked.
  lemma ScheduleGrantNeverLocks(inp: Inputs, minutes: nat)
    requires WellFormed(inp)
    requires !Assess(inp).rem.locked
    ensures !Assess(inp.(ledger := TopUpSchedule(inp.ledger, inp.day, minutes))).rem.locked
  {
    var l := TopUpSchedule(inp.ledger, inp.day, minutes);
    var more := inp.(ledger := l);
    MoreScheduleMoreFree(inp, l);
    if FreeEffective(more) == 0 {
      assert FreeEffective(inp) == 0;
      var id := PoolRun(inp).value.0;
      assert IsMostRecent(l, inp.day, KnownIds(inp.times), id);
      MostRecentIsUnique(l, inp.day, KnownIds(inp.times), id);
      assert Status(more) == Status(inp) && !Malformed(more);
      assert PoolRun(more).Some?;
    }
  }

  // A top-up changes nothing before named pools are tried.
  lemma TimeGrantLeavesFree(inp: Inputs, id: string, minutes: nat)
    requires WellFormed(inp)
    ensures var more := inp.(ledger := TopUpTime(inp.ledger, inp.day, id, minutes));
      && Status(more) == Status(inp) && FreeEffective(more) == FreeEffective(inp) && FreeReason(more) == FreeReason(inp)
  {
    var more := inp.(ledger := TopUpTime(inp.ledger, inp.day, id, minutes));
    assert Status(more) == Status(inp);
    assert BudgetPart(more) == BudgetPart(inp) && ScheduleSecs(more) == ScheduleSecs(inp);
  }

  // A runnable pool stays runnable.
  lemma TimeGrantKeepsRunnable(l: Ledger, day: string, id: string, minutes: nat, known: set<string>, was: string)
    requires IsMostRecent(l, day, known, was)
    ensures Runnable(TopUpTime(l, day, id, minutes), known, was) && TopUpTime(l, day, id, minutes).dayKey == day
  {
  }

  // Topping up any named pool never turns an unlocked verdict locked either.
  lemma TimeGrantNeverLocks(inp: Inputs, id: string, minutes: nat)
    requires WellFormed(inp)
    requires !Assess(inp).rem.locked
    ensures !Assess(inp.(ledger := TopUpTime(inp.ledger, inp.day, id, minutes))).rem.locked
  {
    var l := TopUpTime(inp.ledger, inp.day, id, minutes);
    var known := KnownIds(inp.times);
    TimeGrantLeavesFree(inp, id, minutes);
    if FreeEffective(inp) == 0 {
      var was := PoolRun(inp).value.0;
      TimeGrantKeepsRunnable(inp.ledger, inp.day, id, minutes, known, was);
      var now := MostRecent(l, inp.day, known);
      assert now.Some? && TimeExtra(l, inp.day, now.value) > 0;
    }
  }

  // --- the classic computation it must not disturb --------------------------------

  // core/crates/charter-schedule/src/enforcer.rs: what a ward computed before times.
  function ComputeRemaining(inp: Inputs): Remaining {
    var l := inp.ledger;
    var ext, ded := ScheduleExtra(l, inp.day), ScheduleDeducted(l, inp.day);
    var classic := if inp.schedule.None? then ClassicUnbounded
                   else EvaluateClassic(inp.schedule.value, inp.zone, inp.now);
    var base := match classic
      case ClassicUnbounded => -1
      case ClassicOpen(secs) => secs as int
      case ClassicLocked(_) => 0
      case ClassicUnparseable => 0;
    var schedule := if classic.ClassicUnparseable? then 0
                    else if base < 0 then -1
                    else Min(SatSub(base + ext, ded), inp.eod);
    var charter := MinUnbounded(schedule, inp.quota.secs);
    var capped := if inp.standDown.None? then charter
                  else if charter < 0 then StandDownCap(inp)
                  else Min(charter, StandDownCap(inp));
    var reason := if capped != 0 then None
                  else if classic.ClassicUnparseable? then Some(MalformedLock)
                  else if inp.standDown.Some? && StandDownCap(inp) == 0 then Some(StandDownLock)
                  else if schedule == 0 then Some(ScheduleLock) else Some(BudgetLock);
    var budgetNet := if inp.day != l.dayKey then 0 else l.budgetSecs - l.budgetDeduct;
    Remaining(capped, schedule, inp.quota.secs, ext - ded + budgetNet, capped == 0, reason,
              if reason == Some(ScheduleLock) && classic.ClassicLocked? then classic.secondsToOpen else None,
              inp.quota.day, inp.quota.week)
  }

  // A family that uses no tagged window computes exactly what it always did,
  // except on the seconds of a named pool's run.
  lemma UntaggedIsClassic(inp: Inputs)
    requires WellFormed(inp)
    requires inp.schedule.None? || !HasTaggedWindow(inp.schedule.value)
    ensures Assess(inp).rem == ComputeRemaining(inp) <==> PoolRun(inp).None?
  {
    assert WindowCounts(inp) && BudgetPart(inp) == inp.quota;
    if inp.schedule.Some? {
      var classic := EvaluateClassic(inp.schedule.value, inp.zone, inp.now);
      if classic.ClassicOpen? {
        assert Status(inp) == Some(Open(None, inp.now + classic.secondsToClose));
        assert ScheduleSecs(inp) == ComputeRemaining(inp).scheduleSecs;
      }
    }
  }
}
