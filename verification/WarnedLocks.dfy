// Warnings before locks over whole runs: the tick (LockRuns), the verdict
// (LockDecision) and the edge machine together. With the schedule closed and ticks at
// most a minute apart, a pool that runs out always warns first.

module WarnedLocks {
  import opened Seqs
  import opened ScheduleMeaning
  import opened WardSchedule
  import opened ExtensionLedger
  import opened LockDecision
  import opened LockRuns
  import opened EdgeMachine
  import Edges = EdgeMachine

  // A closed tick of one day, which ends at `end`, with no stand-down and the budget
  // not spent.
  predicate Calm(t: Inputs, times: seq<NamedTime>, day: string, end: int) {
    && ClosedTick(t, times) && t.day == day && t.now + t.eod == end
    && t.standDown.None? && t.quota.secs != 0
  }

  predicate CalmRun(ticks: seq<Inputs>, times: seq<NamedTime>, day: string, end: int) {
    && (forall k :: 0 <= k < |ticks| ==> Calm(ticks[k], times, day, end))
    && (forall k :: 0 < k < |ticks| ==> 0 <= ticks[k].now - ticks[k - 1].now <= 60)
  }

  function VerdictAt(s: Standing, ticks: seq<Inputs>, k: nat): Verdict
    requires k < |ticks|
  {
    Assess(Here(ticks[k], LockRuns.After(s, ticks[..k + 1]).ledger))
  }

  // What the edge machine is given, tick by tick.
  function Rems(s: Standing, ticks: seq<Inputs>): (r: seq<Remaining>)
    ensures |r| == |ticks| && forall k :: 0 <= k < |ticks| ==> r[k] == VerdictAt(s, ticks, k).rem
  {
    seq(|ticks|, k requires 0 <= k < |ticks| => VerdictAt(s, ticks, k).rem)
  }

  lemma {:induction false} AfterSnoc(s: Standing, ticks: seq<Inputs>, t: Inputs)
    ensures LockRuns.After(s, ticks + [t]) == LockRuns.Next(LockRuns.After(s, ticks), t)
    decreases |ticks|
  {
    if ticks == [] {
      assert ([] + [t])[1..] == [];
    } else {
      assert (ticks + [t])[1..] == ticks[1..] + [t];
      AfterSnoc(LockRuns.Next(s, ticks[0]), ticks[1..], t);
    }
  }

  lemma AfterOneMore(s: Standing, ticks: seq<Inputs>, k: nat)
    requires k < |ticks|
    ensures LockRuns.After(s, ticks[..k + 1]) == LockRuns.Next(LockRuns.After(s, ticks[..k]), ticks[k])
  {
    assert ticks[..k + 1] == ticks[..k] + [ticks[k]];
    AfterSnoc(s, ticks[..k], ticks[k]);
  }

  // The warden over a run of ticks: its state, and all the effects in order.
  method RunWarden(w: Warden, ticks: seq<Inputs>) returns (effs: seq<Effect>)
    modifies w, w.edge
    ensures w.State() == LockRuns.After(old(w.State()), ticks)
    ensures w.edge.State() == Edges.After(old(w.edge.State()), Rems(old(w.State()), ticks))
    ensures effs == Trace(old(w.edge.State()), Rems(old(w.State()), ticks))
  {
    effs := [];
    ghost var s, e := w.State(), w.edge.State();
    ghost var rems := Rems(s, ticks);
    for i := 0 to |ticks|
      invariant w.State() == LockRuns.After(s, ticks[..i])
      invariant w.edge.State() == Edges.After(e, rems[..i])
      invariant effs == Trace(e, rems[..i])
    {
      VerdictIsNext(s, ticks, i);
      var v, more := w.Tick(ticks[i]);
      assert v.rem == rems[i];
      TraceOneMore(e, rems, i);
      effs := effs + more;
    }
    assert ticks[..|ticks|] == ticks && rems[..|rems|] == rems;
  }

  lemma TraceOneMore(e: Edge, rems: seq<Remaining>, i: nat)
    requires i < |rems|
    ensures Edges.After(e, rems[..i + 1]) == Edges.Next(Edges.After(e, rems[..i]), rems[i])
    ensures Trace(e, rems[..i + 1]) == Trace(e, rems[..i]) + Effects(Edges.After(e, rems[..i]), rems[i])
  {
    assert rems[..i + 1][..i] == rems[..i] && rems[..i + 1][i] == rems[i];
  }

  // --- one minute more ---------------------------------------------------------------

  // With more than a minute of Free's pool left, a tick a minute later still runs.
  lemma FreeLastsAMinute(l: Ledger, t: Inputs, u: Inputs, times: seq<NamedTime>, end: int, gap: nat)
    requires Calm(t, times, l.dayKey, end) && Calm(u, times, l.dayKey, end) && u.now == t.now + gap && gap <= 60
    requires Assess(Here(t, l)).run.WindowRun? && Assess(Here(t, l)).rem.effective > 60
    ensures var m := if gap == 0 then l else BurnSchedule(l, u.day, gap);
      && Assess(Here(u, l)).run.WindowRun? && Assess(Here(u, l)).burnSchedulePool
      && !Assess(Here(u, m)).rem.locked
  {
    var here, there := Here(t, l), Here(u, l);
    assert ScheduleClosed(here) && ScheduleClosed(there);
    assert ScheduleSecs(here) > 60;
    assert ScheduleSecs(there) > 0;
    var m := if gap == 0 then l else BurnSchedule(l, u.day, gap);
    BurnScheduleTakes(l, u.day, gap, "");
    assert ScheduleClosed(Here(u, m));
    assert ScheduleSecs(Here(u, m)) > 0;
  }

  // On a calm closed tick only Free's lack of time lets a named pool run.
  lemma NamedMeansFreeIsOut(l: Ledger, t: Inputs, times: seq<NamedTime>, end: int)
    requires Calm(t, times, l.dayKey, end) && Assess(Here(t, l)).run.NamedPool?
    ensures ScheduleExtra(l, l.dayKey) <= ScheduleDeducted(l, l.dayKey) && t.eod > 0
    ensures MostRecent(l, l.dayKey, KnownIds(Some(times))) == Some(Assess(Here(t, l)).run.id)
    ensures Assess(Here(t, l)).rem.effective == Min(TimeExtra(l, l.dayKey, Assess(Here(t, l)).run.id), t.eod)
  {
    assert ScheduleClosed(Here(t, l));
  }

  // With Free out and a runnable pool, a calm closed tick runs that pool.
  lemma FreeOutRunsThePool(l: Ledger, u: Inputs, times: seq<NamedTime>, end: int, id: string)
    requires Calm(u, times, l.dayKey, end) && u.eod > 0
    requires ScheduleExtra(l, l.dayKey) <= ScheduleDeducted(l, l.dayKey)
    requires MostRecent(l, l.dayKey, KnownIds(Some(times))) == Some(id)
    ensures Assess(Here(u, l)).run == NamedPool(id) && !Assess(Here(u, l)).rem.locked
  {
    assert ScheduleClosed(Here(u, l));
    assert ScheduleSecs(Here(u, l)) == 0;
  }

  // Burning part of the pool in use leaves it the one in use.
  lemma BurnKeepsMostRecent(l: Ledger, known: set<string>, id: string, gap: nat)
    requires MostRecent(l, l.dayKey, known) == Some(id) && TimeExtra(l, l.dayKey, id) > gap
    ensures MostRecent(BurnTime(l, l.dayKey, id, gap), l.dayKey, known) == Some(id)
  {
    var m := BurnTime(l, l.dayKey, id, gap);
    assert forall j :: j in m.timePools && j != id ==> m.timePools[j] == l.timePools[j];
    assert IsMostRecent(m, l.dayKey, known, id);
    MostRecentIsUnique(m, l.dayKey, known, id);
  }

  lemma PoolLastsAMinute(l: Ledger, t: Inputs, u: Inputs, times: seq<NamedTime>, end: int, gap: nat)
    requires Calm(t, times, l.dayKey, end) && Calm(u, times, l.dayKey, end) && u.now == t.now + gap && gap <= 60
    requires Assess(Here(t, l)).run.NamedPool? && Assess(Here(t, l)).rem.effective > 60
    ensures var id := Assess(Here(t, l)).run.id;
      var m := if gap == 0 then l else BurnTime(l, u.day, id, gap);
      && Assess(Here(u, l)).run == NamedPool(id) && !Assess(Here(u, l)).burnSchedulePool
      && !Assess(Here(u, m)).rem.locked
  {
    var id := Assess(Here(t, l)).run.id;
    NamedMeansFreeIsOut(l, t, times, end);
    FreeOutRunsThePool(l, u, times, end, id);
    if gap > 0 {
      var m := BurnTime(l, u.day, id, gap);
      BurnKeepsMostRecent(l, KnownIds(Some(times)), id, gap);
      assert m.dayKey == l.dayKey && ScheduleExtra(m, m.dayKey) == ScheduleExtra(l, l.dayKey);
      FreeOutRunsThePool(m, u, times, end, id);
    }
  }

  // A verdict that promises more than a minute is not followed, within a minute, by a lock.
  lemma MoreThanAMinuteLasts(before: Standing, t: Inputs, u: Inputs, times: seq<NamedTime>, end: int)
    requires Calm(t, times, before.ledger.dayKey, end) && Calm(u, times, before.ledger.dayKey, end)
    requires 0 <= u.now - t.now <= 60
    requires var s := LockRuns.Next(before, t);
      s.ledger.dayKey == before.ledger.dayKey && Assess(Here(t, s.ledger)).rem.effective > 60
    ensures LockRuns.Next(LockRuns.Next(before, t), u).running
  {
    var s := LockRuns.Next(before, t);
    var gap := u.now - t.now;
    assert Elapsed(s, u.now) == gap;
    if Assess(Here(t, s.ledger)).run.WindowRun? {
      FreeLastsAMinute(s.ledger, t, u, times, end, gap);
    } else {
      PoolLastsAMinute(s.ledger, t, u, times, end, gap);
    }
  }

  // --- every lock is warned of ---------------------------------------------------------

  lemma {:induction false} DayStays(s: Standing, ticks: seq<Inputs>, times: seq<NamedTime>, end: int, k: nat)
    requires CalmRun(ticks, times, s.ledger.dayKey, end) && k <= |ticks|
    ensures LockRuns.After(s, ticks[..k]).ledger.dayKey == s.ledger.dayKey
    decreases k
  {
    if k > 0 {
      DayStays(s, ticks, times, end, k - 1);
      AfterOneMore(s, ticks, k - 1);
      assert Calm(ticks[k - 1], times, s.ledger.dayKey, end);
      TickChargesOnePool(LockRuns.After(s, ticks[..k - 1]), ticks[k - 1], times, FreePool);
    } else {
      assert ticks[..0] == [];
    }
  }

  // The tick before a lock had at most a minute left.
  lemma ShortBeforeALock(before: Standing, mid: Standing, after: Standing, t: Inputs, u: Inputs,
      times: seq<NamedTime>, end: int)
    requires InARow(before, mid, after, t, u, times, end) && mid.running && !after.running
    ensures 0 < Assess(Here(t, mid.ledger)).rem.effective <= 60
  {
    ClosedOpensOnlyFromPools(Here(t, mid.ledger));
    if Assess(Here(t, mid.ledger)).rem.effective > 60 {
      MoreThanAMinuteLasts(before, t, u, times, end);
    }
  }

  lemma VerdictIsNext(s: Standing, ticks: seq<Inputs>, k: nat)
    requires k < |ticks|
    ensures var before := LockRuns.After(s, ticks[..k]);
      && LockRuns.After(s, ticks[..k + 1]) == LockRuns.Next(before, ticks[k])
      && VerdictAt(s, ticks, k) == Assess(Here(ticks[k], LockRuns.Next(before, ticks[k]).ledger))
      && LockRuns.Next(before, ticks[k]).running == !VerdictAt(s, ticks, k).rem.locked
  {
    AfterOneMore(s, ticks, k);
  }

  lemma CalmAt(s: Standing, ticks: seq<Inputs>, times: seq<NamedTime>, end: int, k: nat)
    requires CalmRun(ticks, times, s.ledger.dayKey, end) && k < |ticks|
    ensures Calm(ticks[k], times, LockRuns.After(s, ticks[..k]).ledger.dayKey, end)
    ensures LockRuns.After(s, ticks[..k]).ledger.dayKey == s.ledger.dayKey
  {
    DayStays(s, ticks, times, end, k);
  }

  // Three states of a run in a row, and that its ticks between them are calm.
  predicate InARow(before: Standing, mid: Standing, after: Standing, t: Inputs, u: Inputs,
      times: seq<NamedTime>, end: int)
  {
    && mid == LockRuns.Next(before, t) && after == LockRuns.Next(mid, u)
    && mid.ledger.dayKey == before.ledger.dayKey
    && Calm(t, times, before.ledger.dayKey, end) && Calm(u, times, before.ledger.dayKey, end)
    && 0 <= u.now - t.now <= 60
  }

  lemma StatesInARow(s: Standing, ticks: seq<Inputs>, times: seq<NamedTime>, end: int, n: nat)
    requires CalmRun(ticks, times, s.ledger.dayKey, end) && 0 < n < |ticks|
    ensures InARow(LockRuns.After(s, ticks[..n - 1]), LockRuns.After(s, ticks[..n]), LockRuns.After(s, ticks[..n + 1]),
                   ticks[n - 1], ticks[n], times, end)
  {
    CalmAt(s, ticks, times, end, n - 1);
    CalmAt(s, ticks, times, end, n);
    AfterOneMore(s, ticks, n - 1);
    AfterOneMore(s, ticks, n);
  }

  lemma RemIsVerdict(s: Standing, ticks: seq<Inputs>, k: nat)
    requires k < |ticks|
    ensures Rems(s, ticks)[k] == Assess(Here(ticks[k], LockRuns.After(s, ticks[..k + 1]).ledger)).rem
    ensures Rems(s, ticks)[k].locked == !LockRuns.After(s, ticks[..k + 1]).running
  {
    VerdictIsNext(s, ticks, k);
  }

  lemma LockedIsOutOfTime(s: Standing, ticks: seq<Inputs>, times: seq<NamedTime>, day: string, end: int, k: nat)
    requires CalmRun(ticks, times, day, end) && k < |ticks|
    ensures Rems(s, ticks)[k].locked <==> Rems(s, ticks)[k].effective == 0
  {
    assert Calm(ticks[k], times, day, end);
    RemIsVerdict(s, ticks, k);
    LockedMeansNoTimeMeansReason(Here(ticks[k], LockRuns.After(s, ticks[..k + 1]).ledger));
  }

  // Over every calm closed run with ticks at most a minute apart, each lock but one at
  // the first tick was preceded by a one-minute warning in that same last minute.
  lemma EveryLockIsWarned(s: Standing, ticks: seq<Inputs>, times: seq<NamedTime>, end: int, n: nat, reason: LockReason)
    requires CalmRun(ticks, times, s.ledger.dayKey, end) && 0 < n < |ticks|
    requires ShowLock(reason) in EffectsAt(FRESH, Rems(s, ticks), n)
    ensures exists j :: LastMinute(Rems(s, ticks), j, n - 1) && Warns(FRESH, Rems(s, ticks), j, One)
  {
    var rems := Rems(s, ticks);
    forall k | 0 <= k < |rems| ensures rems[k].locked <==> rems[k].effective == 0 {
      LockedIsOutOfTime(s, ticks, times, s.ledger.dayKey, end, k);
    }
    ShownAfterRunning(rems, n, reason);
    RemIsVerdict(s, ticks, n - 1);
    RemIsVerdict(s, ticks, n);
    StatesInARow(s, ticks, times, end, n);
    ShortBeforeALock(LockRuns.After(s, ticks[..n - 1]), LockRuns.After(s, ticks[..n]), LockRuns.After(s, ticks[..n + 1]),
                     ticks[n - 1], ticks[n], times, end);
    NoLockWithoutWarning(rems, n);
  }

  // A lock is shown only when the verdict before it let the device run.
  lemma ShownAfterRunning(rems: seq<Remaining>, n: nat, reason: LockReason)
    requires 0 < n < |rems| && ShowLock(reason) in EffectsAt(FRESH, rems, n)
    ensures rems[n].locked && !rems[n - 1].locked
  {
    LastDecides(FRESH, rems[..n]);
    assert rems[..n][n - 1] == rems[n - 1];
    ShownMeansLocks(Edges.After(FRESH, rems[..n]), rems[n], reason);
  }

  lemma ShownMeansLocks(e: Edge, rem: Remaining, reason: LockReason)
    requires ShowLock(reason) in Effects(e, rem)
    ensures Locks(e, rem)
  {
  }
}
