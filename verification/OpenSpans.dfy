// How long an open span lasts: the instant at which the ward's status says it ends,
// and the seconds the lock decision promises, against the guardian's answer.

module OpenSpans {
  import opened Seqs
  import opened ScheduleMeaning
  import opened WardSchedule
  import opened ExtensionLedger
  import opened LockDecision

  // The zone's two directions agree for the rest of the local day: up to the instant of
  // a later minute the reading stays on the day and before that minute, and is that
  // minute at it. (A clock change later in the day that skips or repeats one is out.)
  ghost predicate Agrees(zone: Zone, now: int) {
    var at := zone.reading(now);
    && zone.readable && at.secs < 86_400
    && forall m: nat :: at.secs < m * 60 && m <= 1440 ==> AgreesAt(zone, now, m)
  }

  ghost predicate AgreesAt(zone: Zone, now: int, m: nat) {
    var at := zone.reading(now);
    && now < zone.wall(now, m)
    && (forall t :: now <= t < zone.wall(now, m) ==> BeforeMinute(zone.reading(t), at, m))
    && (m < 1440 ==>
          zone.wall(now, m) < Midnight(zone, now) && zone.reading(zone.wall(now, m)) == at.(secs := m * 60))
  }

  predicate BeforeMinute(r: Instant, at: Instant, m: nat) {
    r.dayKey == at.dayKey && r.weekday == at.weekday && at.secs <= r.secs < m * 60
  }

  function Midnight(zone: Zone, now: int): int { zone.wall(now, 1440) }

  // The guardian's answer at a unix instant.
  function AnswerAt(s: Schedule, times: seq<NamedTime>, zone: Zone, t: int): ActiveTime {
    ActiveAt(Some(s), times, zone.reading(t))
  }

  // `e` is the first instant from `now` on at which the answer changes, or the end of
  // the local day.
  ghost predicate RunsOutAt(s: Schedule, times: seq<NamedTime>, zone: Zone, now: int, e: int) {
    && now < e <= Midnight(zone, now)
    && (forall t :: now <= t < e ==> AnswerAt(s, times, zone, t) == AnswerAt(s, times, zone, now))
    && (e != Midnight(zone, now) ==> AnswerAt(s, times, zone, e) != AnswerAt(s, times, zone, now))
  }

  lemma DifferentLabelDifferentAnswer(raw: seq<Window>, times: seq<NamedTime>, a: nat, b: nat)
    requires LabelAt(DaySpans(raw), KnownIds(Some(times)), a / 60) != LabelAt(DaySpans(raw), KnownIds(Some(times)), b / 60)
    ensures RunningIn(raw, times, a) != RunningIn(raw, times, b)
  {
    LabelMeansRunning(raw, times, a);
    LabelMeansRunning(raw, times, b);
  }

  // The minute a label's span ends, of the second that label is read at.
  function EndOf(raw: seq<Window>, times: seq<NamedTime>, secs: nat): nat {
    SpanEndMinute(DaySpans(raw), KnownIds(Some(times)), secs / 60, LabelAt(DaySpans(raw), KnownIds(Some(times)), secs / 60))
  }

  lemma EndIsAhead(raw: seq<Window>, times: seq<NamedTime>, secs: nat)
    requires secs < 86_400
    ensures secs < EndOf(raw, times, secs) * 60 && EndOf(raw, times, secs) <= 1440
  {
    var spans, known := DaySpans(raw), KnownIds(Some(times));
    SpanEndIsFirstChange(spans, known, secs / 60);
    SpanEndsWithinTheDay(raw, known, secs / 60, LabelAt(spans, known, secs / 60));
  }

  lemma EndIsAChange(raw: seq<Window>, times: seq<NamedTime>, secs: nat)
    requires secs < 86_400 && EndOf(raw, times, secs) != 1440
    ensures RunningIn(raw, times, EndOf(raw, times, secs) * 60) != RunningIn(raw, times, secs)
  {
    SpanEndIsFirstChange(DaySpans(raw), KnownIds(Some(times)), secs / 60);
    DifferentLabelDifferentAnswer(raw, times, EndOf(raw, times, secs) * 60, secs);
  }

  lemma {:induction false} SpansEndInTheDay(raw: seq<Window>)
    ensures forall k :: 0 <= k < |DaySpans(raw)| ==> DaySpans(raw)[k].start < 1440 && DaySpans(raw)[k].end < 1440
  {
    if raw != [] { SpansEndInTheDay(raw[1..]); }
  }

  lemma {:induction false} BoundariesAreEdges(spans: seq<Span>)
    requires forall k :: 0 <= k < |spans| ==> spans[k].start < 1440 && spans[k].end < 1440
    ensures forall b :: b in Boundaries(spans) ==> b < 1440
  {
    if spans != [] {
      assert forall k :: 0 <= k < |spans[1..]| ==> spans[1..][k] == spans[k + 1];
      BoundariesAreEdges(spans[1..]);
      var inner := InsertMinute(spans[0].end, Boundaries(spans[1..]));
      assert Boundaries(spans) == InsertMinute(spans[0].start, inner);
    }
  }

  lemma SpanEndsWithinTheDay(raw: seq<Window>, known: set<string>, minute: nat, cur: Label)
    ensures SpanEndMinute(DaySpans(raw), known, minute, cur) <= 1440
  {
    var spans := DaySpans(raw);
    SpansEndInTheDay(raw);
    BoundariesAreEdges(spans);
    FirstChangeIsAChange(Boundaries(spans), spans, known, minute, cur);
  }

  // A schedule with a tagged window, as it is signed.
  predicate SignedTagged(s: Schedule, w: WireSchedule) {
    ScheduleToWire(s) == Some(w) && HasTaggedWindow(w)
  }

  lemma TaggedIsAConstraint(w: WireSchedule)
    requires HasTaggedWindow(w)
    ensures !NoConstraint(w)
  {
    if exists d :: d in w.weekly && AnyTagged(w.weekly[d]) {
      var d :| d in w.weekly && AnyTagged(w.weekly[d]);
      assert w.weekly[d] != [];
    }
  }

  lemma SignedTaggedIsWhole(s: Schedule, w: WireSchedule)
    requires SignedTagged(s, w)
    ensures w == WireSchedule(1, s.tz, None, s.weekly, s.overrides) && !s.paused && !NoConstraint(w)
  {
    TaggedIsAConstraint(w);
  }

  // What the ward's evaluator says of a readable, unpaused schedule with windows.
  lemma EvaluatedOpen(w: WireSchedule, known: set<string>, zone: Zone, now: int, minute: nat, spans: seq<Span>)
    requires w.version == 1 && w.paused.None? && zone.readable && !NoConstraint(w)
    requires minute == zone.reading(now).secs / 60
    requires spans == DaySpans(WireWindowsOn(w, zone.reading(now).dayKey, zone.reading(now).weekday))
    requires EvaluateTimes(w, known, zone, now).Open?
    ensures EvaluateTimes(w, known, zone, now).spanEnd
         == Max(zone.wall(now, SpanEndMinute(spans, known, minute, LabelAt(spans, known, minute))), now)
  {
    var cur := LabelAt(spans, known, minute);
    assert cur.FreeLabel? || cur.TimeLabel?;
  }

  // The end a status names, in the day's own minutes.
  lemma StatusNamesTheSpan(s: Schedule, w: WireSchedule, times: seq<NamedTime>, zone: Zone, now: int)
    requires SignedTagged(s, w) && zone.readable
    requires StatusOf(w, Some(times), zone, now).Open?
    ensures var at := zone.reading(now);
      StatusOf(w, Some(times), zone, now).spanEnd
      == Max(zone.wall(now, EndOf(WindowsOn(s, at.dayKey, at.weekday), times, at.secs)), now)
  {
    SignedTaggedIsWhole(s, w);
    var at := zone.reading(now);
    EvaluatedOpen(w, KnownIds(Some(times)), zone, now, at.secs / 60, DaySpans(WindowsOn(s, at.dayKey, at.weekday)));
  }

  lemma SecondsHold(s: Schedule, times: seq<NamedTime>, zone: Zone, now: int, raw: seq<Window>, t: int)
    requires !s.paused && Agrees(zone, now)
    requires raw == WindowsOn(s, zone.reading(now).dayKey, zone.reading(now).weekday)
    requires now <= t < zone.wall(now, EndOf(raw, times, zone.reading(now).secs))
    ensures AnswerAt(s, times, zone, t) == AnswerAt(s, times, zone, now)
  {
    var at := zone.reading(now);
    var end := EndOf(raw, times, at.secs);
    EndIsAhead(raw, times, at.secs);
    assert AgreesAt(zone, now, end);
    var later := zone.reading(t);
    assert BeforeMinute(later, at, end);
    CountdownHoldsTheAnswer(raw, times, at.secs, later.secs);
  }

  lemma EndAnswers(s: Schedule, times: seq<NamedTime>, zone: Zone, now: int, raw: seq<Window>)
    requires !s.paused && Agrees(zone, now)
    requires raw == WindowsOn(s, zone.reading(now).dayKey, zone.reading(now).weekday)
    ensures var e := zone.wall(now, EndOf(raw, times, zone.reading(now).secs));
      now < e <= Midnight(zone, now)
      && (e != Midnight(zone, now) ==> AnswerAt(s, times, zone, e) != AnswerAt(s, times, zone, now))
  {
    var at := zone.reading(now);
    var end := EndOf(raw, times, at.secs);
    EndIsAhead(raw, times, at.secs);
    assert AgreesAt(zone, now, end);
    if end != 1440 { EndIsAChange(raw, times, at.secs); }
  }

  // When the status is open until `e`, the guardian's answer is the same at every
  // instant up to `e` and another at it, unless it is the local midnight.
  lemma OpenEndsAtTheFirstChange(s: Schedule, w: WireSchedule, times: seq<NamedTime>, zone: Zone, now: int)
    requires SignedTagged(s, w) && Agrees(zone, now) && StatusOf(w, Some(times), zone, now).Open?
    ensures RunsOutAt(s, times, zone, now, StatusOf(w, Some(times), zone, now).spanEnd)
  {
    var at := zone.reading(now);
    var raw := WindowsOn(s, at.dayKey, at.weekday);
    SignedTaggedIsWhole(s, w);
    StatusNamesTheSpan(s, w, times, zone, now);
    EndAnswers(s, times, zone, now, raw);
    forall t | now <= t < zone.wall(now, EndOf(raw, times, at.secs))
      ensures AnswerAt(s, times, zone, t) == AnswerAt(s, times, zone, now)
    {
      SecondsHold(s, times, zone, now, raw, t);
    }
  }

  // A zone whose clock never changes: `days` gives a day's key and weekday.
  function FixedZone(offset: int, days: int -> (string, Weekday)): Zone {
    Zone(true,
         t => var d := (t + offset) / 86_400; Instant(days(d).0, days(d).1, (t + offset) % 86_400),
         (t, m) => (t + offset) / 86_400 * 86_400 - offset + 60 * m,
         t => None)
  }

  lemma FixedZoneAgrees(offset: int, days: int -> (string, Weekday), now: int)
    ensures Agrees(FixedZone(offset, days), now)
  {
    var zone := FixedZone(offset, days);
    var at, d := zone.reading(now), (now + offset) / 86_400;
    var start := d * 86_400 - offset;
    assert at.secs == now - start;
    forall m: nat | at.secs < m * 60 && m <= 1440 ensures AgreesAt(zone, now, m) {
      assert zone.wall(now, m) == start + 60 * m;
      forall t | now <= t < start + 60 * m ensures BeforeMinute(zone.reading(t), at, m) {
        SameDay(t + offset, d);
      }
      if m < 1440 { SameDay(start + 60 * m + offset, d); }
    }
  }

  lemma SameDay(x: int, d: int)
    requires d * 86_400 <= x < (d + 1) * 86_400
    ensures x / 86_400 == d && x % 86_400 == x - d * 86_400
  {
  }

  // --- the verdict -----------------------------------------------------------------

  // `x` is the least of the limits that apply; below 0 a limit does not.
  predicate IsLeast(x: int, schedule: int, budget: int, standDown: Option<int>) {
    if schedule < 0 && budget < 0 && standDown.None? then x == -1
    else
      && 0 <= x
      && (x == schedule || x == budget || (standDown.Some? && x == Max(standDown.value, 0)))
      && (schedule >= 0 ==> x <= schedule)
      && (budget >= 0 ==> x <= budget)
      && (standDown.Some? ==> x <= Max(standDown.value, 0))
  }

  // Without a named pool the device runs for the least of what the schedule, the
  // budget and the stand-down leave, and a lock names the one that ended it, the
  // stand-down before the schedule and the schedule before the budget. What is told of
  // today's extensions is what was added less what was taken.
  lemma LeastLimitDecides(inp: Inputs)
    requires WellFormed(inp) && inp.ledger.timePools == map[]
    ensures var v := Assess(inp);
      && v.run == WindowRun
      && IsLeast(v.rem.effective, v.rem.scheduleSecs, v.rem.budgetSecs, inp.standDown)
      && (v.rem.locked <==> v.rem.effective == 0)
      && (v.rem.locked && v.rem.reason != Some(MalformedLock) ==>
            v.rem.reason == Some(if inp.standDown.Some? && inp.standDown.value <= 0 then StandDownLock
                                 else if v.rem.scheduleSecs == 0 then ScheduleLock
                                 else BudgetLock))
      && v.rem.extensionSecs
         == PoolAdded(inp) - Taken(inp)
            + (if inp.day == inp.ledger.dayKey then inp.ledger.budgetSecs - inp.ledger.budgetDeduct else 0)
  {
  }

  // The signed schedule `s`, with the times it was signed beside.
  ghost predicate Carries(inp: Inputs, s: Schedule, times: seq<NamedTime>) {
    && WellFormed(inp) && inp.ledger.timePools == map[]
    && inp.schedule == ScheduleToWire(s) && inp.schedule.Some? && inp.times == Some(times)
    && Agrees(inp.zone, inp.now)
  }

  function AnswerNow(inp: Inputs, s: Schedule, times: seq<NamedTime>): ActiveTime {
    AnswerAt(s, times, inp.zone, inp.now)
  }

  // The budget binds unless a defined time that does not count is running.
  predicate BudgetApplies(a: ActiveTime) {
    a.RunsTime? ==> a.time.countsAgainstBudget == Some(true)
  }

  // What Free's schedule pool adds today, and what was taken away.
  function PoolAdded(inp: Inputs): nat {
    if inp.day == inp.ledger.dayKey && inp.ledger.scheduleConsumed < inp.ledger.scheduleSecs
    then inp.ledger.scheduleSecs - inp.ledger.scheduleConsumed else 0
  }

  function Taken(inp: Inputs): nat {
    if inp.day == inp.ledger.dayKey then inp.ledger.scheduleDeduct else 0
  }

  // What the guardian's answer settles of a verdict beside its seconds.
  predicate Follows(v: Verdict, a: ActiveTime, quota: Quota) {
    && (v.rem.budgetSecs == if BudgetApplies(a) then quota.secs else -1)
    && (v.rem.budgetDay == if BudgetApplies(a) then quota.day else -1)
    && (v.rem.budgetWeek == if BudgetApplies(a) then quota.week else -1)
    && (v.activeTime == if v.rem.locked || !a.RunsTime? then None else Some(a.time.id))
    && (v.countsAgainstBudget <==> v.rem.locked || BudgetApplies(a))
    && (v.burnSchedulePool <==> Locked(a))
  }

  lemma VerdictFollowsTheStatus(inp: Inputs, a: ActiveTime)
    requires WellFormed(inp) && inp.ledger.timePools == map[] && inp.schedule.Some?
    requires StatusMeans(StatusOf(inp.schedule.value, inp.times, inp.zone, inp.now), a)
    requires a.RunsTime? ==> Defined(inp.times, a.time.id) == Some(a.time)
    ensures Follows(Assess(inp), a, inp.quota)
  {
  }

  lemma VerdictFollowsTheAnswer(inp: Inputs, s: Schedule, times: seq<NamedTime>)
    requires Carries(inp, s, times)
    ensures Follows(Assess(inp), AnswerNow(inp, s, times), inp.quota)
  {
    GuardianAndWardAgree(s, times, inp.zone, inp.now);
    var at := inp.zone.reading(inp.now);
    TimeFromId(WindowsOn(s, at.dayKey, at.weekday), times, at.secs);
    VerdictFollowsTheStatus(inp, AnswerNow(inp, s, times));
  }

  // The seconds of an open status, before the guardian's answer comes in.
  lemma OpenStatusSeconds(inp: Inputs, time: Option<string>, e: int)
    requires WellFormed(inp) && inp.ledger.timePools == map[] && inp.now < e
    requires inp.schedule.Some? && HasTaggedWindow(inp.schedule.value)
    requires StatusOf(inp.schedule.value, inp.times, inp.zone, inp.now) == Open(time, e)
    ensures var extended := time.None? && !StatusOf(inp.schedule.value, inp.times, inp.zone, e).Open?;
      Assess(inp).rem.scheduleSecs
      == Min(if extended then SatSub(e - inp.now + PoolAdded(inp), Taken(inp)) else e - inp.now, inp.eod)
  {
    assert PoolRun(inp).None?;
    assert ScheduleExtra(inp.ledger, inp.day) == PoolAdded(inp) && ScheduleDeducted(inp.ledger, inp.day) == Taken(inp);
  }

  // Such a schedule is never unbounded, so what is not locked is open.
  lemma OpenExactly(s: Schedule, w: WireSchedule, times: seq<NamedTime>, zone: Zone, t: int)
    requires SignedTagged(s, w) && zone.readable
    ensures var st, a := StatusOf(w, Some(times), zone, t), AnswerAt(s, times, zone, t);
      && (st.Open? <==> !Locked(a))
      && (st.Open? ==> (st.time.None? <==> a.FreeTime?))
  {
    SignedTaggedIsWhole(s, w);
    GuardianAndWardAgree(s, times, zone, t);
    NeverUnbounded(w, KnownIds(Some(times)), zone, t);
  }

  lemma NeverUnbounded(w: WireSchedule, known: set<string>, zone: Zone, t: int)
    requires !NoConstraint(w)
    ensures !EvaluateTimes(w, known, zone, t).Unbounded?
  {
  }

  // A span of a schedule with tagged windows lasts until the answer changes; where
  // that is from Free to locked, Free's pool carries on past it.
  lemma OpenSpanSeconds(inp: Inputs, s: Schedule, times: seq<NamedTime>, e: int)
    requires Carries(inp, s, times) && HasTaggedWindow(inp.schedule.value)
    requires !Locked(AnswerNow(inp, s, times)) && RunsOutAt(s, times, inp.zone, inp.now, e)
    ensures var extended := AnswerNow(inp, s, times).FreeTime? && Locked(AnswerAt(s, times, inp.zone, e));
      Assess(inp).rem.scheduleSecs
      == Min(if extended then SatSub(e - inp.now + PoolAdded(inp), Taken(inp)) else e - inp.now, inp.eod)
  {
    var w := inp.schedule.value;
    var st := StatusOf(w, Some(times), inp.zone, inp.now);
    OpenExactly(s, w, times, inp.zone, inp.now);
    OpenExactly(s, w, times, inp.zone, e);
    OpenEndsAtTheFirstChange(s, w, times, inp.zone, inp.now);
    OneEnd(s, times, inp.zone, inp.now, e, st.spanEnd);
    OpenStatusSeconds(inp, st.time, e);
  }

  lemma OneEnd(s: Schedule, times: seq<NamedTime>, zone: Zone, now: int, a: int, b: int)
    requires RunsOutAt(s, times, zone, now, a) && RunsOutAt(s, times, zone, now, b)
    ensures a == b
  {
  }

  // The seconds and the opening a closed status leaves.
  lemma ClosedStatusSeconds(inp: Inputs, cause: LockCause, opens: Option<nat>)
    requires WellFormed(inp) && inp.ledger.timePools == map[] && inp.schedule.Some?
    requires StatusOf(inp.schedule.value, inp.times, inp.zone, inp.now) == Closed(cause, opens)
    ensures Assess(inp).rem.scheduleSecs == Min(SatSub(PoolAdded(inp), Taken(inp)), inp.eod)
    ensures Assess(inp).rem.nextOpen == if Assess(inp).rem.reason == Some(ScheduleLock) then opens else None
  {
    assert ScheduleExtra(inp.ledger, inp.day) == PoolAdded(inp) && ScheduleDeducted(inp.ledger, inp.day) == Taken(inp);
  }

  lemma ClosedNamesTheOpening(w: WireSchedule, times: Option<seq<NamedTime>>, zone: Zone, now: int)
    requires StatusOf(w, times, zone, now).Closed?
    ensures StatusOf(w, times, zone, now).secondsToOpen == if w.paused == Some(true) then None else zone.nextOpen(now)
  {
  }

  // While the guardian's answer is locked, Free's pool alone is left to run, and the
  // next opening is the zone's unless the schedule never opens.
  lemma ClosedSpanSeconds(inp: Inputs, s: Schedule, times: seq<NamedTime>)
    requires Carries(inp, s, times) && Locked(AnswerNow(inp, s, times))
    ensures Assess(inp).rem.scheduleSecs == Min(SatSub(PoolAdded(inp), Taken(inp)), inp.eod)
    ensures Assess(inp).rem.nextOpen
         == if Assess(inp).rem.reason == Some(ScheduleLock) && !EveryDay(s, ClosedDay) then inp.zone.nextOpen(inp.now)
            else None
  {
    var cause := ClosedAnswerStatus(s, inp.schedule.value, times, inp.zone, inp.now);
    ClosedStatusSeconds(inp, cause, if EveryDay(s, ClosedDay) then None else inp.zone.nextOpen(inp.now));
  }

  lemma ClosedAnswerStatus(s: Schedule, w: WireSchedule, times: seq<NamedTime>, zone: Zone, now: int) returns (cause: LockCause)
    requires ScheduleToWire(s) == Some(w) && zone.readable && Locked(AnswerAt(s, times, zone, now))
    ensures StatusOf(w, Some(times), zone, now)
         == Closed(cause, if EveryDay(s, ClosedDay) then None else zone.nextOpen(now))
  {
    GuardianAndWardAgree(s, times, zone, now);
    ClosedNamesTheOpening(w, Some(times), zone, now);
    cause := StatusOf(w, Some(times), zone, now).cause;
  }

  // A lifted schedule sets no limit.
  lemma LiftedScheduleIsNoLimit(inp: Inputs, s: Schedule, times: seq<NamedTime>)
    requires Carries(inp, s, times) && s.paused
    ensures Assess(inp).rem.scheduleSecs == -1
  {
    assert NoConstraint(inp.schedule.value) && !HasTaggedWindow(inp.schedule.value);
  }

  lemma OnlyTheSchedule(inp: Inputs)
    requires WellFormed(inp) && inp.ledger.timePools == map[] && inp.quota.secs == -1 && inp.standDown.None?
    ensures Assess(inp).rem.effective == Assess(inp).rem.scheduleSecs
    ensures Assess(inp).rem.locked <==> Assess(inp).rem.scheduleSecs == 0
  {
  }

  // Of such a tick the schedule's seconds are the open span's.
  lemma PlainSpanSeconds(inp: Inputs, s: Schedule, times: seq<NamedTime>) returns (e: int)
    requires Carries(inp, s, times) && HasTaggedWindow(inp.schedule.value)
    requires !Locked(AnswerNow(inp, s, times)) && PoolAdded(inp) == 0 && Taken(inp) == 0
    ensures RunsOutAt(s, times, inp.zone, inp.now, e)
    ensures Assess(inp).rem.scheduleSecs == Min(e - inp.now, inp.eod)
  {
    OpenExactly(s, inp.schedule.value, times, inp.zone, inp.now);
    OpenEndsAtTheFirstChange(s, inp.schedule.value, times, inp.zone, inp.now);
    e := StatusOf(inp.schedule.value, Some(times), inp.zone, inp.now).spanEnd;
    OpenSpanSeconds(inp, s, times, e);
  }

  // With nothing else in force, the seconds promised run out exactly when the
  // guardian's answer first changes, or at midnight.
  lemma SecondsRunOutAtTheChange(inp: Inputs, s: Schedule, times: seq<NamedTime>) returns (e: int)
    requires Carries(inp, s, times) && HasTaggedWindow(inp.schedule.value)
    requires !Locked(AnswerNow(inp, s, times))
    requires inp.quota.secs == -1 && inp.standDown.None? && PoolAdded(inp) == 0 && Taken(inp) == 0
    requires inp.eod == Midnight(inp.zone, inp.now) - inp.now
    ensures RunsOutAt(s, times, inp.zone, inp.now, e)
    ensures Assess(inp).rem.effective == e - inp.now && !Assess(inp).rem.locked
  {
    e := PlainSpanSeconds(inp, s, times);
    OnlyTheSchedule(inp);
  }

  // Without a tagged window, the first listed window over the instant is what
  // counts, and Free's pool always carries on past its end.
  lemma ClassicSpanSeconds(inp: Inputs, s: Schedule, times: seq<NamedTime>, k: nat, rest: nat)
    requires Carries(inp, s, times) && !HasTaggedWindow(inp.schedule.value) && !s.paused
    requires var at := inp.zone.reading(inp.now);
      var ws := WindowsOn(s, at.dayKey, at.weekday);
      && k < |ws| && Inside(ws[k], at.secs) && (forall j :: 0 <= j < k ==> !Inside(ws[j], at.secs))
      && inp.now + rest == inp.zone.wall(inp.now, MinutesOf(ws[k].end))
    ensures Assess(inp).rem.scheduleSecs == Min(SatSub(rest + PoolAdded(inp), Taken(inp)), inp.eod)
  {
    var at := inp.zone.reading(inp.now);
    assert inp.now <= inp.zone.wall(inp.now, MinutesOf(WindowsOn(s, at.dayKey, at.weekday)[k].end));
    ClassicStatus(inp.schedule.value, s, Some(times), inp.zone, inp.now, k);
    ClassicSeconds(inp, rest);
  }

  lemma ClassicStatus(w: WireSchedule, s: Schedule, times: Option<seq<NamedTime>>, zone: Zone, now: int, k: nat)
    requires ScheduleToWire(s) == Some(w) && !HasTaggedWindow(w) && !s.paused && zone.readable
    requires var at := zone.reading(now);
      var ws := WindowsOn(s, at.dayKey, at.weekday);
      && k < |ws| && Inside(ws[k], at.secs) && (forall j :: 0 <= j < k ==> !Inside(ws[j], at.secs))
      && now <= zone.wall(now, MinutesOf(ws[k].end))
    ensures var at := zone.reading(now);
      StatusOf(w, times, zone, now)
      == Open(None, zone.wall(now, MinutesOf(WindowsOn(s, at.dayKey, at.weekday)[k].end)))
  {
    var at := zone.reading(now);
    var ws := WindowsOn(s, at.dayKey, at.weekday);
    SomethingListed(s, w, at, ws[k]);
    FirstCoveringIs(ws, at.secs, k);
    var end := MinutesOf(ws[k].end);
    ClassicOpenUntil(w, zone, now, ws, Span(MinutesOf(ws[k].start), end, ws[k].time));
  }

  lemma SomethingListed(s: Schedule, w: WireSchedule, at: Instant, x: Window)
    requires ScheduleToWire(s) == Some(w) && !s.paused && x in WindowsOn(s, at.dayKey, at.weekday)
    ensures w == WireSchedule(1, s.tz, None, s.weekly, s.overrides) && !NoConstraint(w)
  {
    if EveryDay(s, ClosedDay) {
      NothingScheduledMeansLocked(s, at);
      assert false;
    }
    SomethingScheduledIsAConstraint(s, w);
  }

  lemma ClassicOpenUntil(w: WireSchedule, zone: Zone, now: int, ws: seq<Window>, x: Span)
    requires w.version == 1 && w.paused.None? && zone.readable && !NoConstraint(w)
    requires ws == WireWindowsOn(w, zone.reading(now).dayKey, zone.reading(now).weekday)
    requires FirstCovering(DaySpans(ws), zone.reading(now).secs / 60) == Some(x) && now <= zone.wall(now, x.end)
    ensures EvaluateClassic(w, zone, now) == ClassicOpen(zone.wall(now, x.end) - now)
  {
  }

  lemma ClassicSeconds(inp: Inputs, rest: nat)
    requires WellFormed(inp) && inp.ledger.timePools == map[]
    requires inp.schedule.Some? && !HasTaggedWindow(inp.schedule.value)
    requires StatusOf(inp.schedule.value, inp.times, inp.zone, inp.now) == Open(None, inp.now + rest)
    ensures Assess(inp).rem.scheduleSecs == Min(SatSub(rest + PoolAdded(inp), Taken(inp)), inp.eod)
  {
    assert ScheduleExtra(inp.ledger, inp.day) == PoolAdded(inp) && ScheduleDeducted(inp.ledger, inp.day) == Taken(inp);
  }

  lemma {:induction false} FirstCoveringIs(ws: seq<Window>, secs: nat, k: nat)
    requires k < |ws| && Inside(ws[k], secs) && forall j :: 0 <= j < k ==> !Inside(ws[j], secs)
    ensures FirstCovering(DaySpans(ws), secs / 60)
         == Some(Span(MinutesOf(ws[k].start), MinutesOf(ws[k].end), ws[k].time))
  {
    var s, e := MinutesOf(ws[0].start), MinutesOf(ws[0].end);
    InsideIsCovers(ws[0], secs);
    var rest := DaySpans(ws[1..]);
    if s < e {
      assert DaySpans(ws) == [Span(s, e, ws[0].time)] + rest;
      assert DaySpans(ws)[1..] == rest;
    } else {
      assert DaySpans(ws) == rest;
    }
    if k > 0 {
      assert forall j :: 0 <= j < |ws[1..]| ==> ws[1..][j] == ws[j + 1];
      FirstCoveringIs(ws[1..], secs, k - 1);
    }
  }

  // A newer schedule version, or an unpaused one whose zone cannot be read, locks.
  lemma UnreadableScheduleLocks(inp: Inputs)
    requires WellFormed(inp) && inp.schedule.Some?
    requires inp.schedule.value.version > 1 || (inp.schedule.value.paused != Some(true) && !inp.zone.readable)
    ensures Assess(inp).rem.locked && Assess(inp).rem.reason == Some(MalformedLock) && Assess(inp).run == WindowRun
  {
  }

  // ... and nothing else reads as malformed.
  lemma OnlyUnreadableIsMalformed(inp: Inputs)
    requires WellFormed(inp) && Assess(inp).rem.reason == Some(MalformedLock)
    ensures inp.schedule.Some?
    ensures inp.schedule.value.version > 1 || (inp.schedule.value.paused != Some(true) && !inp.zone.readable)
  {
  }

  // --- the ledger ------------------------------------------------------------------

  // A grant adds its minutes, today, to the pool it is for and to no other; the pool
  // topped up is the one that runs next, if its time is defined.
  lemma GrantsAddTheirMinutes(l: Ledger, day: string, id: string, minutes: nat, known: set<string>)
    ensures var s := TopUpSchedule(l, day, minutes);
      && ScheduleExtra(s, day) == ScheduleExtra(l, day) + 60 * minutes
      && ScheduleDeducted(s, day) == ScheduleDeducted(l, day)
      && forall j :: TimeExtra(s, day, j) == TimeExtra(l, day, j)
    ensures var t := TopUpTime(l, day, id, minutes);
      && ScheduleExtra(t, day) == ScheduleExtra(l, day) && ScheduleDeducted(t, day) == ScheduleDeducted(l, day)
      && TimeExtra(t, day, id) == TimeExtra(l, day, id) + 60 * minutes
      && (forall j :: j != id ==> TimeExtra(t, day, j) == TimeExtra(l, day, j))
      && (id in known && TimeExtra(t, day, id) > 0 ==> MostRecent(t, day, known) == Some(id))
  {
    var t := TopUpTime(l, day, id, minutes);
    if id in known && TimeExtra(t, day, id) > 0 { MostRecentIsUnique(t, day, known, id); }
  }
}
