// The ward's own reading of a schedule (core/crates/charter-schedule), the wire
// encoding it receives (wire/clause.ts), and the proof that guardian and ward
// agree about every instant.

module WardSchedule {
  import opened Seqs
  import opened ScheduleMeaning
  import JsText

  const SCHEDULE_VERSION := 1
  const FREE_TIME_ID := "free"
  const DAY_MINUTES := 1440

  datatype WireSchedule = WireSchedule(
    version: nat,
    tz: string,
    paused: Option<bool>,
    weekly: map<Weekday, seq<Window>>,
    overrides: Option<map<string, seq<Window>>>)

  // One time zone: whether its name parses, the local reading of a unix instant,
  // and the unix instant of a minute of the local day around `now`. How far off
  // the next opening lies is left to the zone as well.
  datatype Zone = Zone(
    readable: bool,
    reading: int -> Instant,
    wall: (int, nat) -> int,
    nextOpen: int -> Option<nat>)

  datatype LockCause = Paused | OutsideWindows | UnknownTime(tag: string)

  datatype TimedStatus =
    | Unbounded
    | Open(time: Option<string>, spanEnd: int)
    | Closed(cause: LockCause, secondsToOpen: Option<nat>)
    | Unparseable

  // --- charter-schedule/src/times.rs ------------------------------------------

  datatype Span = Span(start: nat, end: nat, tag: Option<string>)

  datatype Label = ClosedLabel | FreeLabel | TimeLabel(id: string) | UnknownLabel(id: string)

  // A day's windows in minutes; those not `start < end` are dropped.
  function DaySpans(raw: seq<Window>): seq<Span> {
    if raw == [] then []
    else
      var s, e := MinutesOf(raw[0].start), MinutesOf(raw[0].end);
      (if s < e then [Span(s, e, raw[0].time)] else []) + DaySpans(raw[1..])
  }

  predicate Covers(w: Span, minute: nat) { w.start <= minute < w.end }

  // Earliest start among the tagged spans covering the minute; the first of equals.
  function EarliestTagged(spans: seq<Span>, minute: nat): Option<Span> {
    if spans == [] then None
    else
      var rest := EarliestTagged(spans[1..], minute);
      if spans[0].tag.Some? && Covers(spans[0], minute)
         && (rest.None? || spans[0].start <= rest.value.start)
      then Some(spans[0])
      else rest
  }

  predicate AnyUntagged(spans: seq<Span>, minute: nat) {
    exists k :: 0 <= k < |spans| && spans[k].tag.None? && Covers(spans[k], minute)
  }

  function LabelAt(spans: seq<Span>, known: set<string>, minute: nat): Label {
    var w := EarliestTagged(spans, minute);
    if w.Some? && w.value.tag.Some? then
      var id := w.value.tag.value;
      if id in known then TimeLabel(id) else UnknownLabel(id)
    else if AnyUntagged(spans, minute) then FreeLabel
    else ClosedLabel
  }

  function InsertMinute(b: nat, sorted: seq<nat>): (r: seq<nat>)
    requires Ascending(sorted)
    ensures Ascending(r) && forall x :: x in r <==> x == b || x in sorted
  {
    if sorted == [] || b < sorted[0] then [b] + sorted
    else if b == sorted[0] then sorted
    else
      assert forall x :: x in sorted <==> x == sorted[0] || x in sorted[1..];
      var rest := InsertMinute(b, sorted[1..]);
      assert forall i :: 0 <= i < |rest| ==> rest[i] in rest;
      [sorted[0]] + rest
  }

  predicate Ascending(s: seq<nat>) {
    forall i, j :: 0 <= i < j < |s| ==> s[i] < s[j]
  }

  // The minutes at which some window starts or ends, ascending, without repeats.
  function Boundaries(spans: seq<Span>): (r: seq<nat>)
    ensures Ascending(r)
    ensures forall k :: 0 <= k < |spans| ==> spans[k].start in r && spans[k].end in r
  {
    if spans == [] then []
    else
      assert forall k :: 0 < k < |spans| ==> spans[k] == spans[1..][k - 1];
      InsertMinute(spans[0].start, InsertMinute(spans[0].end, Boundaries(spans[1..])))
  }

  function FirstChange(bs: seq<nat>, spans: seq<Span>, known: set<string>, minute: nat, cur: Label): nat {
    if bs == [] then DAY_MINUTES
    else if bs[0] > minute && LabelAt(spans, known, bs[0]) != cur then bs[0]
    else FirstChange(bs[1..], spans, known, minute, cur)
  }

  function SpanEndMinute(spans: seq<Span>, known: set<string>, minute: nat, cur: Label): nat {
    FirstChange(Boundaries(spans), spans, known, minute, cur)
  }

  predicate WeeklyEmpty(weekly: map<Weekday, seq<Window>>) {
    forall d :: d in weekly ==> weekly[d] == []
  }

  predicate NoConstraint(s: WireSchedule) {
    WeeklyEmpty(s.weekly) && !(s.overrides.Some? && s.overrides.value != map[])
  }

  function WireWindowsOn(s: WireSchedule, dayKey: string, weekday: Weekday): seq<Window> {
    if s.overrides.Some? && dayKey in s.overrides.value then s.overrides.value[dayKey]
    else if weekday in s.weekly then s.weekly[weekday] else []
  }

  function Max(a: int, b: int): int { if a < b then b else a }

  function EvaluateTimes(s: WireSchedule, known: set<string>, zone: Zone, now: int): TimedStatus {
    if s.version > SCHEDULE_VERSION then Unparseable
    else if s.paused == Some(true) then Closed(Paused, None)
    else if !zone.readable then Unparseable
    else if NoConstraint(s) then Unbounded
    else
      var at := zone.reading(now);
      var minute := at.secs / 60;
      var spans := DaySpans(WireWindowsOn(s, at.dayKey, at.weekday));
      var cur := LabelAt(spans, known, minute);
      match cur
      case FreeLabel =>
        Open(None, Max(zone.wall(now, SpanEndMinute(spans, known, minute, cur)), now))
      case TimeLabel(id) =>
        Open(Some(id), Max(zone.wall(now, SpanEndMinute(spans, known, minute, cur)), now))
      case UnknownLabel(id) => Closed(UnknownTime(id), zone.nextOpen(now))
      case ClosedLabel => Closed(OutsideWindows, zone.nextOpen(now))
  }

  // --- charter-schedule/src/schedule_eval.rs: the classic evaluator ------------

  datatype ClassicStatus =
    | ClassicUnbounded
    | ClassicOpen(secondsToClose: nat)
    | ClassicLocked(secondsToOpen: Option<nat>)
    | ClassicUnparseable

  function FirstCovering(spans: seq<Span>, minute: nat): (r: Option<Span>)
    ensures r.Some? ==> r.value in spans && Covers(r.value, minute)
    ensures r.None? ==> forall k :: 0 <= k < |spans| ==> !Covers(spans[k], minute)
  {
    if spans == [] then None
    else if Covers(spans[0], minute) then Some(spans[0])
    else FirstCovering(spans[1..], minute)
  }

  function EvaluateClassic(s: WireSchedule, zone: Zone, now: int): ClassicStatus {
    if s.version > SCHEDULE_VERSION then ClassicUnparseable
    else if s.paused == Some(true) then ClassicLocked(None)
    else if !zone.readable then ClassicUnparseable
    else if NoConstraint(s) then ClassicUnbounded
    else
      var at := zone.reading(now);
      var open := FirstCovering(DaySpans(WireWindowsOn(s, at.dayKey, at.weekday)), at.secs / 60);
      if open.Some? then ClassicOpen(Max(zone.wall(now, open.value.end) - now, 0))
      else ClassicLocked(zone.nextOpen(now))
  }

  // --- android/jni/src/times.rs: which evaluator a schedule gets ---------------

  predicate AnyTagged(ws: seq<Window>) { exists k :: 0 <= k < |ws| && ws[k].time.Some? }

  predicate HasTaggedWindow(s: WireSchedule) {
    || (exists d :: d in s.weekly && AnyTagged(s.weekly[d]))
    || (s.overrides.Some? && exists k :: k in s.overrides.value && AnyTagged(s.overrides.value[k]))
  }

  // The ids this device's `times` clause defines; none without a usable clause.
  function KnownIds(times: Option<seq<NamedTime>>): set<string> {
    if times.None? then {} else set t | t in times.value :: t.id
  }

  function StatusOf(s: WireSchedule, times: Option<seq<NamedTime>>, zone: Zone, now: int): TimedStatus {
    if HasTaggedWindow(s) then EvaluateTimes(s, KnownIds(times), zone, now)
    else
      match EvaluateClassic(s, zone, now)
      case ClassicUnbounded => Unbounded
      case ClassicOpen(secs) => Open(None, now + secs)
      case ClassicLocked(secs) => Closed(if s.paused == Some(true) then Paused else OutsideWindows, secs)
      case ClassicUnparseable => Unparseable
  }

  // --- the ward's label is the reference meaning --------------------------------

  predicate SameAnswer(l: Label, a: ActiveTime) {
    match l
    case ClosedLabel => a.LockedOutside?
    case FreeLabel => a.FreeTime?
    case TimeLabel(id) => a.RunsTime? && a.time.id == id
    case UnknownLabel(id) => a == LockedUnknown(id)
  }

  lemma InsideIsCovers(w: Window, secs: nat)
    ensures Inside(w, secs)
       <==> MinutesOf(w.start) < MinutesOf(w.end)
            && Covers(Span(MinutesOf(w.start), MinutesOf(w.end), w.time), secs / 60)
  {
    var m := secs / 60;
    assert m * 60 <= secs < m * 60 + 60;
  }

  lemma {:induction false} EarliestTaggedIsCarver(raw: seq<Window>, secs: nat)
    ensures var c := Carver(raw, secs);
      var w := EarliestTagged(DaySpans(raw), secs / 60);
      && (c.None? <==> w.None?)
      && (c.Some? ==> w.value.tag == raw[c.value].time && w.value.start == MinutesOf(raw[c.value].start))
  {
    if raw != [] {
      EarliestTaggedIsCarver(raw[1..], secs);
      InsideIsCovers(raw[0], secs);
      var s, e := MinutesOf(raw[0].start), MinutesOf(raw[0].end);
      if s < e {
        var all := DaySpans(raw);
        assert all == [Span(s, e, raw[0].time)] + DaySpans(raw[1..]);
        assert all[1..] == DaySpans(raw[1..]);
      } else {
        assert DaySpans(raw) == DaySpans(raw[1..]);
      }
    }
  }

  predicate FreeCovered(raw: seq<Window>, secs: nat) {
    exists k :: 0 <= k < |raw| && raw[k].time.None? && Inside(raw[k], secs)
  }

  lemma {:induction false} UntaggedCoverIsCover(raw: seq<Window>, secs: nat)
    ensures AnyUntagged(DaySpans(raw), secs / 60) <==> FreeCovered(raw, secs)
  {
    if raw != [] {
      UntaggedCoverIsCover(raw[1..], secs);
      InsideIsCovers(raw[0], secs);
      var s, e := MinutesOf(raw[0].start), MinutesOf(raw[0].end);
      var all, rest, m := DaySpans(raw), DaySpans(raw[1..]), secs / 60;
      assert FreeCovered(raw, secs) <==>
             (raw[0].time.None? && Inside(raw[0], secs)) || FreeCovered(raw[1..], secs) by {
        assert forall k :: 0 < k < |raw| ==> raw[k] == raw[1..][k - 1];
        assert forall k :: 0 <= k < |raw[1..]| ==> raw[1..][k] == raw[k + 1];
      }
      if s < e {
        assert all == [Span(s, e, raw[0].time)] + rest;
        assert forall k :: 0 < k < |all| ==> all[k] == rest[k - 1];
        assert forall k :: 0 <= k < |rest| ==> rest[k] == all[k + 1];
        assert AnyUntagged(all, m) <==> (all[0].tag.None? && Covers(all[0], m)) || AnyUntagged(rest, m);
      } else {
        assert all == rest;
      }
    }
  }

  // What the ward says of a day's windows is what the guardian says of them.
  lemma LabelMeansRunning(raw: seq<Window>, times: seq<NamedTime>, secs: nat)
    ensures SameAnswer(LabelAt(DaySpans(raw), KnownIds(Some(times)), secs / 60), RunningIn(raw, times, secs))
  {
    EarliestTaggedIsCarver(raw, secs);
    UntaggedCoverIsCover(raw, secs);
    var c := Carver(raw, secs);
    if c.Some? {
      var tag := raw[c.value].time.value;
      assert tag in KnownIds(Some(times)) <==> TimeOf(times, tag).Some?;
    }
  }

  // --- the span the ward counts down ---------------------------------------------

  lemma {:induction false} FirstChangeIsAChange(bs: seq<nat>, spans: seq<Span>, known: set<string>, minute: nat, cur: Label)
    requires Ascending(bs)
    ensures var r := FirstChange(bs, spans, known, minute, cur);
      && (r in bs || r == DAY_MINUTES)
      && (r != DAY_MINUTES ==> r > minute && LabelAt(spans, known, r) != cur)
      && (forall b :: b in bs && minute < b < r ==> LabelAt(spans, known, b) == cur)
  {
    if bs != [] {
      FirstChangeIsAChange(bs[1..], spans, known, minute, cur);
      assert forall b :: b in bs <==> b == bs[0] || b in bs[1..];
      assert forall b :: b in bs[1..] ==> bs[0] < b;
    }
  }

  // Between two boundaries nothing starts or ends.
  lemma {:induction false} QuietBetweenBoundaries(spans: seq<Span>, known: set<string>, a: nat, m: nat)
    requires a <= m
    requires forall k :: 0 <= k < |spans| ==> !(a < spans[k].start <= m) && !(a < spans[k].end <= m)
    ensures LabelAt(spans, known, a) == LabelAt(spans, known, m)
  {
    assert forall k :: 0 <= k < |spans| ==> (Covers(spans[k], a) <==> Covers(spans[k], m));
    SameCoverSameTag(spans, a, m);
  }

  lemma {:induction false} SameCoverSameTag(spans: seq<Span>, a: nat, m: nat)
    requires forall k :: 0 <= k < |spans| ==> (Covers(spans[k], a) <==> Covers(spans[k], m))
    ensures EarliestTagged(spans, a) == EarliestTagged(spans, m)
  {
    if spans != [] { SameCoverSameTag(spans[1..], a, m); }
  }

  // The last boundary at or before `m`, never before `minute`.
  lemma LastBoundary(bs: seq<nat>, minute: nat, m: nat) returns (a: nat)
    requires minute <= m
    ensures minute <= a <= m && (a == minute || a in bs)
    ensures forall b :: b in bs ==> !(a < b <= m)
  {
    a := minute;
    for i := 0 to |bs|
      invariant minute <= a <= m && (a == minute || a in bs)
      invariant forall k :: 0 <= k < i ==> !(a < bs[k] <= m)
    {
      if a < bs[i] <= m { a := bs[i]; }
    }
  }

  // The label holds for every minute up to the span's end, and not at it.
  lemma SpanEndIsFirstChange(spans: seq<Span>, known: set<string>, minute: nat)
    requires minute < DAY_MINUTES
    ensures var cur := LabelAt(spans, known, minute);
      var end := SpanEndMinute(spans, known, minute, cur);
      && minute < end
      && (end != DAY_MINUTES ==> LabelAt(spans, known, end) != cur)
      && (forall m: nat :: minute <= m < end ==> LabelAt(spans, known, m) == cur)
  {
    var cur := LabelAt(spans, known, minute);
    var bs := Boundaries(spans);
    FirstChangeIsAChange(bs, spans, known, minute, cur);
    var end := SpanEndMinute(spans, known, minute, cur);
    forall m: nat | minute <= m < end ensures LabelAt(spans, known, m) == cur {
      var a := LastBoundary(bs, minute, m);
      QuietBetweenBoundaries(spans, known, a, m);
    }
  }

  // The guardian's answer cannot change before the ward's countdown runs out.
  lemma CountdownHoldsTheAnswer(raw: seq<Window>, times: seq<NamedTime>, secs: nat, later: nat)
    requires secs < 86400
    requires var spans, known := DaySpans(raw), KnownIds(Some(times));
      secs <= later < SpanEndMinute(spans, known, secs / 60, LabelAt(spans, known, secs / 60)) * 60
    ensures RunningIn(raw, times, later) == RunningIn(raw, times, secs)
  {
    var spans, known := DaySpans(raw), KnownIds(Some(times));
    SpanEndIsFirstChange(spans, known, secs / 60);
    LabelMeansRunning(raw, times, secs);
    LabelMeansRunning(raw, times, later);
    assert LabelAt(spans, known, later / 60) == LabelAt(spans, known, secs / 60);
    TimeFromId(raw, times, secs);
    TimeFromId(raw, times, later);
  }

  lemma TimeFromId(raw: seq<Window>, times: seq<NamedTime>, secs: nat)
    ensures var a := RunningIn(raw, times, secs);
      a.RunsTime? ==> TimeOf(times, a.time.id) == Some(a.time)
  {
  }

  // --- wire/clause.ts: scheduleToGrant --------------------------------------------

  predicate IdChar(c: char) { 'a' <= c <= 'z' || '0' <= c <= '9' || c == '-' }

  // /^[a-z0-9-]{1,32}$/, and not the reserved "free".
  predicate IsTimeId(id: string) {
    1 <= |id| <= 32 && (forall i :: 0 <= i < |id| ==> IdChar(id[i])) && id != FREE_TIME_ID
  }

  predicate Signable(ws: seq<Window>) {
    forall k :: 0 <= k < |ws| ==>
      TextLess(ws[k].start, ws[k].end) && (ws[k].time.Some? ==> IsTimeId(ws[k].time.value))
  }

  predicate Overlap(a: Window, b: Window) {
    a.time.Some? && b.time.Some? && TextLess(a.start, b.end) && TextLess(b.start, a.end)
  }

  // No two tagged windows of one day overlap.
  predicate TagsApart(ws: seq<Window>) {
    forall i, j :: 0 <= i < j < |ws| ==> !Overlap(ws[i], ws[j])
  }

  function OverrideWindows(o: Option<map<string, seq<Window>>>): map<string, seq<Window>> {
    if o.Some? then o.value else map[]
  }

  predicate EveryDay(s: Schedule, p: seq<Window> -> bool) {
    && (forall d :: d in s.weekly ==> p(s.weekly[d]))
    && (forall k :: k in OverrideWindows(s.overrides) ==> p(OverrideWindows(s.overrides)[k]))
  }

  predicate ClosedDay(ws: seq<Window>) { ws == [] }

  // The wire body of a schedule, or None where the app refuses to sign it. The
  // app's `paused` lifts the schedule (an empty weekly); a schedule allowing no
  // time at all becomes wire-paused, which blocks.
  function ScheduleToWire(s: Schedule): Option<WireSchedule> {
    if JsText.Trim(s.tz) == "" then None
    else if s.paused then Some(WireSchedule(1, s.tz, None, map[], None))
    else if !EveryDay(s, Signable) || !EveryDay(s, TagsApart) then None
    else if EveryDay(s, ClosedDay) then Some(WireSchedule(1, s.tz, Some(true), map[], None))
    else Some(WireSchedule(1, s.tz, None, s.weekly, s.overrides))
  }

  predicate StatusMeans(st: TimedStatus, a: ActiveTime) {
    match a
    case FreeTime => st.Unbounded? || (st.Open? && st.time.None?)
    case RunsTime(t) => st.Open? && st.time == Some(t.id)
    case LockedOutside => st.Closed? && (st.cause.Paused? || st.cause.OutsideWindows?)
    case LockedUnknown(tag) => st.Closed? && st.cause == UnknownTime(tag)
  }

  // Guardian and ward agree: for every schedule the app will sign, at every
  // instant, the device's status under the signed body is the guardian's answer.
  lemma GuardianAndWardAgree(s: Schedule, times: seq<NamedTime>, zone: Zone, now: int)
    requires ScheduleToWire(s).Some? && zone.readable
    ensures StatusMeans(StatusOf(ScheduleToWire(s).value, Some(times), zone, now),
                        ActiveAt(Some(s), times, zone.reading(now)))
  {
    if s.paused {
      LiftedAgrees(s, times, zone, now);
    } else if EveryDay(s, ClosedDay) {
      ClosedAgrees(s, times, zone, now);
    } else {
      ScheduledDayAgrees(s, ScheduleToWire(s).value, times, zone, now);
    }
  }

  lemma LiftedAgrees(s: Schedule, times: seq<NamedTime>, zone: Zone, now: int)
    requires s.paused && zone.readable
    ensures StatusMeans(StatusOf(WireSchedule(1, s.tz, None, map[], None), Some(times), zone, now),
                        ActiveAt(Some(s), times, zone.reading(now)))
  {
    var w := WireSchedule(1, s.tz, None, map[], None);
    assert NoConstraint(w) && !HasTaggedWindow(w);
  }

  lemma ClosedAgrees(s: Schedule, times: seq<NamedTime>, zone: Zone, now: int)
    requires !s.paused && EveryDay(s, ClosedDay) && zone.readable
    ensures StatusMeans(StatusOf(WireSchedule(1, s.tz, Some(true), map[], None), Some(times), zone, now),
                        ActiveAt(Some(s), times, zone.reading(now)))
  {
    NothingScheduledMeansLocked(s, zone.reading(now));
    assert !HasTaggedWindow(WireSchedule(1, s.tz, Some(true), map[], None));
  }

  lemma ScheduledDayAgrees(s: Schedule, w: WireSchedule, times: seq<NamedTime>, zone: Zone, now: int)
    requires !s.paused && !EveryDay(s, ClosedDay) && zone.readable
    requires w == WireSchedule(1, s.tz, None, s.weekly, s.overrides)
    ensures StatusMeans(StatusOf(w, Some(times), zone, now), ActiveAt(Some(s), times, zone.reading(now)))
  {
    var at := zone.reading(now);
    var ws := WindowsOn(s, at.dayKey, at.weekday);
    SomethingScheduledIsAConstraint(s, w);
    assert WireWindowsOn(w, at.dayKey, at.weekday) == ws;
    LabelMeansRunning(ws, times, at.secs);
    if !HasTaggedWindow(w) {
      assert !AnyTagged(ws);
      UntaggedDayAgrees(ws, times, at.secs);
    }
  }

  lemma NothingScheduledMeansLocked(s: Schedule, at: Instant)
    requires EveryDay(s, ClosedDay)
    ensures WindowsOn(s, at.dayKey, at.weekday) == []
  {
    var o := OverrideWindows(s.overrides);
    if at.dayKey in o { assert ClosedDay(o[at.dayKey]); }
    else if at.weekday in s.weekly { assert ClosedDay(s.weekly[at.weekday]); }
  }

  lemma SomethingScheduledIsAConstraint(s: Schedule, w: WireSchedule)
    requires !EveryDay(s, ClosedDay) && w.weekly == s.weekly && w.overrides == s.overrides
    ensures !NoConstraint(w)
  {
    if NoConstraint(w) {
      assert forall d :: d in s.weekly ==> ClosedDay(s.weekly[d]);
      assert false;
    }
  }

  lemma UntaggedDayAgrees(ws: seq<Window>, times: seq<NamedTime>, secs: nat)
    requires !AnyTagged(ws)
    ensures RunningIn(ws, times, secs)
         == if FirstCovering(DaySpans(ws), secs / 60).Some? then FreeTime else LockedOutside
  {
    UntaggedCoverIsCover(ws, secs);
    NoTagsInSpans(ws);
  }

  lemma {:induction false} NoTagsInSpans(ws: seq<Window>)
    requires !AnyTagged(ws)
    ensures forall k :: 0 <= k < |DaySpans(ws)| ==> DaySpans(ws)[k].tag.None?
  {
    if ws != [] {
      assert !AnyTagged(ws[1..]) by { assert forall k :: 0 <= k < |ws[1..]| ==> ws[1..][k] == ws[k + 1]; }
      NoTagsInSpans(ws[1..]);
      assert ws[0].time.None?;
    }
  }
}
