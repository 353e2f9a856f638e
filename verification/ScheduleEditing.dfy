// Editing named times (domain/times.ts): overlaps, deleting a time with its
// windows, and writing a time's windows into one device's schedule.

module ScheduleEditing {
  import opened Seqs
  import opened ScheduleMeaning
  import opened EffectivePolicy
  import opened GuardianTimes
  import opened WardSchedule

  // --- overlaps ---------------------------------------------------------------

  datatype OverlapDay = WeeklyDay(weekday: Weekday) | OverrideDay(date: string)

  datatype TaggedOverlap = TaggedOverlap(day: OverlapDay, a: Window, b: Window)

  function WindowsOf(s: Schedule, day: OverlapDay): seq<Window> {
    match day
    case WeeklyDay(d) => if d in s.weekly then s.weekly[d] else []
    case OverrideDay(k) => if k in OverrideWindows(s.overrides) then OverrideWindows(s.overrides)[k] else []
  }

  ghost predicate IsOverlapOf(ws: seq<Window>, a: Window, b: Window) {
    exists i, j :: 0 <= i < j < |ws| && ws[i] == a && ws[j] == b && Overlap(a, b)
  }

  // One day's overlapping pairs of tagged windows.
  method OverlapsOn(day: OverlapDay, ws: seq<Window>) returns (out: seq<TaggedOverlap>)
    ensures forall o :: o in out ==> o.day == day && IsOverlapOf(ws, o.a, o.b)
    ensures forall i, j :: 0 <= i < j < |ws| && Overlap(ws[i], ws[j]) ==> TaggedOverlap(day, ws[i], ws[j]) in out
  {
    out := [];
    for i := 0 to |ws|
      invariant forall o :: o in out ==> o.day == day && IsOverlapOf(ws, o.a, o.b)
      invariant forall p, j :: 0 <= p < i && p < j < |ws| && Overlap(ws[p], ws[j]) ==> TaggedOverlap(day, ws[p], ws[j]) in out
    {
      for j := i + 1 to |ws|
        invariant forall o :: o in out ==> o.day == day && IsOverlapOf(ws, o.a, o.b)
        invariant forall p, q :: 0 <= p < i && p < q < |ws| && Overlap(ws[p], ws[q]) ==> TaggedOverlap(day, ws[p], ws[q]) in out
        invariant forall q :: i < q < j && Overlap(ws[i], ws[q]) ==> TaggedOverlap(day, ws[i], ws[q]) in out
      {
        if Overlap(ws[i], ws[j]) {
          out := out + [TaggedOverlap(day, ws[i], ws[j])];
        }
      }
    }
  }

  predicate ListsOverlaps(out: seq<TaggedOverlap>, day: OverlapDay, ws: seq<Window>) {
    forall i, j :: 0 <= i < j < |ws| && Overlap(ws[i], ws[j]) ==> TaggedOverlap(day, ws[i], ws[j]) in out
  }

  // Every listed pair really overlaps.
  ghost predicate Truthful(s: Schedule, out: seq<TaggedOverlap>) {
    forall o :: o in out ==> IsOverlapOf(WindowsOf(s, o.day), o.a, o.b)
  }

  // No overlapping pair of that day is missing.
  predicate Complete(s: Schedule, out: seq<TaggedOverlap>, day: OverlapDay) {
    ListsOverlaps(out, day, WindowsOf(s, day))
  }

  lemma Together(s: Schedule, out: seq<TaggedOverlap>, more: seq<TaggedOverlap>)
    requires Truthful(s, out) && Truthful(s, more)
    ensures Truthful(s, out + more)
    ensures forall day :: Complete(s, out, day) || Complete(s, more, day) ==> Complete(s, out + more, day)
  {
  }

  method WeeklyOverlaps(s: Schedule, days: seq<Weekday>) returns (out: seq<TaggedOverlap>)
    ensures Truthful(s, out)
    ensures forall d :: d in days ==> Complete(s, out, WeeklyDay(d))
  {
    out := [];
    for i := 0 to |days|
      invariant Truthful(s, out)
      invariant forall k :: 0 <= k < i ==> Complete(s, out, WeeklyDay(days[k]))
    {
      var here := OverlapsOn(WeeklyDay(days[i]), WindowsOf(s, WeeklyDay(days[i])));
      assert Complete(s, here, WeeklyDay(days[i]));
      Together(s, out, here);
      out := out + here;
    }
  }

  method OverrideOverlaps(s: Schedule) returns (out: seq<TaggedOverlap>)
    ensures Truthful(s, out)
    ensures forall k :: k in OverrideWindows(s.overrides) ==> Complete(s, out, OverrideDay(k))
  {
    out := [];
    var todo := OverrideWindows(s.overrides).Keys;
    while todo != {}
      invariant todo <= OverrideWindows(s.overrides).Keys
      invariant Truthful(s, out)
      invariant forall k :: k in OverrideWindows(s.overrides) && k !in todo ==> Complete(s, out, OverrideDay(k))
      decreases todo
    {
      var k :| k in todo;
      var here := OverlapsOn(OverrideDay(k), WindowsOf(s, OverrideDay(k)));
      assert Complete(s, here, OverrideDay(k));
      Together(s, out, here);
      out := out + here;
      todo := todo - {k};
    }
  }

  // Every overlapping pair of tagged windows, day by day, and nothing else.
  method FindTaggedOverlaps(s: Option<Schedule>) returns (out: seq<TaggedOverlap>)
    ensures s.None? ==> out == []
    ensures s.Some? ==> Truthful(s.value, out) && forall day :: Complete(s.value, out, day)
  {
    if s.None? { return []; }
    var weekly := WeeklyOverlaps(s.value, WEEKDAYS);
    var dated := OverrideOverlaps(s.value);
    out := weekly + dated;
    Together(s.value, weekly, dated);
    forall day ensures Complete(s.value, out, day) {
      if day.WeeklyDay? {
        EveryDayIsListed(day.weekday);
        assert Complete(s.value, weekly, day);
      } else if day.date in OverrideWindows(s.value.overrides) {
        assert Complete(s.value, dated, day);
      }
    }
  }

  predicate NoOverlaps(s: Schedule) { EveryDay(s, TagsApart) }

  // Two windows over one instant overlap as the check sees it.
  lemma BothInsideOverlap(a: Window, b: Window, secs: nat)
    requires Inside(a, secs) && Inside(b, secs) && a.time.Some? && b.time.Some?
    ensures Overlap(a, b)
  {
    TextOrderIsClockOrder(a.start, b.end);
    TextOrderIsClockOrder(b.start, a.end);
  }

  // --- deleting a time ----------------------------------------------------------

  function Untagged(ws: seq<Window>, id: string): seq<Window> {
    Filter((w: Window) => w.time != Some(id), ws)
  }

  predicate Has(ws: seq<Window>, id: string) { exists k :: 0 <= k < |ws| && ws[k].time == Some(id) }

  function Scheduled(s: Schedule, id: string): bool {
    || (exists d :: d in s.weekly && Has(s.weekly[d], id))
    || (exists k :: k in OverrideWindows(s.overrides) && Has(OverrideWindows(s.overrides)[k], id))
  }

  function StripMap<K(!new)>(m: map<K, seq<Window>>, id: string): (r: map<K, seq<Window>>)
    ensures r.Keys == m.Keys && forall k :: k in r ==> r[k] == Untagged(m[k], id)
  {
    map k | k in m :: Untagged(m[k], id)
  }

  // A weekday that empties is dropped; one that was empty already stays.
  function StripWeekly(m: map<Weekday, seq<Window>>, id: string): (r: map<Weekday, seq<Window>>)
    ensures forall d :: d in r <==> d in m && (Untagged(m[d], id) != [] || !Has(m[d], id))
    ensures forall d :: d in r ==> r[d] == Untagged(m[d], id)
  {
    map d | d in m && (Untagged(m[d], id) != [] || !Has(m[d], id)) :: Untagged(m[d], id)
  }

  // Every window tagged `id` removed; an override that empties stays, closed.
  function Stripped(s: Schedule, id: string): Schedule {
    if !Scheduled(s, id) then s
    else s.(weekly := StripWeekly(s.weekly, id),
            overrides := if s.overrides.None? then None else Some(StripMap(s.overrides.value, id)))
  }

  method StripTag(s: Schedule, id: string) returns (r: Schedule)
    ensures r == Stripped(s, id)
  {
    if !Scheduled(s, id) { return s; }
    var weekly := StripDays(s.weekly, id, WEEKDAYS);
    forall d: Weekday ensures d in WEEKDAYS { EveryDayIsListed(d); }
    assert weekly == StripWeekly(s.weekly, id);
    r := s.(weekly := weekly);
    if s.overrides.Some? {
      r := r.(overrides := Some(StripMap(s.overrides.value, id)));
    }
  }

  method StripDays(m: map<Weekday, seq<Window>>, id: string, days: seq<Weekday>)
    returns (weekly: map<Weekday, seq<Window>>)
    ensures forall d :: d in weekly <==> d in m && d in days && (Untagged(m[d], id) != [] || !Has(m[d], id))
    ensures forall d :: d in weekly ==> weekly[d] == Untagged(m[d], id)
  {
    weekly := map[];
    for i := 0 to |days|
      invariant forall d :: d in weekly <==>
        d in m && d in days[..i] && (Untagged(m[d], id) != [] || !Has(m[d], id))
      invariant forall d :: d in weekly ==> weekly[d] == Untagged(m[d], id)
    {
      var day := days[i];
      assert days[..i + 1] == days[..i] + [day];
      if day in m {
        var kept := Untagged(m[day], id);
        if kept != [] {
          weekly := weekly[day := kept];
        } else if !Has(m[day], id) {
          UntaggedWithout(m[day], id);
          weekly := weekly[day := m[day]];
        }
      }
    }
    assert days[..|days|] == days;
  }

  lemma UntaggedWithout(ws: seq<Window>, id: string)
    requires !Has(ws, id)
    ensures Untagged(ws, id) == ws
  {
    forall w | w in ws ensures w.time != Some(id) {
      var k :| 0 <= k < |ws| && ws[k] == w;
    }
    FilterAll((w: Window) => w.time != Some(id), ws);
  }

  // On every day the windows in force are the old ones without that tag.
  lemma StrippedWindows(s: Schedule, id: string, dayKey: string, weekday: Weekday)
    ensures WindowsOn(Stripped(s, id), dayKey, weekday) == Untagged(WindowsOn(s, dayKey, weekday), id)
  {
    var ws := WindowsOn(s, dayKey, weekday);
    if !Scheduled(s, id) {
      assert !Has(ws, id) by {
        assert dayKey in OverrideWindows(s.overrides) ==> !Has(OverrideWindows(s.overrides)[dayKey], id);
        assert weekday in s.weekly ==> !Has(s.weekly[weekday], id);
      }
      UntaggedWithout(ws, id);
    }
  }

  datatype EditError =
    | FreeTimeStays
    | NoSuchTime | NotThisChilds | NeverReported | TooOld | BadWindow | NoSchedule | SwitchedOff | TimesOverlap

  datatype Outcome<T> = Ok(value: T) | Failed(error: EditError)

  function ScheduleIn(m: Controls): Option<Schedule> {
    if Get(m, ScheduleC).ScheduleValue? then Some(Get(m, ScheduleC).schedule) else None
  }

  function StripControls(m: Controls, id: string): Controls {
    if ScheduleIn(m).Some? then m[ScheduleC := ScheduleValue(Stripped(ScheduleIn(m).value, id))] else m
  }

  function StripOverrides(o: map<string, Controls>, id: string): (r: map<string, Controls>)
    ensures r.Keys == o.Keys && forall d :: d in r ==> r[d] == StripControls(o[d], id)
  {
    map d | d in o :: StripControls(o[d], id)
  }

  function OtherTimes(times: seq<NamedTime>, id: string): seq<NamedTime> {
    Filter((t: NamedTime) => t.id != id, times)
  }

  function Removed(p: Policy, id: string): Policy {
    p.(times := if p.times.None? then None else Some(OtherTimes(p.times.value, id)),
       controls := StripControls(p.controls, id),
       deviceOverrides := if p.deviceOverrides.None? then None else Some(StripOverrides(p.deviceOverrides.value, id)))
  }

  function RemovalResult(p: Policy, id: string): Outcome<Policy> {
    if id == FREE_TIME_ID then Failed(FreeTimeStays) else Ok(Removed(p, id))
  }

  method RemoveNamedTime(p: Policy, id: string) returns (r: Outcome<Policy>)
    ensures r == RemovalResult(p, id)
  {
    if id == FREE_TIME_ID { return Failed(FreeTimeStays); }
    var next := p;
    if p.times.Some? {
      next := next.(times := Some(OtherTimes(p.times.value, id)));
    }
    if ScheduleIn(p.controls).Some? {
      var s := StripTag(ScheduleIn(p.controls).value, id);
      next := next.(controls := p.controls[ScheduleC := ScheduleValue(s)]);
    }
    if p.deviceOverrides.Some? {
      var o := p.deviceOverrides.value;
      var out: map<string, Controls> := map[];
      var todo := o.Keys;
      while todo != {}
        invariant todo <= o.Keys
        invariant forall d :: d in out <==> d in o && d !in todo
        invariant forall d :: d in out ==> out[d] == StripControls(o[d], id)
        decreases todo
      {
        var d :| d in todo;
        if ScheduleIn(o[d]).Some? {
          var s := StripTag(ScheduleIn(o[d]).value, id);
          out := out[d := o[d][ScheduleC := ScheduleValue(s)]];
        } else {
          out := out[d := o[d]];
        }
        todo := todo - {d};
      }
      assert out == StripOverrides(o, id);
      next := next.(deviceOverrides := Some(out));
    }
    r := Ok(next);
  }

  // The schedule a device runs.
  function DeviceSchedule(p: Policy, device: string): Option<Schedule> {
    ScheduleIn(Effective(p, device).controls)
  }

  function TimesOf(p: Policy): seq<NamedTime> { if p.times.Some? then p.times.value else [] }

  // A schedule key holds a schedule or is undefined.
  predicate Typed(p: Policy) {
    && (Get(p.controls, ScheduleC).ScheduleValue? || Get(p.controls, ScheduleC).Undefined?)
    && forall d :: d in Overrides(p) ==>
         Get(Overrides(p)[d], ScheduleC).ScheduleValue? || Get(Overrides(p)[d], ScheduleC).Undefined?
  }

  lemma RemovedReachesEveryDevice(p: Policy, id: string, device: string)
    requires Typed(p)
    ensures DeviceSchedule(Removed(p, id), device)
         == if DeviceSchedule(p, device).None? then None else Some(Stripped(DeviceSchedule(p, device).value, id))
  {
    var q := Removed(p, id);
    assert device in Overrides(p) ==> Mine(q, device) == StripControls(Mine(p, device), id);
  }

  // The rule run on the old windows without the deleted time's.
  function ActiveWithout(s: Option<Schedule>, times: seq<NamedTime>, id: string, at: Instant): ActiveTime {
    if s.None? || s.value.paused then FreeTime
    else RunningIn(Untagged(WindowsOn(s.value, at.dayKey, at.weekday), id), times, at.secs)
  }

  lemma {:induction false} OtherTimeStillDefined(times: seq<NamedTime>, id: string, tag: string)
    requires tag != id
    ensures TimeOf(OtherTimes(times, id), tag) == TimeOf(times, tag)
  {
    if times != [] {
      OtherTimeStillDefined(times[1..], id, tag);
      if times[0].id != id {
        assert OtherTimes(times, id) == [times[0]] + OtherTimes(times[1..], id);
        assert OtherTimes(times, id)[1..] == OtherTimes(times[1..], id);
      } else {
        assert OtherTimes(times, id) == OtherTimes(times[1..], id);
      }
    }
  }

  lemma RunWithoutDefinition(ws: seq<Window>, times: seq<NamedTime>, id: string, secs: nat)
    requires forall w :: w in ws ==> w.time != Some(id)
    ensures RunningIn(ws, OtherTimes(times, id), secs) == RunningIn(ws, times, secs)
  {
    var c := Carver(ws, secs);
    if c.Some? {
      assert ws[c.value] in ws;
      OtherTimeStillDefined(times, id, ws[c.value].time.value);
    }
  }

  // After deleting a time, every device at every instant runs what the same rule
  // gives on its old windows without that time's.
  lemma RemovalOnlyDropsItsWindows(p: Policy, id: string, device: string, at: Instant)
    requires Typed(p)
    ensures ActiveAt(DeviceSchedule(Removed(p, id), device), TimesOf(Removed(p, id)), at)
         == ActiveWithout(DeviceSchedule(p, device), TimesOf(p), id, at)
  {
    RemovedReachesEveryDevice(p, id, device);
    var s := DeviceSchedule(p, device);
    if s.Some? {
      StrippedWindows(s.value, id, at.dayKey, at.weekday);
      RunWithoutDefinition(Untagged(WindowsOn(s.value, at.dayKey, at.weekday), id), TimesOf(p), id, at.secs);
    }
  }

  // Dropping windows that do not carve this instant leaves what carves it.
  lemma {:induction false} CarverSurvives(ws: seq<Window>, id: string, secs: nat)
    requires var c := Carver(ws, secs);
      if c.Some? then ws[c.value].time != Some(id)
      else forall w :: w in ws && w.time == Some(id) ==> !Inside(w, secs)
    ensures var kept := Untagged(ws, id);
      && (Carver(kept, secs).Some? <==> Carver(ws, secs).Some?)
      && (Carver(ws, secs).Some? ==> kept[Carver(kept, secs).value] == ws[Carver(ws, secs).value])
      && (Covered(kept, secs) || Carver(ws, secs).Some? <==> Covered(ws, secs))
  {
    var kept, c := Untagged(ws, id), Carver(ws, secs);
    if c.Some? {
      var k := KeptIndex(ws, id, c.value);
      forall j | 0 <= j < |kept| && kept[j].time.Some? && Inside(kept[j], secs)
        ensures MinutesOf(kept[k].start) < MinutesOf(kept[j].start)
             || (MinutesOf(kept[k].start) == MinutesOf(kept[j].start) && k <= j)
      {
        if j < k {
          var i := EarlierInOriginal(ws, id, c.value, k, j);
        } else {
          var i := InOriginal(ws, id, j);
        }
      }
      CarverIsUnique(kept, secs, k);
    } else {
      assert Carver(kept, secs).None? by {
        assert forall k :: 0 <= k < |kept| ==> kept[k] in ws;
      }
      if Covered(ws, secs) {
        var i :| 0 <= i < |ws| && Inside(ws[i], secs);
        assert ws[i] in kept;
      }
      if Covered(kept, secs) {
        var i :| 0 <= i < |kept| && Inside(kept[i], secs);
        assert kept[i] in ws;
      }
    }
  }

  // Where an untagged-by-`id` window lands once the tag is filtered out.
  lemma {:induction false} KeptIndex(ws: seq<Window>, id: string, c: nat) returns (k: nat)
    requires c < |ws| && ws[c].time != Some(id)
    ensures k == |Untagged(ws[..c], id)| && k < |Untagged(ws, id)| && Untagged(ws, id)[k] == ws[c]
  {
    assert ws == ws[..c] + ws[c..];
    FilterConcat((w: Window) => w.time != Some(id), ws[..c], ws[c..]);
    k := |Untagged(ws[..c], id)|;
    assert Untagged(ws[c..], id)[0] == ws[c];
  }

  lemma EarlierInOriginal(ws: seq<Window>, id: string, c: nat, k: nat, j: nat) returns (i: nat)
    requires c < |ws| && k == |Untagged(ws[..c], id)| && j < k && k < |Untagged(ws, id)|
    ensures i < c && ws[i] == Untagged(ws, id)[j]
  {
    assert ws == ws[..c] + ws[c..];
    FilterConcat((w: Window) => w.time != Some(id), ws[..c], ws[c..]);
    assert Untagged(ws, id)[j] in Untagged(ws[..c], id);
    i :| 0 <= i < c && ws[..c][i] == Untagged(ws, id)[j];
  }

  lemma InOriginal(ws: seq<Window>, id: string, j: nat) returns (i: nat)
    requires j < |Untagged(ws, id)|
    ensures i < |ws| && ws[i] == Untagged(ws, id)[j]
  {
    assert Untagged(ws, id)[j] in ws;
    i :| 0 <= i < |ws| && ws[i] == Untagged(ws, id)[j];
  }

  // So an instant that was not running the deleted time is exactly as it was.
  lemma RemovalSparesOtherInstants(p: Policy, id: string, device: string, at: Instant)
    requires Typed(p) && TimeOf(TimesOf(p), id).Some?
    requires var was := ActiveAt(DeviceSchedule(p, device), TimesOf(p), at);
      !(was.RunsTime? && was.time.id == id)
    ensures ActiveAt(DeviceSchedule(Removed(p, id), device), TimesOf(Removed(p, id)), at)
         == ActiveAt(DeviceSchedule(p, device), TimesOf(p), at)
  {
    RemovalOnlyDropsItsWindows(p, id, device, at);
    var s := DeviceSchedule(p, device);
    if s.Some? && !s.value.paused {
      CarverSurvives(WindowsOn(s.value, at.dayKey, at.weekday), id, at.secs);
    }
  }

  // Nothing is left tagged with it, and a date it emptied stays a closed day.
  lemma RemovalLeavesNoTag(p: Policy, id: string, device: string)
    requires Typed(p) && DeviceSchedule(p, device).Some?
    ensures var s := DeviceSchedule(Removed(p, id), device).value;
      && !Scheduled(s, id)
      && (forall date, day :: date in OverrideWindows(DeviceSchedule(p, device).value.overrides)
            && Untagged(OverrideWindows(DeviceSchedule(p, device).value.overrides)[date], id) == []
            ==> WindowsOn(s, date, day) == [])
  {
    RemovedReachesEveryDevice(p, id, device);
    var was := DeviceSchedule(p, device).value;
    var s := Stripped(was, id);
    forall date, day | date in OverrideWindows(was.overrides) && Untagged(OverrideWindows(was.overrides)[date], id) == []
      ensures WindowsOn(s, date, day) == []
    {
      StrippedWindows(was, id, date, day);
    }
    NothingTagged(was, id);
  }

  lemma UntaggedHasNone(ws: seq<Window>, id: string)
    ensures !Has(Untagged(ws, id), id)
  {
    var kept := Untagged(ws, id);
    assert forall k :: 0 <= k < |kept| ==> kept[k] in kept;
  }

  lemma NothingTagged(s: Schedule, id: string)
    ensures !Scheduled(Stripped(s, id), id)
  {
    if Scheduled(s, id) {
      var r := Stripped(s, id);
      forall d | d in r.weekly ensures !Has(r.weekly[d], id) { UntaggedHasNone(s.weekly[d], id); }
      var o := OverrideWindows(r.overrides);
      forall k | k in o ensures !Has(o[k], id) { UntaggedHasNone(OverrideWindows(s.overrides)[k], id); }
    }
  }

  // --- what a removal leaves alone ------------------------------------------------

  // `kept` is what remains of `all` once the definitions of `id` are gone: the entries
  // at the places `at`, in order.
  predicate Remain(kept: seq<NamedTime>, all: seq<NamedTime>, id: string, at: seq<nat>) {
    && |at| == |kept|
    && (forall i, j :: 0 <= i < j < |at| ==> at[i] < at[j])
    && (forall i :: 0 <= i < |at| ==> at[i] < |all| && kept[i] == all[at[i]])
    && (forall k :: 0 <= k < |all| ==> (k in at <==> all[k].id != id))
  }

  lemma {:induction false} OthersRemain(times: seq<NamedTime>, id: string) returns (at: seq<nat>)
    ensures Remain(OtherTimes(times, id), times, id, at)
  {
    at := [];
    if times != [] {
      var n := |times| - 1;
      at := OthersRemain(times[..n], id);
      OthersStep(times, id);
      RemainStep(OtherTimes(times[..n], id), times, id, at);
      if times[n].id != id { at := at + [n]; } else { assert OtherTimes(times[..n], id) + [] == OtherTimes(times[..n], id); }
    }
  }

  lemma OthersStep(times: seq<NamedTime>, id: string)
    requires times != []
    ensures var n := |times| - 1;
      OtherTimes(times, id) == OtherTimes(times[..n], id) + if times[n].id != id then [times[n]] else []
  {
    var n := |times| - 1;
    assert times == times[..n] + [times[n]];
    FilterConcat((t: NamedTime) => t.id != id, times[..n], [times[n]]);
  }

  lemma RemainStep(kept: seq<NamedTime>, times: seq<NamedTime>, id: string, at: seq<nat>)
    requires times != [] && Remain(kept, times[..|times| - 1], id, at)
    ensures var n := |times| - 1;
      if times[n].id != id then Remain(kept + [times[n]], times, id, at + [n]) else Remain(kept, times, id, at)
  {
    var n := |times| - 1;
    assert forall k :: 0 <= k < n ==> times[..n][k] == times[k];
    assert forall k :: k in at + [n] <==> k in at || k == n;
    assert forall k :: k in at ==> k < n;
  }

  // Only Free time stays. Any other is gone from the definitions, the rest of which
  // stand as they were, in order.
  lemma RemovalDeletesTheTime(p: Policy, id: string) returns (at: seq<nat>)
    ensures RemovalResult(p, id) == Failed(FreeTimeStays) <==> id == "free"
    ensures id != "free" ==>
              var r := RemovalResult(p, id);
              && r.Ok?
              && TimeOf(TimesOf(r.value), id).None?
              && (forall other :: other != id ==> TimeOf(TimesOf(r.value), other) == TimeOf(TimesOf(p), other))
              && Remain(TimesOf(r.value), TimesOf(p), id, at)
              && (r.value.times.None? <==> p.times.None?)
  {
    at := OthersRemain(TimesOf(p), id);
    forall other | other != id ensures TimeOf(OtherTimes(TimesOf(p), id), other) == TimeOf(TimesOf(p), other) {
      OtherTimeStillDefined(TimesOf(p), id, other);
    }
    NotAmongOthers(TimesOf(p), id);
  }

  lemma NotAmongOthers(times: seq<NamedTime>, id: string)
    ensures TimeOf(OtherTimes(times, id), id).None?
  {
    var others := OtherTimes(times, id);
    forall k | 0 <= k < |others| ensures others[k].id != id { assert others[k] in others; }
  }

  // Beside the definitions nothing but schedules has changed, for the base and for
  // every device.
  lemma RemovalChangesOnlySchedules(p: Policy, id: string)
    requires id != "free"
    ensures var q := RemovalResult(p, id).value;
      && q.rest == p.rest
      && OnlySchedules(p.controls, q.controls)
      && (q.deviceOverrides.None? <==> p.deviceOverrides.None?)
      && Overrides(q).Keys == Overrides(p).Keys
      && forall d :: d in Overrides(p) ==> OnlySchedules(Overrides(p)[d], Overrides(q)[d])
  {
  }

  // The same controls are set, with the same values; a schedule keeps its zone and
  // whether it is lifted.
  predicate OnlySchedules(was: Controls, now: Controls) {
    && was.Keys == now.Keys
    && (forall c :: c in was && c != ScheduleC ==> now[c] == was[c])
    && (ScheduleC in was ==>
          if was[ScheduleC].ScheduleValue?
          then now[ScheduleC].ScheduleValue? && now[ScheduleC].schedule.tz == was[ScheduleC].schedule.tz
               && now[ScheduleC].schedule.paused == was[ScheduleC].schedule.paused
          else now[ScheduleC] == was[ScheduleC])
  }
}
