// Giving a named time its weekly windows on one device (domain/times.ts
// `setTimeWindows`), and what that does to every device of the child.

module TimeWindows {
  import opened Seqs
  import opened ScheduleMeaning
  import opened EffectivePolicy
  import opened GuardianTimes
  import opened WardSchedule
  import opened ScheduleEditing

  // What a device's last report says of its version.
  datatype Gate = GateOk | GateOld | GateUnreported

  datatype Device = Device(id: string, paired: bool, gate: Gate)

  datatype RawWindow = RawWindow(start: string, end: string)

  const WHOLE_WEEK: set<Weekday> := {Mon, Tue, Wed, Thu, Fri, Sat, Sun}

  type Given = map<Weekday, seq<RawWindow>>

  predicate GoodWindow(w: RawWindow) {
    IsHhMm(w.start) && IsHhMm(w.end) && TextLess(w.start, w.end)
  }

  predicate GoodDay(ws: seq<RawWindow>) {
    forall k :: 0 <= k < |ws| ==> GoodWindow(ws[k])
  }

  predicate GoodWindows(windows: Given) {
    forall d :: d in windows ==> GoodDay(windows[d])
  }

  function GivenOn(windows: Given, day: Weekday): seq<RawWindow> {
    if day in windows then windows[day] else []
  }

  // The given windows of a day, tagged.
  function Tagged(ws: seq<RawWindow>, id: string): (r: seq<Window>)
    requires GoodDay(ws)
    ensures |r| == |ws|
    ensures forall k :: 0 <= k < |r| ==> r[k] == Window(ws[k].start, ws[k].end, Some(id))
  {
    seq(|ws|, k requires 0 <= k < |ws| => Window(ws[k].start, ws[k].end, Some(id)))
  }

  // Drop this time's windows; a day it empties goes, an already empty one stays.
  function WithoutTag(m: map<Weekday, seq<Window>>, id: string): (r: map<Weekday, seq<Window>>)
    ensures forall d :: d in r <==> d in m && (Untagged(m[d], id) != [] || m[d] == [])
    ensures forall d :: d in r ==> r[d] == Untagged(m[d], id)
  {
    map d | d in m && (Untagged(m[d], id) != [] || m[d] == []) :: Untagged(m[d], id)
  }

  method StripWeeklyTag(m: map<Weekday, seq<Window>>, id: string, days: seq<Weekday>)
    returns (weekly: map<Weekday, seq<Window>>)
    requires forall d: Weekday :: d in days
    ensures weekly == WithoutTag(m, id)
  {
    weekly := map[];
    for i := 0 to |days|
      invariant forall d :: d in weekly <==> d in days[..i] && d in WithoutTag(m, id)
      invariant forall d :: d in weekly ==> weekly[d] == Untagged(m[d], id)
    {
      var day := days[i];
      assert days[..i + 1] == days[..i] + [day];
      if day in m {
        var kept := Untagged(m[day], id);
        if kept != [] || m[day] == [] {
          weekly := weekly[day := kept];
        }
      }
    }
    assert days[..|days|] == days;
    assert weekly == WithoutTag(m, id);
  }

  function Appended(m: map<Weekday, seq<Window>>, windows: Given, id: string, d: Weekday): seq<Window>
    requires GoodWindows(windows)
  {
    (if d in m then m[d] else []) + Tagged(GivenOn(windows, d), id)
  }

  // A day's windows once those given for the days in `done` are appended.
  function AddedAt(m: map<Weekday, seq<Window>>, windows: Given, id: string, done: set<Weekday>, d: Weekday)
    : Option<seq<Window>>
    requires GoodWindows(windows)
  {
    if d in done && GivenOn(windows, d) != [] then Some(Appended(m, windows, id, d))
    else if d in m then Some(m[d]) else None
  }

  function Added(m: map<Weekday, seq<Window>>, windows: Given, id: string, done: set<Weekday>)
    : (r: map<Weekday, seq<Window>>)
    requires GoodWindows(windows)
    ensures forall d :: d in r <==> AddedAt(m, windows, id, done, d).Some?
    ensures forall d :: d in r ==> AddedAt(m, windows, id, done, d) == Some(r[d])
  {
    map d: Weekday | AddedAt(m, windows, id, done, d).Some? :: AddedAt(m, windows, id, done, d).value
  }

  lemma AddStepAt(m: map<Weekday, seq<Window>>, windows: Given, id: string, done: set<Weekday>, day: Weekday, d: Weekday)
    requires GoodWindows(windows)
    ensures AddedAt(m, windows, id, done + {day}, d)
         == if d == day && GivenOn(windows, d) != [] then Some(Appended(m, windows, id, d))
            else AddedAt(m, windows, id, done, d)
  {
  }

  lemma AddStep(m: map<Weekday, seq<Window>>, windows: Given, id: string, done: set<Weekday>, day: Weekday)
    requires GoodWindows(windows)
    ensures Added(m, windows, id, done + {day})
         == if GivenOn(windows, day) == [] then Added(m, windows, id, done)
            else Added(m, windows, id, done)[day := Appended(m, windows, id, day)]
  {
    var after, before := Added(m, windows, id, done + {day}), Added(m, windows, id, done);
    var wanted := if GivenOn(windows, day) == [] then before else before[day := Appended(m, windows, id, day)];
    forall d ensures (d in after <==> d in wanted) && (d in after ==> after[d] == wanted[d]) {
      AddStepAt(m, windows, id, done, day, d);
    }
    assert after == wanted;
  }

  method AddWindows(m: map<Weekday, seq<Window>>, windows: Given, id: string, days: seq<Weekday>)
    returns (weekly: map<Weekday, seq<Window>>)
    requires GoodWindows(windows) && NoDup(days)
    ensures weekly == Added(m, windows, id, Elements(days))
  {
    weekly := m;
    assert weekly == Added(m, windows, id, {});
    ghost var done: set<Weekday> := {};
    for i := 0 to |days|
      invariant done == Elements(days[..i]) && weekly == Added(m, windows, id, done)
    {
      var day := days[i];
      assert days[..i + 1] == days[..i] + [day];
      assert day !in done;
      AddStep(m, windows, id, done, day);
      var add := GivenOn(windows, day);
      if add != [] {
        weekly := weekly[day := (if day in weekly then weekly[day] else []) + Tagged(add, id)];
      }
      done := done + {day};
    }
    assert days[..|days|] == days;
  }

  // The device's schedule once this time's weekly windows are replaced.
  function Rewritten(s: Schedule, id: string, windows: Given): Schedule
    requires GoodWindows(windows)
  {
    s.(weekly := Added(WithoutTag(s.weekly, id), windows, id, WHOLE_WEEK))
  }

  // --- the whole edit ---------------------------------------------------------

  function DeviceNamed(devices: seq<Device>, id: string): (d: Option<Device>)
    ensures d.Some? ==> d.value in devices && d.value.id == id
    ensures d.None? <==> forall i :: 0 <= i < |devices| ==> devices[i].id != id
  {
    if devices == [] then None
    else if devices[0].id == id then Some(devices[0]) else DeviceNamed(devices[1..], id)
  }

  function PairedCount(devices: seq<Device>): nat {
    |Filter((d: Device) => d.paired, devices)|
  }

  function Ids(devices: seq<Device>): seq<string> { Map((d: Device) => d.id, devices) }

  predicate HasOwn(p: Policy, device: string) { Get(Mine(p, device), ScheduleC) != Undefined }

  // The base is written when the device has no schedule of its own and no sibling is paired.
  predicate Sole(p: Policy, device: string, devices: seq<Device>) {
    !HasOwn(p, device) && PairedCount(devices) <= 1
  }

  // Why the edit is refused, in the order the app reports it.
  function Refusal(p: Policy, id: string, device: string, windows: Given, devices: seq<Device>): Option<EditError> {
    var d := DeviceNamed(devices, device);
    var own := DeviceSchedule(p, device);
    if !IsTimeId(id) || TimeOf(TimesOf(p), id).None? then Some(NoSuchTime)
    else if d.None? then Some(NotThisChilds)
    else if d.value.gate == GateUnreported then Some(NeverReported)
    else if d.value.gate == GateOld then Some(TooOld)
    else if !GoodWindows(windows) then Some(BadWindow)
    else if own.None? then Some(NoSchedule)
    else if own.value.paused then Some(SwitchedOff)
    else if !NoOverlaps(Rewritten(own.value, id, windows)) then Some(TimesOverlap)
    else None
  }

  // The policy an accepted edit leaves.
  function Edited(p: Policy, id: string, device: string, windows: Given, devices: seq<Device>): Policy
    requires Refusal(p, id, device, windows, devices).None?
  {
    var v := ScheduleValue(Rewritten(DeviceSchedule(p, device).value, id, windows));
    if Sole(p, device, devices) then p.(controls := p.controls[ScheduleC := v])
    else SetDeviceControl(if HasOwn(p, device) then p else Split(p, ScheduleC, Ids(devices)), device, ScheduleC, v)
  }

  function SetResult(p: Policy, id: string, device: string, windows: Given, devices: seq<Device>): Outcome<Policy> {
    var no := Refusal(p, id, device, windows, devices);
    if no.Some? then Failed(no.value) else Ok(Edited(p, id, device, windows, devices))
  }

  method AllGood(windows: Given, days: seq<Weekday>) returns (ok: bool)
    requires forall d: Weekday :: d in days
    ensures ok <==> GoodWindows(windows)
  {
    for i := 0 to |days|
      invariant forall d :: d in days[..i] ==> GoodDay(GivenOn(windows, d))
    {
      var ws := GivenOn(windows, days[i]);
      for k := 0 to |ws|
        invariant GoodDay(ws[..k])
      {
        if !IsHhMm(ws[k].start) || !IsHhMm(ws[k].end) || !TextLess(ws[k].start, ws[k].end) {
          assert !GoodWindow(ws[k]);
          assert days[i] in windows && !GoodDay(windows[days[i]]);
          return false;
        }
        assert ws[..k + 1] == ws[..k] + [ws[k]];
      }
      assert ws[..|ws|] == ws;
      assert days[..i + 1] == days[..i] + [days[i]];
    }
    assert days[..|days|] == days;
    forall d | d in windows ensures GoodDay(windows[d]) {
      assert d in days[..|days|] && GivenOn(windows, d) == windows[d];
    }
    return true;
  }

  lemma SplitLeavesOwn(p: Policy, device: string, devices: seq<Device>)
    requires Typed(p) && DeviceNamed(devices, device).Some? && DeviceSchedule(p, device).Some?
    ensures var q := Split(p, ScheduleC, Ids(devices));
      Get(Mine(q, device), ScheduleC) == ScheduleValue(DeviceSchedule(p, device).value)
  {
    var i :| 0 <= i < |devices| && devices[i] == DeviceNamed(devices, device).value;
    assert Ids(devices)[i] == device;
    SplitSeedsEveryDevice(p, ScheduleC, Ids(devices), device);
  }

  // The policy whose own schedule for the device is rewritten, and that schedule.
  method OwnSchedule(p: Policy, device: string, devices: seq<Device>) returns (r: Outcome<(Policy, Schedule)>)
    requires Typed(p) && DeviceNamed(devices, device).Some?
    ensures r == if DeviceSchedule(p, device).None? then Failed(NoSchedule)
                 else Ok((if Sole(p, device, devices) || HasOwn(p, device) then p else Split(p, ScheduleC, Ids(devices)),
                          DeviceSchedule(p, device).value))
  {
    var next := p;
    var sole := !HasOwn(next, device) && PairedCount(devices) <= 1;
    if !sole && !HasOwn(next, device) {
      if ScheduleIn(next.controls).None? { return Failed(NoSchedule); }
      SplitLeavesOwn(p, device, devices);
      next := SetControlSplit(next, ScheduleC, Ids(devices));
    }
    if sole && ScheduleIn(next.controls).None? { return Failed(NoSchedule); }
    var own := if sole then ScheduleIn(next.controls).value else Get(Mine(next, device), ScheduleC).schedule;
    r := Ok((next, own));
  }

  method SetTimeWindows(p: Policy, id: string, device: string, windows: Given, devices: seq<Device>)
    returns (r: Outcome<Policy>)
    requires Typed(p)
    ensures r == SetResult(p, id, device, windows, devices)
  {
    forall d: Weekday ensures d in WEEKDAYS { EveryDayIsListed(d); }
    if !IsTimeId(id) || TimeOf(TimesOf(p), id).None? { return Failed(NoSuchTime); }
    var d := DeviceNamed(devices, device);
    if d.None? { return Failed(NotThisChilds); }
    if d.value.gate == GateUnreported { return Failed(NeverReported); }
    if d.value.gate == GateOld { return Failed(TooOld); }
    var good := AllGood(windows, WEEKDAYS);
    if !good { return Failed(BadWindow); }
    var found := OwnSchedule(p, device, devices);
    if found.Failed? { return Failed(found.error); }
    var (next, own) := found.value;
    if own.paused { return Failed(SwitchedOff); }
    var without := StripWeeklyTag(own.weekly, id, WEEKDAYS);
    var weekly := AddWindows(without, windows, id, WEEKDAYS);
    assert Elements(WEEKDAYS) == WHOLE_WEEK;
    var s := own.(weekly := weekly);
    var overlaps := FindTaggedOverlaps(Some(s));
    OverlapsFound(s, overlaps);
    if overlaps != [] { return Failed(TimesOverlap); }
    if Sole(p, device, devices) {
      r := Ok(next.(controls := next.controls[ScheduleC := ScheduleValue(s)]));
    } else {
      r := Ok(SetDeviceControl(next, device, ScheduleC, ScheduleValue(s)));
    }
  }

  // An empty list of overlaps means there are none.
  lemma OverlapsFound(s: Schedule, out: seq<TaggedOverlap>)
    requires Truthful(s, out) && forall day :: Complete(s, out, day)
    ensures out == [] <==> NoOverlaps(s)
  {
    if out == [] {
      forall d | d in s.weekly ensures TagsApart(s.weekly[d]) {
        assert Complete(s, out, WeeklyDay(d));
      }
      forall k | k in OverrideWindows(s.overrides) ensures TagsApart(OverrideWindows(s.overrides)[k]) {
        assert Complete(s, out, OverrideDay(k));
      }
    } else {
      assert out[0] in out;
      assert IsOverlapOf(WindowsOf(s, out[0].day), out[0].a, out[0].b);
      assert !TagsApart(WindowsOf(s, out[0].day));
    }
  }

  // --- what an accepted edit means ----------------------------------------------

  lemma EditedSchedule(p: Policy, id: string, device: string, windows: Given, devices: seq<Device>)
    requires Typed(p) && Refusal(p, id, device, windows, devices).None?
    ensures DeviceSchedule(Edited(p, id, device, windows, devices), device)
         == Some(Rewritten(DeviceSchedule(p, device).value, id, windows))
    ensures TimesOf(Edited(p, id, device, windows, devices)) == TimesOf(p)
  {
  }

  predicate InGiven(ws: seq<RawWindow>, id: string, secs: nat)
    requires GoodDay(ws)
  {
    Covered(Tagged(ws, id), secs)
  }

  // Inside a given window the time runs; elsewhere the old windows without it do.
  lemma NewDayRuns(kept: seq<Window>, ws: seq<RawWindow>, id: string, times: seq<NamedTime>, secs: nat)
    requires GoodDay(ws) && TagsApart(kept + Tagged(ws, id)) && TimeOf(times, id).Some?
    ensures RunningIn(kept + Tagged(ws, id), times, secs)
         == if InGiven(ws, id, secs) then RunsTime(TimeOf(times, id).value) else RunningIn(kept, times, secs)
  {
    var added := Tagged(ws, id);
    var all := kept + added;
    if InGiven(ws, id, secs) {
      var k :| 0 <= k < |added| && Inside(added[k], secs);
      assert all[|kept| + k] == added[k];
      ApartMeansOne(all, secs, Carver(all, secs).value, |kept| + k);
    } else {
      var f := (w: Window) => Inside(w, secs);
      FilterConcat(f, kept, added);
      FilterNone(f, added);
      SameCoveringSameRun(all, kept, times, secs);
    }
  }

  // On every day without a date override the device runs the time exactly inside
  // the given windows, and otherwise what the old schedule gives without that
  // time's weekly windows; a day with an override runs as before.
  lemma WindowsMeanWhatTheySay(
      p: Policy, id: string, device: string, windows: Given, devices: seq<Device>, at: Instant)
    requires Typed(p) && Refusal(p, id, device, windows, devices).None?
    ensures var was := DeviceSchedule(p, device).value;
      ActiveAt(DeviceSchedule(Edited(p, id, device, windows, devices), device),
               TimesOf(Edited(p, id, device, windows, devices)), at)
      == if at.dayKey in OverrideWindows(was.overrides) then ActiveAt(Some(was), TimesOf(p), at)
         else if InGiven(GivenOn(windows, at.weekday), id, at.secs) then RunsTime(TimeOf(TimesOf(p), id).value)
         else RunningIn(Untagged(WindowsOn(was, at.dayKey, at.weekday), id), TimesOf(p), at.secs)
  {
    EditedSchedule(p, id, device, windows, devices);
    RewrittenRuns(DeviceSchedule(p, device).value, id, windows, TimesOf(p), at);
  }

  function On(m: map<Weekday, seq<Window>>, d: Weekday): seq<Window> {
    if d in m then m[d] else []
  }

  lemma AddedOnADay(m: map<Weekday, seq<Window>>, windows: Given, id: string, d: Weekday)
    requires GoodWindows(windows)
    ensures On(Added(m, windows, id, WHOLE_WEEK), d) == On(m, d) + Tagged(GivenOn(windows, d), id)
  {
    assert d in WHOLE_WEEK;
    if GivenOn(windows, d) == [] { assert Tagged(GivenOn(windows, d), id) == []; }
    assert AddedAt(m, windows, id, WHOLE_WEEK, d)
        == if GivenOn(windows, d) != [] then Some(Appended(m, windows, id, d))
           else if d in m then Some(m[d]) else None;
  }

  lemma RewrittenWindows(s: Schedule, id: string, windows: Given, dayKey: string, weekday: Weekday)
    requires GoodWindows(windows) && dayKey !in OverrideWindows(s.overrides)
    ensures WindowsOn(Rewritten(s, id, windows), dayKey, weekday)
         == Untagged(WindowsOn(s, dayKey, weekday), id) + Tagged(GivenOn(windows, weekday), id)
  {
    AddedOnADay(WithoutTag(s.weekly, id), windows, id, weekday);
    assert Untagged([], id) == [];
    assert On(WithoutTag(s.weekly, id), weekday) == Untagged(WindowsOn(s, dayKey, weekday), id);
  }

  lemma DaysApart(s: Schedule, dayKey: string, weekday: Weekday)
    requires NoOverlaps(s)
    ensures TagsApart(WindowsOn(s, dayKey, weekday))
  {
    assert weekday in s.weekly ==> TagsApart(s.weekly[weekday]);
    assert dayKey in OverrideWindows(s.overrides) ==> TagsApart(OverrideWindows(s.overrides)[dayKey]);
  }

  lemma RewrittenRuns(was: Schedule, id: string, windows: Given, times: seq<NamedTime>, at: Instant)
    requires GoodWindows(windows) && NoOverlaps(Rewritten(was, id, windows)) && !was.paused
    requires TimeOf(times, id).Some?
    ensures ActiveAt(Some(Rewritten(was, id, windows)), times, at)
      == if at.dayKey in OverrideWindows(was.overrides) then ActiveAt(Some(was), times, at)
         else if InGiven(GivenOn(windows, at.weekday), id, at.secs) then RunsTime(TimeOf(times, id).value)
         else RunningIn(Untagged(WindowsOn(was, at.dayKey, at.weekday), id), times, at.secs)
  {
    if at.dayKey !in OverrideWindows(was.overrides) {
      RewrittenWindows(was, id, windows, at.dayKey, at.weekday);
      DaysApart(Rewritten(was, id, windows), at.dayKey, at.weekday);
      NewDayRuns(Untagged(WindowsOn(was, at.dayKey, at.weekday), id), GivenOn(windows, at.weekday), id, times, at.secs);
    }
  }

  lemma WardRunsRewritten(was: Schedule, id: string, windows: Given, times: seq<NamedTime>, zone: Zone, now: int)
    requires GoodWindows(windows) && NoOverlaps(Rewritten(was, id, windows)) && !was.paused && TimeOf(times, id).Some?
    requires zone.readable && ScheduleToWire(Rewritten(was, id, windows)).Some?
    requires zone.reading(now).dayKey !in OverrideWindows(was.overrides)
    ensures WardRuns(ScheduleToWire(Rewritten(was, id, windows)).value, times, zone, now, id)
       <==> InGiven(GivenOn(windows, zone.reading(now).weekday), id, zone.reading(now).secs)
  {
    var at := zone.reading(now);
    RewrittenRuns(was, id, windows, times, at);
    GuardianAndWardAgree(Rewritten(was, id, windows), times, zone, now);
    NotThatTime(Untagged(WindowsOn(was, at.dayKey, at.weekday), id), times, id, at.secs);
  }

  // The ward's status names the time.
  predicate WardRuns(w: WireSchedule, times: seq<NamedTime>, zone: Zone, now: int, id: string) {
    var st := StatusOf(w, Some(times), zone, now);
    st.Open? && st.time == Some(id)
  }

  lemma AcceptedFacts(p: Policy, id: string, device: string, windows: Given, devices: seq<Device>, was: Schedule)
    requires Typed(p) && Refusal(p, id, device, windows, devices).None? && DeviceSchedule(p, device) == Some(was)
    ensures GoodWindows(windows) && !was.paused && TimeOf(TimesOf(p), id).Some?
    ensures NoOverlaps(Rewritten(was, id, windows))
    ensures DeviceSchedule(Edited(p, id, device, windows, devices), device) == Some(Rewritten(was, id, windows))
  {
    EditedSchedule(p, id, device, windows, devices);
  }

  // Once signed, the ward runs the time exactly inside the given windows: under the
  // wire body of the edited schedule its status names the time there and nowhere else
  // of a day without a date override.
  lemma WardRunsTheGivenWindows(p: Policy, id: string, device: string, windows: Given, devices: seq<Device>,
      was: Schedule, s: Schedule, w: WireSchedule, zone: Zone, now: int)
    requires Typed(p) && Refusal(p, id, device, windows, devices).None? && zone.readable
    requires DeviceSchedule(p, device) == Some(was)
    requires DeviceSchedule(Edited(p, id, device, windows, devices), device) == Some(s) && ScheduleToWire(s) == Some(w)
    requires zone.reading(now).dayKey !in OverrideWindows(was.overrides)
    ensures GoodWindows(windows)
    ensures WardRuns(w, TimesOf(p), zone, now, id)
       <==> InGiven(GivenOn(windows, zone.reading(now).weekday), id, zone.reading(now).secs)
  {
    AcceptedFacts(p, id, device, windows, devices, was);
    WardRunsRewritten(was, id, windows, TimesOf(p), zone, now);
  }

  // Without windows of its own a time does not run.
  lemma NotThatTime(ws: seq<Window>, times: seq<NamedTime>, id: string, secs: nat)
    requires forall w :: w in ws ==> w.time != Some(id)
    ensures var a := RunningIn(ws, times, secs); !(a.RunsTime? && a.time.id == id)
  {
    var c := Carver(ws, secs);
    if c.Some? { assert ws[c.value] in ws; }
  }

  // At no instant do two tagged windows of the edited schedule both cover.
  lemma OneTimeAtOnce(p: Policy, id: string, device: string, windows: Given, devices: seq<Device>,
      s: Schedule, at: Instant, i: nat, j: nat)
    requires Typed(p) && Refusal(p, id, device, windows, devices).None?
    requires DeviceSchedule(Edited(p, id, device, windows, devices), device) == Some(s)
    requires var ws := WindowsOn(s, at.dayKey, at.weekday);
      i < |ws| && j < |ws| && ws[i].time.Some? && ws[j].time.Some? && Inside(ws[i], at.secs) && Inside(ws[j], at.secs)
    ensures i == j
  {
    EditedSchedule(p, id, device, windows, devices);
    DaysApart(s, at.dayKey, at.weekday);
    ApartMeansOne(WindowsOn(s, at.dayKey, at.weekday), at.secs, i, j);
  }

  lemma ApartMeansOne(ws: seq<Window>, secs: nat, i: nat, j: nat)
    requires TagsApart(ws) && i < |ws| && j < |ws|
    requires ws[i].time.Some? && ws[j].time.Some? && Inside(ws[i], secs) && Inside(ws[j], secs)
    ensures i == j
  {
    if i < j {
      BothInsideOverlap(ws[i], ws[j], secs);
    } else if j < i {
      BothInsideOverlap(ws[j], ws[i], secs);
    }
  }

  // Every other device keeps its rules whole, unless the base was written and it
  // follows the base; the edited device keeps its other controls.
  lemma EditSparesOtherDevices(
      p: Policy, id: string, device: string, windows: Given, devices: seq<Device>, other: string)
    requires Typed(p) && Refusal(p, id, device, windows, devices).None?
    ensures var after := Edited(p, id, device, windows, devices);
      && (other != device && (!Sole(p, device, devices) || HasOwn(p, other)) ==> Effective(after, other) == Effective(p, other))
      && (Sole(p, device, devices) && !HasOwn(p, other) ==> DeviceSchedule(after, other) == DeviceSchedule(after, device))
      && (forall c :: c != ScheduleC ==> Get(Effective(after, other).controls, c) == Get(Effective(p, other).controls, c))
  {
    var after := Edited(p, id, device, windows, devices);
    var v := ScheduleValue(Rewritten(DeviceSchedule(p, device).value, id, windows));
    if Sole(p, device, devices) {
      BaseWritten(p, v, other);
    } else {
      SplitIsNeutral(p, ScheduleC, Ids(devices), other);
      var q := if HasOwn(p, device) then p else Split(p, ScheduleC, Ids(devices));
      assert Effective(q, other) == Effective(p, other);
      forall c: Control { EditReachesOneControl(q, device, ScheduleC, v, other, c); }
    }
  }

  // Writing the base's schedule reaches exactly the devices without their own.
  lemma BaseWritten(p: Policy, v: Value, other: string)
    ensures var after := p.(controls := p.controls[ScheduleC := v]);
      && (HasOwn(p, other) ==> Effective(after, other) == Effective(p, other))
      && (forall c :: Get(Effective(after, other).controls, c)
                   == if c == ScheduleC && !HasOwn(p, other) then v else Get(Effective(p, other).controls, c))
  {
    var after := p.(controls := p.controls[ScheduleC := v]);
    assert Mine(after, other) == Mine(p, other);
    if HasOwn(p, other) { OwnHidesTheBase(p.controls, ScheduleC, v, Mine(p, other)); }
  }

  lemma OwnHidesTheBase(base: Controls, c: Control, v: Value, mine: Controls)
    requires Get(mine, c) != Undefined
    ensures Overlay(base[c := v], mine) == Overlay(base, mine)
  {
    var a, b := Overlay(base[c := v], mine), Overlay(base, mine);
    assert forall d :: d in a ==> a[d] == Get(a, d);
    assert forall d :: d in b ==> b[d] == Get(b, d);
  }

  lemma {:induction false} TwoPaired(devices: seq<Device>, i: nat, j: nat)
    requires i < j < |devices| && devices[i].paired && devices[j].paired
    ensures PairedCount(devices) >= 2
  {
    var f := (d: Device) => d.paired;
    assert devices == devices[..j] + devices[j..];
    FilterConcat(f, devices[..j], devices[j..]);
    assert devices[..j][i] in Filter(f, devices[..j]);
    assert devices[j..][0] in Filter(f, devices[j..]);
  }

  // For a paired device, every other paired device keeps its rules whole.
  lemma PairedSiblingsKeepTheirRules(
      p: Policy, id: string, device: string, windows: Given, devices: seq<Device>, sibling: Device)
    requires Typed(p) && Refusal(p, id, device, windows, devices).None?
    requires DeviceNamed(devices, device).value.paired
    requires sibling in devices && sibling.paired && sibling.id != device
    ensures Effective(Edited(p, id, device, windows, devices), sibling.id) == Effective(p, sibling.id)
  {
    TwoDevices(devices, DeviceNamed(devices, device).value, sibling);
    EditSparesOtherDevices(p, id, device, windows, devices, sibling.id);
  }

  lemma TwoDevices(devices: seq<Device>, a: Device, b: Device)
    requires a in devices && b in devices && a.paired && b.paired && a != b
    ensures PairedCount(devices) >= 2
  {
    var i :| 0 <= i < |devices| && devices[i] == a;
    var j :| 0 <= j < |devices| && devices[j] == b;
    if i < j { TwoPaired(devices, i, j); } else { TwoPaired(devices, j, i); }
  }

  lemma NothingWritten(p: Policy, s: Schedule)
    requires ScheduleIn(p.controls) == Some(s)
    ensures p.(controls := p.controls[ScheduleC := ScheduleValue(s)]) == p
  {
    assert p.controls[ScheduleC := ScheduleValue(s)] == p.controls;
  }

  // Any other device keeps its rules exactly unless the base was written, it
  // follows the base, and the edit changed something.
  lemma SpareExactly(
      p: Policy, id: string, device: string, windows: Given, devices: seq<Device>, other: string)
    requires Typed(p) && Refusal(p, id, device, windows, devices).None? && other != device
    ensures var was := DeviceSchedule(p, device).value;
      Effective(Edited(p, id, device, windows, devices), other) == Effective(p, other)
      <==> !Sole(p, device, devices) || HasOwn(p, other) || Rewritten(was, id, windows) == was
  {
    EditSparesOtherDevices(p, id, device, windows, devices, other);
    if Sole(p, device, devices) && !HasOwn(p, other) {
      EditedSchedule(p, id, device, windows, devices);
      var was := DeviceSchedule(p, device).value;
      assert DeviceSchedule(p, other) == Some(was);
      if Rewritten(was, id, windows) == was { NothingWritten(p, was); }
    }
  }

  // So the promise to paired siblings does fail when the edited device is itself
  // unpaired: its one paired sibling runs the new windows too.
  lemma UnpairedTargetReachesItsSibling()
    ensures var s := Schedule("UTC", map[], None, false);
      var p := Policy(map[ScheduleC := ScheduleValue(s)], Some([NamedTime("l", "L", None)]), "", None);
      var devices := [Device("a", false, GateOk), Device("b", true, GateOk)];
      var windows: Given := map[Mon := [RawWindow("09:00", "10:00")]];
      && Refusal(p, "l", "a", windows, devices).None?
      && Effective(Edited(p, "l", "a", windows, devices), "b") != Effective(p, "b")
  {
    var s := Schedule("UTC", map[], None, false);
    var p := Policy(map[ScheduleC := ScheduleValue(s)], Some([NamedTime("l", "L", None)]), "", None);
    var devices := [Device("a", false, GateOk), Device("b", true, GateOk)];
    var windows: Given := map[Mon := [RawWindow("09:00", "10:00")]];
    assert TextLess("09:00", "10:00");
    var after := Rewritten(s, "l", windows);
    assert NoOverlaps(after) by {
      assert after.weekly[Mon] == [Window("09:00", "10:00", Some("l"))];
      assert after.weekly.Keys == {Mon};
    }
    assert Refusal(p, "l", "a", windows, devices).None? by {
      assert DeviceSchedule(p, "a") == Some(s);
    }
    assert PairedCount(devices) == 1 by {
      assert devices[1..] == [devices[1]];
    }
    SpareExactly(p, "l", "a", windows, devices, "b");
  }
}
