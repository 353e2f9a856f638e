// Which edits of a time's windows are accepted, which error any other gives, and what
// an accepted one writes: in the policy's own fields, characters and minutes.

module AcceptedEdits {
  import opened Seqs
  import opened ScheduleMeaning
  import opened EffectivePolicy
  import opened WardSchedule
  import opened SignedSchedules
  import opened ScheduleEditing
  import opened TimeWindows

  predicate Defines(p: Policy, id: string) {
    UsableId(id) && p.times.Some? && exists i :: 0 <= i < |p.times.value| && p.times.value[i].id == id
  }

  // The first device of that id, and what its last report allows.
  predicate Reports(devices: seq<Device>, device: string, gate: Gate) {
    exists k :: 0 <= k < |devices| && devices[k].id == device && devices[k].gate == gate
                && forall j :: 0 <= j < k ==> devices[j].id != device
  }

  predicate Unlisted(devices: seq<Device>, device: string) {
    forall k :: 0 <= k < |devices| ==> devices[k].id != device
  }

  predicate ProperWindow(w: RawWindow) {
    IsHhMm(w.start) && IsHhMm(w.end) && MinutesOf(w.start) < MinutesOf(w.end)
  }

  predicate Proper(windows: Given) {
    forall d :: d in windows ==> forall k :: 0 <= k < |windows[d]| ==> ProperWindow(windows[d][k])
  }

  // The device's own schedule if it has one set, and the base's if not.
  predicate Runs(p: Policy, device: string, s: Schedule) {
    if OwnSet(p, device) then p.deviceOverrides.value[device][ScheduleC] == ScheduleValue(s)
    else ScheduleC in p.controls && p.controls[ScheduleC] == ScheduleValue(s)
  }

  predicate OwnSet(p: Policy, device: string) {
    && p.deviceOverrides.Some? && device in p.deviceOverrides.value
    && ScheduleC in p.deviceOverrides.value[device] && p.deviceOverrides.value[device][ScheduleC] != Undefined
  }

  // Two stretches of a day that share no minute.
  predicate Off(aStart: HhMm, aEnd: HhMm, bStart: HhMm, bEnd: HhMm) {
    MinutesOf(aEnd) <= MinutesOf(bStart) || MinutesOf(bEnd) <= MinutesOf(aStart)
  }

  predicate OtherTime(w: Window, id: string) { w.time.Some? && w.time.value != id }

  // On one weekday, what other times have and what is given keep off one another.
  predicate DayFits(ws: seq<Window>, given: seq<RawWindow>, id: string) {
    && (forall i, j :: 0 <= i < j < |ws| && OtherTime(ws[i], id) && OtherTime(ws[j], id) ==>
          Off(ws[i].start, ws[i].end, ws[j].start, ws[j].end))
    && (forall i, j :: 0 <= i < |ws| && 0 <= j < |given| && OtherTime(ws[i], id) && ProperWindow(given[j]) ==>
          Off(ws[i].start, ws[i].end, given[j].start, given[j].end))
    && (forall i, j :: 0 <= i < j < |given| && ProperWindow(given[i]) && ProperWindow(given[j]) ==>
          Off(given[i].start, given[i].end, given[j].start, given[j].end))
  }

  // So they do on every weekday, and the tagged windows of each date do as well.
  predicate Fits(s: Schedule, windows: Given, id: string) {
    && (forall d: Weekday :: WeekdayFits(s, windows, id, d))
    && (s.overrides.Some? ==> forall k :: k in s.overrides.value ==> DateFits(s.overrides.value[k]))
  }

  predicate WeekdayFits(s: Schedule, windows: Given, id: string, d: Weekday) {
    DayFits(if d in s.weekly then s.weekly[d] else [], if d in windows then windows[d] else [], id)
  }

  predicate DateFits(ws: seq<Window>) {
    forall i, j :: 0 <= i < j < |ws| && ws[i].time.Some? && ws[j].time.Some? ==>
      Off(ws[i].start, ws[i].end, ws[j].start, ws[j].end)
  }

  // --- in the edit's own terms -----------------------------------------------------------

  lemma DefinesIs(p: Policy, id: string)
    ensures Defines(p, id) <==> IsTimeId(id) && TimeOf(TimesOf(p), id).Some?
  {
    UsableIsTimeId(id);
  }

  lemma {:induction false} FirstDevice(devices: seq<Device>, device: string)
    ensures Unlisted(devices, device) <==> DeviceNamed(devices, device).None?
    ensures forall g :: Reports(devices, device, g) <==> DeviceNamed(devices, device).Some? && DeviceNamed(devices, device).value.gate == g
  {
    if devices != [] {
      FirstDevice(devices[1..], device);
      if devices[0].id != device {
        forall g ensures Reports(devices, device, g) <==> Reports(devices[1..], device, g) {
          LaterReport(devices, device, g);
        }
      }
    }
  }

  lemma LaterReport(devices: seq<Device>, device: string, g: Gate)
    requires devices != [] && devices[0].id != device
    ensures Reports(devices, device, g) <==> Reports(devices[1..], device, g)
  {
    var rest := devices[1..];
    assert forall k :: 0 < k < |devices| ==> devices[k] == rest[k - 1];
    assert forall k :: 0 <= k < |rest| ==> rest[k] == devices[k + 1];
    if Reports(rest, device, g) {
      var k :| 0 <= k < |rest| && rest[k].id == device && rest[k].gate == g && forall j :: 0 <= j < k ==> rest[j].id != device;
      assert devices[k + 1].id == device;
    }
    if Reports(devices, device, g) {
      var k :| 0 <= k < |devices| && devices[k].id == device && devices[k].gate == g
               && forall j :: 0 <= j < k ==> devices[j].id != device;
      assert rest[k - 1].id == device;
    }
  }

  lemma ProperIsGood(windows: Given)
    ensures Proper(windows) <==> GoodWindows(windows)
  {
    forall w: RawWindow ensures ProperWindow(w) <==> GoodWindow(w) {
      if IsHhMm(w.start) && IsHhMm(w.end) { TextOrderIsClockOrder(w.start, w.end); }
    }
  }

  lemma RunsIs(p: Policy, device: string, s: Schedule)
    ensures Runs(p, device, s) <==> DeviceSchedule(p, device) == Some(s)
  {
  }

  lemma OverlapIsNotOff(a: Window, b: Window)
    ensures Overlap(a, b) <==> a.time.Some? && b.time.Some? && !Off(a.start, a.end, b.start, b.end)
  {
    OffIsNoOverlap(a, b);
  }

  lemma DateFitsIs(ws: seq<Window>)
    ensures DateFits(ws) <==> TagsApart(ws)
  {
    forall i, j | 0 <= i < j < |ws|
      ensures Overlap(ws[i], ws[j])
         <==> ws[i].time.Some? && ws[j].time.Some? && !Off(ws[i].start, ws[i].end, ws[j].start, ws[j].end)
    {
      OverlapIsNotOff(ws[i], ws[j]);
    }
  }

  // `w` overlaps nothing of `ws`.
  predicate Clear(w: Window, ws: seq<Window>) { forall k :: 0 <= k < |ws| ==> !Overlap(w, ws[k]) }

  lemma ApartCons(w: Window, rest: seq<Window>)
    ensures TagsApart([w] + rest) <==> Clear(w, rest) && TagsApart(rest)
  {
    var all := [w] + rest;
    assert forall k :: 0 < k < |all| ==> all[k] == rest[k - 1];
    assert forall k :: 0 <= k < |rest| ==> rest[k] == all[k + 1];
    if Clear(w, rest) && TagsApart(rest) {
      assert forall i, j :: 0 < i < j < |all| ==> !Overlap(all[i], all[j]);
    }
    if TagsApart(all) {
      assert forall j :: 0 < j < |all| ==> !Overlap(all[0], all[j]);
      forall i, j | 0 <= i < j < |rest| ensures !Overlap(rest[i], rest[j]) {
        assert !Overlap(all[i + 1], all[j + 1]);
      }
    }
  }

  // The weekday's check, one old window at a time.
  predicate DayApart(ws: seq<Window>, added: seq<Window>, id: string) {
    && (forall i, j :: 0 <= i < j < |ws| && OtherTime(ws[i], id) && OtherTime(ws[j], id) ==> !Overlap(ws[i], ws[j]))
    && (forall i, j :: 0 <= i < |ws| && 0 <= j < |added| && OtherTime(ws[i], id) ==> !Overlap(ws[i], added[j]))
    && TagsApart(added)
  }

  predicate ClearOfOthers(w: Window, ws: seq<Window>, id: string) {
    OtherTime(w, id) ==> forall k :: 0 <= k < |ws| && OtherTime(ws[k], id) ==> !Overlap(w, ws[k])
  }

  lemma DayApartCons(w: Window, rest: seq<Window>, added: seq<Window>, id: string)
    ensures DayApart([w] + rest, added, id)
       <==> ClearOfOthers(w, rest, id) && (OtherTime(w, id) ==> Clear(w, added)) && DayApart(rest, added, id)
  {
    var all := [w] + rest;
    assert all[0] == w && forall k :: 0 < k < |all| ==> all[k] == rest[k - 1];
    assert forall k :: 0 <= k < |rest| ==> rest[k] == all[k + 1];
    if DayApart(all, added, id) {
      forall i, j | 0 <= i < j < |rest| && OtherTime(rest[i], id) && OtherTime(rest[j], id)
        ensures !Overlap(rest[i], rest[j])
      {
        assert !Overlap(all[i + 1], all[j + 1]);
      }
      forall i, j | 0 <= i < |rest| && 0 <= j < |added| && OtherTime(rest[i], id) ensures !Overlap(rest[i], added[j]) {
        assert !Overlap(all[i + 1], added[j]);
      }
    }
  }

  lemma ClearOfKept(w: Window, ws: seq<Window>, added: seq<Window>, id: string)
    requires w.time != Some(id)
    ensures Clear(w, Untagged(ws, id) + added)
       <==> ClearOfOthers(w, ws, id) && (OtherTime(w, id) ==> Clear(w, added))
  {
    var kept := Untagged(ws, id);
    var all := kept + added;
    assert forall x :: x in all <==> x in kept || x in added;
    assert forall x :: x in kept <==> x in ws && x.time != Some(id);
    assert Clear(w, all) <==> forall x :: x in all ==> !Overlap(w, x);
    assert Clear(w, added) <==> forall x :: x in added ==> !Overlap(w, x);
    assert ClearOfOthers(w, ws, id) <==> (OtherTime(w, id) ==> forall x :: x in ws && OtherTime(x, id) ==> !Overlap(w, x));
  }

  lemma KeptStep(w: Window, rest: seq<Window>, added: seq<Window>, id: string)
    requires w.time != Some(id)
    ensures TagsApart(Untagged([w] + rest, id) + added)
       <==> Clear(w, Untagged(rest, id) + added) && TagsApart(Untagged(rest, id) + added)
  {
    assert ([w] + rest)[1..] == rest;
    assert Untagged([w] + rest, id) + added == [w] + (Untagged(rest, id) + added);
    ApartCons(w, Untagged(rest, id) + added);
  }

  lemma {:induction false} DayApartIs(ws: seq<Window>, added: seq<Window>, id: string)
    ensures TagsApart(Untagged(ws, id) + added) <==> DayApart(ws, added, id)
  {
    if ws == [] {
      assert Untagged(ws, id) + added == added;
    } else {
      var w, rest := ws[0], ws[1..];
      assert ws == [w] + rest;
      DayApartIs(rest, added, id);
      DayApartCons(w, rest, added, id);
      if w.time != Some(id) {
        KeptStep(w, rest, added, id);
        ClearOfKept(w, rest, added, id);
      } else {
        assert Untagged(ws, id) == Untagged(rest, id);
      }
    }
  }

  lemma DayFitsIs(ws: seq<Window>, given: seq<RawWindow>, id: string)
    requires GoodDay(given) && forall k :: 0 <= k < |given| ==> ProperWindow(given[k])
    ensures DayFits(ws, given, id) <==> DayApart(ws, Tagged(given, id), id)
  {
    var added := Tagged(given, id);
    forall i, j | 0 <= i < j < |ws| && OtherTime(ws[i], id) && OtherTime(ws[j], id)
      ensures Overlap(ws[i], ws[j]) <==> !Off(ws[i].start, ws[i].end, ws[j].start, ws[j].end)
    {
      OverlapIsNotOff(ws[i], ws[j]);
    }
    forall i, j | 0 <= i < |ws| && 0 <= j < |given| && OtherTime(ws[i], id)
      ensures Overlap(ws[i], added[j]) <==> !Off(ws[i].start, ws[i].end, given[j].start, given[j].end)
    {
      OverlapIsNotOff(ws[i], added[j]);
    }
    forall i, j | 0 <= i < j < |given|
      ensures Overlap(added[i], added[j]) <==> !Off(given[i].start, given[i].end, given[j].start, given[j].end)
    {
      OverlapIsNotOff(added[i], added[j]);
    }
  }

  lemma AfterEdit(was: Schedule, windows: Given, id: string, d: Weekday)
    requires GoodWindows(windows)
    ensures On(Rewritten(was, id, windows).weekly, d) == Untagged(On(was.weekly, d), id) + Tagged(GivenOn(windows, d), id)
  {
    AddedOnADay(WithoutTag(was.weekly, id), windows, id, d);
    assert Untagged([], id) == [];
    assert On(WithoutTag(was.weekly, id), d) == Untagged(On(was.weekly, d), id);
  }

  lemma GivenIsProper(windows: Given, d: Weekday)
    requires Proper(windows) && GoodWindows(windows)
    ensures GoodDay(GivenOn(windows, d)) && forall k :: 0 <= k < |GivenOn(windows, d)| ==> ProperWindow(GivenOn(windows, d)[k])
  {
  }

  lemma DayRewritten(ws: seq<Window>, given: seq<RawWindow>, id: string, after: seq<Window>)
    requires GoodDay(given) && forall k :: 0 <= k < |given| ==> ProperWindow(given[k])
    requires after == Untagged(ws, id) + Tagged(given, id)
    ensures TagsApart(after) <==> DayFits(ws, given, id)
  {
    DayApartIs(ws, Tagged(given, id), id);
    DayFitsIs(ws, given, id);
  }

  lemma RewrittenDay(s: Schedule, windows: Given, id: string, d: Weekday)
    requires Proper(windows) && GoodWindows(windows)
    ensures TagsApart(On(Rewritten(s, id, windows).weekly, d)) <==> WeekdayFits(s, windows, id, d)
  {
    GivenIsProper(windows, d);
    AfterEdit(s, windows, id, d);
    DayRewritten(On(s.weekly, d), GivenOn(windows, d), id, On(Rewritten(s, id, windows).weekly, d));
  }

  lemma FitsIs(s: Schedule, windows: Given, id: string)
    requires Proper(windows) && GoodWindows(windows)
    ensures Fits(s, windows, id) <==> NoOverlaps(Rewritten(s, id, windows))
  {
    var r := Rewritten(s, id, windows);
    forall d: Weekday ensures TagsApart(On(r.weekly, d)) <==> WeekdayFits(s, windows, id, d) {
      RewrittenDay(s, windows, id, d);
    }
    forall ws ensures DateFits(ws) <==> TagsApart(ws) { DateFitsIs(ws); }
    EveryDayApart(r);
  }

  lemma EveryDayApart(s: Schedule)
    ensures NoOverlaps(s)
       <==> (forall d: Weekday :: TagsApart(On(s.weekly, d)))
            && (s.overrides.Some? ==> forall k :: k in s.overrides.value ==> TagsApart(s.overrides.value[k]))
  {
    if NoOverlaps(s) {
      forall d: Weekday ensures TagsApart(On(s.weekly, d)) {
        if d in s.weekly { assert TagsApart(s.weekly[d]); }
      }
      if s.overrides.Some? {
        forall k | k in s.overrides.value ensures TagsApart(s.overrides.value[k]) {
          assert k in OverrideWindows(s.overrides);
        }
      }
    }
    if forall d: Weekday :: TagsApart(On(s.weekly, d)) {
      forall d | d in s.weekly ensures TagsApart(s.weekly[d]) { assert TagsApart(On(s.weekly, d)); }
    }
  }

  // --- the outcome ------------------------------------------------------------------------

  // An edit is refused for the first of these that fails, and accepted when none does:
  // the time is defined, the device is the child's and ready for times, every window
  // starts before it ends, the device has a schedule that is not lifted, and no two
  // tagged windows would share a minute.
  lemma OutcomeExactly(p: Policy, id: string, device: string, windows: Given, devices: seq<Device>)
    requires Typed(p)
    ensures var r := SetResult(p, id, device, windows, devices);
      && (!Defines(p, id) ==> r == Failed(NoSuchTime))
      && (Defines(p, id) ==>
            && (Unlisted(devices, device) ==> r == Failed(NotThisChilds))
            && (Reports(devices, device, GateUnreported) ==> r == Failed(NeverReported))
            && (Reports(devices, device, GateOld) ==> r == Failed(TooOld))
            && (Reports(devices, device, GateOk) ==>
                  && (!Proper(windows) ==> r == Failed(BadWindow))
                  && (Proper(windows) ==>
                        && ((forall s :: !Runs(p, device, s)) ==> r == Failed(NoSchedule))
                        && (forall s | Runs(p, device, s) ::
                              if s.paused then r == Failed(SwitchedOff)
                              else if !Fits(s, windows, id) then r == Failed(TimesOverlap)
                              else r.Ok?))))
  {
    DefinesIs(p, id);
    FirstDevice(devices, device);
    ProperIsGood(windows);
    forall s ensures Runs(p, device, s) <==> DeviceSchedule(p, device) == Some(s) { RunsIs(p, device, s); }
    if Proper(windows) && DeviceSchedule(p, device).Some? { FitsIs(DeviceSchedule(p, device).value, windows, id); }
  }

  lemma OneReport(devices: seq<Device>, device: string)
    ensures Unlisted(devices, device) || exists g :: Reports(devices, device, g)
    ensures forall g, h :: Reports(devices, device, g) && Reports(devices, device, h) ==> g == h
  {
    FirstDevice(devices, device);
    var d := DeviceNamed(devices, device);
    if d.Some? { assert Reports(devices, device, d.value.gate); }
  }

  // So it is accepted exactly when all of that holds.
  lemma AcceptedExactly(p: Policy, id: string, device: string, windows: Given, devices: seq<Device>)
    requires Typed(p)
    ensures SetResult(p, id, device, windows, devices).Ok?
       <==> Defines(p, id) && Reports(devices, device, GateOk) && Proper(windows)
            && exists s :: Runs(p, device, s) && !s.paused && Fits(s, windows, id)
  {
    OutcomeExactly(p, id, device, windows, devices);
    OneReport(devices, device);
  }

  // What an accepted edit writes: each weekday's other windows and then those given,
  // tagged; the dates, the zone, the definitions and everything else stay. The
  // device keeps or gets a schedule of its own unless the base alone is its to write.
  lemma AcceptedEditWrites(p: Policy, id: string, device: string, windows: Given, devices: seq<Device>, was: Schedule)
    requires Typed(p) && Runs(p, device, was) && SetResult(p, id, device, windows, devices).Ok?
    ensures var q := SetResult(p, id, device, windows, devices).value;
      && (exists s :: Runs(q, device, s) && Writes(was, s, windows, id))
      && q.times == p.times && q.rest == p.rest
      && (OwnSet(q, device) <==> OwnSet(p, device) || SeveralPaired(devices))
  {
    RunsIs(p, device, was);
    var q := SetResult(p, id, device, windows, devices).value;
    EditedSchedule(p, id, device, windows, devices);
    var s := Rewritten(was, id, windows);
    RunsIs(q, device, s);
    forall d: Weekday ensures WritesDay(was, s, windows, id, d) { WrittenDay(was, windows, id, d); }
    PairedAreSeveral(devices);
  }

  predicate Writes(was: Schedule, s: Schedule, windows: Given, id: string) {
    && s.tz == was.tz && s.paused == was.paused && s.overrides == was.overrides
    && forall d: Weekday :: WritesDay(was, s, windows, id, d)
  }

  predicate WritesDay(was: Schedule, s: Schedule, windows: Given, id: string, d: Weekday) {
    ThenGiven(Filter((w: Window) => w.time != Some(id), if d in was.weekly then was.weekly[d] else []),
              if d in windows then windows[d] else [], id,
              if d in s.weekly then s.weekly[d] else [])
  }

  // What was there, and then the given windows with the tag.
  predicate ThenGiven(before: seq<Window>, given: seq<RawWindow>, id: string, after: seq<Window>) {
    && before <= after && |after| == |before| + |given|
    && forall k :: 0 <= k < |given| ==>
         && after[|before| + k].start == given[k].start && after[|before| + k].end == given[k].end
         && after[|before| + k].time == Some(id)
  }

  lemma WrittenDay(was: Schedule, windows: Given, id: string, d: Weekday)
    requires GoodWindows(windows)
    ensures WritesDay(was, Rewritten(was, id, windows), windows, id, d)
  {
    AfterEdit(was, windows, id, d);
    GivenAfter(Untagged(On(was.weekly, d), id), GivenOn(windows, d), id, On(Rewritten(was, id, windows).weekly, d));
  }

  lemma GivenAfter(before: seq<Window>, given: seq<RawWindow>, id: string, after: seq<Window>)
    requires GoodDay(given) && after == before + Tagged(given, id)
    ensures ThenGiven(before, given, id, after)
  {
  }

  predicate SeveralPaired(devices: seq<Device>) {
    exists i, j :: 0 <= i < j < |devices| && devices[i].paired && devices[j].paired
  }

  lemma {:induction false} PairedAreSeveral(devices: seq<Device>)
    ensures SeveralPaired(devices) <==> PairedCount(devices) >= 2
  {
    if i, j :| 0 <= i < j < |devices| && devices[i].paired && devices[j].paired { TwoPaired(devices, i, j); }
    if PairedCount(devices) >= 2 { SomeTwo(devices); }
  }

  lemma {:induction false} SomeTwo(devices: seq<Device>)
    requires PairedCount(devices) >= 2
    ensures SeveralPaired(devices)
  {
    var rest := devices[1..];
    assert forall k :: 0 <= k < |rest| ==> rest[k] == devices[k + 1];
    if PairedCount(rest) >= 2 {
      SomeTwo(rest);
      var i, j :| 0 <= i < j < |rest| && rest[i].paired && rest[j].paired;
      assert devices[i + 1].paired && devices[j + 1].paired;
    } else {
      var kept := Filter((d: Device) => d.paired, rest);
      assert devices[0].paired && kept != [];
      assert kept[0] in rest;
      var j :| 0 <= j < |rest| && rest[j] == kept[0];
      assert devices[j + 1].paired;
    }
  }
}
