// The guardian app's named times (domain/times.ts): which time is it, what opens
// next, deleting a time, and giving a time its windows on one device.

module GuardianTimes {
  import opened Seqs
  import opened ScheduleMeaning

  const WEEKDAYS: seq<Weekday> := [Mon, Tue, Wed, Thu, Fri, Sat, Sun]

  lemma EveryDayIsListed(d: Weekday)
    ensures d in WEEKDAYS
  {
    match d
    case Mon => assert WEEKDAYS[0] == d;
    case Tue => assert WEEKDAYS[1] == d;
    case Wed => assert WEEKDAYS[2] == d;
    case Thu => assert WEEKDAYS[3] == d;
    case Fri => assert WEEKDAYS[4] == d;
    case Sat => assert WEEKDAYS[5] == d;
    case Sun => assert WEEKDAYS[6] == d;
  }

  // --- which time is it now -----------------------------------------------------

  // One pass over the day: is anything open, and which tagged window wins.
  method ScanDay(ws: seq<Window>, secs: nat) returns (covered: bool, tagged: Option<nat>)
    ensures covered <==> Covered(ws, secs)
    ensures tagged == Carver(ws, secs)
  {
    covered := false;
    tagged := None;
    for i := 0 to |ws|
      invariant covered <==> Covered(ws[..i], secs)
      invariant tagged.None? ==> !TagCovered(ws[..i], secs)
      invariant tagged.Some? ==> Carves(ws[..i], secs, tagged.value)
    {
      assert ws[..i + 1] == ws[..i] + [ws[i]];
      if Inside(ws[i], secs) {
        covered := true;
        assert Inside(ws[..i + 1][i], secs);
        // A later window of the same start does not replace the one found.
        if ws[i].time.Some? && (tagged.None? || MinutesOf(ws[i].start) < MinutesOf(ws[tagged.value].start)) {
          tagged := Some(i);
        }
      }
    }
    assert ws[..|ws|] == ws;
    if tagged.Some? { CarverIsUnique(ws, secs, tagged.value); }
  }

  method ActiveTimeAt(schedule: Option<Schedule>, times: seq<NamedTime>, at: Instant) returns (r: ActiveTime)
    ensures r == ActiveAt(schedule, times, at)
  {
    if schedule.None? || schedule.value.paused { return FreeTime; }
    var ws := WindowsOn(schedule.value, at.dayKey, at.weekday);
    var covered, tagged := ScanDay(ws, at.secs);
    if tagged.Some? {
      var tag := ws[tagged.value].time.value;
      var t := TimeOf(times, tag);
      r := if t.Some? then RunsTime(t.value) else LockedUnknown(tag);
    } else {
      r := if covered then FreeTime else LockedOutside;
    }
  }

  // --- what opens next --------------------------------------------------------------

  datatype Day = Today | Tomorrow

  // The opening's day, its minute and the time that opens (absent = Free time).
  datatype NextWindow = NextWindow(day: Day, start: HhMm, time: Option<string>)

  predicate IsKnown(w: Window, times: seq<NamedTime>) {
    w.time.None? || TimeOf(times, w.time.value).Some?
  }

  // A window that may be picked: known if `times` is given, and starting after `after`.
  predicate Candidate(w: Window, times: Option<seq<NamedTime>>, after: int) {
    (times.Some? ==> IsKnown(w, times.value)) && MinutesOf(w.start) * 60 > after
  }

  // `k` opens before `j`: an earlier start, or at one start the tagged one.
  predicate OpensBefore(a: Window, b: Window) {
    || MinutesOf(a.start) < MinutesOf(b.start)
    || (MinutesOf(a.start) == MinutesOf(b.start) && a.time.Some? && b.time.None?)
  }

  predicate IsPick(ws: seq<Window>, times: Option<seq<NamedTime>>, after: int, k: nat) {
    && k < |ws| && Candidate(ws[k], times, after)
    && forall j :: 0 <= j < |ws| && Candidate(ws[j], times, after) ==>
         !OpensBefore(ws[j], ws[k]) && (OpensBefore(ws[k], ws[j]) || k <= j)
  }

  predicate NothingToPick(ws: seq<Window>, times: Option<seq<NamedTime>>, after: int) {
    forall j :: 0 <= j < |ws| ==> !Candidate(ws[j], times, after)
  }

  // The first window to open among `ws` after `after`, if any.
  ghost predicate PicksOf(ws: seq<Window>, times: Option<seq<NamedTime>>, after: int, r: Option<Window>) {
    if r.Some? then exists k: nat :: IsPick(ws, times, after, k) && ws[k] == r.value
    else NothingToPick(ws, times, after)
  }

  method Pick(ws: seq<Window>, times: Option<seq<NamedTime>>, after: int) returns (r: Option<Window>)
    ensures PicksOf(ws, times, after, r)
  {
    var best: Option<nat> := None;
    for i := 0 to |ws|
      invariant best.Some? ==> best.value < i && IsPick(ws[..i], times, after, best.value)
      invariant best.None? ==> NothingToPick(ws[..i], times, after)
    {
      if Candidate(ws[i], times, after) && (best.None? || OpensBefore(ws[i], ws[best.value])) {
        best := Some(i);
      }
      assert ws[..i + 1] == ws[..i] + [ws[i]];
    }
    assert ws[..|ws|] == ws;
    r := if best.Some? then Some(ws[best.value]) else None;
  }

  // `w` answers for a day whose windows are `ws`.
  ghost predicate Answers(ws: seq<Window>, given: Option<seq<NamedTime>>, after: int, w: NextWindow) {
    exists x :: PicksOf(ws, given, after, Some(x)) && x.start == w.start && x.time == w.time
  }

  // The answer for an instant, `tomorrow` being the day after on the same clock.
  ghost predicate IsNextWindow(s: Option<Schedule>, times: Option<seq<NamedTime>>, at: Instant, tomorrow: Instant,
                         r: Option<NextWindow>) {
    if s.None? || s.value.paused then r.None?
    else
      var today := WindowsOn(s.value, at.dayKey, at.weekday);
      var next := WindowsOn(s.value, tomorrow.dayKey, tomorrow.weekday);
      match r
      case Some(NextWindow(Today, _, _)) =>
        Answers(today, times, at.secs, r.value)
      case Some(NextWindow(Tomorrow, _, _)) =>
        NothingToPick(today, times, at.secs) && Answers(next, times, -1, r.value)
      case None => NothingToPick(today, times, at.secs) && NothingToPick(next, times, -1)
  }

  method FindNextWindow(s: Option<Schedule>, times: Option<seq<NamedTime>>, at: Instant, tomorrow: Instant)
    returns (r: Option<NextWindow>)
    ensures IsNextWindow(s, times, at, tomorrow, r)
  {
    if s.None? || s.value.paused { return None; }
    var today := Pick(WindowsOn(s.value, at.dayKey, at.weekday), times, at.secs);
    if today.Some? {
      return Some(NextWindow(Today, today.value.start, today.value.time));
    }
    var next := Pick(WindowsOn(s.value, tomorrow.dayKey, tomorrow.weekday), times, -1);
    if next.Some? {
      return Some(NextWindow(Tomorrow, next.value.start, next.value.time));
    }
    r := None;
  }

  // Windows that start before they end and name only defined times.
  predicate Sound(ws: seq<Window>, times: seq<NamedTime>) {
    forall k :: 0 <= k < |ws| ==> MinutesOf(ws[k].start) < MinutesOf(ws[k].end) && IsKnown(ws[k], times)
  }

  // A day is quiet from `from` (covered by nothing there) until its first pick.
  lemma QuietUntilPick(ws: seq<Window>, times: seq<NamedTime>, given: Option<seq<NamedTime>>, after: int, secs: nat)
    requires Sound(ws, times) && (given.Some? ==> given.value == times)
    requires after < secs && forall k :: 0 <= k < |ws| ==> !(MinutesOf(ws[k].start) * 60 <= after && Inside(ws[k], secs))
    requires forall k :: 0 <= k < |ws| && Candidate(ws[k], given, after) ==> MinutesOf(ws[k].start) * 60 > secs
    ensures RunningIn(ws, times, secs) == LockedOutside
  {
    assert !Covered(ws, secs) by {
      forall k | 0 <= k < |ws| ensures !Inside(ws[k], secs) {
        assert Candidate(ws[k], given, after) || MinutesOf(ws[k].start) * 60 <= after;
      }
    }
    var c := Carver(ws, secs);
    assert c.None?;
  }

  // At its start the picked window's time is what runs.
  lemma PickOpens(ws: seq<Window>, times: seq<NamedTime>, given: Option<seq<NamedTime>>, after: int, k: nat)
    requires Sound(ws, times) && (given.Some? ==> given.value == times)
    requires IsPick(ws, given, after, k)
    requires after == -1 || (0 <= after && !Covered(ws, after))
    ensures var a := RunningIn(ws, times, MinutesOf(ws[k].start) * 60);
      if ws[k].time.Some? then a.RunsTime? && a.time.id == ws[k].time.value else a == FreeTime
  {
    var secs := MinutesOf(ws[k].start) * 60;
    assert Inside(ws[k], secs);
    forall j | 0 <= j < |ws| && Inside(ws[j], secs)
      ensures Candidate(ws[j], given, after) && MinutesOf(ws[j].start) == MinutesOf(ws[k].start)
    {
      assert MinutesOf(ws[j].start) * 60 > after;
    }
    if ws[k].time.Some? {
      assert Carves(ws, secs, k);
      CarverIsUnique(ws, secs, k);
    } else {
      forall j | 0 <= j < |ws| && Inside(ws[j], secs) ensures ws[j].time.None? {
        assert !OpensBefore(ws[j], ws[k]);
      }
      assert Carver(ws, secs).None?;
      assert Covered(ws, secs);
    }
  }

  // Second `t` of a day comes before the opening answered for that day, if any.
  predicate BeforeOpening(r: Option<NextWindow>, day: Day, t: nat) {
    r.Some? && r.value.day == day ==> t < MinutesOf(r.value.start) * 60
  }

  // `opens` is the instant of an answered opening.
  function OpeningInstant(w: NextWindow, at: Instant, tomorrow: Instant): Instant {
    (if w.day.Today? then at else tomorrow).(secs := MinutesOf(w.start) * 60)
  }

  predicate Runs(a: ActiveTime, time: Option<string>) {
    if time.Some? then a.RunsTime? && a.time.id == time.value else a == FreeTime
  }

  // The answer is exact: locked for the rest of today and of tomorrow until then,
  // and then the time it names. No answer means nothing opens on either day.
  lemma NextWindowIsExact(s: Schedule, times: seq<NamedTime>, given: Option<seq<NamedTime>>, at: Instant,
                          tomorrow: Instant, r: Option<NextWindow>)
    requires given.Some? ==> given.value == times
    requires Sound(WindowsOn(s, at.dayKey, at.weekday), times)
    requires Sound(WindowsOn(s, tomorrow.dayKey, tomorrow.weekday), times)
    requires Locked(ActiveAt(Some(s), times, at)) && IsNextWindow(Some(s), given, at, tomorrow, r)
    ensures forall t: nat :: at.secs <= t && BeforeOpening(r, Today, t) ==>
              Locked(ActiveAt(Some(s), times, at.(secs := t)))
    ensures !(r.Some? && r.value.day.Today?) ==>
              (forall t: nat :: BeforeOpening(r, Tomorrow, t) ==>
                Locked(ActiveAt(Some(s), times, tomorrow.(secs := t))))
    ensures r.Some? ==>
              Runs(ActiveAt(Some(s), times, OpeningInstant(r.value, at, tomorrow)), r.value.time)
  {
    var today := WindowsOn(s, at.dayKey, at.weekday);
    var next := WindowsOn(s, tomorrow.dayKey, tomorrow.weekday);
    NotCoveredNow(today, times, at.secs);
    var first := if r.Some? && r.value.day.Today? then r else None;
    forall t: nat | at.secs <= t && BeforeOpening(r, Today, t)
      ensures Locked(ActiveAt(Some(s), times, at.(secs := t)))
    {
      DayIsQuiet(today, times, given, at.secs, first, t);
    }
    if first.None? {
      forall t: nat | BeforeOpening(r, Tomorrow, t)
        ensures Locked(ActiveAt(Some(s), times, tomorrow.(secs := t)))
      {
        DayIsQuiet(next, times, given, -1, r, t);
      }
    }
    if r.Some? {
      if first.Some? { PickedWindowRuns(today, times, given, at.secs, r.value); }
      else { PickedWindowRuns(next, times, given, -1, r.value); }
    }
  }

  lemma DayIsQuiet(ws: seq<Window>, times: seq<NamedTime>, given: Option<seq<NamedTime>>, after: int,
                   r: Option<NextWindow>, t: nat)
    requires Sound(ws, times) && (given.Some? ==> given.value == times)
    requires after == -1 || (0 <= after <= t && !Covered(ws, after))
    requires if r.Some? then Answers(ws, given, after, r.value) && t < MinutesOf(r.value.start) * 60
             else NothingToPick(ws, given, after)
    ensures RunningIn(ws, times, t) == LockedOutside
  {
    if t == after {
      assert Carver(ws, t).None?;
    } else {
      if after >= 0 { StillUncovered(ws, after, t); }
      forall k | 0 <= k < |ws| && Candidate(ws[k], given, after) ensures MinutesOf(ws[k].start) * 60 > t {
        var x :| PicksOf(ws, given, after, Some(x)) && x.start == r.value.start && x.time == r.value.time;
        var i: nat :| IsPick(ws, given, after, i) && ws[i] == x;
        assert !OpensBefore(ws[k], ws[i]);
      }
      QuietUntilPick(ws, times, given, after, t);
    }
  }

  lemma PickedWindowRuns(ws: seq<Window>, times: seq<NamedTime>, given: Option<seq<NamedTime>>, after: int, w: NextWindow)
    requires Sound(ws, times) && (given.Some? ==> given.value == times)
    requires after == -1 || (0 <= after && !Covered(ws, after))
    requires Answers(ws, given, after, w)
    ensures Runs(RunningIn(ws, times, MinutesOf(w.start) * 60), w.time)
  {
    var x :| PicksOf(ws, given, after, Some(x)) && x.start == w.start && x.time == w.time;
    var k: nat :| IsPick(ws, given, after, k) && ws[k] == x;
    PickOpens(ws, times, given, after, k);
  }

  lemma NotCoveredNow(ws: seq<Window>, times: seq<NamedTime>, secs: nat)
    requires Sound(ws, times) && Locked(RunningIn(ws, times, secs))
    ensures !Covered(ws, secs)
  {
  }

  lemma StillUncovered(ws: seq<Window>, now: nat, t: nat)
    requires !Covered(ws, now) && now <= t
    ensures forall k :: 0 <= k < |ws| ==> !(MinutesOf(ws[k].start) * 60 <= now && Inside(ws[k], t))
  {
    forall k | 0 <= k < |ws| && MinutesOf(ws[k].start) * 60 <= now ensures !Inside(ws[k], t) {
      assert !Inside(ws[k], now);
    }
  }

  // Without that proviso the answer can be wrong: a window for a time nobody has
  // defined, opening with the window that is named, keeps the device locked.
  lemma UndefinedTagHidesTheOpening(at: Instant)
    ensures var ghosted := Schedule("UTC", map[at.weekday := [
        Window("16:00", "19:00", None), Window("16:00", "17:00", Some("ghost"))]], None, false);
      var named := Some(NextWindow(Today, "16:00", None));
      at.secs < 57600 ==>
        && IsNextWindow(Some(ghosted), Some([]), at, at, named)
        && ActiveAt(Some(ghosted), [], at.(secs := 57600)) == LockedUnknown("ghost")
  {
    if at.secs < 57600 {
      var free, ghostly := Window("16:00", "19:00", None), Window("16:00", "17:00", Some("ghost"));
      var ws := [free, ghostly];
      assert MinutesOf("16:00") == 960 && MinutesOf("17:00") == 1020 && MinutesOf("19:00") == 1140;
      assert IsPick(ws, Some([]), at.secs, 0);
      assert PicksOf(ws, Some([]), at.secs, Some(free));
      assert Carves(ws, 57600, 1);
      CarverIsUnique(ws, 57600, 1);
    }
  }
}
