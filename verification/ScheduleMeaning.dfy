// Schedules with tagged windows and what they mean at an instant: the shared
// reference that the guardian app's code (GuardianTimes), the ward's evaluator
// (WardSchedule) and the wire encoding are each proved against.

module ScheduleMeaning {
  import opened Seqs

  // --- "HH:MM" ----------------------------------------------------------------

  predicate Digit(c: char) { '0' <= c <= '9' }

  // /^([01]\d|2[0-3]):([0-5]\d)$/
  predicate IsHhMm(s: string) {
    && |s| == 5 && s[2] == ':'
    && (('0' <= s[0] <= '1' && Digit(s[1])) || (s[0] == '2' && '0' <= s[1] <= '3'))
    && '0' <= s[3] <= '5' && Digit(s[4])
  }

  type HhMm = s: string | IsHhMm(s) witness "00:00"

  function DigitValue(c: char): (v: nat)
    requires Digit(c)
    ensures v <= 9
  {
    c as int - '0' as int
  }

  function MinutesOf(t: HhMm): (m: nat)
    ensures m < 1440
  {
    (DigitValue(t[0]) * 10 + DigitValue(t[1])) * 60 + DigitValue(t[3]) * 10 + DigitValue(t[4])
  }

  // JavaScript's `<` on strings.
  predicate TextLess(a: string, b: string) {
    b != "" && (a == "" || a[0] < b[0] || (a[0] == b[0] && TextLess(a[1..], b[1..])))
  }

  // Comparing "HH:MM" as text is comparing it as minutes.
  lemma TextOrderIsClockOrder(a: HhMm, b: HhMm)
    ensures TextLess(a, b) <==> MinutesOf(a) < MinutesOf(b)
  {
    assert forall s: string, k: nat :: k < |s| ==> s[k..][0] == s[k];
    assert TextLess(a, b) == (a[0] < b[0] || (a[0] == b[0] && TextLess(a[1..], b[1..])));
    assert TextLess(a[1..], b[1..]) == (a[1] < b[1] || (a[1] == b[1] && TextLess(a[2..], b[2..]))) by {
      assert a[1..][1..] == a[2..] && b[1..][1..] == b[2..];
    }
    assert TextLess(a[2..], b[2..]) == TextLess(a[3..], b[3..]) by {
      assert a[2..][1..] == a[3..] && b[2..][1..] == b[3..];
    }
    assert TextLess(a[3..], b[3..]) == (a[3] < b[3] || (a[3] == b[3] && TextLess(a[4..], b[4..]))) by {
      assert a[3..][1..] == a[4..] && b[3..][1..] == b[4..];
    }
    assert TextLess(a[4..], b[4..]) == (a[4] < b[4]) by {
      assert a[4..][1..] == "" && b[4..][1..] == "";
    }
  }

  // --- schedules --------------------------------------------------------------

  datatype Weekday = Mon | Tue | Wed | Thu | Fri | Sat | Sun

  // An untagged window (`time` absent) runs Free time.
  datatype Window = Window(start: HhMm, end: HhMm, time: Option<string>)

  datatype Schedule = Schedule(
    tz: string,
    weekly: map<Weekday, seq<Window>>,
    overrides: Option<map<string, seq<Window>>>,
    paused: bool)

  // One kind of screen time a child has; its posture is not read here.
  datatype NamedTime = NamedTime(id: string, name: string, countsAgainstBudget: Option<bool>)

  // A wall-clock instant in the schedule's own zone.
  datatype Instant = Instant(dayKey: string, weekday: Weekday, secs: nat)

  datatype ActiveTime =
    | FreeTime
    | RunsTime(time: NamedTime)
    | LockedOutside
    | LockedUnknown(tag: string)

  // A date's own windows if it has any listed, closed when that list is empty; the
  // weekday's otherwise.
  function WindowsOn(s: Schedule, dayKey: string, weekday: Weekday): seq<Window> {
    if s.overrides.Some? && dayKey in s.overrides.value then s.overrides.value[dayKey]
    else if weekday in s.weekly then s.weekly[weekday] else []
  }

  predicate Inside(w: Window, secs: nat) {
    MinutesOf(w.start) * 60 <= secs < MinutesOf(w.end) * 60
  }

  // `k` is the window that carves this instant: tagged, covering it, and first by
  // start, then by array order, among such windows.
  predicate Carves(ws: seq<Window>, secs: nat, k: nat) {
    && k < |ws| && ws[k].time.Some? && Inside(ws[k], secs)
    && forall j :: 0 <= j < |ws| && ws[j].time.Some? && Inside(ws[j], secs) ==>
         || MinutesOf(ws[k].start) < MinutesOf(ws[j].start)
         || (MinutesOf(ws[k].start) == MinutesOf(ws[j].start) && k <= j)
  }

  predicate Covered(ws: seq<Window>, secs: nat) {
    exists k :: 0 <= k < |ws| && Inside(ws[k], secs)
  }

  predicate TagCovered(ws: seq<Window>, secs: nat) {
    exists k :: 0 <= k < |ws| && ws[k].time.Some? && Inside(ws[k], secs)
  }

  // The carving window, if any.
  function Carver(ws: seq<Window>, secs: nat): (k: Option<nat>)
    ensures k.Some? ==> Carves(ws, secs, k.value)
    ensures k.None? ==> !TagCovered(ws, secs)
  {
    if ws == [] then None
    else
      var rest := Carver(ws[1..], secs);
      assert forall j :: 0 < j < |ws| ==> ws[j] == ws[1..][j - 1];
      assert rest.None? ==> forall j :: 0 < j < |ws| ==> !(ws[j].time.Some? && Inside(ws[j], secs));
      if ws[0].time.Some? && Inside(ws[0], secs)
         && (rest.None? || MinutesOf(ws[0].start) <= MinutesOf(ws[1..][rest.value].start))
      then Some(0)
      else if rest.Some? then Some(rest.value + 1) else None
  }

  lemma CarverIsUnique(ws: seq<Window>, secs: nat, k: nat)
    requires Carves(ws, secs, k)
    ensures Carver(ws, secs) == Some(k)
  {
    var c := Carver(ws, secs);
    assert c.Some? && Carves(ws, secs, c.value);
  }

  // The definition of a time id, first listed first.
  function TimeOf(times: seq<NamedTime>, id: string): (t: Option<NamedTime>)
    ensures t.Some? ==> t.value in times && t.value.id == id
    ensures t.None? <==> forall i :: 0 <= i < |times| ==> times[i].id != id
  {
    if times == [] then None
    else if times[0].id == id then Some(times[0])
    else TimeOf(times[1..], id)
  }

  // What runs under one day's windows.
  function RunningIn(ws: seq<Window>, times: seq<NamedTime>, secs: nat): ActiveTime {
    var c := Carver(ws, secs);
    if c.Some? then
      var tag := ws[c.value].time.value;
      var t := TimeOf(times, tag);
      if t.Some? then RunsTime(t.value) else LockedUnknown(tag)
    else if Covered(ws, secs) then FreeTime
    else LockedOutside
  }

  // The reference meaning of a schedule; without one, or with it lifted, all day is Free.
  function ActiveAt(s: Option<Schedule>, times: seq<NamedTime>, at: Instant): ActiveTime {
    if s.None? || s.value.paused then FreeTime
    else RunningIn(WindowsOn(s.value, at.dayKey, at.weekday), times, at.secs)
  }

  predicate Locked(a: ActiveTime) { a.LockedOutside? || a.LockedUnknown? }

  function Covering(ws: seq<Window>, secs: nat): seq<Window> {
    Filter((w: Window) => Inside(w, secs), ws)
  }

  lemma CoveredOfCovering(ws: seq<Window>, secs: nat)
    ensures Covered(ws, secs) <==> Covered(Covering(ws, secs), secs)
  {
    var cov := Covering(ws, secs);
    if Covered(ws, secs) {
      var k :| 0 <= k < |ws| && Inside(ws[k], secs);
      assert ws[k] in cov;
    }
    if Covered(cov, secs) {
      var k :| 0 <= k < |cov| && Inside(cov[k], secs);
      assert cov[k] in cov;
    }
  }

  lemma CarverCons(w: Window, rest: seq<Window>, secs: nat)
    ensures var r := Carver(rest, secs);
      Carver([w] + rest, secs)
      == if w.time.Some? && Inside(w, secs) && (r.None? || MinutesOf(w.start) <= MinutesOf(rest[r.value].start)) then Some(0)
         else if r.Some? then Some(r.value + 1) else None
  {
    assert ([w] + rest)[1..] == rest;
  }

  lemma CoveringCons(w: Window, rest: seq<Window>, secs: nat)
    ensures Covering([w] + rest, secs) == (if Inside(w, secs) then [w] else []) + Covering(rest, secs)
  {
    assert ([w] + rest)[1..] == rest;
  }

  // The carving window itself, not its place.
  function CarvingWindow(ws: seq<Window>, secs: nat): Option<Window> {
    var c := Carver(ws, secs);
    if c.Some? then Some(ws[c.value]) else None
  }

  lemma CarvingWindowCons(w: Window, rest: seq<Window>, secs: nat)
    ensures var r := CarvingWindow(rest, secs);
      CarvingWindow([w] + rest, secs)
      == if w.time.Some? && Inside(w, secs) && (r.None? || MinutesOf(w.start) <= MinutesOf(r.value.start)) then Some(w) else r
  {
    CarverCons(w, rest, secs);
  }

  // Only the windows covering an instant matter to it.
  lemma {:induction false} CarverOfCovering(ws: seq<Window>, secs: nat)
    ensures CarvingWindow(ws, secs) == CarvingWindow(Covering(ws, secs), secs)
  {
    if ws != [] {
      var w, rest := ws[0], ws[1..];
      assert ws == [w] + rest;
      CarverOfCovering(rest, secs);
      CarvingWindowCons(w, rest, secs);
      CoveringCons(w, rest, secs);
      if Inside(w, secs) {
        CarvingWindowCons(w, Covering(rest, secs), secs);
      } else {
        assert [] + Covering(rest, secs) == Covering(rest, secs);
      }
    }
  }

  lemma SameCoveringSameRun(a: seq<Window>, b: seq<Window>, times: seq<NamedTime>, secs: nat)
    requires Filter((w: Window) => Inside(w, secs), a) == Filter((w: Window) => Inside(w, secs), b)
    ensures RunningIn(a, times, secs) == RunningIn(b, times, secs)
  {
    CarverOfCovering(a, secs);
    CarverOfCovering(b, secs);
    CoveredOfCovering(a, secs);
    CoveredOfCovering(b, secs);
  }
}
