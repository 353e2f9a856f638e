// When the guardian app's next opening (domain/times.ts `nextWindow`) is exact, on
// every schedule whose windows start before they end, undefined tags included.

module NextOpening {
  import opened Seqs
  import opened ScheduleMeaning
  import opened GuardianTimes

  predicate StartBeforeEnd(ws: seq<Window>) {
    forall k :: 0 <= k < |ws| ==> MinutesOf(ws[k].start) < MinutesOf(ws[k].end)
  }

  function StartOf(w: Window): nat { MinutesOf(w.start) * 60 }
  function EndOf(w: Window): nat { MinutesOf(w.end) * 60 }

  // Of two tagged windows over one instant, `a` is the one that carves.
  predicate Ahead(ws: seq<Window>, a: nat, b: nat)
    requires a < |ws| && b < |ws|
  {
    StartOf(ws[a]) < StartOf(ws[b]) || (StartOf(ws[a]) == StartOf(ws[b]) && a < b)
  }

  // `u` is tagged with an undefined time and hides `w` wherever both cover.
  predicate Hides(ws: seq<Window>, times: seq<NamedTime>, u: nat, w: nat)
    requires u < |ws| && w < |ws|
  {
    !IsKnown(ws[u], times) && (ws[w].time.None? || Ahead(ws, u, w))
  }

  // A known window that covers, with no undefined tag hiding it.
  predicate Shows(ws: seq<Window>, times: seq<NamedTime>, w: nat, secs: nat) {
    && w < |ws| && IsKnown(ws[w], times) && Inside(ws[w], secs)
    && forall u :: 0 <= u < |ws| && Inside(ws[u], secs) ==> !Hides(ws, times, u, w)
  }

  lemma ShownUnlocks(ws: seq<Window>, times: seq<NamedTime>, w: nat, secs: nat)
    requires Shows(ws, times, w, secs)
    ensures !Locked(RunningIn(ws, times, secs))
  {
    var c := Carver(ws, secs);
    if c.Some? {
      assert !Hides(ws, times, c.value, w);
      assert c.value != w ==> ws[w].time.None? || Ahead(ws, c.value, w);
      assert IsKnown(ws[c.value], times);
    }
  }

  lemma UnlockedShows(ws: seq<Window>, times: seq<NamedTime>, secs: nat) returns (w: nat)
    requires !Locked(RunningIn(ws, times, secs))
    ensures Shows(ws, times, w, secs)
  {
    var c := Carver(ws, secs);
    if c.Some? {
      w := c.value;
    } else {
      w :| 0 <= w < |ws| && Inside(ws[w], secs);
    }
  }

  // --- at the opening --------------------------------------------------------------------

  // No other tag's window covers the opening ahead of every window of its own tag,
  // the tag itself is defined, and an untagged opening has no tagged window over it.
  predicate OpensAs(ws: seq<Window>, times: seq<NamedTime>, secs: nat, time: Option<string>) {
    match time
    case None => forall j :: 0 <= j < |ws| && ws[j].time.Some? ==> !Inside(ws[j], secs)
    case Some(id) =>
      && TimeOf(times, id).Some?
      && forall j :: 0 <= j < |ws| && ws[j].time.Some? && ws[j].time != time && Inside(ws[j], secs) ==>
           exists i :: 0 <= i < |ws| && ws[i].time == time && Inside(ws[i], secs) && Ahead(ws, i, j)
  }

  lemma OpensExactly(ws: seq<Window>, times: seq<NamedTime>, secs: nat, time: Option<string>, k: nat)
    requires k < |ws| && ws[k].time == time && Inside(ws[k], secs)
    ensures Runs(RunningIn(ws, times, secs), time) <==> OpensAs(ws, times, secs, time)
  {
    var c := Carver(ws, secs);
    if time.Some? {
      var n := c.value;
      if ws[n].time == time {
        forall j | 0 <= j < |ws| && ws[j].time.Some? && ws[j].time != time && Inside(ws[j], secs)
          ensures Ahead(ws, n, j)
        {
        }
      } else {
        assert forall i :: 0 <= i < |ws| && ws[i].time == time && Inside(ws[i], secs) ==> !Ahead(ws, i, n);
      }
      assert TimeOf(times, ws[n].time.value).Some? ==> TimeOf(times, ws[n].time.value).value.id == ws[n].time.value;
    } else {
      assert Covered(ws, secs);
    }
  }

  // --- until the opening -------------------------------------------------------------------

  // An undefined tag's window ends before `limit` and uncovers a known window that is
  // already covering now.
  predicate Uncovers(ws: seq<Window>, times: seq<NamedTime>, now: nat, limit: nat, u: nat, w: nat) {
    && u < |ws| && w < |ws| && !IsKnown(ws[u], times) && now < EndOf(ws[u]) < limit
    && Inside(ws[w], now) && Shows(ws, times, w, EndOf(ws[u]))
  }

  predicate SomethingUncovered(ws: seq<Window>, times: seq<NamedTime>, now: nat, limit: nat) {
    exists u, w :: 0 <= u < |ws| && 0 <= w < |ws| && Uncovers(ws, times, now, limit, u, w)
  }

  predicate NoKnownStart(ws: seq<Window>, times: seq<NamedTime>, now: int, limit: nat) {
    forall k :: 0 <= k < |ws| && IsKnown(ws[k], times) ==> !(now < StartOf(ws[k]) < limit)
  }

  predicate LockedThrough(ws: seq<Window>, times: seq<NamedTime>, from: nat, limit: nat) {
    forall t :: from <= t < limit ==> Locked(RunningIn(ws, times, t))
  }

  lemma LockedShowsNothing(ws: seq<Window>, times: seq<NamedTime>, w: nat, secs: nat)
    requires Locked(RunningIn(ws, times, secs))
    ensures !Shows(ws, times, w, secs)
  {
    if Shows(ws, times, w, secs) { ShownUnlocks(ws, times, w, secs); }
  }

  // The first instant something shows is the end of a tag that hid it.
  lemma UncoveredAtAnEnd(ws: seq<Window>, times: seq<NamedTime>, now: nat, limit: nat, before: nat)
    requires NoKnownStart(ws, times, now, limit) && now <= before && before + 1 < limit
    requires Locked(RunningIn(ws, times, before)) && !Locked(RunningIn(ws, times, before + 1))
    ensures SomethingUncovered(ws, times, now, limit)
  {
    var w := UnlockedShows(ws, times, before + 1);
    LockedShowsNothing(ws, times, w, before);
    var u :| 0 <= u < |ws| && Inside(ws[u], before) && Hides(ws, times, u, w);
    assert EndOf(ws[u]) == before + 1;
    assert Uncovers(ws, times, now, limit, u, w);
  }

  // Locked now, with nothing known starting before `limit`: it stays locked until then
  // exactly when no undefined tag ends over a known window that covers now.
  lemma QuietExactly(ws: seq<Window>, times: seq<NamedTime>, now: nat, limit: nat)
    requires Locked(RunningIn(ws, times, now)) && NoKnownStart(ws, times, now, limit)
    ensures LockedThrough(ws, times, now, limit) <==> !SomethingUncovered(ws, times, now, limit)
  {
    if SomethingUncovered(ws, times, now, limit) { UncoveredRuns(ws, times, now, limit); }
    if !LockedThrough(ws, times, now, limit) { RunsUncovered(ws, times, now, limit); }
  }

  lemma UncoveredRuns(ws: seq<Window>, times: seq<NamedTime>, now: nat, limit: nat)
    requires SomethingUncovered(ws, times, now, limit)
    ensures !LockedThrough(ws, times, now, limit)
  {
    var u, w :| 0 <= u < |ws| && 0 <= w < |ws| && Uncovers(ws, times, now, limit, u, w);
    ShownUnlocks(ws, times, w, EndOf(ws[u]));
  }

  // The last instant of an unbroken stretch.
  lemma LastHolding(p: nat -> bool, now: nat, t: nat) returns (x: nat)
    requires now <= t && p(now) && !p(t)
    ensures now <= x < t && p(x) && !p(x + 1)
  {
    x := now;
    while p(x + 1)
      invariant now <= x < t && p(x)
      decreases t - x
    {
      x := x + 1;
    }
  }

  function LockedIn(ws: seq<Window>, times: seq<NamedTime>): nat -> bool {
    (t: nat) => Locked(RunningIn(ws, times, t))
  }

  lemma LockedInAt(ws: seq<Window>, times: seq<NamedTime>, t: nat)
    ensures LockedIn(ws, times)(t) == Locked(RunningIn(ws, times, t))
  {
  }

  // The last locked instant before something runs.
  lemma LastLocked(ws: seq<Window>, times: seq<NamedTime>, now: nat, t: nat) returns (x: nat)
    requires now <= t && Locked(RunningIn(ws, times, now)) && !Locked(RunningIn(ws, times, t))
    ensures now <= x < t && Locked(RunningIn(ws, times, x)) && !Locked(RunningIn(ws, times, x + 1))
  {
    LockedInAt(ws, times, now);
    LockedInAt(ws, times, t);
    x := LastHolding(LockedIn(ws, times), now, t);
    LockedInAt(ws, times, x);
    LockedInAt(ws, times, x + 1);
  }

  lemma RunsUncovered(ws: seq<Window>, times: seq<NamedTime>, now: nat, limit: nat)
    requires Locked(RunningIn(ws, times, now)) && NoKnownStart(ws, times, now, limit)
    requires !LockedThrough(ws, times, now, limit)
    ensures SomethingUncovered(ws, times, now, limit)
  {
    var t :| now <= t < limit && !Locked(RunningIn(ws, times, t));
    var x := LastLocked(ws, times, now, t);
    UncoveredAtAnEnd(ws, times, now, limit, x);
  }

  // A day on which nothing known starts before `limit` is locked from midnight to then.
  lemma QuietMorning(ws: seq<Window>, times: seq<NamedTime>, limit: nat)
    requires NoKnownStart(ws, times, -1, limit)
    ensures LockedThrough(ws, times, 0, limit)
  {
    forall t: nat | t < limit ensures Locked(RunningIn(ws, times, t)) {
      if !Locked(RunningIn(ws, times, t)) {
        var w := UnlockedShows(ws, times, t);
      }
    }
  }

  // --- the answer ----------------------------------------------------------------------------

  const DAY_SECS: nat := 86_400

  // Where on a day the answer puts the opening; the day's end if it is not on that day.
  function Limit(r: Option<NextWindow>, day: Day): nat {
    if r.Some? && r.value.day == day then MinutesOf(r.value.start) * 60 else DAY_SECS
  }

  lemma PickLeavesNoKnownStart(ws: seq<Window>, times: seq<NamedTime>, given: Option<seq<NamedTime>>, after: int, w: NextWindow)
    requires given.Some? ==> given.value == times
    requires Answers(ws, given, after, w) && StartBeforeEnd(ws)
    ensures NoKnownStart(ws, times, after, MinutesOf(w.start) * 60)
    ensures exists k: nat :: k < |ws| && ws[k].time == w.time && Inside(ws[k], MinutesOf(w.start) * 60)
  {
    var x :| PicksOf(ws, given, after, Some(x)) && x.start == w.start && x.time == w.time;
    var k: nat :| IsPick(ws, given, after, k) && ws[k] == x;
    assert Inside(ws[k], MinutesOf(w.start) * 60);
    forall j | 0 <= j < |ws| && IsKnown(ws[j], times) ensures !(after < StartOf(ws[j]) < MinutesOf(w.start) * 60) {
      if after < StartOf(ws[j]) { assert Candidate(ws[j], given, after) && !OpensBefore(ws[j], ws[k]); }
    }
  }

  lemma NoPickNoKnownStart(ws: seq<Window>, times: seq<NamedTime>, given: Option<seq<NamedTime>>, after: int)
    requires (given.Some? ==> given.value == times) && NothingToPick(ws, given, after)
    ensures NoKnownStart(ws, times, after, DAY_SECS)
  {
    forall j | 0 <= j < |ws| && IsKnown(ws[j], times) ensures !(after < StartOf(ws[j]) < DAY_SECS) {
      assert !Candidate(ws[j], given, after);
    }
  }

  // The answered opening's windows: today's, or tomorrow's.
  function OpeningDay(s: Schedule, w: NextWindow, at: Instant, tomorrow: Instant): seq<Window> {
    if w.day.Today? then WindowsOn(s, at.dayKey, at.weekday) else WindowsOn(s, tomorrow.dayKey, tomorrow.weekday)
  }

  // Asked while locked, of any schedule whose windows start before they end:
  // today stays locked until the opening (all day, if it is not today) exactly when no
  // undefined tag ends over a known window that covers now; tomorrow is locked until its
  // opening; and at the opening the answered time runs exactly when its tag is defined
  // and no other tag's window is ahead of it there.
  lemma NextWindowExactly(s: Schedule, times: seq<NamedTime>, given: Option<seq<NamedTime>>, at: Instant,
                          tomorrow: Instant, r: Option<NextWindow>)
    requires given.Some? ==> given.value == times
    requires StartBeforeEnd(WindowsOn(s, at.dayKey, at.weekday))
    requires StartBeforeEnd(WindowsOn(s, tomorrow.dayKey, tomorrow.weekday))
    requires Locked(ActiveAt(Some(s), times, at)) && IsNextWindow(Some(s), given, at, tomorrow, r)
    ensures var today, next := WindowsOn(s, at.dayKey, at.weekday), WindowsOn(s, tomorrow.dayKey, tomorrow.weekday);
      && (LockedThrough(today, times, at.secs, Limit(r, Today))
          <==> !SomethingUncovered(today, times, at.secs, Limit(r, Today)))
      && (!(r.Some? && r.value.day.Today?) ==> LockedThrough(next, times, 0, Limit(r, Tomorrow)))
    ensures r.Some? ==>
      (Runs(ActiveAt(Some(s), times, OpeningInstant(r.value, at, tomorrow)), r.value.time)
       <==> OpensAs(OpeningDay(s, r.value, at, tomorrow), times, MinutesOf(r.value.start) * 60, r.value.time))
  {
    var today, next := WindowsOn(s, at.dayKey, at.weekday), WindowsOn(s, tomorrow.dayKey, tomorrow.weekday);
    if r.Some? && r.value.day.Today? {
      PickLeavesNoKnownStart(today, times, given, at.secs, r.value);
    } else {
      NoPickNoKnownStart(today, times, given, at.secs);
      if r.Some? {
        PickLeavesNoKnownStart(next, times, given, -1, r.value);
      } else {
        NoPickNoKnownStart(next, times, given, -1);
      }
      QuietMorning(next, times, Limit(r, Tomorrow));
    }
    QuietExactly(today, times, at.secs, Limit(r, Today));
    if r.Some? {
      var ws := OpeningDay(s, r.value, at, tomorrow);
      var k: nat :| k < |ws| && ws[k].time == r.value.time && Inside(ws[k], MinutesOf(r.value.start) * 60);
      OpensExactly(ws, times, MinutesOf(r.value.start) * 60, r.value.time, k);
    }
  }

  // --- both ways of failing ------------------------------------------------------------------

  // An undefined tag ending before the answered window lets Free time run before it:
  // locked now by the tag, the answer is the later window, and Free runs from its end.
  lemma TagEndsFirst(free: Window, ghosted: Window, later: Window, times: seq<NamedTime>, now: nat)
    requires free.time.None? && !IsKnown(ghosted, times) && later.time.None?
    requires StartOf(free) <= now && StartOf(ghosted) <= now < EndOf(ghosted) < EndOf(free)
    requires EndOf(free) <= StartOf(later) < EndOf(later)
    ensures var ws := [free, ghosted, later];
      && Locked(RunningIn(ws, times, now))
      && Answers(ws, Some(times), now, NextWindow(Today, later.start, None))
      && SomethingUncovered(ws, times, now, StartOf(later))
  {
    var ws := [free, ghosted, later];
    assert Carves(ws, now, 1);
    CarverIsUnique(ws, now, 1);
    assert IsPick(ws, Some(times), now, 2);
    assert PicksOf(ws, Some(times), now, Some(later));
    assert Uncovers(ws, times, now, StartOf(later), 1, 0);
  }

  lemma AnEvening()
    ensures StartOf(Window("16:00", "19:00", None)) == 57_600 && EndOf(Window("16:00", "19:00", None)) == 68_400
    ensures StartOf(Window("16:00", "17:00", Some("ghost"))) == 57_600
    ensures EndOf(Window("16:00", "17:00", Some("ghost"))) == 61_200
    ensures StartOf(Window("20:00", "21:00", None)) == 72_000 && EndOf(Window("20:00", "21:00", None)) == 75_600
  {
  }

  // Free 16:00-19:00, an undefined tag 16:00-17:00, Free 20:00-21:00, asked at 16:00.
  lemma UndefinedTagEndsBeforeTheOpening(times: seq<NamedTime>)
    requires TimeOf(times, "ghost").None?
    ensures var free, ghosted, later :=
        Window("16:00", "19:00", None), Window("16:00", "17:00", Some("ghost")), Window("20:00", "21:00", None);
      && Answers([free, ghosted, later], Some(times), 57_600, NextWindow(Today, "20:00", None))
      && SomethingUncovered([free, ghosted, later], times, 57_600, StartOf(later))
  {
    var free, ghosted, later :=
      Window("16:00", "19:00", None), Window("16:00", "17:00", Some("ghost")), Window("20:00", "21:00", None);
    AnEvening();
    TagEndsFirst(free, ghosted, later, times, 57_600);
  }

  // A known tag can be ahead at the opening too, where an undefined one hides it now:
  // the answer is `late`, while `early` runs from the end of the tag and over its start.
  lemma AKnownTagCanBeAhead(ghosted: Window, early: Window, late: Window, times: seq<NamedTime>, now: nat)
    requires !IsKnown(ghosted, times) && IsKnown(early, times) && IsKnown(late, times)
    requires early.time.Some? && late.time.Some? && early.time != late.time
    requires StartOf(ghosted) < StartOf(early) <= now < EndOf(ghosted) <= StartOf(late)
    requires StartOf(late) < EndOf(late) && StartOf(late) < EndOf(early)
    ensures var ws := [ghosted, early, late];
      && Locked(RunningIn(ws, times, now))
      && Answers(ws, Some(times), now, NextWindow(Today, late.start, late.time))
      && !OpensAs(ws, times, StartOf(late), late.time)
      && !Inside(ghosted, StartOf(late))
  {
    var ws := [ghosted, early, late];
    assert Carves(ws, now, 0);
    CarverIsUnique(ws, now, 0);
    assert IsPick(ws, Some(times), now, 2);
    assert PicksOf(ws, Some(times), now, Some(late));
    assert Carves(ws, StartOf(late), 1);
    CarverIsUnique(ws, StartOf(late), 1);
    OpensExactly(ws, times, StartOf(late), late.time, 2);
  }
}
