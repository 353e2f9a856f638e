// Which schedules the guardian app signs for a ward (wire/clause.ts), in minutes and
// characters.

module SignedSchedules {
  import opened Seqs
  import opened ScheduleMeaning
  import opened WardSchedule
  import JsText

  // Every window starts before it ends, a tag is a usable id, and tagged windows keep
  // off one another.
  predicate SoundDay(ws: seq<Window>) {
    && (forall k :: 0 <= k < |ws| ==> SoundWindow(ws[k]))
    && (forall i, j :: 0 <= i < j < |ws| ==> OffOneAnother(ws[i], ws[j]))
  }

  predicate SoundWindow(w: Window) {
    MinutesOf(w.start) < MinutesOf(w.end) && (w.time.Some? ==> UsableId(w.time.value))
  }

  predicate OffOneAnother(a: Window, b: Window) {
    a.time.Some? && b.time.Some? ==>
      MinutesOf(a.end) <= MinutesOf(b.start) || MinutesOf(b.end) <= MinutesOf(a.start)
  }

  // One to 32 lower-case letters, digits and hyphens, and not Free time's own id.
  predicate UsableId(id: string) {
    && 1 <= |id| <= 32 && id != "free"
    && forall i :: 0 <= i < |id| ==> 'a' <= id[i] <= 'z' || '0' <= id[i] <= '9' || id[i] == '-'
  }

  lemma UsableIsTimeId(id: string)
    ensures UsableId(id) <==> IsTimeId(id)
  {
  }

  lemma SoundIsSignable(w: Window)
    ensures SoundWindow(w) <==> TextLess(w.start, w.end) && (w.time.Some? ==> IsTimeId(w.time.value))
  {
    TextOrderIsClockOrder(w.start, w.end);
    if w.time.Some? { UsableIsTimeId(w.time.value); }
  }

  lemma OffIsNoOverlap(a: Window, b: Window)
    ensures OffOneAnother(a, b) <==> !Overlap(a, b)
  {
    TextOrderIsClockOrder(a.start, b.end);
    TextOrderIsClockOrder(b.start, a.end);
  }

  lemma SoundDayIsSignable(ws: seq<Window>)
    ensures SoundDay(ws) <==> Signable(ws) && TagsApart(ws)
  {
    forall k | 0 <= k < |ws|
      ensures SoundWindow(ws[k])
         <==> TextLess(ws[k].start, ws[k].end) && (ws[k].time.Some? ==> IsTimeId(ws[k].time.value))
    {
      SoundIsSignable(ws[k]);
    }
    forall i, j | 0 <= i < j < |ws| ensures OffOneAnother(ws[i], ws[j]) <==> !Overlap(ws[i], ws[j]) {
      OffIsNoOverlap(ws[i], ws[j]);
    }
  }

  lemma EveryDaySound(s: Schedule)
    ensures EveryDay(s, SoundDay) <==> EveryDay(s, Signable) && EveryDay(s, TagsApart)
  {
    forall d | d in s.weekly { SoundDayIsSignable(s.weekly[d]); }
    var o := OverrideWindows(s.overrides);
    forall k | k in o { SoundDayIsSignable(o[k]); }
  }

  // A schedule is signed exactly when its zone is named and it is lifted or every day
  // and date is sound; a lifted one is signed as no limit at all, one without a single
  // window as closed, any other as it stands.
  lemma SignedExactly(s: Schedule)
    ensures ScheduleToWire(s).Some? <==> JsText.HasInk(s.tz) && (s.paused || EveryDay(s, SoundDay))
    ensures ScheduleToWire(s).Some? ==> SignedAs(s, ScheduleToWire(s).value)
  {
    JsText.TrimKeepsInk(s.tz);
    EveryDaySound(s);
  }

  predicate SignedAs(s: Schedule, w: WireSchedule) {
    && w.version == 1 && w.tz == s.tz && w.paused != Some(false)
    && (w.paused == Some(true) <==> !s.paused && EveryDay(s, ClosedDay))
    && (s.paused || EveryDay(s, ClosedDay) ==> w.weekly == map[] && w.overrides.None?)
    && (!s.paused && !EveryDay(s, ClosedDay) ==> w.weekly == s.weekly && w.overrides == s.overrides)
  }
}
