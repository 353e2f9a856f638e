// The break-glass journal over whole runs: any interleaving of queued audits,
// publish rounds and sent marks, any clock, any pattern of failed writes. Each
// audit carries a serial here so that one entry can be followed.

module BreakGlassRuns {
  import opened Seqs
  import opened BreakGlass

  // An entry, how often its wrap was built, and when the first time was.
  datatype Slot = Slot(serial: nat, audit: Audit, builds: nat, firstBuilt: nat)

  datatype World = World(slots: seq<Slot>, next: nat)

  datatype Event =
    | Queue(tags: Tags, diskOk: bool)
    | Round(now: nat, build: Builder, diskOk: bool)
    | Mark(ids: seq<nat>, diskOk: bool)

  function RewrapSlot(s: Slot, k: nat, now: nat, build: Builder, diskOk: bool): Slot {
    if !Builds(s.audit, k, now, build) then s
    else Slot(s.serial, if diskOk then s.audit.(wrap := build(k)) else s.audit, s.builds + 1,
              if s.builds == 0 then now else s.firstBuilt)
  }

  function RewrapSlots(slots: seq<Slot>, now: nat, build: Builder, diskOk: bool): (r: seq<Slot>)
    ensures |r| == |slots| && forall k :: 0 <= k < |slots| ==> r[k] == RewrapSlot(slots[k], k, now, build, diskOk)
  {
    if slots == [] then []
    else
      var n := |slots| - 1;
      RewrapSlots(slots[..n], now, build, diskOk) + [RewrapSlot(slots[n], n, now, build, diskOk)]
  }

  function UnsentSlots(slots: seq<Slot>, ids: seq<nat>): seq<Slot> {
    Filter((s: Slot) => !Sent(s.audit, ids), slots)
  }

  function Next(w: World, e: Event): World {
    match e
    case Queue(tags, ok) => if ok then World(w.slots + [Slot(w.next, Audit(tags, None), 0, 0)], w.next + 1) else w
    case Round(now, build, ok) => w.(slots := RewrapSlots(w.slots, now, build, ok))
    case Mark(ids, ok) => if ok then w.(slots := UnsentSlots(w.slots, ids)) else w
  }

  function Run(w: World, events: seq<Event>): World {
    if events == [] then w else Next(Run(w, events[..|events| - 1]), events[|events| - 1])
  }

  // --- the run is the journal's ----------------------------------------------------

  function Journaled(slots: seq<Slot>): seq<Audit> { Map((s: Slot) => s.audit, slots) }

  // What the journal's own methods leave (BreakGlass.Journal).
  function JournalStep(all: seq<Audit>, e: Event): seq<Audit> {
    match e
    case Queue(tags, ok) => if ok then all + [Audit(tags, None)] else all
    case Round(now, build, ok) =>
      if ok || Fresh(all, now, build) == [] then RewrapAll(all, now, build) else all
    case Mark(ids, ok) => if ok then Unsent(all, ids) else all
  }

  lemma {:induction false} UnsentMatches(slots: seq<Slot>, ids: seq<nat>)
    ensures Journaled(UnsentSlots(slots, ids)) == Unsent(Journaled(slots), ids)
  {
    if slots != [] {
      UnsentMatches(slots[1..], ids);
      var rest := UnsentSlots(slots[1..], ids);
      assert Journaled(slots)[1..] == Journaled(slots[1..]);
      if !Sent(slots[0].audit, ids) {
        assert UnsentSlots(slots, ids) == [slots[0]] + rest;
        assert Journaled([slots[0]] + rest) == [slots[0].audit] + Journaled(rest);
      } else {
        assert UnsentSlots(slots, ids) == rest;
      }
    }
  }

  lemma RunFollowsJournal(w: World, e: Event)
    ensures Journaled(Next(w, e).slots) == JournalStep(Journaled(w.slots), e)
  {
    match e
    case Queue(tags, ok) =>
    case Round(now, build, ok) =>
      if !ok && Fresh(Journaled(w.slots), now, build) == [] {
        NothingFreshNothingNew(Journaled(w.slots), now, build);
      }
    case Mark(ids, ok) =>
      UnsentMatches(w.slots, ids);
  }

  // --- an audit leaves only when its stored wrap was marked sent ---------------------

  predicate Ordered(w: World) {
    && (forall i, j :: 0 <= i < j < |w.slots| ==> w.slots[i].serial < w.slots[j].serial)
    && (forall i :: 0 <= i < |w.slots| ==> w.slots[i].serial < w.next)
  }

  // The journal stays oldest first.
  lemma {:induction false} OldestFirst(w: World, events: seq<Event>)
    requires Ordered(w)
    ensures Ordered(Run(w, events))
  {
    if events != [] {
      OldestFirst(w, events[..|events| - 1]);
      var before, e := Run(w, events[..|events| - 1]), events[|events| - 1];
      if e.Mark? { FilterKeepsOrder(before, e.ids); }
    }
  }

  lemma FilterKeepsOrder(w: World, ids: seq<nat>)
    requires Ordered(w)
    ensures Ordered(w.(slots := UnsentSlots(w.slots, ids)))
  {
    OrderedFilter(w.slots, ids);
    var kept := UnsentSlots(w.slots, ids);
    forall i | 0 <= i < |kept| ensures kept[i].serial < w.next {
      assert kept[i] in kept;
      var j :| 0 <= j < |w.slots| && w.slots[j] == kept[i];
    }
  }

  lemma {:induction false} OrderedFilter(slots: seq<Slot>, ids: seq<nat>)
    requires forall i, j :: 0 <= i < j < |slots| ==> slots[i].serial < slots[j].serial
    ensures var kept := UnsentSlots(slots, ids);
      forall i, j :: 0 <= i < j < |kept| ==> kept[i].serial < kept[j].serial
  {
    if slots != [] {
      OrderedFilter(slots[1..], ids);
      var rest, kept := UnsentSlots(slots[1..], ids), UnsentSlots(slots, ids);
      forall j | 0 <= j < |rest| ensures slots[0].serial < rest[j].serial {
        assert rest[j] in rest;
        var k :| 0 <= k < |slots[1..]| && slots[1..][k] == rest[j];
        assert slots[k + 1] == rest[j];
      }
      assert kept == (if Sent(slots[0].audit, ids) then [] else [slots[0]]) + rest;
    }
  }

  ghost predicate Holds(w: World, serial: nat, tags: Tags) {
    exists s :: s in w.slots && s.serial == serial && s.audit.tags == tags
  }

  // Some slot of that serial whose stored wrap is among `ids`.
  ghost predicate NamedBy(w: World, serial: nat, e: Event) {
    e.Mark? && e.diskOk && exists s :: s in w.slots && s.serial == serial && Sent(s.audit, e.ids)
  }

  lemma StaysUnlessNamed(w: World, e: Event, serial: nat, tags: Tags)
    requires Holds(w, serial, tags) && !NamedBy(w, serial, e)
    ensures Holds(Next(w, e), serial, tags)
  {
    var s :| s in w.slots && s.serial == serial && s.audit.tags == tags;
    var k :| 0 <= k < |w.slots| && w.slots[k] == s;
    match e
    case Queue(_, _) =>
      assert s in Next(w, e).slots;
    case Round(now, build, ok) =>
      var after := Next(w, e).slots[k];
      assert after == RewrapSlot(s, k, now, build, ok);
      assert after in Next(w, e).slots;
    case Mark(ids, ok) =>
      assert s in Next(w, e).slots;
  }

  // A journaled audit is there at the end of any run, its tags unchanged, unless
  // some mark that reached the disk named the wrap it had stored at that moment.
  lemma {:induction false} LeavesOnlyWhenNamed(w: World, events: seq<Event>, serial: nat, tags: Tags)
    requires Holds(w, serial, tags)
    ensures Holds(Run(w, events), serial, tags)
         || exists n :: 0 <= n < |events| && NamedBy(Run(w, events[..n]), serial, events[n])
  {
    if events != [] {
      var n := |events| - 1;
      LeavesOnlyWhenNamed(w, events[..n], serial, tags);
      if Holds(Run(w, events[..n]), serial, tags) {
        if !NamedBy(Run(w, events[..n]), serial, events[n]) {
          StaysUnlessNamed(Run(w, events[..n]), events[n], serial, tags);
        }
      } else {
        var m :| 0 <= m < n && NamedBy(Run(w, events[..n][..m]), serial, events[..n][m]);
        assert events[..n][..m] == events[..m];
        assert NamedBy(Run(w, events[..m]), serial, events[m]);
      }
    }
  }

  // --- no wrap is offered twice -------------------------------------------------------

  function IdsOf(ws: seq<Wrap>): seq<nat> { Map((w: Wrap) => w.id, ws) }

  function BuiltIn(w: World, e: Event): seq<nat> {
    if e.Round? then IdsOf(Fresh(Journaled(w.slots), e.now, e.build)) else []
  }

  function OfferedIn(w: World, e: Event): seq<nat> {
    if e.Round? && e.diskOk then BuiltIn(w, e) else []
  }

  function AllBuilt(w: World, events: seq<Event>): seq<nat> {
    if events == [] then []
    else AllBuilt(w, events[..|events| - 1]) + BuiltIn(Run(w, events[..|events| - 1]), events[|events| - 1])
  }

  function AllOffered(w: World, events: seq<Event>): seq<nat> {
    if events == [] then []
    else AllOffered(w, events[..|events| - 1]) + OfferedIn(Run(w, events[..|events| - 1]), events[|events| - 1])
  }

  lemma {:induction false} OfferedWereBuilt(w: World, events: seq<Event>)
    requires NoDup(AllBuilt(w, events))
    ensures NoDup(AllOffered(w, events))
    ensures forall id :: id in AllOffered(w, events) ==> id in AllBuilt(w, events)
  {
    if events != [] {
      var before, e := events[..|events| - 1], events[|events| - 1];
      var a, b := AllBuilt(w, before), BuiltIn(Run(w, before), e);
      NoDupParts(a, b);
      OfferedWereBuilt(w, before);
      NoDupJoin(AllOffered(w, before), OfferedIn(Run(w, before), e));
    }
  }

  lemma NoDupParts(a: seq<nat>, b: seq<nat>)
    requires NoDup(a + b)
    ensures NoDup(a) && NoDup(b) && forall x :: x in a ==> x !in b
  {
    var s := a + b;
    assert forall i :: 0 <= i < |a| ==> s[i] == a[i];
    assert forall i :: 0 <= i < |b| ==> s[|a| + i] == b[i];
  }

  lemma NoDupJoin(a: seq<nat>, b: seq<nat>)
    requires NoDup(a) && NoDup(b) && forall x :: x in a ==> x !in b
    ensures NoDup(a + b)
  {
    var s := a + b;
    forall i, j | 0 <= i < j < |s| ensures s[i] != s[j] {
      if i < |a| && |a| <= j {
        assert s[i] == a[i] && a[i] in a;
        assert s[j] == b[j - |a|];
      }
    }
  }

  // Some journaled audit's stored wrap has this id.
  ghost predicate StoresId(w: World, id: nat) {
    exists s :: s in w.slots && s.audit.wrap.Some? && s.audit.wrap.value.id == id
  }

  // As every build makes a new event, no id is ever offered to the local link
  // twice, and each is the stored wrap of a journaled audit when it is offered.
  lemma NoIdIsOfferedTwice(w: World, events: seq<Event>, n: nat, id: nat)
    requires NoDup(AllBuilt(w, events)) && n < |events|
    ensures NoDup(AllOffered(w, events))
    ensures id in OfferedIn(Run(w, events[..n]), events[n]) ==> StoresId(Run(w, events[..n + 1]), id)
  {
    OfferedWereBuilt(w, events);
    var before, e := Run(w, events[..n]), events[n];
    if id in OfferedIn(before, e) {
      assert events[..n + 1][..n] == events[..n];
      var made := Fresh(Journaled(before.slots), e.now, e.build);
      var i :| 0 <= i < |made| && made[i].id == id;
      FreshIsStored(Journaled(before.slots), e.now, e.build, made[i]);
      var k :| 0 <= k < |before.slots| && RewrapAll(Journaled(before.slots), e.now, e.build)[k].wrap == Some(made[i]);
      RunFollowsJournal(before, e);
      assert Run(w, events[..n + 1]) == Next(before, e);
      var s := Next(before, e).slots[k];
      assert s.audit == Journaled(Next(before, e).slots)[k];
      assert s in Next(before, e).slots && s.audit.wrap == Some(made[i]);
    }
  }

  // --- is a retry the identical event? --------------------------------------------------

  // What a round hands out for the slot at `k`: its wrap, built anew if due.
  function HandedOut(w: World, e: Event, k: nat): Option<Wrap>
    requires e.Round? && k < |w.slots|
  {
    var wrap := Rewrapped(w.slots[k].audit, k, e.now, e.build).wrap;
    if wrap.Some? && Fit(wrap.value, e.now) then wrap else None
  }

  // It is what the journal's method returns for that entry.
  lemma HandedOutIsPublished(w: World, e: Event, k: nat)
    requires e.Round? && k < |w.slots| && HandedOut(w, e, k).Some?
    ensures HandedOut(w, e, k).value in Publishable(RewrapAll(Journaled(w.slots), e.now, e.build), e.now)
  {
    var all := RewrapAll(Journaled(w.slots), e.now, e.build);
    assert all[k].wrap == HandedOut(w, e, k);
    PublishedAreFit(all, e.now, HandedOut(w, e, k).value);
  }

  // The wrap ids already in the journal.
  function StoredIds(slots: seq<Slot>): seq<nat> {
    if slots == [] then []
    else
      var w := slots[|slots| - 1].audit.wrap;
      StoredIds(slots[..|slots| - 1]) + if w.Some? then [w.value.id] else []
  }

  lemma {:induction false} StoredIdsAre(slots: seq<Slot>, k: nat)
    requires k < |slots| && slots[k].audit.wrap.Some?
    ensures slots[k].audit.wrap.value.id in StoredIds(slots)
  {
    var n := |slots| - 1;
    if k < n { StoredIdsAre(slots[..n], k); }
  }

  // Every build makes an event with an id of its own.
  ghost predicate FreshIds(w: World, events: seq<Event>) {
    NoDup(StoredIds(w.slots) + AllBuilt(w, events))
  }

  lemma {:induction false} FreshIsBuilt(all: seq<Audit>, now: nat, build: Builder, k: nat)
    requires k < |all| && Builds(all[k], k, now, build)
    ensures build(k).value in Fresh(all, now, build)
  {
    var n := |all| - 1;
    if k < n { FreshIsBuilt(all[..n], now, build, k); }
  }

  lemma BuiltInRound(w: World, e: Event, k: nat)
    requires e.Round? && k < |w.slots| && Builds(w.slots[k].audit, k, e.now, e.build)
    ensures e.build(k).value.id in BuiltIn(w, e)
  {
    var all := Journaled(w.slots);
    FreshIsBuilt(all, e.now, e.build, k);
    var made := Fresh(all, e.now, e.build);
    var i :| 0 <= i < |made| && made[i] == e.build(k).value;
    assert IdsOf(made)[i] == e.build(k).value.id;
  }

  // A stored wrap was there from the start or was built by some round.
  lemma {:induction false} StoredWasBuilt(w: World, events: seq<Event>, k: nat)
    requires k < |Run(w, events).slots| && Run(w, events).slots[k].audit.wrap.Some?
    ensures Run(w, events).slots[k].audit.wrap.value.id in StoredIds(w.slots) + AllBuilt(w, events)
  {
    if events == [] {
      StoredIdsAre(w.slots, k);
    } else {
      var n := |events| - 1;
      var before, e := Run(w, events[..n]), events[n];
      match e
      case Queue(_, _) =>
        StoredWasBuilt(w, events[..n], k);
      case Round(now, build, ok) =>
        if Builds(before.slots[k].audit, k, now, build) && ok {
          BuiltInRound(before, e, k);
        } else {
          StoredWasBuilt(w, events[..n], k);
        }
      case Mark(ids, ok) =>
        var j := KeptFrom(before, e, k);
        StoredWasBuilt(w, events[..n], j);
    }
  }

  lemma KeptFrom(w: World, e: Event, k: nat) returns (j: nat)
    requires e.Mark? && k < |Next(w, e).slots|
    ensures j < |w.slots| && w.slots[j] == Next(w, e).slots[k]
  {
    var kept := Next(w, e).slots[k];
    assert kept in Next(w, e).slots;
    j :| 0 <= j < |w.slots| && w.slots[j] == kept;
  }

  predicate NoRounds(events: seq<Event>) { forall n :: 0 <= n < |events| ==> !events[n].Round? }

  // Between rounds an audit that stays keeps its wrap.
  lemma {:induction false} UnchangedBetweenRounds(w: World, between: seq<Event>, k: nat, j: nat)
    requires Ordered(w) && NoRounds(between)
    requires k < |w.slots| && j < |Run(w, between).slots| && Run(w, between).slots[j].serial == w.slots[k].serial
    ensures Run(w, between).slots[j] == w.slots[k]
  {
    if between == [] {
      assert w.slots[j].serial == w.slots[k].serial;
    } else {
      var n := |between| - 1;
      var before, e := Run(w, between[..n]), between[n];
      OldestFirst(w, between[..n]);
      OldestFirst(w, between);
      match e
      case Queue(_, ok) =>
        if j < |before.slots| {
          UnchangedBetweenRounds(w, between[..n], k, j);
        } else {
          NextNeverFalls(w, between[..n]);
        }
      case Mark(_, _) =>
        var i := KeptFrom(before, e, j);
        UnchangedBetweenRounds(w, between[..n], k, i);
      case Round(_, _, _) =>
    }
  }

  lemma {:induction false} NextNeverFalls(w: World, events: seq<Event>)
    ensures Run(w, events).next >= w.next
  {
    if events != [] { NextNeverFalls(w, events[..|events| - 1]); }
  }

  lemma {:induction false} RunSplits(w: World, a: seq<Event>, b: seq<Event>)
    ensures Run(w, a + b) == Run(Run(w, a), b)
  {
    if b == [] {
      assert a + b == a;
    } else {
      assert (a + b)[..|a + b| - 1] == a + b[..|b| - 1];
      RunSplits(w, a, b[..|b| - 1]);
    }
  }

  // What a round leaves in the journal for a slot is what it handed out, if the disk
  // took it or it was there already.
  predicate Kept(before: World, e: Event, k: nat)
    requires e.Round? && k < |before.slots|
  {
    e.diskOk || !Builds(before.slots[k].audit, k, e.now, e.build)
  }

  lemma SameIdExactly(w: World, events: seq<Event>, between: seq<Event>, e: Event, f: Event, k: nat, j: nat)
    requires Ordered(w) && e.Round? && f.Round? && NoRounds(between)
    requires FreshIds(w, events + [e] + between + [f])
    requires var first, second := Run(w, events), Run(w, events + [e] + between);
      && k < |first.slots| && j < |second.slots| && first.slots[k].serial == second.slots[j].serial
      && HandedOut(first, e, k).Some? && HandedOut(second, f, j).Some?
    ensures var first, second := Run(w, events), Run(w, events + [e] + between);
      var x, y := HandedOut(first, e, k).value, HandedOut(second, f, j).value;
      x.id == y.id <==> Kept(first, e, k) && (Gap(f.now, x.createdAt) <= 86_400 || f.build(j).None?)
  {
    var first, after := Run(w, events), Run(w, events + [e]);
    var second := Run(w, events + [e] + between);
    assert (events + [e])[..|events|] == events;
    assert after == Next(first, e);
    RunSplits(w, events + [e], between);
    OldestFirst(w, events);
    OldestFirst(w, events + [e]);
    assert after.slots[k].serial == first.slots[k].serial;
    UnchangedBetweenRounds(after, between, k, j);
    assert second.slots[j] == after.slots[k];
    var x, y := HandedOut(first, e, k).value, HandedOut(second, f, j).value;
    if Builds(second.slots[j].audit, j, f.now, f.build) {
      BuiltLater(w, events, between, e, f, k, j);
    } else if !Kept(first, e, k) {
      OldIsNotNew(w, events, between, e, f, k);
    }
  }

  lemma AllBuiltSnoc(w: World, events: seq<Event>, e: Event)
    ensures AllBuilt(w, events + [e]) == AllBuilt(w, events) + BuiltIn(Run(w, events), e)
  {
    assert (events + [e])[..|events|] == events;
  }

  // Every id known by a point of a run: stored at the start, or built since.
  function KnownIds(w: World, events: seq<Event>): seq<nat> { StoredIds(w.slots) + AllBuilt(w, events) }

  lemma KnownSnoc(w: World, events: seq<Event>, e: Event)
    ensures KnownIds(w, events + [e]) == KnownIds(w, events) + BuiltIn(Run(w, events), e)
  {
    AllBuiltSnoc(w, events, e);
  }

  lemma {:induction false} KnownGrows(w: World, all: seq<Event>, n: nat) returns (rest: seq<nat>)
    requires n <= |all|
    ensures KnownIds(w, all) == KnownIds(w, all[..n]) + rest
  {
    var m := |all| - 1;
    if n == |all| {
      assert all[..n] == all;
      rest := [];
    } else {
      var before := KnownGrows(w, all[..m], n);
      assert all[..m][..n] == all[..n];
      var now := BuiltIn(Run(w, all[..m]), all[m]);
      rest := before + now;
      assert AllBuilt(w, all) == AllBuilt(w, all[..m]) + now;
      Regroup(StoredIds(w.slots), AllBuilt(w, all[..m]), now);
      Regroup(KnownIds(w, all[..n]), before, now);
    }
  }

  lemma Regroup(a: seq<nat>, b: seq<nat>, c: seq<nat>)
    ensures a + (b + c) == (a + b) + c
  {
  }

  lemma KnownEarlier(w: World, all: seq<Event>, n: nat)
    requires n <= |all| && NoDup(KnownIds(w, all))
    ensures NoDup(KnownIds(w, all[..n]))
  {
    var rest := KnownGrows(w, all, n);
    NoDupParts(KnownIds(w, all[..n]), rest);
  }

  // A wrap a round builds has an id nothing had before.
  lemma BuiltIsNew(w: World, events: seq<Event>, e: Event, k: nat, id: nat)
    requires e.Round? && NoDup(KnownIds(w, events + [e])) && id in KnownIds(w, events)
    requires k < |Run(w, events).slots| && Builds(Run(w, events).slots[k].audit, k, e.now, e.build)
    ensures e.build(k).value.id != id
  {
    KnownSnoc(w, events, e);
    NoDupParts(KnownIds(w, events), BuiltIn(Run(w, events), e));
    BuiltInRound(Run(w, events), e, k);
  }

  // One round `e`, anything but a round, and the next round `f`, of an audit that both
  // hand out: the copies have one id exactly when the first was stored and is not built
  // afresh, that is, it is still within a day of the clock or its build fails.
  lemma RetryIsIdenticalExactly(w: World, events: seq<Event>, between: seq<Event>, e: Event, f: Event, k: nat, j: nat)
    requires Ordered(w) && e.Round? && f.Round? && NoRounds(between)
    requires FreshIds(w, events + [e] + between + [f])
    requires var first, second := Run(w, events), Run(w, events + [e] + between);
      && k < |first.slots| && j < |second.slots| && first.slots[k].serial == second.slots[j].serial
      && HandedOut(first, e, k).Some? && HandedOut(second, f, j).Some?
    ensures var first, second := Run(w, events), Run(w, events + [e] + between);
      var x, y := HandedOut(first, e, k).value, HandedOut(second, f, j).value;
      && x in Publishable(RewrapAll(Journaled(first.slots), e.now, e.build), e.now)
      && y in Publishable(RewrapAll(Journaled(second.slots), f.now, f.build), f.now)
      && (x.id == y.id <==> Kept(first, e, k) && (Gap(f.now, x.createdAt) <= 86_400 || f.build(j).None?))
  {
    HandedOutIsPublished(Run(w, events), e, k);
    HandedOutIsPublished(Run(w, events + [e] + between), f, j);
    SameIdExactly(w, events, between, e, f, k, j);
  }

  // So after a write that failed, marking the published copy sent drops nothing, and
  // the next round sends the same audit under another id.
  lemma FailedWriteIsSentAgain(w: World, events: seq<Event>, e: Event, f: Event, k: nat) returns (j: nat)
    requires Ordered(w) && e.Round? && f.Round? && !e.diskOk && k < |Run(w, events).slots|
    requires Builds(Run(w, events).slots[k].audit, k, e.now, e.build) && HandedOut(Run(w, events), e, k).Some?
    requires var sent := [Mark([HandedOut(Run(w, events), e, k).value.id], true)];
      FreshIds(w, events + [e] + sent + [f])
    ensures var x := HandedOut(Run(w, events), e, k).value;
      var second := Run(w, events + [e] + [Mark([x.id], true)]);
      && j < |second.slots| && second.slots[j].serial == Run(w, events).slots[k].serial
      && (HandedOut(second, f, j).Some? ==> HandedOut(second, f, j).value.id != x.id)
  {
    var x := HandedOut(Run(w, events), e, k).value;
    OldIsNotNew(w, events, [Mark([x.id], true)], e, f, k);
    j := UnsavedStays(w, events, e, k, x.id);
    if HandedOut(Run(w, events + [e] + [Mark([x.id], true)]), f, j).Some? {
      RetryIsIdenticalExactly(w, events, [Mark([x.id], true)], e, f, k, j);
    }
  }

  // The journal's entry is untouched by the failed write and by the mark.
  lemma UnsavedStays(w: World, events: seq<Event>, e: Event, k: nat, id: nat) returns (j: nat)
    requires e.Round? && !e.diskOk && k < |Run(w, events).slots|
    requires Run(w, events).slots[k].audit.wrap.Some? ==> Run(w, events).slots[k].audit.wrap.value.id != id
    ensures var second := Run(w, events + [e] + [Mark([id], true)]);
      j < |second.slots| && second.slots[j].serial == Run(w, events).slots[k].serial
  {
    var first, after := Run(w, events), Run(w, events + [e]);
    assert (events + [e])[..|events|] == events && after == Next(first, e);
    var all := events + [e] + [Mark([id], true)];
    assert all[..|all| - 1] == events + [e];
    var second := Run(w, all);
    assert second == Next(after, Mark([id], true));
    var s := after.slots[k];
    assert s.audit == first.slots[k].audit && !Sent(s.audit, [id]);
    assert s in second.slots;
    j :| 0 <= j < |second.slots| && second.slots[j] == s;
  }

  // A wrap built by the second round has an id no earlier wrap had.
  lemma BuiltLater(w: World, events: seq<Event>, between: seq<Event>, e: Event, f: Event, k: nat, j: nat)
    requires e.Round? && f.Round? && FreshIds(w, events + [e] + between + [f])
    requires k < |Run(w, events).slots| && HandedOut(Run(w, events), e, k).Some?
    requires j < |Run(w, events + [e] + between).slots|
    requires Builds(Run(w, events + [e] + between).slots[j].audit, j, f.now, f.build)
    ensures HandedOut(Run(w, events), e, k).value.id != f.build(j).value.id
  {
    HandedOutWasKnown(w, events, e, k);
    var all := events + [e] + between;
    assert all[..|events| + 1] == events + [e];
    var rest := KnownGrows(w, all, |events| + 1);
    BuiltIsNew(w, events + [e] + between, f, j, HandedOut(Run(w, events), e, k).value.id);
  }

  // A wrap built by the first round has an id no wrap had before it.
  lemma OldIsNotNew(w: World, events: seq<Event>, between: seq<Event>, e: Event, f: Event, k: nat)
    requires e.Round? && FreshIds(w, events + [e] + between + [f])
    requires k < |Run(w, events).slots| && Builds(Run(w, events).slots[k].audit, k, e.now, e.build)
    ensures Run(w, events).slots[k].audit.wrap.Some? ==>
      Run(w, events).slots[k].audit.wrap.value.id != e.build(k).value.id
  {
    var all := events + [e] + between + [f];
    assert all[..|events| + 1] == events + [e];
    KnownEarlier(w, all, |events| + 1);
    if Run(w, events).slots[k].audit.wrap.Some? {
      StoredWasBuilt(w, events, k);
      BuiltIsNew(w, events, e, k, Run(w, events).slots[k].audit.wrap.value.id);
    }
  }

  lemma HandedOutWasKnown(w: World, events: seq<Event>, e: Event, k: nat)
    requires e.Round? && k < |Run(w, events).slots| && HandedOut(Run(w, events), e, k).Some?
    ensures HandedOut(Run(w, events), e, k).value.id in KnownIds(w, events + [e])
  {
    KnownSnoc(w, events, e);
    if Builds(Run(w, events).slots[k].audit, k, e.now, e.build) {
      BuiltInRound(Run(w, events), e, k);
    } else {
      StoredWasBuilt(w, events, k);
    }
  }

  // --- how often a wrap is built -------------------------------------------------------

  // The disk works, the clock does not go back, and a wrap is dated when it is built.
  ghost predicate WorkingRound(e: Event) {
    e.Round? ==> e.diskOk && forall k :: e.build(k).Some? ==> e.build(k).value.createdAt == e.now
  }

  ghost predicate Steady(events: seq<Event>) {
    && (forall n :: 0 <= n < |events| ==> WorkingRound(events[n]))
    && (forall m, n :: 0 <= m < n < |events| && events[m].Round? && events[n].Round? ==> events[m].now <= events[n].now)
  }

  function Clock(events: seq<Event>): nat {
    if events == [] then 0
    else if events[|events| - 1].Round? then events[|events| - 1].now
    else Clock(events[..|events| - 1])
  }

  predicate Paced(s: Slot, clock: nat) {
    s.builds >= 1 ==>
      && s.audit.wrap.Some?
      && s.firstBuilt + (s.builds - 1) * 86_401 <= s.audit.wrap.value.createdAt <= clock
  }

  predicate AllPaced(w: World, clock: nat) {
    forall k :: 0 <= k < |w.slots| ==> Paced(w.slots[k], clock)
  }

  predicate Unbuilt(w: World) { forall k :: 0 <= k < |w.slots| ==> w.slots[k].builds == 0 }

  lemma {:induction false} ClockIsARound(events: seq<Event>)
    ensures Clock(events) == 0 || exists n :: 0 <= n < |events| && events[n].Round? && events[n].now == Clock(events)
  {
    if events != [] {
      var m := |events| - 1;
      ClockIsARound(events[..m]);
      if !events[m].Round? && Clock(events) != 0 {
        var n :| 0 <= n < m && events[..m][n].Round? && events[..m][n].now == Clock(events);
        assert events[n].Round? && events[n].now == Clock(events);
      }
    }
  }

  lemma PacedStep(s: Slot, k: nat, now: nat, build: Builder, clock: nat)
    requires Paced(s, clock) && clock <= now
    requires build(k).Some? ==> build(k).value.createdAt == now
    ensures Paced(RewrapSlot(s, k, now, build, true), now)
  {
    if Builds(s.audit, k, now, build) && s.builds >= 1 {
      assert now >= s.audit.wrap.value.createdAt + REBUILD_AFTER + 1;
      assert s.builds * (REBUILD_AFTER + 1) == (s.builds - 1) * (REBUILD_AFTER + 1) + (REBUILD_AFTER + 1);
    }
  }

  lemma {:induction false} RunsArePaced(w: World, events: seq<Event>)
    requires Unbuilt(w) && Steady(events)
    ensures AllPaced(Run(w, events), Clock(events))
  {
    if events != [] {
      var n := |events| - 1;
      assert Steady(events[..n]);
      RunsArePaced(w, events[..n]);
      var before, e := Run(w, events[..n]), events[n];
      if e.Round? {
        ClockIsARound(events[..n]);
        assert Clock(events[..n]) <= e.now;
        forall k | 0 <= k < |before.slots| ensures Paced(Next(before, e).slots[k], e.now) {
          PacedStep(before.slots[k], k, e.now, e.build, Clock(events[..n]));
        }
      } else if e.Mark? {
        var kept := UnsentSlots(before.slots, e.ids);
        forall k | 0 <= k < |kept| ensures Paced(kept[k], Clock(events)) {
          assert kept[k] in kept;
          var j :| 0 <= j < |before.slots| && before.slots[j] == kept[k];
        }
      }
    }
  }

  // With a working disk and a clock that does not go back, an audit is built at
  // most once, plus once for each whole day since it was first built.
  lemma OneBuildADay(w: World, events: seq<Event>, k: nat)
    requires Unbuilt(w) && Steady(events) && k < |Run(w, events).slots|
    ensures var s := Run(w, events).slots[k];
      s.builds >= 1 ==> s.firstBuilt <= Clock(events) && s.builds <= 1 + (Clock(events) - s.firstBuilt) / 86_400
  {
    RunsArePaced(w, events);
    var s := Run(w, events).slots[k];
    if s.builds >= 1 {
      assert Paced(s, Clock(events));
      var days, elapsed := s.builds - 1, Clock(events) - s.firstBuilt;
      assert days * REBUILD_AFTER <= days * (REBUILD_AFTER + 1) <= elapsed;
      assert days <= elapsed / REBUILD_AFTER;
    }
  }
}
