// The relay client over the outbound spool (android/jni/src/relay.rs), and what a
// parked wrap can count on over any run of puts and drains on a working disk.

module Relay {
  import opened Seqs
  import opened Outbox

  // What a drain leaves: the live files no relay accepted.
  function Drained(files: Files, now: nat, accepts: string -> bool): (r: Files)
    ensures r.Keys == set n | n in files && Live(files[n], now) && !accepts(n)
    ensures forall n :: n in r ==> r[n] == files[n]
  {
    map n | n in files && Live(files[n], now) && !accepts(n) :: files[n]
  }

  function Accepted(outcomes: seq<bool>): (n: nat)
    ensures n > 0 <==> true in outcomes
  {
    if outcomes == [] then 0 else (if outcomes[0] then 1 else 0) + Accepted(outcomes[1..])
  }

  // The wrap parked under that name, if there is one and it is to be, as the disk lets it.
  function AfterPark(files: Files, park: bool, name: string, now: nat, built: Option<Parcel>, write: WriteResult): Files {
    if park && built.Some? then Written(files, name, built.value, now, write) else files
  }

  datatype Emitted = BuildFailed | RejectedEverywhere | Ok(accepted: nat)

  class BlockingRelay {
    const outbox: Outbox?

    constructor (outbox: Outbox?)
      ensures this.outbox == outbox
    {
      this.outbox := outbox;
    }

    // `outcomes` is what each relay answered. A STATUS no relay took is parked for
    // its subject. One whose JSON names no subject goes by "unknown", which is not
    // hex, so it is never parked.
    method EmitStatus(built: Option<Parcel>, subject: Option<string>, outcomes: seq<bool>, now: nat, write: WriteResult)
      returns (r: Emitted)
      modifies outbox
      ensures r == if built.None? then BuildFailed else if true in outcomes then Ok(Accepted(outcomes)) else RejectedEverywhere
      ensures outbox != null ==>
        outbox.files == AfterPark(old(outbox.files), r.RejectedEverywhere? && subject.Some? && Hex(subject.value),
                  if subject.Some? then StatusName(subject.value) else "", now, built, write)
    {
      if built.None? { return BuildFailed; }
      var accepted := Accepted(outcomes);
      if accepted == 0 {
        if outbox != null {
          var name := if subject.Some? then subject.value else "unknown";
          assert !HexDigit("unknown"[0]);
          outbox.PutStatus(name, built.value, now, write);
        }
        return RejectedEverywhere;
      }
      r := Ok(accepted);
    }

    // A REQUEST no relay took is parked.
    method PublishRequest(built: Option<Parcel>, outcomes: seq<bool>, now: nat, write: WriteResult)
      modifies outbox
      ensures outbox != null ==>
        outbox.files == AfterPark(old(outbox.files), true !in outcomes,
                  if built.Some? then RequestName(now, built.value.id) else "", now, built, write)
    {
      if built.None? { return; }
      if Accepted(outcomes) == 0 && outbox != null {
        outbox.PutRequest(built.value, now, write);
      }
    }

    // Retries every live wrap, oldest first, removing what some relay accepts;
    // `accepts(name)` says whether one does. `tried` is what was published.
    method DrainOutbox(now: nat, accepts: string -> bool) returns (sent: nat, left: nat, tried: seq<Item>)
      modifies outbox
      ensures outbox == null ==> sent == 0 && left == 0 && tried == []
      ensures outbox != null ==> var was := old(outbox.files);
        && outbox.files == Drained(was, now, accepts)
        && OldestFirst(tried) && Lists(tried, was, LiveNames(was, now))
        && left == |outbox.files| && sent + left == |LiveNames(was, now)|
    {
      sent, left, tried := 0, 0, [];
      if outbox == null { return; }
      ghost var was := outbox.files;
      tried := outbox.Entries(now);
      ghost var live := outbox.files;
      sent := SendAll(tried, accepts);
      left := outbox.Len();
      assert live.Keys == LiveNames(was, now);
      KeyCount(live);
    }

    method SendAll(items: seq<Item>, accepts: string -> bool) returns (sent: nat)
      requires outbox != null && NamesApart(items) && NamesOf(items) == outbox.files.Keys
      modifies outbox
      ensures var was := old(outbox.files);
        && outbox.files.Keys == (set n | n in was && !accepts(n))
        && (forall n :: n in outbox.files ==> outbox.files[n] == was[n])
        && sent + |outbox.files| == |was|
    {
      sent := 0;
      ghost var was := outbox.files;
      for i := 0 to |items|
        invariant Remaining(outbox.files, was, AcceptedOf(items[..i], accepts))
        invariant sent + |outbox.files| == |was|
      {
        assert items[i].name in NamesOf(items);
        SendStep(outbox.files, was, items, i, accepts);
        if accepts(items[i].name) {
          outbox.Remove(items[i].name);
          sent := sent + 1;
        }
      }
      assert items[..|items|] == items;
      AcceptedAmong(items, was, accepts);
    }
  }

  lemma AcceptedAmong(items: seq<Item>, was: Files, accepts: string -> bool)
    requires NamesOf(items) == was.Keys
    ensures was.Keys - AcceptedOf(items, accepts) == set n | n in was && !accepts(n)
  {
    forall n ensures n in AcceptedOf(items, accepts) <==> n in was && accepts(n) {
      AcceptedMember(items, accepts, n);
    }
  }

  predicate Remaining(files: Files, was: Files, gone: set<string>) {
    files.Keys == was.Keys - gone && forall n :: n in files ==> files[n] == was[n]
  }

  lemma SendStep(files: Files, was: Files, items: seq<Item>, i: nat, accepts: string -> bool)
    requires i < |items| && NamesApart(items) && items[i].name in was && Remaining(files, was, AcceptedOf(items[..i], accepts))
    ensures var name := items[i].name;
      var gone := AcceptedOf(items[..i + 1], accepts);
      if accepts(name) then Remaining(files - {name}, was, gone) && |files - {name}| == |files| - 1
      else Remaining(files, was, gone)
  {
    assert items[..i + 1][..i] == items[..i];
    NotYetAccepted(items, i, accepts);
    OneFewer(files, items[i].name);
  }

  function AcceptedOf(items: seq<Item>, accepts: string -> bool): set<string> {
    if items == [] then {}
    else
      var name := items[|items| - 1].name;
      AcceptedOf(items[..|items| - 1], accepts) + if accepts(name) then {name} else {}
  }

  lemma {:induction false} AcceptedMember(items: seq<Item>, accepts: string -> bool, n: string)
    ensures n in AcceptedOf(items, accepts) <==> n in NamesOf(items) && accepts(n)
  {
    if items != [] {
      var m := |items| - 1;
      AcceptedMember(items[..m], accepts, n);
      assert NamesOf(items) == NamesOf(items[..m]) + {items[m].name};
    }
  }

  lemma NotYetAccepted(items: seq<Item>, i: nat, accepts: string -> bool)
    requires NamesApart(items) && i < |items|
    ensures items[i].name !in AcceptedOf(items[..i], accepts)
  {
    AcceptedMember(items[..i], accepts, items[i].name);
  }

  lemma OneFewer(m: Files, n: string)
    requires n in m
    ensures |m - {n}| == |m| - 1
  {
    KeyCount(m);
    KeyCount(m - {n});
    assert (m - {n}).Keys == m.Keys - {n};
  }

  lemma KeyCount(m: Files)
    ensures |m| == |m.Keys|
  {
  }

  // --- runs ---------------------------------------------------------------------

  datatype Event =
    | ParkStatus(subject: string, parcel: Parcel, at: nat)
    | ParkRequest(parcel: Parcel, at: nat)
    | DirectStatus(subject: string, parcel: Parcel, at: nat)
    | Drain(now: nat, accepts: string -> bool)

  // The methods above on a working disk: a STATUS or a REQUEST no relay took is
  // parked, a STATUS some relay took directly touches no file.
  function Next(files: Files, e: Event): Files {
    match e
    case ParkStatus(s, p, at) => if Hex(s) then Written(files, StatusName(s), p, at, Landed) else files
    case ParkRequest(p, at) => Written(files, RequestName(at, p.id), p, at, Landed)
    case DirectStatus(_, _, _) => files
    case Drain(now, accepts) => Drained(files, now, accepts)
  }

  function Run(files: Files, events: seq<Event>): Files {
    if events == [] then files else Next(Run(files, events[..|events| - 1]), events[|events| - 1])
  }

  // This drain got the named file accepted, or found it over seven days old.
  ghost predicate LetsGo(e: Event, name: string, at: nat) {
    e.Drain? && (e.accepts(name) || (e.now >= at && e.now - at > 604_800))
  }

  // A parked REQUEST is there until a drain in which some relay accepted it, or
  // that found it over seven days old; nothing else removes or replaces it (a
  // second REQUEST of that second and id is the same wrap).
  lemma {:induction false} RequestStays(files: Files, events: seq<Event>, p: Parcel, at: nat)
    requires RequestName(at, p.id) in files && files[RequestName(at, p.id)] == Parked(at, p)
    requires forall n :: 0 <= n < |events| && events[n].ParkRequest? && events[n].parcel.id == p.id ==> events[n].parcel == p
    ensures var name := RequestName(at, p.id);
      || (name in Run(files, events) && Run(files, events)[name] == Parked(at, p))
      || exists n :: 0 <= n < |events| && LetsGo(events[n], name, at)
  {
    if events != [] {
      var n := |events| - 1;
      RequestStays(files, events[..n], p, at);
      var name, before, e := RequestName(at, p.id), Run(files, events[..n]), events[n];
      if exists m :: 0 <= m < n && LetsGo(events[..n][m], name, at) {
        var m :| 0 <= m < n && LetsGo(events[..n][m], name, at);
        assert LetsGo(events[m], name, at);
      } else if !LetsGo(e, name, at) {
        match e
        case ParkStatus(s, _, _) =>
          StatusIsNoRequest(s, at, p.id);
        case ParkRequest(q, t) =>
          if RequestName(t, q.id) == name { RequestNamesDiffer(t, q.id, at, p.id); }
        case DirectStatus(_, _, _) =>
        case Drain(_, _) =>
      }
    }
  }

  // The event that last parked this REQUEST.
  predicate IsLastAsk(events: seq<Event>, i: nat) {
    && i < |events| && events[i].ParkRequest?
    && forall k :: i < k < |events| && events[k].ParkRequest? ==> events[k].at != events[i].at || events[k].parcel.id != events[i].parcel.id
  }

  // A parked REQUEST is there, as it was parked, exactly if no drain since got it
  // accepted or found it over seven days old.
  lemma {:induction false} ParkedRequestStaysExactly(files: Files, events: seq<Event>, i: nat)
    requires IsLastAsk(events, i)
    ensures var e, name, after := events[i], RequestName(events[i].at, events[i].parcel.id), Run(files, events);
      && (name in after <==> forall k :: i < k < |events| ==> !LetsGo(events[k], name, e.at))
      && (name in after ==> after[name] == Parked(e.at, e.parcel))
  {
    var n := |events| - 1;
    if i < n {
      var before, e, p, at := events[..n], events[n], events[i].parcel, events[i].at;
      var name := RequestName(at, p.id);
      assert IsLastAsk(before, i);
      ParkedRequestStaysExactly(files, before, i);
      match e
      case ParkStatus(s, _, _) => StatusIsNoRequest(s, at, p.id);
      case ParkRequest(q, t) =>
        if RequestName(t, q.id) == name { RequestNamesDiffer(t, q.id, at, p.id); }
      case DirectStatus(_, _, _) =>
      case Drain(_, _) =>
      assert (forall k :: i < k < |events| ==> !LetsGo(events[k], name, at))
        <==> (forall k :: i < k < n ==> !LetsGo(before[k], name, at)) && !LetsGo(e, name, at);
    }
  }

  // The last STATUS put for a subject.
  function LastStatus(events: seq<Event>, subject: string): Option<File> {
    if events == [] then None
    else
      var e := events[|events| - 1];
      if e.ParkStatus? && e.subject == subject then Some(Parked(e.at, e.parcel))
      else LastStatus(events[..|events| - 1], subject)
  }

  // Starting empty, at most one STATUS is parked per subject, and it is the latest
  // one put for that subject; no other file is a STATUS of that subject.
  lemma {:induction false} OneLatestStatus(events: seq<Event>, subject: string)
    ensures var files := Run(map[], events);
      StatusName(subject) in files ==> Hex(subject) && LastStatus(events, subject) == Some(files[StatusName(subject)])
  {
    if events != [] {
      var n := |events| - 1;
      OneLatestStatus(events[..n], subject);
      match events[n]
      case ParkStatus(s, _, _) =>
        if StatusName(s) == StatusName(subject) { StatusNamesDiffer(s, subject); }
      case ParkRequest(p, at) =>
        StatusIsNoRequest(subject, at, p.id);
      case DirectStatus(_, _, _) =>
      case Drain(_, _) =>
    }
  }

  // The event that puts this file under this name.
  predicate Puts(e: Event, name: string, f: File) {
    match e
    case ParkStatus(s, p, at) => Hex(s) && name == StatusName(s) && f == Parked(at, p)
    case ParkRequest(p, at) => name == RequestName(at, p.id) && f == Parked(at, p)
    case DirectStatus(_, _, _) => false
    case Drain(_, _) => false
  }

  // Every file in the spool is a STATUS of a hex subject, or a REQUEST under its
  // own date and id, that was put there.
  lemma {:induction false} NothingUnexplained(events: seq<Event>, name: string)
    requires name in Run(map[], events)
    ensures exists k :: 0 <= k < |events| && Puts(events[k], name, Run(map[], events)[name])
  {
    if events != [] {
      var m := |events| - 1;
      var before, f := Run(map[], events[..m]), Run(map[], events)[name];
      if name in before && before[name] == f {
        NothingUnexplained(events[..m], name);
        var k :| 0 <= k < m && Puts(events[..m][k], name, f);
        assert Puts(events[k], name, f);
      } else {
        assert Puts(events[m], name, f);
      }
    }
  }

  // --- a stale STATUS after a newer one ---------------------------------------------

  // The event that parked the subject's current STATUS, if any ever did.
  predicate IsLastPark(events: seq<Event>, subject: string, i: nat) {
    && i < |events| && events[i].ParkStatus? && events[i].subject == subject
    && forall k :: i < k < |events| ==> !(events[k].ParkStatus? && events[k].subject == subject)
  }

  lemma {:induction false} LastParkIsLatest(events: seq<Event>, subject: string, i: nat)
    requires IsLastPark(events, subject, i)
    ensures LastStatus(events, subject) == Some(Parked(events[i].at, events[i].parcel))
  {
    var n := |events| - 1;
    if i < n {
      assert IsLastPark(events[..n], subject, i);
      LastParkIsLatest(events[..n], subject, i);
    }
  }

  // A parked STATUS is still there exactly if no drain since got it accepted or found
  // it over seven days old.
  lemma {:induction false} ParkedStatusStaysExactly(events: seq<Event>, subject: string, i: nat)
    requires Hex(subject) && IsLastPark(events, subject, i)
    ensures StatusName(subject) in Run(map[], events)
      <==> forall k :: i < k < |events| ==> !LetsGo(events[k], StatusName(subject), events[i].at)
  {
    var n, name := |events| - 1, StatusName(subject);
    if i < n {
      var before, e := events[..n], events[n];
      assert IsLastPark(before, subject, i);
      ParkedStatusStaysExactly(before, subject, i);
      StillThereAfter(before, e, subject, i);
      assert (forall k :: i < k < |events| ==> !LetsGo(events[k], name, events[i].at))
        <==> (forall k :: i < k < n ==> !LetsGo(before[k], name, before[i].at)) && !LetsGo(e, name, events[i].at);
    }
  }

  lemma StillThereAfter(before: seq<Event>, e: Event, subject: string, i: nat)
    requires Hex(subject) && IsLastPark(before, subject, i) && !(e.ParkStatus? && e.subject == subject)
    ensures var name := StatusName(subject);
      name in Next(Run(map[], before), e) <==> name in Run(map[], before) && !LetsGo(e, name, before[i].at)
  {
    OneLatestStatus(before, subject);
    LastParkIsLatest(before, subject, i);
    match e
    case ParkStatus(s, _, _) =>
      if StatusName(s) == StatusName(subject) { StatusNamesDiffer(s, subject); }
    case ParkRequest(p, at) => StatusIsNoRequest(subject, at, p.id);
    case DirectStatus(_, _, _) =>
    case Drain(_, _) =>
  }

  // The last event is a drain that publishes the subject's STATUS parked at `i`, though
  // some relay accepted a newer one directly at `j`.
  ghost predicate PublishesStale(events: seq<Event>, subject: string, i: nat, j: nat) {
    var n := |events| - 1;
    && events != [] && events[n].Drain? && i < j < n
    && events[j].DirectStatus? && events[j].subject == subject
    && IsLastPark(events[..n], subject, i)
    && StatusName(subject) in LiveNames(Run(map[], events[..n]), events[n].now)
    && Run(map[], events[..n])[StatusName(subject)] == Parked(events[i].at, events[i].parcel)
  }

  // The newer STATUS accepted at `j` does not clear the file: over every run, a drain
  // publishes the stale one after it exactly if the stale one is the last parked for
  // the subject, no drain in between (before or after `j`) let it go, and it is not
  // over seven days old.
  lemma StalePublishedExactly(events: seq<Event>, subject: string, i: nat, j: nat)
    requires Hex(subject) && events != [] && events[|events| - 1].Drain? && i < j < |events| - 1
    requires events[j].DirectStatus? && events[j].subject == subject
    ensures var n, name := |events| - 1, StatusName(subject);
      PublishesStale(events, subject, i, j)
      <==> && IsLastPark(events[..n], subject, i)
           && (forall k :: i < k < n ==> !LetsGo(events[k], name, events[i].at))
           && (events[n].now < events[i].at || events[n].now - events[i].at <= 604_800)
  {
    var n, name := |events| - 1, StatusName(subject);
    var before := events[..n];
    if IsLastPark(before, subject, i) {
      ParkedStatusStaysExactly(before, subject, i);
      OneLatestStatus(before, subject);
      LastParkIsLatest(before, subject, i);
      assert (forall k :: i < k < n ==> !LetsGo(events[k], name, events[i].at))
        <==> forall k :: i < k < |before| ==> !LetsGo(before[k], name, before[i].at);
    }
  }

  // And it happens: refused, then a newer one accepted, then drained.
  lemma AStaleStatusIsPublished(subject: string, stale: Parcel, newer: Parcel, at: nat, later: nat, accepts: string -> bool)
    requires Hex(subject) && at <= later <= at + 604_800
    ensures PublishesStale([ParkStatus(subject, stale, at), DirectStatus(subject, newer, later), Drain(later, accepts)], subject, 0, 1)
  {
    var events := [ParkStatus(subject, stale, at), DirectStatus(subject, newer, later), Drain(later, accepts)];
    assert IsLastPark(events[..2], subject, 0);
    StalePublishedExactly(events, subject, 0, 1);
  }
}
