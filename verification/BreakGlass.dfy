// The break-glass audit journal (android/jni/src/breakglass.rs): audits queued at
// once, wrapped later, offered to the local link and dropped once a relay takes them.

module BreakGlass {
  import opened Seqs

  const REBUILD_AFTER: nat := 86_400
  const MAX_JITTER: nat := 172_800

  type Tags = seq<seq<string>>

  // A gift-wrap: its event id and date; `sealed` stands for the rest.
  datatype Wrap = Wrap(id: nat, createdAt: nat, sealed: string)

  datatype Audit = Audit(tags: Tags, wrap: Option<Wrap>)

  // A stored item: an audit, or bare tags written before wraps were kept.
  datatype Stored = Entry(audit: Audit) | Legacy(tags: Tags)

  function Gap(a: nat, b: nat): nat { if a < b then b - a else a - b }

  function Parsed(s: Stored): Audit {
    match s
    case Entry(a) => a
    case Legacy(tags) => Audit(tags, None)
  }

  function EntriesOf(file: Option<seq<Stored>>): seq<Audit> {
    if file.Some? then Map(Parsed, file.value) else []
  }

  // No wrap yet, or one dated more than a day from now.
  predicate Due(e: Audit, now: nat) {
    e.wrap.None? || Gap(now, e.wrap.value.createdAt) > REBUILD_AFTER
  }

  // `build(k)` is what building the k-th entry's wrap gives this round.
  type Builder = nat -> Option<Wrap>

  predicate Builds(e: Audit, k: nat, now: nat, build: Builder) {
    Due(e, now) && build(k).Some?
  }

  function Rewrapped(e: Audit, k: nat, now: nat, build: Builder): Audit {
    if Builds(e, k, now, build) then e.(wrap := build(k)) else e
  }

  function RewrapAll(all: seq<Audit>, now: nat, build: Builder): (r: seq<Audit>)
    ensures |r| == |all| && forall k :: 0 <= k < |all| ==> r[k] == Rewrapped(all[k], k, now, build)
  {
    if all == [] then []
    else RewrapAll(all[..|all| - 1], now, build) + [Rewrapped(all[|all| - 1], |all| - 1, now, build)]
  }

  // The wraps built this round, oldest entry first.
  function Fresh(all: seq<Audit>, now: nat, build: Builder): seq<Wrap> {
    if all == [] then []
    else
      var k := |all| - 1;
      Fresh(all[..k], now, build) + if Builds(all[k], k, now, build) then [build(k).value] else []
  }

  predicate Fit(w: Wrap, now: nat) { Gap(now, w.createdAt) <= MAX_JITTER }

  // The wraps to publish: every entry's, unless outside the guardian's window.
  function Publishable(all: seq<Audit>, now: nat): seq<Wrap> {
    if all == [] then []
    else
      var w := all[|all| - 1].wrap;
      Publishable(all[..|all| - 1], now) + if w.Some? && Fit(w.value, now) then [w.value] else []
  }

  predicate Sent(e: Audit, ids: seq<nat>) { e.wrap.Some? && e.wrap.value.id in ids }

  function Unsent(all: seq<Audit>, ids: seq<nat>): seq<Audit> {
    Filter((e: Audit) => !Sent(e, ids), all)
  }

  function AsEntries(all: seq<Audit>): seq<Stored> { Map(a => Entry(a), all) }

  lemma EntriesReadBack(all: seq<Audit>)
    ensures EntriesOf(Some(AsEntries(all))) == all
  {
    var back := Map(Parsed, AsEntries(all));
    assert forall k :: 0 <= k < |all| ==> back[k] == all[k];
  }

  class Journal {
    // The spool file (None when there is none). Reads succeed; a write may fail,
    // and one that fails leaves the file as it was.
    var file: Option<seq<Stored>>

    constructor (onDisk: Option<seq<Stored>>)
      ensures file == onDisk
    {
      file := onDisk;
    }

    ghost function Contents(): seq<Audit> reads this { EntriesOf(file) }

    method WriteEntries(all: seq<Audit>, diskOk: bool) returns (ok: bool)
      modifies this
      ensures ok <==> diskOk || (all == [] && old(file) == None)
      ensures Contents() == if ok then all else old(Contents())
      ensures !diskOk ==> file == old(file)
    {
      if |all| == 0 {
        // Removing a file that is not there succeeds.
        ok := diskOk || file.None?;
        if diskOk { file := None; }
        return;
      }
      if diskOk {
        EntriesReadBack(all);
        file := Some(AsEntries(all));
      }
      ok := diskOk;
    }

    method QueueAudit(tags: Tags, diskOk: bool)
      modifies this
      ensures Contents() == if diskOk then old(Contents()) + [Audit(tags, None)] else old(Contents())
    {
      var all := EntriesOf(file);
      var ok := WriteEntries(all + [Audit(tags, None)], diskOk);
    }

    // Builds what is due, stores it, and only then offers it to the local link.
    // What is returned for the relays includes wraps the disk refused.
    method WrapsToPublish(now: nat, build: Builder, diskOk: bool)
      returns (offered: seq<Wrap>, wraps: seq<Wrap>)
      modifies this
      ensures var was := old(Contents());
        var rewrapped := RewrapAll(was, now, build);
        && Contents() == (if diskOk || Fresh(was, now, build) == [] then rewrapped else was)
        && offered == (if diskOk then Fresh(was, now, build) else [])
        && wraps == Publishable(rewrapped, now)
    {
      ghost var was := EntriesOf(file);
      var all, made := BuildDue(EntriesOf(file), now, build);
      offered := [];
      if |made| > 0 {
        assert all != [];
        var ok := WriteEntries(all, diskOk);
        if ok { offered := OfferEach(made); }
      } else {
        NothingFreshNothingNew(was, now, build);
      }
      wraps := Fitting(all, now);
    }

    method MarkSent(sent: seq<nat>, diskOk: bool)
      modifies this
      ensures Contents() == if diskOk then Unsent(old(Contents()), sent) else old(Contents())
    {
      var all := EntriesOf(file);
      var kept := Unsent(all, sent);
      if |kept| != |all| {
        var ok := WriteEntries(kept, diskOk);
      } else {
        KeptAll(all, sent);
      }
    }
  }

  // The local link is offered each new wrap in turn.
  method OfferEach(made: seq<Wrap>) returns (offered: seq<Wrap>)
    ensures offered == made
  {
    offered := [];
    for k := 0 to |made|
      invariant offered == made[..k]
    {
      offered := offered + [made[k]];
    }
  }

  method BuildDue(was: seq<Audit>, now: nat, build: Builder) returns (all: seq<Audit>, made: seq<Wrap>)
    ensures all == RewrapAll(was, now, build) && made == Fresh(was, now, build)
  {
    all, made := was, [];
    for k := 0 to |was|
      invariant |all| == |was|
      invariant forall j :: 0 <= j < k ==> all[j] == Rewrapped(was[j], j, now, build)
      invariant forall j :: k <= j < |was| ==> all[j] == was[j]
      invariant made == Fresh(was[..k], now, build)
    {
      assert was[..k + 1][..k] == was[..k];
      var e := all[k];
      if e.wrap.None? || Gap(now, e.wrap.value.createdAt) > REBUILD_AFTER {
        var w := build(k);
        if w.Some? {
          made := made + [w.value];
          all := all[k := e.(wrap := w)];
        }
      }
    }
    assert was[..|was|] == was;
    assert all == RewrapAll(was, now, build);
  }

  method Fitting(all: seq<Audit>, now: nat) returns (wraps: seq<Wrap>)
    ensures wraps == Publishable(all, now)
  {
    wraps := [];
    for k := 0 to |all|
      invariant wraps == Publishable(all[..k], now)
    {
      assert all[..k + 1][..k] == all[..k];
      var w := all[k].wrap;
      if w.Some? && Fit(w.value, now) { wraps := wraps + [w.value]; }
    }
    assert all[..|all|] == all;
  }

  lemma {:induction false} NothingFreshNothingNew(all: seq<Audit>, now: nat, build: Builder)
    requires Fresh(all, now, build) == []
    ensures RewrapAll(all, now, build) == all
  {
    if all != [] {
      NothingFreshNothingNew(all[..|all| - 1], now, build);
      assert all == all[..|all| - 1] + [all[|all| - 1]];
    }
  }

  lemma {:induction false} KeptAll(all: seq<Audit>, ids: seq<nat>)
    requires |Unsent(all, ids)| == |all|
    ensures Unsent(all, ids) == all
  {
    if all != [] { KeptAll(all[1..], ids); }
  }

  // --- what one round promises ---------------------------------------------------

  // Every wrap built this round is some entry's stored wrap once written.
  lemma {:induction false} FreshIsStored(all: seq<Audit>, now: nat, build: Builder, w: Wrap)
    requires w in Fresh(all, now, build)
    ensures exists k :: 0 <= k < |all| && RewrapAll(all, now, build)[k].wrap == Some(w)
  {
    var n := |all| - 1;
    if w in Fresh(all[..n], now, build) {
      FreshIsStored(all[..n], now, build, w);
      var k :| 0 <= k < n && RewrapAll(all[..n], now, build)[k].wrap == Some(w);
      assert RewrapAll(all, now, build)[k].wrap == Some(w);
    } else {
      assert RewrapAll(all, now, build)[n].wrap == Some(w);
    }
  }

  // What goes to the relays: exactly the entries' wraps within two days of now.
  lemma {:induction false} PublishedAreFit(all: seq<Audit>, now: nat, w: Wrap)
    ensures w in Publishable(all, now) <==> Gap(now, w.createdAt) <= 172_800 && exists k :: 0 <= k < |all| && all[k].wrap == Some(w)
  {
    if all != [] {
      var n := |all| - 1;
      PublishedAreFit(all[..n], now, w);
      assert (exists k :: 0 <= k < |all| && all[k].wrap == Some(w))
        <==> all[n].wrap == Some(w) || exists k :: 0 <= k < n && all[..n][k].wrap == Some(w);
    }
  }

  // On a working disk whose builds are dated now, every waiting audit whose build
  // succeeds goes out, and none of the copies is over a day old.
  lemma EveryBuiltAuditGoesOut(all: seq<Audit>, now: nat, build: Builder, k: nat)
    requires k < |all| && (build(k).Some? ==> build(k).value.createdAt == now)
    requires all[k].wrap.Some? || build(k).Some?
    ensures var e := RewrapAll(all, now, build)[k];
      && e.wrap.Some?
      && (build(k).Some? ==> Gap(now, e.wrap.value.createdAt) <= 86_400 && e.wrap.value in Publishable(RewrapAll(all, now, build), now))
  {
    var after := RewrapAll(all, now, build);
    if build(k).Some? { PublishedAreFit(after, now, after[k].wrap.value); }
  }

  // One round leaves every audit its tags, and a new wrap just where the old one was
  // missing or dated over a day away and the new one could be built.
  lemma RoundRebuildsExactly(all: seq<Audit>, now: nat, build: Builder, k: nat)
    requires k < |all|
    ensures var e := RewrapAll(all, now, build)[k];
      && e.tags == all[k].tags
      && e.wrap == if build(k).Some? && (all[k].wrap.None? || Gap(now, all[k].wrap.value.createdAt) > 86_400)
                   then build(k) else all[k].wrap
  {
  }

  // `out` is what the chosen entries give, in their order: those at the places `at`.
  ghost predicate Chosen(out: seq<Wrap>, all: seq<Audit>, at: seq<nat>, chosen: nat -> bool, wrap: nat -> Option<Wrap>) {
    && |at| == |out|
    && (forall i, j :: 0 <= i < j < |at| ==> at[i] < at[j])
    && (forall i :: 0 <= i < |at| ==> at[i] < |all| && wrap(at[i]) == Some(out[i]))
    && (forall k :: 0 <= k < |all| ==> (k in at <==> chosen(k)))
  }

  lemma ChosenStep(out: seq<Wrap>, all: seq<Audit>, at: seq<nat>, chosen: nat -> bool, wrap: nat -> Option<Wrap>)
    requires all != [] && Chosen(out, all[..|all| - 1], at, chosen, wrap)
    requires chosen(|all| - 1) ==> wrap(|all| - 1).Some?
    ensures var n := |all| - 1;
      if chosen(n) then Chosen(out + [wrap(n).value], all, at + [n], chosen, wrap) else Chosen(out, all, at, chosen, wrap)
  {
    var n := |all| - 1;
    assert forall k :: k in at + [n] <==> k in at || k == n;
    assert forall k :: k in at ==> k < n;
  }

  // The relays get, oldest entry first, every stored wrap dated within two days.
  lemma {:induction false} PublishedInOrder(all: seq<Audit>, now: nat, chosen: nat -> bool, wrap: nat -> Option<Wrap>)
    returns (at: seq<nat>)
    requires forall k: nat :: k < |all| ==> wrap(k) == all[k].wrap
    requires forall k: nat :: k < |all| ==>
      (chosen(k) <==> all[k].wrap.Some? && Gap(now, all[k].wrap.value.createdAt) <= 172_800)
    ensures Chosen(Publishable(all, now), all, at, chosen, wrap)
  {
    at := [];
    if all != [] {
      var n := |all| - 1;
      at := PublishedInOrder(all[..n], now, chosen, wrap);
      ChosenStep(Publishable(all[..n], now), all, at, chosen, wrap);
      if chosen(n) { at := at + [n]; }
      assert Publishable(all[..n], now) + [] == Publishable(all[..n], now);
    }
  }

  // The local link is offered, oldest entry first, every wrap built this round.
  lemma {:induction false} OfferedInOrder(all: seq<Audit>, now: nat, build: Builder, chosen: nat -> bool)
    returns (at: seq<nat>)
    requires forall k: nat :: k < |all| ==>
      (chosen(k) <==> build(k).Some? && (all[k].wrap.None? || Gap(now, all[k].wrap.value.createdAt) > 86_400))
    ensures Chosen(Fresh(all, now, build), all, at, chosen, build)
  {
    at := [];
    if all != [] {
      var n := |all| - 1;
      at := OfferedInOrder(all[..n], now, build, chosen);
      ChosenStep(Fresh(all[..n], now, build), all, at, chosen, build);
      if chosen(n) { at := at + [n]; }
      assert Fresh(all[..n], now, build) + [] == Fresh(all[..n], now, build);
    }
  }
}
