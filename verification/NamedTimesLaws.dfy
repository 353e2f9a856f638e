// What compiling and reading back named times promise each other: nothing free is
// lost or invented, and a draft comes back whole exactly when its free ids do.

module NamedTimesLaws {
  import opened Seqs
  import opened JsText
  import opened EffectivePolicy
  import opened NamedTimes
  import opened AppsFragment

  // --- reading back never loses or invents a free app --------------------------

  // A free entry on the wire is a member as `x`.
  predicate FreeOnWire(apps: seq<LearningApp>, x: string) {
    x != "" && exists i :: 0 <= i < |apps| && IsFree(apps[i]) && Trim(MembershipKey(apps[i])) == x
  }

  lemma KeyOfFree(apps: seq<LearningApp>, free: seq<LearningApp>, keys: seq<string>, x: string)
    requires free == Filter(IsFree, apps) && keys == Map(MembershipKey, free) && TrimsTo(keys, x)
    ensures FreeOnWire(apps, x)
  {
    var i :| 0 <= i < |keys| && Trim(keys[i]) == x;
    assert free[i] in free;
    var j :| 0 <= j < |apps| && apps[j] == free[i];
  }

  lemma FreeHasKey(apps: seq<LearningApp>, free: seq<LearningApp>, keys: seq<string>, x: string)
    requires free == Filter(IsFree, apps) && keys == Map(MembershipKey, free) && FreeOnWire(apps, x)
    ensures TrimsTo(keys, x)
  {
    var i :| 0 <= i < |apps| && IsFree(apps[i]) && Trim(MembershipKey(apps[i])) == x;
    assert apps[i] in free;
    var j :| 0 <= j < |free| && free[j] == apps[i];
    assert Trim(keys[j]) == x;
  }

  lemma WireIdsAreFreeKeys(apps: seq<LearningApp>, x: string)
    ensures x in WireIds(apps) <==> FreeOnWire(apps, x)
  {
    var free := Filter(IsFree, apps);
    var keys := Map(MembershipKey, free);
    DedupeMembers(keys, x);
    if TrimsTo(keys, x) { KeyOfFree(apps, free, keys, x); }
    if FreeOnWire(apps, x) { FreeHasKey(apps, free, keys, x); }
  }

  lemma JoiningAddsLeftover(kept: seq<NamedGroup>, leftover: seq<string>, x: string)
    requires kept != []
    ensures x in AllApps(kept[0 := kept[0].(apps := kept[0].apps + leftover)]) <==> x in AllApps(kept) || x in leftover
  {
    var joined := kept[0 := kept[0].(apps := kept[0].apps + leftover)];
    assert joined[1..] == kept[1..];
    assert AllApps(joined) == kept[0].apps + leftover + AllApps(kept[1..]);
    assert AllApps(kept) == kept[0].apps + AllApps(kept[1..]);
  }

  lemma KeptAreOnWire(saved: seq<FreeRecord>, wire: seq<string>, x: string)
    requires x in AllApps(KeptGroups(saved, wire))
    ensures x in wire
  {
    var i :| 0 <= i < |saved| && x in KeptGroups(saved, wire)[i].apps;
  }

  lemma RebuiltIsWire(saved: seq<FreeRecord>, wire: seq<string>, x: string)
    requires saved != []
    ensures x in AllApps(Rebuilt(saved, wire)) <==> x in wire
  {
    var kept := KeptGroups(saved, wire);
    JoiningAddsLeftover(kept, NotIn(wire, AllApps(kept)), x);
    if x in AllApps(kept) { KeptAreOnWire(saved, wire, x); }
  }

  predicate AllOf(groups: seq<NamedGroup>, p: GroupPolicy) {
    forall i :: 0 <= i < |groups| ==> groups[i].policy == p
  }

  lemma OnlyThese(groups: seq<NamedGroup>, p: GroupPolicy)
    requires AllOf(groups, p)
    ensures OfPolicy(groups, p) == groups
    ensures forall q :: q != p ==> OfPolicy(groups, q) == []
  {
    FilterAll((g: NamedGroup) => g.policy == p, groups);
    forall q | q != p ensures OfPolicy(groups, q) == [] {
      FilterNone((g: NamedGroup) => g.policy == q, groups);
    }
  }

  // Of groups listed free, then counted, then on request, each policy's own.
  lemma PartsByPolicy(f: seq<NamedGroup>, c: seq<NamedGroup>, r: seq<NamedGroup>)
    requires AllOf(f, FreeOf) && AllOf(c, Counted) && AllOf(r, OnRequest)
    ensures OfPolicy(f + c + r, FreeOf) == f && OfPolicy(f + c + r, Counted) == c && OfPolicy(f + c + r, OnRequest) == r
  {
    OnlyThese(f, FreeOf);
    OnlyThese(c, Counted);
    OnlyThese(r, OnRequest);
    forall p: GroupPolicy ensures OfPolicy(f + c + r, p) == OfPolicy(f, p) + OfPolicy(c, p) + OfPolicy(r, p) {
      FilterConcat((g: NamedGroup) => g.policy == p, f + c, r);
      FilterConcat((g: NamedGroup) => g.policy == p, f, c);
    }
  }

  lemma ReadBackParts(c: Clauses, saved: Option<seq<FreeRecord>>)
    ensures AllOf(FreeGroupsOf(c.learning, saved), FreeOf)
    ensures AllOf(CountedGroupsOf(c.buckets), Counted) && AllOf(OnRequestGroupsOf(c.apps), OnRequest)
  {
  }

  // The free groups read back hold exactly the wire's free members, whatever the
  // saved grouping says: absent, empty, stale or overlapping.
  lemma ReadingBackKeepsFreeApps(c: Clauses, saved: Option<seq<FreeRecord>>, x: string)
    ensures x in AllApps(OfPolicy(ReadBack(c, saved).groups, FreeOf)) <==> FreeOnWire(KnownApps(c), x)
  {
    var wire := WireIds(KnownApps(c));
    ReadBackParts(c, saved);
    PartsByPolicy(FreeGroupsOf(c.learning, saved), CountedGroupsOf(c.buckets), OnRequestGroupsOf(c.apps));
    WireIdsAreFreeKeys(KnownApps(c), x);
    if saved.Some? && saved.value != [] {
      RebuiltIsWire(saved.value, wire, x);
    } else {
      assert AllApps([Container(wire)]) == wire + AllApps([]);
    }
  }

  // A site that costs never reads back as free.
  lemma CostingSiteStaysOut(c: Clauses, saved: Option<seq<FreeRecord>>, x: string)
    requires forall i :: 0 <= i < |KnownApps(c)| && Trim(MembershipKey(KnownApps(c)[i])) == x ==> KnownApps(c)[i].free == Some(false)
    ensures x !in AllApps(OfPolicy(ReadBack(c, saved).groups, FreeOf))
  {
    ReadingBackKeepsFreeApps(c, saved, x);
  }

  // --- at most one free group per app ------------------------------------------

  predicate Apart(a: seq<string>, b: seq<string>) { forall i :: 0 <= i < |a| ==> a[i] !in b }

  predicate RecordsApart(saved: seq<FreeRecord>) {
    forall i, j :: 0 <= i < j < |saved| ==> Apart(saved[i].apps, saved[j].apps)
  }

  predicate GroupsApart(groups: seq<NamedGroup>) {
    forall i, j :: 0 <= i < j < |groups| ==> Apart(groups[i].apps, groups[j].apps)
  }

  lemma KeptIsSaved(saved: seq<FreeRecord>, wire: seq<string>, i: nat, x: string)
    requires i < |saved| && x in KeptGroups(saved, wire)[i].apps
    ensures x in saved[i].apps && x in AllApps(KeptGroups(saved, wire))
  {
    assert InSome(KeptGroups(saved, wire), x);
  }

  lemma MemberOfRebuilt(saved: seq<FreeRecord>, wire: seq<string>, i: nat, x: string)
    requires i < |saved| && x in Rebuilt(saved, wire)[i].apps
    ensures x in saved[i].apps || x !in AllApps(KeptGroups(saved, wire))
  {
    if x in KeptGroups(saved, wire)[i].apps { KeptIsSaved(saved, wire, i, x); }
  }

  // Drift never puts an app in two groups.
  lemma RebuiltGroupsStayApart(saved: seq<FreeRecord>, wire: seq<string>)
    requires saved != [] && RecordsApart(saved)
    ensures GroupsApart(Rebuilt(saved, wire))
  {
    var kept, groups := KeptGroups(saved, wire), Rebuilt(saved, wire);
    forall i, j | 0 <= i < j < |groups| ensures Apart(groups[i].apps, groups[j].apps) {
      assert groups[j] == kept[j];
      forall x | x in groups[i].apps && x in groups[j].apps ensures false {
        KeptIsSaved(saved, wire, j, x);
        MemberOfRebuilt(saved, wire, i, x);
      }
    }
  }

  lemma ReadBackKeepsGroupsApart(c: Clauses, saved: Option<seq<FreeRecord>>)
    requires saved.Some? ==> RecordsApart(saved.value)
    ensures GroupsApart(OfPolicy(ReadBack(c, saved).groups, FreeOf))
  {
    ReadBackParts(c, saved);
    PartsByPolicy(FreeGroupsOf(c.learning, saved), CountedGroupsOf(c.buckets), OnRequestGroupsOf(c.apps));
    if saved.Some? && saved.value != [] {
      RebuiltGroupsStayApart(saved.value, WireIds(KnownApps(c)));
    }
  }

  // --- compiling then reading back ---------------------------------------------

  // What a save stores, and what it reads back as.
  function Stored(d: Draft, prior: Clauses, catalogue: seq<LearningApp>): Clauses {
    var c := Compile(d, prior, catalogue);
    Clauses(Some(c.learning), Some(c.buckets), Some(ApplyFragment(prior.apps, c.apps)))
  }

  function RoundTrip(d: Draft, prior: Clauses, catalogue: seq<LearningApp>): Draft {
    ReadBack(Stored(d, prior, catalogue), Some(Compile(d, prior, catalogue).freeGroups))
  }

  predicate NoMinutes(g: NamedGroup) { g.daily.None? && g.weekly.None? }

  predicate TidyFree(f: seq<NamedGroup>) {
    AllOf(f, FreeOf) && forall i :: 0 <= i < |f| ==> NoMinutes(f[i]) && Clean(f[i].apps)
  }

  predicate TidyCounted(c: seq<NamedGroup>) {
    && AllOf(c, Counted) && |c| <= MAX_BUCKETS
    && forall i :: 0 <= i < |c| ==> Clean(c[i].apps) && |c[i].apps| <= MAX_BUCKET_APPS
  }

  // None, or the single group that reading back makes of the askable apps.
  predicate TidyOnRequest(r: seq<NamedGroup>) {
    && AllOf(r, OnRequest) && |r| <= 1
    && (r != [] ==>
          && r[0] == NamedGroup(RESERVED_ON_REQUEST_ID, ON_REQUEST_LABEL, r[0].apps, OnRequest, None, None)
          && r[0].apps != [] && Clean(r[0].apps)
          && forall i :: 0 <= i < |r[0].apps| ==> !IsCmdline(r[0].apps[i]))
  }

  lemma {:induction false} CountedComeBack(c: seq<NamedGroup>)
    requires TidyCounted(c)
    ensures Map(GroupOf, Map(BucketOf, c)) == c
  {
    var back := Map(GroupOf, Map(BucketOf, c));
    forall i | 0 <= i < |c| ensures back[i] == c[i] {
      DedupeOfClean(c[i].apps);
    }
  }

  lemma AskedOfTidy(r: seq<NamedGroup>)
    requires TidyOnRequest(r)
    ensures NoCmdline(Dedupe(AllApps(r))) == if r == [] then [] else r[0].apps
  {
    if r != [] {
      assert AllApps(r) == r[0].apps + AllApps(r[1..]) == r[0].apps;
      DedupeOfClean(r[0].apps);
      FilterAll((id: string) => !IsCmdline(id), r[0].apps);
    } else {
      assert Dedupe([]) == [];
    }
  }

  lemma OnRequestComesBack(r: seq<NamedGroup>, apps: Option<AppsPolicy>)
    requires TidyOnRequest(r) && AskFirstList(apps) == if r == [] then [] else r[0].apps
    ensures OnRequestGroupsOf(apps) == r
  {
    if r != [] { assert r == [r[0]]; }
  }

  // --- the free part, exactly

  lemma {:induction false} RecordsKeepTheirApps(f: seq<NamedGroup>, wire: seq<string>, i: nat)
    requires TidyFree(f) && i < |f|
    ensures Map(RecordOf, f)[i] == FreeRecord(f[i].id, f[i].name, f[i].apps)
    ensures KeptGroups(Map(RecordOf, f), wire)[i] == f[i].(apps := Keep(f[i].apps, wire))
  {
    DedupeOfClean(f[i].apps);
  }

  lemma KeepAll(apps: seq<string>, wire: seq<string>)
    requires forall i :: 0 <= i < |apps| ==> apps[i] in wire
    ensures Keep(apps, wire) == apps
  {
    FilterAll((id: string) => id in wire, apps);
  }

  lemma KeptUnchanged(f: seq<NamedGroup>, wire: seq<string>)
    requires TidyFree(f) && forall x :: x in AllApps(f) ==> x in wire
    ensures KeptGroups(Map(RecordOf, f), wire) == f
  {
    var kept := KeptGroups(Map(RecordOf, f), wire);
    forall i | 0 <= i < |f| ensures kept[i] == f[i] {
      RecordsKeepTheirApps(f, wire, i);
      forall k | 0 <= k < |f[i].apps| ensures f[i].apps[k] in wire {
        assert InSome(f, f[i].apps[k]);
      }
      KeepAll(f[i].apps, wire);
    }
  }

  lemma NothingLeftOver(wire: seq<string>, claimed: seq<string>)
    requires forall x :: x in wire ==> x in claimed
    ensures NotIn(wire, claimed) == []
  {
    FilterNone((id: string) => id !in claimed, wire);
  }

  // With nothing to join, the kept groups are what is rebuilt.
  lemma RebuiltIsKept(saved: seq<FreeRecord>, wire: seq<string>, kept: seq<NamedGroup>)
    requires saved != [] && KeptGroups(saved, wire) == kept && NotIn(wire, AllApps(kept)) == []
    ensures Rebuilt(saved, wire) == kept
  {
    JoiningNothing(kept);
  }

  lemma JoiningNothing(kept: seq<NamedGroup>)
    requires kept != []
    ensures kept[0 := kept[0].(apps := kept[0].apps + [])] == kept
  {
    assert kept[0].apps + [] == kept[0].apps;
  }

  lemma SurvivingGroupsComeBack(f: seq<NamedGroup>, wire: seq<string>)
    requires f != [] && TidyFree(f) && SameMembers(AllApps(f), wire)
    ensures Rebuilt(Map(RecordOf, f), wire) == f
  {
    KeptUnchanged(f, wire);
    NothingLeftOver(wire, AllApps(f));
    RebuiltIsKept(Map(RecordOf, f), wire, f);
  }

  lemma OnlySurvivingGroupsComeBack(f: seq<NamedGroup>, wire: seq<string>)
    requires f != [] && Rebuilt(Map(RecordOf, f), wire) == f
    ensures SameMembers(AllApps(f), wire)
  {
    forall x ensures x in AllApps(f) <==> x in wire {
      RebuiltIsWire(Map(RecordOf, f), wire, x);
    }
  }

  predicate ResolvesFreeAs(id: string, known: seq<LearningApp>, catalogue: seq<LearningApp>, x: string) {
    var a := Resolve(known, catalogue, id);
    IsFree(a) && Trim(MembershipKey(a)) == x
  }

  // Some free id of the draft resolves to a free entry that is a member as `x`.
  predicate ComesBackAs(ids: seq<string>, known: seq<LearningApp>, catalogue: seq<LearningApp>, x: string) {
    && x != ""
    && exists i :: 0 <= i < |ids| && ResolvesFreeAs(ids[i], known, catalogue, x)
  }

  lemma {:induction false} FreeEntryAt(ids: seq<string>, known: seq<LearningApp>, catalogue: seq<LearningApp>, i: nat)
    requires i < |ids|
    ensures i < |FreeEntries(ids, known, catalogue)| && FreeEntries(ids, known, catalogue)[i] == Resolve(known, catalogue, ids[i])
  {
    var n := |ids| - 1;
    FreeEntriesLength(ids[..n], known, catalogue);
    if i < n { FreeEntryAt(ids[..n], known, catalogue, i); }
  }

  lemma {:induction false} FreeEntriesLength(ids: seq<string>, known: seq<LearningApp>, catalogue: seq<LearningApp>)
    ensures |FreeEntries(ids, known, catalogue)| == |ids|
  {
    if ids != [] { FreeEntriesLength(ids[..|ids| - 1], known, catalogue); }
  }

  lemma {:induction false} CostingEntriesCost(ids: seq<string>, free: seq<string>,
      known: seq<LearningApp>, catalogue: seq<LearningApp>)
    ensures forall k :: 0 <= k < |CostingEntries(ids, free, known, catalogue)| ==>
      !IsFree(CostingEntries(ids, free, known, catalogue)[k])
  {
    if ids != [] { CostingEntriesCost(ids[..|ids| - 1], free, known, catalogue); }
  }

  lemma WhatComesBack(free: seq<string>, costing: seq<string>, known: seq<LearningApp>, catalogue: seq<LearningApp>, x: string)
    ensures FreeOnWire(LearningEntries(free, costing, known, catalogue), x) <==> ComesBackAs(free, known, catalogue, x)
  {
    var a, b := FreeEntries(free, known, catalogue), CostingEntries(costing, free, known, catalogue);
    var all := LearningEntries(free, costing, known, catalogue);
    FreeEntriesLength(free, known, catalogue);
    CostingEntriesCost(costing, free, known, catalogue);
    forall i | 0 <= i < |free| ensures all[i] == Resolve(known, catalogue, free[i]) {
      FreeEntryAt(free, known, catalogue, i);
    }
    assert forall i :: |free| <= i < |all| ==> all[i] == b[i - |free|];
    if FreeOnWire(all, x) {
      var i :| 0 <= i < |all| && IsFree(all[i]) && Trim(MembershipKey(all[i])) == x;
      assert i < |free|;
      assert ResolvesFreeAs(free[i], known, catalogue, x);
    }
    if ComesBackAs(free, known, catalogue, x) {
      var i :| 0 <= i < |free| && ResolvesFreeAs(free[i], known, catalogue, x);
      assert all[i] == Resolve(known, catalogue, free[i]);
    }
  }

  // --- the round trip ----------------------------------------------------------

  // The draft's free ids are exactly what its free entries are members as.
  ghost predicate FreeIdsHold(f: seq<NamedGroup>, known: seq<LearningApp>, catalogue: seq<LearningApp>) {
    forall x :: x in AllApps(f) <==> ComesBackAs(NoCmdline(Dedupe(AllApps(f))), known, catalogue, x)
  }

  lemma FreePartExactly(f: seq<NamedGroup>, costing: seq<string>, known: seq<LearningApp>, catalogue: seq<LearningApp>,
      learning: Learning)
    requires TidyFree(f)
    requires learning.apps == LearningEntries(NoCmdline(Dedupe(AllApps(f))), costing, known, catalogue)
    ensures FreeGroupsOf(Some(learning), Some(Map(RecordOf, f))) == f <==> FreeIdsHold(f, known, catalogue)
  {
    var ids, wire := NoCmdline(Dedupe(AllApps(f))), WireIds(learning.apps);
    forall x ensures x in wire <==> ComesBackAs(ids, known, catalogue, x) {
      WireIdsAreFreeKeys(learning.apps, x);
      WhatComesBack(ids, costing, known, catalogue, x);
    }
    if f == [] {
      NoFreeGroups(known, catalogue, wire);
    } else {
      RebuiltExactly(f, wire);
      SameMembersVia(AllApps(f), wire, x => ComesBackAs(ids, known, catalogue, x));
    }
  }

  lemma RebuiltExactly(f: seq<NamedGroup>, wire: seq<string>)
    requires f != [] && TidyFree(f)
    ensures Rebuilt(Map(RecordOf, f), wire) == f <==> SameMembers(AllApps(f), wire)
  {
    if SameMembers(AllApps(f), wire) { SurvivingGroupsComeBack(f, wire); }
    if Rebuilt(Map(RecordOf, f), wire) == f { OnlySurvivingGroupsComeBack(f, wire); }
  }

  lemma SameMembersVia(a: seq<string>, wire: seq<string>, p: string -> bool)
    requires forall x :: x in wire <==> p(x)
    ensures SameMembers(a, wire) <==> forall x :: x in a <==> p(x)
  {
  }

  lemma NoFreeGroups(known: seq<LearningApp>, catalogue: seq<LearningApp>, wire: seq<string>)
    requires forall x :: x in wire <==> ComesBackAs(NoCmdline(Dedupe([])), known, catalogue, x)
    ensures wire == [] && FreeIdsHold([], known, catalogue)
  {
    assert NoCmdline(Dedupe([])) == [];
    assert forall x :: !ComesBackAs([], known, catalogue, x);
    NonEmptyHasMember(wire);
  }

  lemma AskedAndCounted(d: Draft, prior: Clauses, catalogue: seq<LearningApp>,
      f: seq<NamedGroup>, c: seq<NamedGroup>, r: seq<NamedGroup>)
    requires d.groups == f + c + r && TidyFree(f) && TidyCounted(c) && TidyOnRequest(r)
    ensures CountedGroupsOf(Stored(d, prior, catalogue).buckets) == c
    ensures OnRequestGroupsOf(Stored(d, prior, catalogue).apps) == r
  {
    PartsByPolicy(f, c, r);
    CountedComeBack(c);
    AskedOfTidy(r);
    CompiledFragment(d, prior, catalogue);
    AskedAfter(prior.apps, Compile(d, prior, catalogue).apps);
    OnRequestComesBack(r, Stored(d, prior, catalogue).apps);
  }

  lemma SameHeadOfConcat(a: seq<NamedGroup>, f: seq<NamedGroup>, c: seq<NamedGroup>, r: seq<NamedGroup>)
    ensures a + c + r == f + c + r <==> a == f
  {
    if a + c + r == f + c + r {
      assert |a| == |f|;
      assert a == (a + c + r)[..|a|] == (f + c + r)[..|f|] == f;
    }
  }

  // A tidy draft reads back whole exactly when its free ids hold. No app needs to
  // be in one group only.
  lemma RoundTripExactly(d: Draft, prior: Clauses, catalogue: seq<LearningApp>,
      f: seq<NamedGroup>, c: seq<NamedGroup>, r: seq<NamedGroup>)
    requires d.groups == f + c + r && TidyFree(f) && TidyCounted(c) && TidyOnRequest(r)
    ensures RoundTrip(d, prior, catalogue) == d <==> FreeIdsHold(f, KnownApps(prior), catalogue)
  {
    PartsByPolicy(f, c, r);
    AskedAndCounted(d, prior, catalogue, f, c, r);
    var compiled := Compile(d, prior, catalogue);
    FreePartExactly(f, CostingIds(d.groups), KnownApps(prior), catalogue, compiled.learning);
    SameHeadOfConcat(FreeGroupsOf(Some(compiled.learning), Some(Map(RecordOf, f))), f, c, r);
  }

  // --- ids that are their own membership key

  predicate OwnKeys(f: seq<NamedGroup>, known: seq<LearningApp>, catalogue: seq<LearningApp>) {
    forall i :: 0 <= i < |AllApps(f)| ==>
      var id := AllApps(f)[i];
      !IsCmdline(id) && MembershipKey(Resolve(known, catalogue, id)) == id
  }

  predicate NoneMarkedCosting(f: seq<NamedGroup>, known: seq<LearningApp>, catalogue: seq<LearningApp>) {
    forall i :: 0 <= i < |AllApps(f)| ==> IsFree(Resolve(known, catalogue, AllApps(f)[i]))
  }

  // For such ids a free app is lost exactly when a prior entry marks it as costing.
  lemma RoundTripUnlessMarkedCosting(d: Draft, prior: Clauses, catalogue: seq<LearningApp>,
      f: seq<NamedGroup>, c: seq<NamedGroup>, r: seq<NamedGroup>)
    requires d.groups == f + c + r && TidyFree(f) && TidyCounted(c) && TidyOnRequest(r)
    requires OwnKeys(f, KnownApps(prior), catalogue)
    ensures RoundTrip(d, prior, catalogue) == d <==> NoneMarkedCosting(f, KnownApps(prior), catalogue)
  {
    RoundTripExactly(d, prior, catalogue, f, c, r);
    var known := KnownApps(prior);
    forall x ensures ComesBackAs(NoCmdline(Dedupe(AllApps(f))), known, catalogue, x)
                <==> x in AllApps(f) && IsFree(Resolve(known, catalogue, x))
    {
      OwnKeyComesBack(f, known, catalogue, x);
    }
    if FreeIdsHold(f, known, catalogue) {
      forall i | 0 <= i < |AllApps(f)| ensures IsFree(Resolve(known, catalogue, AllApps(f)[i])) {
        assert AllApps(f)[i] in AllApps(f);
      }
    }
    if NoneMarkedCosting(f, known, catalogue) {
      assert forall x :: x in AllApps(f) ==> IsFree(Resolve(known, catalogue, x));
    }
  }

  lemma TidyAppsAreTrimmed(f: seq<NamedGroup>, x: string)
    requires TidyFree(f) && x in AllApps(f)
    ensures x != "" && Trimmed(x)
  {
    var i :| 0 <= i < |f| && x in f[i].apps;
    var k :| 0 <= k < |f[i].apps| && f[i].apps[k] == x;
  }

  lemma OwnKeyComesBack(f: seq<NamedGroup>, known: seq<LearningApp>, catalogue: seq<LearningApp>, x: string)
    requires TidyFree(f) && OwnKeys(f, known, catalogue)
    ensures ComesBackAs(NoCmdline(Dedupe(AllApps(f))), known, catalogue, x)
       <==> x in AllApps(f) && IsFree(Resolve(known, catalogue, x))
  {
    var all := AllApps(f);
    var ids := NoCmdline(Dedupe(all));
    if ComesBackAs(ids, known, catalogue, x) {
      var i :| 0 <= i < |ids| && ResolvesFreeAs(ids[i], known, catalogue, x);
      assert ids[i] in ids;
      OwnIdIn(f, known, catalogue, ids[i]);
    }
    if x in all && IsFree(Resolve(known, catalogue, x)) {
      OwnIdIn(f, known, catalogue, x);
      assert x in ids;
      var i :| 0 <= i < |ids| && ids[i] == x;
      assert ResolvesFreeAs(ids[i], known, catalogue, x);
    }
  }

  lemma OwnIdIn(f: seq<NamedGroup>, known: seq<LearningApp>, catalogue: seq<LearningApp>, id: string)
    requires TidyFree(f) && OwnKeys(f, known, catalogue)
    requires id in AllApps(f) || id in Dedupe(AllApps(f))
    ensures id in AllApps(f) && id in NoCmdline(Dedupe(AllApps(f)))
    ensures id != "" && Trim(id) == id && MembershipKey(Resolve(known, catalogue, id)) == id
  {
    var all := AllApps(f);
    forall i | 0 <= i < |all| ensures all[i] != "" && Trimmed(all[i]) {
      TidyAppsAreTrimmed(f, all[i]);
    }
    DedupeMembers(all, id);
    TrimsToItself(all, id);
    var i :| 0 <= i < |all| && all[i] == id;
  }

  lemma NonEmptyHasMember(s: seq<string>)
    ensures s != [] ==> exists x :: x in s
  {
    if s != [] { assert s[0] in s; }
  }

  // --- two drafts that do not come back ------------------------------------------

  // A free app whose saved entry says `free: false` is gone after one save, though
  // nobody touched it.
  lemma MarkedCostingIsLost()
    ensures var entry := LearningApp("x", "X", true, Some("x"), None, "", Some(false));
      var prior := Clauses(Some(Learning(true, [entry], None)), None, None);
      var f := [NamedGroup("f", "F", ["x"], FreeOf, None, None)];
      && TidyFree(f) && OwnKeys(f, KnownApps(prior), [])
      && RoundTrip(Draft(f, true, true), prior, []) != Draft(f, true, true)
  {
    var entry := LearningApp("x", "X", true, Some("x"), None, "", Some(false));
    var prior := Clauses(Some(Learning(true, [entry], None)), None, None);
    var f := [NamedGroup("f", "F", ["x"], FreeOf, None, None)];
    assert Resolve([entry], [], "x") == entry;
    assert AllApps(f) == ["x"] by { assert f[1..] == []; assert ["x"] + [] == ["x"]; }
    assert OwnKeys(f, [entry], []);
    assert f + [] + [] == f;
    RoundTripUnlessMarkedCosting(Draft(f, true, true), prior, [], f, [], []);
    assert !IsFree(Resolve([entry], [], AllApps(f)[0]));
  }

  // An app listed under an id that is not its entry's own identity (a slug of a
  // native app's label, say) does not come back.
  lemma RenamedIsLost(d: Draft, prior: Clauses, catalogue: seq<LearningApp>, g: NamedGroup, id: string)
    requires d.groups == [g] && TidyFree([g]) && g.apps == [id]
    requires Trim(MembershipKey(Resolve(KnownApps(prior), catalogue, id))) != id
    ensures RoundTrip(d, prior, catalogue) != d
  {
    var f, known := [g], KnownApps(prior);
    assert f + [] + [] == f;
    RoundTripExactly(d, prior, catalogue, f, [], []);
    assert id in g.apps;
    assert InSome(f, id) && id in AllApps(f);
    var ids := NoCmdline(Dedupe(AllApps(f)));
    if ComesBackAs(ids, known, catalogue, id) {
      var i :| 0 <= i < |ids| && ResolvesFreeAs(ids[i], known, catalogue, id);
      assert ids[i] in ids;
      OnlyApp(g, id, ids[i]);
    }
  }

  lemma AllAppsOfOne(g: NamedGroup)
    ensures AllApps([g]) == g.apps
  {
    assert [g][1..] == [];
    assert AllApps([]) == [];
    assert g.apps + [] == g.apps;
  }

  lemma OnlyApp(g: NamedGroup, id: string, x: string)
    requires Clean(g.apps) && g.apps == [id] && x in Dedupe(AllApps([g]))
    ensures x == id
  {
    AllAppsOfOne(g);
    DedupeOfClean(g.apps);
  }

  // --- what compiling emits --------------------------------------------------------

  // No launch-signature identity leaves a counted group.
  lemma NoSignatureEscapes(d: Draft, prior: Clauses, catalogue: seq<LearningApp>)
    ensures forall x :: x in FreeIds(d.groups) ==> !IsCmdline(x)
    ensures forall x :: x in Compile(d, prior, catalogue).apps.askFirst ==> !IsCmdline(x)
  {
  }

  // A site identity in a list.
  predicate Names(identities: seq<string>, site: string) {
    exists k :: 0 <= k < |identities| && SiteIdOf(identities[k]) == Some(site)
  }

  lemma {:induction false} SiteIdsAre(identities: seq<string>, x: string)
    ensures x in SiteIds(identities) <==> Names(identities, x)
  {
    if identities != [] {
      SiteIdsAre(identities[1..], x);
      assert forall k :: 0 < k < |identities| ==> identities[k] == identities[1..][k - 1];
      assert forall k :: 0 <= k < |identities[1..]| ==> identities[1..][k] == identities[k + 1];
    }
  }

  lemma NamesSplit(a: seq<string>, b: seq<string>, site: string)
    ensures Names(a + b, site) <==> Names(a, site) || Names(b, site)
  {
    var all := a + b;
    if Names(all, site) {
      var k :| 0 <= k < |all| && SiteIdOf(all[k]) == Some(site);
      if k < |a| { assert SiteIdOf(a[k]) == Some(site); } else { assert SiteIdOf(b[k - |a|]) == Some(site); }
    }
    if Names(a, site) {
      var k :| 0 <= k < |a| && SiteIdOf(a[k]) == Some(site);
      assert all[k] == a[k];
    }
    if Names(b, site) {
      var k :| 0 <= k < |b| && SiteIdOf(b[k]) == Some(site);
      assert all[|a| + k] == b[k];
    }
  }

  predicate BucketNames(buckets: seq<Bucket>, site: string) {
    exists i :: 0 <= i < |buckets| && Names(buckets[i].apps, site)
  }

  lemma {:induction false} BucketAppsName(buckets: seq<Bucket>, site: string)
    ensures Names(BucketApps(buckets), site) <==> BucketNames(buckets, site)
  {
    if buckets != [] {
      BucketAppsName(buckets[1..], site);
      NamesSplit(buckets[0].apps, BucketApps(buckets[1..]), site);
      assert forall i :: 0 < i < |buckets| ==> buckets[i] == buckets[1..][i - 1];
      assert forall i :: 0 <= i < |buckets[1..]| ==> buckets[1..][i] == buckets[i + 1];
    }
  }

  // A signed bucket or askable identity names the site.
  predicate SiteNamed(c: Compiled, site: string) {
    BucketNames(c.buckets.buckets, site) || Names(c.apps.askFirst, site)
  }

  lemma CostingIdsAreNamed(d: Draft, prior: Clauses, catalogue: seq<LearningApp>, site: string)
    ensures site in CostingIds(d.groups) <==> SiteNamed(Compile(d, prior, catalogue), site)
  {
    var identities := BucketApps(BucketsOf(d.groups)) + AskFirstOf(d.groups);
    NamesSplit(BucketApps(BucketsOf(d.groups)), AskFirstOf(d.groups), site);
    BucketAppsName(BucketsOf(d.groups), site);
    SiteIdsTrimmed(identities);
    SiteIdsAre(identities, site);
    DedupeMembers(SiteIds(identities), site);
    TrimsToItself(SiteIds(identities), site);
  }

  lemma {:induction false} SiteIdsTrimmed(identities: seq<string>)
    ensures AllTrimmed(SiteIds(identities))
  {
    if identities != [] { SiteIdsTrimmed(identities[1..]); }
  }

  predicate HasEntry(apps: seq<LearningApp>, a: LearningApp) { exists k :: 0 <= k < |apps| && apps[k] == a }

  lemma {:induction false} CostingEntryFor(ids: seq<string>, free: seq<string>,
      known: seq<LearningApp>, catalogue: seq<LearningApp>, id: string)
    requires id in ids && id !in free
    ensures HasEntry(CostingEntries(ids, free, known, catalogue), Resolve(known, catalogue, id).(free := Some(false)))
  {
    var n := |ids| - 1;
    var before, all := CostingEntries(ids[..n], free, known, catalogue), CostingEntries(ids, free, known, catalogue);
    var a := Resolve(known, catalogue, id).(free := Some(false));
    if ids[n] == id {
      assert all == before + [a];
      assert all[|before|] == a;
    } else {
      CostingEntryFor(ids[..n], free, known, catalogue, id);
      var k :| 0 <= k < |before| && before[k] == a;
      assert all[k] == a;
    }
  }

  lemma HasEntryOfEither(a: seq<LearningApp>, b: seq<LearningApp>, x: LearningApp)
    requires HasEntry(a, x) || HasEntry(b, x)
    ensures HasEntry(a + b, x)
  {
    var all := a + b;
    if HasEntry(a, x) {
      var k :| 0 <= k < |a| && a[k] == x;
      assert all[k] == x;
    } else {
      var k :| 0 <= k < |b| && b[k] == x;
      assert all[|a| + k] == x;
    }
  }

  lemma FreeEntryFor(ids: seq<string>, known: seq<LearningApp>, catalogue: seq<LearningApp>, id: string)
    requires id in ids
    ensures HasEntry(FreeEntries(ids, known, catalogue), Resolve(known, catalogue, id))
  {
    var i :| 0 <= i < |ids| && ids[i] == id;
    FreeEntryAt(ids, known, catalogue, i);
  }

  lemma EntryForSite(free: seq<string>, costing: seq<string>, known: seq<LearningApp>, catalogue: seq<LearningApp>,
      site: string, a: LearningApp)
    requires site in costing && a == Resolve(known, catalogue, site)
    ensures HasEntry(LearningEntries(free, costing, known, catalogue), if site in free then a else a.(free := Some(false)))
  {
    var x := if site in free then a else a.(free := Some(false));
    if site in free { FreeEntryFor(free, known, catalogue, site); }
    else { CostingEntryFor(costing, free, known, catalogue, site); }
    HasEntryOfEither(FreeEntries(free, known, catalogue), CostingEntries(costing, free, known, catalogue), x);
  }

  // Every site a signed bucket or askable identity names has its window defined,
  // marked as costing unless it is free as well.
  lemma CostingSiteHasItsWindow(d: Draft, prior: Clauses, catalogue: seq<LearningApp>, site: string)
    requires SiteNamed(Compile(d, prior, catalogue), site)
    ensures var a := Resolve(KnownApps(prior), catalogue, site);
      HasEntry(Compile(d, prior, catalogue).learning.apps,
               if site in FreeIds(d.groups) then a else a.(free := Some(false)))
  {
    CostingIdsAreNamed(d, prior, catalogue, site);
    EntryForSite(FreeIds(d.groups), CostingIds(d.groups), KnownApps(prior), catalogue, site,
                 Resolve(KnownApps(prior), catalogue, site));
  }

  lemma {:induction false} CostingEntrySource(ids: seq<string>, free: seq<string>,
      known: seq<LearningApp>, catalogue: seq<LearningApp>, k: nat) returns (id: string)
    requires k < |CostingEntries(ids, free, known, catalogue)|
    ensures id in ids && id !in free
    ensures CostingEntries(ids, free, known, catalogue)[k] == Resolve(known, catalogue, id).(free := Some(false))
  {
    var n := |ids| - 1;
    if k < |CostingEntries(ids[..n], free, known, catalogue)| {
      id := CostingEntrySource(ids[..n], free, known, catalogue, k);
    } else {
      id := ids[n];
    }
  }

  // And no entry is a phantom: each is a free id's, or a costing site's that
  // something signed names.
  lemma EveryEntryIsNamed(d: Draft, prior: Clauses, catalogue: seq<LearningApp>, k: nat) returns (id: string)
    requires k < |Compile(d, prior, catalogue).learning.apps|
    ensures var c := Compile(d, prior, catalogue);
      var a := Resolve(KnownApps(prior), catalogue, id);
      || (id in FreeIds(d.groups) && c.learning.apps[k] == a)
      || (id !in FreeIds(d.groups) && SiteNamed(c, id) && c.learning.apps[k] == a.(free := Some(false)))
  {
    var free, costing, known := FreeIds(d.groups), CostingIds(d.groups), KnownApps(prior);
    FreeEntriesLength(free, known, catalogue);
    if k < |free| {
      FreeEntryAt(free, known, catalogue, k);
      id := free[k];
    } else {
      id := CostingEntrySource(costing, free, known, catalogue, k - |free|);
      CostingIdsAreNamed(d, prior, catalogue, id);
    }
  }
}
