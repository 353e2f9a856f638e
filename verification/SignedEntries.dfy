// What a save signs for each app, and what each saved group reads back as, in terms
// of the groups, the known entries and the catalogue alone.

module SignedEntries {
  import opened Seqs
  import opened JsText
  import opened EffectivePolicy
  import opened NamedTimes
  import opened AppsFragment
  import opened NamedTimesLaws

  // --- the entry of one id -----------------------------------------------------------

  predicate IdsDistinct(catalogue: seq<LearningApp>) {
    forall i, j :: 0 <= i < j < |catalogue| ==> catalogue[i].id != catalogue[j].id
  }

  // A known entry is found by its id, and a native app by its exec as well.
  predicate FoundBy(a: LearningApp, id: string) {
    a.id == id || (a.native && id != "" && a.exec == Some(id))
  }

  // `k` is the last known entry found by `id`.
  predicate LastFound(known: seq<LearningApp>, id: string, k: nat) {
    k < |known| && FoundBy(known[k], id) && forall j :: k < j < |known| ==> !FoundBy(known[j], id)
  }

  predicate NeverFound(known: seq<LearningApp>, id: string) {
    forall j :: 0 <= j < |known| ==> !FoundBy(known[j], id)
  }

  // A known entry without a host, or with the catalogue entry's, is the same site.
  predicate OneSite(mine: LearningApp, c: LearningApp) { mine.host.None? || mine.host == c.host }

  // `a` is what `id` is signed as: the catalogue's entry unless the known one is
  // another site, then the known one, then a plain native app.
  ghost predicate SignedFor(id: string, a: LearningApp, known: seq<LearningApp>, catalogue: seq<LearningApp>) {
    && (forall c: nat | c < |catalogue| && catalogue[c].id == id ::
          && (NeverFound(known, id) ==> a == catalogue[c])
          && (forall k: nat | LastFound(known, id, k) ::
                a == if OneSite(known[k], catalogue[c]) then catalogue[c] else known[k]))
    && ((forall c :: 0 <= c < |catalogue| ==> catalogue[c].id != id) ==>
          && (NeverFound(known, id) ==> a == LearningApp(id, id, true, Some(id), None, "", None))
          && (forall k: nat | LastFound(known, id, k) :: a == known[k]))
  }

  // Nothing else is: one entry, whatever is known and listed.
  lemma SignedForOne(id: string, a: LearningApp, b: LearningApp, known: seq<LearningApp>, catalogue: seq<LearningApp>)
    requires SignedFor(id, a, known, catalogue) && SignedFor(id, b, known, catalogue)
    ensures a == b
  {
    if !NeverFound(known, id) { var k := SomeLastFound(known, id); }
  }

  lemma {:induction false} SomeLastFound(known: seq<LearningApp>, id: string) returns (k: nat)
    requires !NeverFound(known, id)
    ensures LastFound(known, id, k)
  {
    var n := |known| - 1;
    if FoundBy(known[n], id) {
      k := n;
    } else {
      assert !NeverFound(known[..n], id);
      k := SomeLastFound(known[..n], id);
    }
  }

  lemma {:induction false} LastKnownIs(known: seq<LearningApp>, id: string, k: nat)
    requires LastFound(known, id, k)
    ensures LastKnown(known, id) == Some(known[k])
  {
    var n := |known| - 1;
    if k < n {
      assert !FoundBy(known[n], id);
      assert known[..n][k] == known[k];
      LastKnownIs(known[..n], id, k);
    }
  }

  lemma {:induction false} NotListed(catalogue: seq<LearningApp>, id: string, mine: Option<LearningApp>)
    requires forall c :: 0 <= c < |catalogue| ==> catalogue[c].id != id
    ensures Refreshed(catalogue, id, mine) == mine
  {
    if catalogue != [] { NotListed(catalogue[..|catalogue| - 1], id, mine); }
  }

  lemma {:induction false} Listed(catalogue: seq<LearningApp>, id: string, mine: Option<LearningApp>, c: nat)
    requires IdsDistinct(catalogue) && c < |catalogue| && catalogue[c].id == id
    ensures Refreshed(catalogue, id, mine)
         == if mine.None? || OneSite(mine.value, catalogue[c]) then Some(catalogue[c]) else mine
  {
    var n := |catalogue| - 1;
    if c == n { NotListed(catalogue[..n], id, mine); } else { Listed(catalogue[..n], id, mine, c); }
  }

  lemma ResolvedIsSigned(id: string, known: seq<LearningApp>, catalogue: seq<LearningApp>)
    requires IdsDistinct(catalogue)
    ensures SignedFor(id, Resolve(known, catalogue, id), known, catalogue)
  {
    var mine := LastKnown(known, id);
    forall k: nat | LastFound(known, id, k) ensures mine == Some(known[k]) { LastKnownIs(known, id, k); }
    assert NeverFound(known, id) <==> mine.None?;
    forall c: nat | c < |catalogue| && catalogue[c].id == id
      ensures Refreshed(catalogue, id, mine)
           == if mine.None? || OneSite(mine.value, catalogue[c]) then Some(catalogue[c]) else mine
    {
      Listed(catalogue, id, mine, c);
    }
    if forall c :: 0 <= c < |catalogue| ==> catalogue[c].id != id { NotListed(catalogue, id, mine); }
  }

  // --- every id that is signed --------------------------------------------------------

  // The group lists the app.
  predicate GroupLists(g: NamedGroup, x: string) { exists k :: 0 <= k < |g.apps| && Trim(g.apps[k]) == x }

  // Some group of the policy lists the app, launch signatures aside.
  predicate Lists(groups: seq<NamedGroup>, p: GroupPolicy, x: string) {
    && x != "" && !("cmdline:" <= x)
    && exists i :: 0 <= i < |groups| && groups[i].policy == p && GroupLists(groups[i], x)
  }

  // The identity is a site's.
  predicate IsSite(identity: string, x: string) {
    x != "" && "site:" <= identity && Trim(identity[5..]) == x
  }

  // A signed limit or a signed ask names the site.
  predicate Costs(c: Compiled, x: string) {
    || (exists i, k :: 0 <= i < |c.buckets.buckets| && 0 <= k < |c.buckets.buckets[i].apps|
                       && IsSite(c.buckets.buckets[i].apps[k], x))
    || (exists k :: 0 <= k < |c.apps.askFirst| && IsSite(c.apps.askFirst[k], x))
  }

  lemma {:induction false} AllAppsTrimTo(groups: seq<NamedGroup>, x: string)
    requires x != ""
    ensures TrimsTo(AllApps(groups), x) <==> exists i :: 0 <= i < |groups| && GroupLists(groups[i], x)
  {
    if groups != [] {
      var g, rest := groups[0], groups[1..];
      AllAppsTrimTo(rest, x);
      TrimsToSplit(g.apps, AllApps(rest), x);
      assert TrimsTo(g.apps, x) <==> GroupLists(g, x);
      assert forall i :: 0 < i < |groups| ==> groups[i] == rest[i - 1];
      assert forall i :: 0 <= i < |rest| ==> rest[i] == groups[i + 1];
    }
  }

  lemma SomeOfPolicy(groups: seq<NamedGroup>, p: GroupPolicy, x: string)
    ensures (exists i :: 0 <= i < |OfPolicy(groups, p)| && GroupLists(OfPolicy(groups, p)[i], x))
       <==> exists i :: 0 <= i < |groups| && groups[i].policy == p && GroupLists(groups[i], x)
  {
    var own := OfPolicy(groups, p);
    assert forall g :: g in own <==> g in groups && g.policy == p;
    if i :| 0 <= i < |own| && GroupLists(own[i], x) {
      assert own[i] in own;
      var j :| 0 <= j < |groups| && groups[j] == own[i];
    }
    if i :| 0 <= i < |groups| && groups[i].policy == p && GroupLists(groups[i], x) {
      assert groups[i] in own;
      var j :| 0 <= j < |own| && own[j] == groups[i];
    }
  }

  lemma ListedApps(groups: seq<NamedGroup>, p: GroupPolicy, x: string)
    ensures x in NoCmdline(Dedupe(AllApps(OfPolicy(groups, p)))) <==> Lists(groups, p, x)
  {
    var all := AllApps(OfPolicy(groups, p));
    DedupeMembers(all, x);
    if x != "" {
      AllAppsTrimTo(OfPolicy(groups, p), x);
      SomeOfPolicy(groups, p, x);
    }
  }

  lemma CostsIsSiteNamed(c: Compiled, x: string)
    ensures Costs(c, x) <==> SiteNamed(c, x)
  {
    forall identity: string ensures IsSite(identity, x) <==> SiteIdOf(identity) == Some(x) {
    }
  }

  // The learning entries are one each for the free apps, as they resolve, and then one
  // each for the costing sites that are not free, marked as costing.
  lemma EverySignedEntry(d: Draft, prior: Clauses, catalogue: seq<LearningApp>) returns (ids: seq<string>)
    requires IdsDistinct(catalogue)
    ensures var c := Compile(d, prior, catalogue);
      && |ids| == |c.learning.apps| && NoDup(ids)
      && (forall x :: x in ids <==> Lists(d.groups, FreeOf, x) || Costs(c, x))
      && (forall i, j :: 0 <= i < j < |ids| && Lists(d.groups, FreeOf, ids[j]) ==> Lists(d.groups, FreeOf, ids[i]))
      && (forall k :: 0 <= k < |ids| ==> EntryOf(d, prior, catalogue, ids[k], c.learning.apps[k]))
  {
    var c := Compile(d, prior, catalogue);
    var free, costing, known := FreeIds(d.groups), CostingIds(d.groups), KnownApps(prior);
    FreeIdsOnce(d.groups);
    ids := EntriesById(free, costing, known, catalogue);
    forall x ensures (x in free <==> Lists(d.groups, FreeOf, x)) && (x in costing <==> Costs(c, x)) {
      ListedApps(d.groups, FreeOf, x);
      CostingIdsAreNamed(d, prior, catalogue, x);
      CostsIsSiteNamed(c, x);
    }
    assert forall k :: 0 <= k < |ids| ==> (Lists(d.groups, FreeOf, ids[k]) <==> ids[k] in free);
    forall k | 0 <= k < |ids| ensures EntryOf(d, prior, catalogue, ids[k], c.learning.apps[k]) {
      ResolvedIsSigned(ids[k], known, catalogue);
    }
  }

  // Free ids first, then the others.
  lemma EntriesById(free: seq<string>, costing: seq<string>, known: seq<LearningApp>, catalogue: seq<LearningApp>)
    returns (ids: seq<string>)
    requires NoDup(free) && NoDup(costing)
    ensures var all := LearningEntries(free, costing, known, catalogue);
      && |ids| == |all| && NoDup(ids)
      && (forall x :: x in ids <==> x in free || x in costing)
      && (forall k :: 0 <= k < |ids| ==> (ids[k] in free <==> k < |free|))
      && (forall k :: 0 <= k < |ids| ==>
            all[k] == var r := Resolve(known, catalogue, ids[k]); if ids[k] in free then r else r.(free := Some(false)))
  {
    var rest := NotIn(costing, free);
    ids := free + rest;
    FilterNoDup((id: string) => id !in free, costing);
    FreeEntriesLength(free, known, catalogue);
    CostingEntriesAre(costing, free, known, catalogue);
    assert forall k :: |free| <= k < |ids| ==> ids[k] == rest[k - |free|] && ids[k] in rest;
    var all := LearningEntries(free, costing, known, catalogue);
    forall k | 0 <= k < |ids|
      ensures all[k] == var r := Resolve(known, catalogue, ids[k]); if ids[k] in free then r else r.(free := Some(false))
    {
      if k < |free| { FreeEntryAt(free, known, catalogue, k); }
    }
  }

  // `a` is the entry signed for `id`.
  ghost predicate EntryOf(d: Draft, prior: Clauses, catalogue: seq<LearningApp>, id: string, a: LearningApp) {
    exists r :: SignedFor(id, r, KnownApps(prior), catalogue)
                && a == if Lists(d.groups, FreeOf, id) then r else r.(free := Some(false))
  }

  lemma FreeIdsOnce(groups: seq<NamedGroup>)
    ensures NoDup(FreeIds(groups)) && NoDup(CostingIds(groups))
  {
    FilterNoDup((id: string) => !IsCmdline(id), Dedupe(AllApps(OfPolicy(groups, FreeOf))));
  }

  lemma {:induction false} CostingEntriesAre(ids: seq<string>, free: seq<string>,
      known: seq<LearningApp>, catalogue: seq<LearningApp>)
    ensures var r, rest := CostingEntries(ids, free, known, catalogue), NotIn(ids, free);
      && |r| == |rest|
      && forall k :: 0 <= k < |r| ==> r[k] == Resolve(known, catalogue, rest[k]).(free := Some(false))
  {
    if ids != [] {
      var n := |ids| - 1;
      assert ids == ids[..n] + [ids[n]];
      FilterConcat((id: string) => id !in free, ids[..n], [ids[n]]);
      CostingEntriesAre(ids[..n], free, known, catalogue);
    }
  }

  // --- limits and the rest of a save ---------------------------------------------------

  function AtMost(a: nat, b: nat): nat { if a < b then a else b }

  // The first twelve counted groups are signed, in order, each with its first
  // sixty-four apps and its own minutes.
  lemma SignedLimits(d: Draft, prior: Clauses, catalogue: seq<LearningApp>)
    ensures var counted, signed := OfPolicy(d.groups, Counted), Compile(d, prior, catalogue).buckets.buckets;
      |signed| == AtMost(12, |counted|) && forall i :: 0 <= i < |signed| ==> SignsLimit(counted[i], signed[i])
  {
    var counted := Take(OfPolicy(d.groups, Counted), 12);
    var signed := Compile(d, prior, catalogue).buckets.buckets;
    assert signed == Map(BucketOf, counted);
    forall i | 0 <= i < |signed| ensures SignsLimit(counted[i], signed[i]) { BucketSigns(counted[i]); }
  }

  predicate SignsLimit(g: NamedGroup, b: Bucket) {
    && b.id == g.id && b.name == g.name && b.daily == g.daily && b.weekly == g.weekly
    && b.apps == Dedupe(g.apps)[..AtMost(64, |Dedupe(g.apps)|)]
  }

  lemma BucketSigns(g: NamedGroup)
    ensures SignsLimit(g, BucketOf(g))
  {
    assert Dedupe(g.apps)[..|Dedupe(g.apps)|] == Dedupe(g.apps);
  }

  // What the guardian asks for is exactly what the on-request groups list, blocked
  // and askable alike.
  lemma SignedAsks(d: Draft, prior: Clauses, catalogue: seq<LearningApp>, x: string)
    ensures var f := Compile(d, prior, catalogue).apps;
      && NoDup(f.askFirst) && f.blockedAdd == f.askFirst
      && (x in f.askFirst <==> Lists(d.groups, OnRequest, x))
  {
    ListedApps(d.groups, OnRequest, x);
    FilterNoDup((id: string) => !IsCmdline(id), Dedupe(AllApps(OfPolicy(d.groups, OnRequest))));
  }

  // A save leaves the learning cap, the week's start and a zone as they were.
  lemma SaveKeepsTheRest(d: Draft, prior: Clauses, catalogue: seq<LearningApp>)
    ensures var s := Stored(d, prior, catalogue);
      && (prior.learning.Some? ==> s.learning.value.cap == prior.learning.value.cap)
      && (prior.buckets.Some? ==> s.buckets.value.weekStart == prior.buckets.value.weekStart)
      && (prior.buckets.Some? && prior.buckets.value.tz != "" ==> s.buckets.value.tz == prior.buckets.value.tz)
      && (prior.learning.None? ==> s.learning.value.cap.None?)
      && (prior.buckets.None? ==> s.buckets.value.weekStart.None?)
      && (prior.buckets.None? || prior.buckets.value.tz == "" ==> s.buckets.value.tz == "UTC")
  {
  }

  // --- reading back ---------------------------------------------------------------------

  // A saved group keeps its name and those of its apps that are still free on the
  // wire, in order; an app that no saved group lists joins the first.
  lemma SavedGroupsReadBack(c: Clauses, saved: seq<FreeRecord>, x: string)
    requires saved != []
    ensures var groups := OfPolicy(ReadBack(c, Some(saved)).groups, FreeOf);
      && |groups| == |saved|
      && (forall i :: 0 <= i < |saved| ==> groups[i].id == saved[i].id && groups[i].name == saved[i].name)
      && (forall i :: 0 < i < |saved| ==>
            groups[i].apps == Filter((id: string) => id in WireIds(KnownApps(c)), saved[i].apps))
      && Filter((id: string) => id in WireIds(KnownApps(c)), saved[0].apps) <= groups[0].apps
      && (x in groups[0].apps <==>
            FreeOnWire(KnownApps(c), x) && (x in saved[0].apps || forall i :: 0 <= i < |saved| ==> x !in saved[i].apps))
  {
    var wire := WireIds(KnownApps(c));
    ReadBackParts(c, Some(saved));
    PartsByPolicy(FreeGroupsOf(c.learning, Some(saved)), CountedGroupsOf(c.buckets), OnRequestGroupsOf(c.apps));
    WireIdsAreFreeKeys(KnownApps(c), x);
    JoinsTheFirst(saved, wire, x);
  }

  lemma JoinsTheFirst(saved: seq<FreeRecord>, wire: seq<string>, x: string)
    requires saved != []
    ensures x in Rebuilt(saved, wire)[0].apps <==>
              x in wire && (x in saved[0].apps || forall i :: 0 <= i < |saved| ==> x !in saved[i].apps)
  {
    var kept := KeptGroups(saved, wire);
    if x in AllApps(kept) {
      var i :| 0 <= i < |kept| && x in kept[i].apps;
      KeptIsSaved(saved, wire, i, x);
    }
    if x in wire && x !in AllApps(kept) {
      forall i | 0 <= i < |saved| ensures x !in saved[i].apps {
        assert !(x in kept[i].apps);
      }
    }
  }

  // Without a saved grouping one reserved group stands for all that is free;
  // a missing clause reads as switched on.
  lemma UnsavedReadsBack(c: Clauses, saved: Option<seq<FreeRecord>>)
    ensures var r := ReadBack(c, saved);
      && (saved.None? ==>
            OfPolicy(r.groups, FreeOf)
            == if c.learning.None? then []
               else [NamedGroup("-free", "Free time", WireIds(c.learning.value.apps), FreeOf, None, None)])
      && (saved == Some([]) ==>
            (OfPolicy(r.groups, FreeOf) == [] <==> forall x :: !FreeOnWire(KnownApps(c), x)))
      && r.learningEnabled == (c.learning.None? || c.learning.value.enabled)
      && r.bucketsEnabled == (c.buckets.None? || c.buckets.value.enabled)
  {
    ReadBackParts(c, saved);
    PartsByPolicy(FreeGroupsOf(c.learning, saved), CountedGroupsOf(c.buckets), OnRequestGroupsOf(c.apps));
    var wire := WireIds(KnownApps(c));
    forall x ensures x in wire <==> FreeOnWire(KnownApps(c), x) { WireIdsAreFreeKeys(KnownApps(c), x); }
    if wire != [] { assert wire[0] in wire; }
  }

  // Counted groups are the signed limits as they are.
  lemma CountedReadBack(c: Clauses, saved: Option<seq<FreeRecord>>)
    requires c.buckets.Some?
    ensures var groups, rules := OfPolicy(ReadBack(c, saved).groups, Counted), c.buckets.value.buckets;
      && |groups| == |rules|
      && forall i :: 0 <= i < |rules| ==>
           && groups[i].id == rules[i].id && groups[i].name == rules[i].name && groups[i].apps == rules[i].apps
           && groups[i].daily == rules[i].daily && groups[i].weekly == rules[i].weekly
  {
    ReadBackParts(c, saved);
    PartsByPolicy(FreeGroupsOf(c.learning, saved), CountedGroupsOf(c.buckets), OnRequestGroupsOf(c.apps));
  }
}
