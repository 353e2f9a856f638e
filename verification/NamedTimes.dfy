// Named times (domain/namedTimes.ts): groups of apps compiled to the three wire
// clauses a save signs, and the groups a saved policy reads back as.

module NamedTimes {
  import opened Seqs
  import opened JsText
  import opened EffectivePolicy

  const MAX_BUCKETS := 12
  const MAX_BUCKET_APPS := 64
  const RESERVED_FREE_ID := "-free"
  const RESERVED_ON_REQUEST_ID := "-on-request"
  const ON_REQUEST_LABEL := "On request"
  const FREE_LABEL := "Free time"
  const SITE_PREFIX := "site:"
  const CMDLINE_PREFIX := "cmdline:"

  datatype GroupPolicy = FreeOf | Counted | OnRequest

  datatype NamedGroup = NamedGroup(
    id: string, name: string, apps: seq<string>, policy: GroupPolicy,
    daily: Option<int>, weekly: Option<int>)

  datatype FreeRecord = FreeRecord(id: string, name: string, apps: seq<string>)

  // `host` is the site's host as the app reads it from the URL, `www.` and case
  // dropped (None when there is no readable URL); `detail` stands for the rest.
  datatype LearningApp = LearningApp(
    id: string, name: string, native: bool, exec: Option<string>,
    host: Option<string>, detail: string, free: Option<bool>)

  datatype Learning = Learning(enabled: bool, apps: seq<LearningApp>, cap: Option<int>)

  datatype Bucket = Bucket(id: string, name: string, apps: seq<string>, daily: Option<int>, weekly: Option<int>)

  datatype Buckets = Buckets(enabled: bool, tz: string, buckets: seq<Bucket>, weekStart: Option<string>)

  datatype Clauses = Clauses(learning: Option<Learning>, buckets: Option<Buckets>, apps: Option<AppsPolicy>)

  datatype Draft = Draft(groups: seq<NamedGroup>, learningEnabled: bool, bucketsEnabled: bool)

  datatype Fragment = Fragment(blockedAdd: seq<string>, askFirst: seq<string>)

  datatype Compiled = Compiled(learning: Learning, buckets: Buckets, apps: Fragment, freeGroups: seq<FreeRecord>)

  // --- identities -------------------------------------------------------------

  predicate IsCmdline(id: string) { CMDLINE_PREFIX <= id }

  function NoCmdline(ids: seq<string>): seq<string> {
    Filter((id: string) => !IsCmdline(id), ids)
  }

  // The site a `site:` identity names.
  function SiteIdOf(identity: string): Option<string> {
    if !(SITE_PREFIX <= identity) then None
    else
      var id := Trim(identity[|SITE_PREFIX|..]);
      if id == "" then None else Some(id)
  }

  function SiteIds(identities: seq<string>): (r: seq<string>)
    ensures forall x :: x in identities && SiteIdOf(x).Some? ==> SiteIdOf(x).value in r
  {
    if identities == [] then []
    else (if SiteIdOf(identities[0]).Some? then [SiteIdOf(identities[0]).value] else []) + SiteIds(identities[1..])
  }

  // What a learning entry is a member as: a native app's real identity.
  function MembershipKey(a: LearningApp): string {
    if a.native && a.exec.Some? then a.exec.value else a.id
  }

  predicate IsFree(a: LearningApp) { a.free != Some(false) }

  // --- what an id resolves to ----------------------------------------------------

  predicate SameSite(a: LearningApp, b: LearningApp) { a.host.None? || a.host == b.host }

  // An entry answers to its id, and a native one to its exec too.
  predicate AnswersTo(a: LearningApp, id: string) {
    a.id == id || (a.native && a.exec == Some(id) && id != "")
  }

  // The last known entry answering to `id`.
  function LastKnown(known: seq<LearningApp>, id: string): (r: Option<LearningApp>)
    ensures r.Some? ==> r.value in known && AnswersTo(r.value, id)
    ensures r.None? <==> forall k :: 0 <= k < |known| ==> !AnswersTo(known[k], id)
  {
    if known == [] then None
    else if AnswersTo(known[|known| - 1], id) then Some(known[|known| - 1])
    else LastKnown(known[..|known| - 1], id)
  }

  // A catalogue entry replaces a known one of its id only when both are one site.
  function Refreshed(catalogue: seq<LearningApp>, id: string, mine: Option<LearningApp>): (r: Option<LearningApp>)
    ensures r.Some? ==> r == mine || (r.value in catalogue && r.value.id == id)
    ensures mine.Some? ==> r.Some?
  {
    if catalogue == [] then mine
    else
      var before := Refreshed(catalogue[..|catalogue| - 1], id, mine);
      var c := catalogue[|catalogue| - 1];
      if c.id == id && (before.None? || SameSite(before.value, c)) then Some(c) else before
  }

  function Lookup(known: seq<LearningApp>, catalogue: seq<LearningApp>, id: string): Option<LearningApp> {
    Refreshed(catalogue, id, LastKnown(known, id))
  }

  // An unknown id is a plain native app.
  function Resolve(known: seq<LearningApp>, catalogue: seq<LearningApp>, id: string): LearningApp {
    var a := Lookup(known, catalogue, id);
    if a.Some? then a.value else LearningApp(id, id, true, Some(id), None, "", None)
  }

  ghost predicate IsPool(m: map<string, LearningApp>, known: seq<LearningApp>, catalogue: seq<LearningApp>) {
    forall id :: (if id in m then Some(m[id]) else None) == Lookup(known, catalogue, id)
  }

  method LearningAppPool(known: seq<LearningApp>, catalogue: seq<LearningApp>) returns (m: map<string, LearningApp>)
    ensures IsPool(m, known, catalogue)
  {
    m := map[];
    for i := 0 to |known|
      invariant forall id :: (if id in m then Some(m[id]) else None) == LastKnown(known[..i], id)
    {
      var a := known[i];
      m := m[a.id := a];
      if a.native && a.exec.Some? && a.exec.value != "" {
        m := m[a.exec.value := a];
      }
      assert known[..i + 1][..i] == known[..i] && known[..i + 1][i] == a;
    }
    assert known[..|known|] == known;
    for i := 0 to |catalogue|
      invariant IsPool(m, known, catalogue[..i])
    {
      var c := catalogue[i];
      if c.id !in m || SameSite(m[c.id], c) {
        m := m[c.id := c];
      }
      assert catalogue[..i + 1][..i] == catalogue[..i] && catalogue[..i + 1][i] == c;
    }
    assert catalogue[..|catalogue|] == catalogue;
  }

  // --- compiling ----------------------------------------------------------------

  function OfPolicy(groups: seq<NamedGroup>, p: GroupPolicy): seq<NamedGroup> {
    Filter((g: NamedGroup) => g.policy == p, groups)
  }

  predicate InSome(groups: seq<NamedGroup>, app: string) {
    exists i :: 0 <= i < |groups| && app in groups[i].apps
  }

  function AllApps(groups: seq<NamedGroup>): (r: seq<string>)
    ensures forall x :: x in r <==> InSome(groups, x)
  {
    if groups == [] then []
    else
      assert forall x :: InSome(groups, x) <==> x in groups[0].apps || InSome(groups[1..], x) by {
        assert forall i :: 0 < i < |groups| ==> groups[i] == groups[1..][i - 1];
        assert forall i :: 0 <= i < |groups[1..]| ==> groups[1..][i] == groups[i + 1];
      }
      groups[0].apps + AllApps(groups[1..])
  }

  function Take<T>(s: seq<T>, n: nat): seq<T> { if |s| > n then s[..n] else s }

  function RecordOf(g: NamedGroup): FreeRecord { FreeRecord(g.id, g.name, Dedupe(g.apps)) }

  function BucketOf(g: NamedGroup): Bucket {
    Bucket(g.id, g.name, Take(Dedupe(g.apps), MAX_BUCKET_APPS), g.daily, g.weekly)
  }

  function BucketApps(buckets: seq<Bucket>): (r: seq<string>)
    ensures forall i, x :: 0 <= i < |buckets| && x in buckets[i].apps ==> x in r
  {
    if buckets == [] then [] else buckets[0].apps + BucketApps(buckets[1..])
  }

  function FreeIds(groups: seq<NamedGroup>): seq<string> {
    NoCmdline(Dedupe(AllApps(OfPolicy(groups, FreeOf))))
  }

  function AskFirstOf(groups: seq<NamedGroup>): seq<string> {
    NoCmdline(Dedupe(AllApps(OfPolicy(groups, OnRequest))))
  }

  function BucketsOf(groups: seq<NamedGroup>): seq<Bucket> {
    Map(BucketOf, Take(OfPolicy(groups, Counted), MAX_BUCKETS))
  }

  // Sites that cost: named by an emitted bucket or askable identity.
  function CostingIds(groups: seq<NamedGroup>): seq<string> {
    Dedupe(SiteIds(BucketApps(BucketsOf(groups)) + AskFirstOf(groups)))
  }

  function FreeEntries(ids: seq<string>, known: seq<LearningApp>, catalogue: seq<LearningApp>): seq<LearningApp> {
    if ids == [] then []
    else FreeEntries(ids[..|ids| - 1], known, catalogue) + [Resolve(known, catalogue, ids[|ids| - 1])]
  }

  // Every costing site that is not free as well.
  function CostingEntries(ids: seq<string>, free: seq<string>, known: seq<LearningApp>, catalogue: seq<LearningApp>)
    : seq<LearningApp>
  {
    if ids == [] then []
    else
      var id := ids[|ids| - 1];
      CostingEntries(ids[..|ids| - 1], free, known, catalogue)
      + if id in free then [] else [Resolve(known, catalogue, id).(free := Some(false))]
  }

  function NotIn(ids: seq<string>, others: seq<string>): seq<string> {
    Filter((id: string) => id !in others, ids)
  }

  function LearningEntries(free: seq<string>, costing: seq<string>, known: seq<LearningApp>, catalogue: seq<LearningApp>)
    : seq<LearningApp>
  {
    FreeEntries(free, known, catalogue) + CostingEntries(costing, free, known, catalogue)
  }

  function KnownApps(prior: Clauses): seq<LearningApp> {
    if prior.learning.Some? then prior.learning.value.apps else []
  }

  function Compile(d: Draft, prior: Clauses, catalogue: seq<LearningApp>): Compiled {
    Compiled(
      Learning(d.learningEnabled,
               LearningEntries(FreeIds(d.groups), CostingIds(d.groups), KnownApps(prior), catalogue),
               if prior.learning.Some? then prior.learning.value.cap else None),
      Buckets(d.bucketsEnabled,
              if prior.buckets.Some? && prior.buckets.value.tz != "" then prior.buckets.value.tz else "UTC",
              BucketsOf(d.groups),
              if prior.buckets.Some? then prior.buckets.value.weekStart else None),
      Fragment(AskFirstOf(d.groups), AskFirstOf(d.groups)),
      Map(RecordOf, OfPolicy(d.groups, FreeOf)))
  }

  function Fallback(m: map<string, LearningApp>, id: string): LearningApp {
    if id in m then m[id] else LearningApp(id, id, true, Some(id), None, "", None)
  }

  method AddFree(free: seq<string>, pool: map<string, LearningApp>,
      known: seq<LearningApp>, catalogue: seq<LearningApp>) returns (apps: seq<LearningApp>, seen: set<string>)
    requires IsPool(pool, known, catalogue) && NoDup(free)
    ensures apps == FreeEntries(free, known, catalogue) && seen == Elements(free)
  {
    apps, seen := [], {};
    for i := 0 to |free|
      invariant seen == Elements(free[..i])
      invariant apps == FreeEntries(free[..i], known, catalogue)
    {
      var id := free[i];
      assert free[..i + 1] == free[..i] + [id];
      assert free[..i + 1][..i] == free[..i];
      if id in seen {
        assert false;
      } else {
        seen := seen + {id};
        apps := apps + [Fallback(pool, id)];
      }
    }
    assert free[..|free|] == free;
  }

  // Free wins over costing rather than emitting an id twice.
  method CostingOnly(free: seq<string>, costing: seq<string>, freeSeen: set<string>, pool: map<string, LearningApp>,
      known: seq<LearningApp>, catalogue: seq<LearningApp>) returns (apps: seq<LearningApp>)
    requires IsPool(pool, known, catalogue) && NoDup(costing) && freeSeen == Elements(free)
    ensures apps == CostingEntries(costing, free, known, catalogue)
  {
    var seen := freeSeen;
    apps := [];
    for i := 0 to |costing|
      invariant seen == freeSeen + Elements(costing[..i])
      invariant apps == CostingEntries(costing[..i], free, known, catalogue)
    {
      var id := costing[i];
      assert costing[..i + 1] == costing[..i] + [id];
      assert costing[..i + 1][..i] == costing[..i];
      assert id !in Elements(costing[..i]);
      if id !in seen {
        seen := seen + {id};
        apps := apps + [Fallback(pool, id).(free := Some(false))];
      }
    }
    assert costing[..|costing|] == costing;
  }

  method LearningApps(free: seq<string>, costing: seq<string>, known: seq<LearningApp>, catalogue: seq<LearningApp>)
    returns (apps: seq<LearningApp>)
    requires NoDup(free) && NoDup(costing)
    ensures apps == LearningEntries(free, costing, known, catalogue)
  {
    var pool := LearningAppPool(known, catalogue);
    var freeApps, seen := AddFree(free, pool, known, catalogue);
    var costingApps := CostingOnly(free, costing, seen, pool, known, catalogue);
    apps := freeApps + costingApps;
  }

  method GroupsToClauses(d: Draft, prior: Clauses, catalogue: seq<LearningApp>) returns (c: Compiled)
    ensures c == Compile(d, prior, catalogue)
  {
    var rules := BucketsOf(d.groups);
    var askFirst := AskFirstOf(d.groups);
    var free := FreeIds(d.groups);
    FilterNoDup((id: string) => !IsCmdline(id), Dedupe(AllApps(OfPolicy(d.groups, FreeOf))));
    var costing := Dedupe(SiteIds(BucketApps(rules) + askFirst));
    var apps := LearningApps(free, costing, KnownApps(prior), catalogue);
    var learning := Learning(d.learningEnabled, apps, if prior.learning.Some? then prior.learning.value.cap else None);
    var buckets := Buckets(
      d.bucketsEnabled,
      if prior.buckets.Some? && prior.buckets.value.tz != "" then prior.buckets.value.tz else "UTC",
      rules,
      if prior.buckets.Some? then prior.buckets.value.weekStart else None);
    c := Compiled(learning, buckets, Fragment(askFirst, askFirst), Map(RecordOf, OfPolicy(d.groups, FreeOf)));
  }

  // --- reading back ---------------------------------------------------------------

  // The free identities the wire carries.
  function WireIds(apps: seq<LearningApp>): seq<string> {
    Dedupe(Map(MembershipKey, Filter(IsFree, apps)))
  }

  function Keep(apps: seq<string>, wire: seq<string>): seq<string> {
    Filter((id: string) => id in wire, apps)
  }

  function KeptGroup(g: FreeRecord, wire: seq<string>): NamedGroup {
    NamedGroup(g.id, g.name, Keep(g.apps, wire), FreeOf, None, None)
  }

  function KeptGroups(saved: seq<FreeRecord>, wire: seq<string>): (r: seq<NamedGroup>)
    ensures |r| == |saved|
    ensures forall i :: 0 <= i < |r| ==> r[i] == KeptGroup(saved[i], wire)
  {
    Map(g => KeptGroup(g, wire), saved)
  }

  // The saved groups, less what the wire no longer carries; what no group claims
  // joins the first.
  function Rebuilt(saved: seq<FreeRecord>, wire: seq<string>): seq<NamedGroup>
    requires saved != []
  {
    var kept := KeptGroups(saved, wire);
    var leftover := NotIn(wire, AllApps(kept));
    kept[0 := kept[0].(apps := kept[0].apps + leftover)]
  }

  function Container(wire: seq<string>): NamedGroup {
    NamedGroup(RESERVED_FREE_ID, FREE_LABEL, wire, FreeOf, None, None)
  }

  function FreeGroupsOf(learning: Option<Learning>, saved: Option<seq<FreeRecord>>): seq<NamedGroup> {
    var wire := WireIds(if learning.Some? then learning.value.apps else []);
    if saved.Some? && saved.value != [] then Rebuilt(saved.value, wire)
    else if (saved.None? && learning.Some?) || (saved.Some? && wire != []) then [Container(wire)]
    else []
  }

  function GroupOf(b: Bucket): NamedGroup {
    NamedGroup(b.id, b.name, b.apps, Counted, b.daily, b.weekly)
  }

  function CountedGroupsOf(buckets: Option<Buckets>): seq<NamedGroup> {
    if buckets.Some? then Map(GroupOf, buckets.value.buckets) else []
  }

  function AskFirstList(apps: Option<AppsPolicy>): seq<string> {
    if apps.Some? && apps.value.askFirst.Some? then apps.value.askFirst.value else []
  }

  function OnRequestGroupsOf(apps: Option<AppsPolicy>): seq<NamedGroup> {
    if AskFirstList(apps) == [] then []
    else [NamedGroup(RESERVED_ON_REQUEST_ID, ON_REQUEST_LABEL, AskFirstList(apps), OnRequest, None, None)]
  }

  function ReadBack(c: Clauses, saved: Option<seq<FreeRecord>>): Draft {
    Draft(FreeGroupsOf(c.learning, saved) + CountedGroupsOf(c.buckets) + OnRequestGroupsOf(c.apps),
          if c.learning.Some? then c.learning.value.enabled else true,
          if c.buckets.Some? then c.buckets.value.enabled else true)
  }

  lemma {:induction false} AllAppsSnoc(groups: seq<NamedGroup>, g: NamedGroup)
    ensures AllApps(groups + [g]) == AllApps(groups) + g.apps
  {
    if groups == [] {
      assert ([] + [g])[1..] == [];
    } else {
      assert (groups + [g])[0] == groups[0] && (groups + [g])[1..] == groups[1..] + [g];
      AllAppsSnoc(groups[1..], g);
    }
  }

  method RebuildFree(saved: seq<FreeRecord>, wire: seq<string>) returns (groups: seq<NamedGroup>)
    requires saved != []
    ensures groups == Rebuilt(saved, wire)
  {
    var claimed: set<string> := {};
    ghost var kept := KeptGroups(saved, wire);
    groups := [];
    for i := 0 to |saved|
      invariant groups == kept[..i]
      invariant claimed == Elements(AllApps(kept[..i]))
    {
      var g := KeptGroup(saved[i], wire);
      assert kept[..i + 1] == kept[..i] + [g];
      AllAppsSnoc(kept[..i], g);
      groups := groups + [g];
      claimed := claimed + Elements(g.apps);
    }
    assert kept[..|saved|] == kept;
    var leftover := Unclaimed(wire, claimed);
    SameLeftover(wire, claimed, kept);
    groups := JoinFirst(groups, leftover);
  }

  function Unclaimed(wire: seq<string>, claimed: set<string>): seq<string> {
    Filter((id: string) => id !in claimed, wire)
  }

  lemma SameLeftover(wire: seq<string>, claimed: set<string>, kept: seq<NamedGroup>)
    requires claimed == Elements(AllApps(kept))
    ensures Unclaimed(wire, claimed) == NotIn(wire, AllApps(kept))
  {
    SameFilter((id: string) => id !in claimed, (id: string) => id !in AllApps(kept), wire);
  }

  method JoinFirst(kept: seq<NamedGroup>, leftover: seq<string>) returns (groups: seq<NamedGroup>)
    requires kept != []
    ensures groups == kept[0 := kept[0].(apps := kept[0].apps + leftover)]
  {
    groups := kept;
    if leftover != [] {
      groups := groups[0 := groups[0].(apps := groups[0].apps + leftover)];
    } else {
      assert kept[0].apps + [] == kept[0].apps;
    }
  }

  lemma {:induction false} SameFilter<T(!new)>(p: T -> bool, q: T -> bool, s: seq<T>)
    requires forall x :: x in s ==> p(x) == q(x)
    ensures Filter(p, s) == Filter(q, s)
  {
    if s != [] { SameFilter(p, q, s[1..]); }
  }

  method ReadFree(learning: Option<Learning>, saved: Option<seq<FreeRecord>>) returns (groups: seq<NamedGroup>)
    ensures groups == FreeGroupsOf(learning, saved)
  {
    var wire := WireIds(if learning.Some? then learning.value.apps else []);
    if saved.Some? && |saved.value| > 0 {
      groups := RebuildFree(saved.value, wire);
    } else if saved.None? {
      groups := if learning.Some? then [Container(wire)] else [];
    } else {
      groups := if |wire| > 0 then [Container(wire)] else [];
    }
  }

  method ReadCounted(buckets: Option<Buckets>) returns (groups: seq<NamedGroup>)
    ensures groups == CountedGroupsOf(buckets)
  {
    groups := [];
    if buckets.Some? {
      var bs := buckets.value.buckets;
      for i := 0 to |bs|
        invariant groups == CountedGroupsOf(buckets)[..i]
      {
        groups := groups + [GroupOf(bs[i])];
      }
    }
  }

  method Decompose(c: Clauses, saved: Option<seq<FreeRecord>>) returns (d: Draft)
    ensures d == ReadBack(c, saved)
  {
    var groups := ReadFree(c.learning, saved);
    var counted := ReadCounted(c.buckets);
    groups := groups + counted;
    var askFirst := AskFirstList(c.apps);
    if |askFirst| > 0 {
      groups := groups + [NamedGroup(RESERVED_ON_REQUEST_ID, ON_REQUEST_LABEL, askFirst, OnRequest, None, None)];
    }
    d := Draft(groups,
               if c.learning.Some? then c.learning.value.enabled else true,
               if c.buckets.Some? then c.buckets.value.enabled else true);
  }
}
