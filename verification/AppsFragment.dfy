// Layering the on-request apps over the block and allow lists another editor
// owns (domain/namedTimes.ts `applyAppsFragment`, `stripManagedApps`).

module AppsFragment {
  import opened Seqs
  import opened JsText
  import opened EffectivePolicy
  import opened NamedTimes

  function AskedIn(prior: Option<AppsPolicy>): seq<string> { AskFirstList(prior) }

  // Blocks the named times did not add.
  function ManualBlocks(prior: Option<AppsPolicy>): seq<string> {
    if prior.None? then [] else NotIn(prior.value.blocked, AskedIn(prior))
  }

  function ApplyFragment(prior: Option<AppsPolicy>, f: Fragment): (r: AppsPolicy)
    ensures prior.Some? ==> r.holds == prior.value.holds && r.allowed == prior.value.allowed && r.posture == prior.value.posture
  {
    AppsPolicy(
      (prior.Some? && prior.value.enabled) || f.askFirst != [],
      if prior.Some? then prior.value.posture else Blocklist,
      Dedupe(ManualBlocks(prior) + f.blockedAdd),
      if prior.Some? then prior.value.allowed else [],
      if prior.Some? then prior.value.holds else None,
      if f.askFirst != [] then Some(Dedupe(f.askFirst)) else None,
      if prior.Some? && prior.value.hidden.Some? && prior.value.hidden.value != [] then prior.value.hidden else None)
  }

  // A fragment as `groupsToClauses` makes it.
  predicate FromGroups(f: Fragment) { f.blockedAdd == f.askFirst && Clean(f.askFirst) }

  ghost predicate SameMembers(a: seq<string>, b: seq<string>) { forall x :: x in a <==> x in b }

  lemma CompiledFragment(d: Draft, prior: Clauses, catalogue: seq<LearningApp>)
    ensures FromGroups(Compile(d, prior, catalogue).apps)
  {
    var all := Dedupe(AllApps(OfPolicy(d.groups, OnRequest)));
    var kept := NoCmdline(all);
    FilterNoDup((id: string) => !IsCmdline(id), all);
    forall i | 0 <= i < |kept| ensures kept[i] != "" && Trimmed(kept[i]) {
      assert kept[i] in kept;
      assert kept[i] in all;
      var j :| 0 <= j < |all| && all[j] == kept[i];
    }
  }

  // `x` is what trimming some entry of the list leaves.
  predicate TrimsTo(list: seq<string>, x: string) {
    x != "" && exists i :: 0 <= i < |list| && Trim(list[i]) == x
  }

  lemma DedupeMembers(list: seq<string>, x: string)
    ensures x in Dedupe(list) <==> TrimsTo(list, x)
  {
    if x in Dedupe(list) {
      var s := DedupeSource(list, x);
    }
  }

  predicate AllTrimmed(list: seq<string>) {
    forall i :: 0 <= i < |list| ==> list[i] != "" && Trimmed(list[i])
  }

  lemma TrimsToItself(list: seq<string>, x: string)
    requires AllTrimmed(list)
    ensures TrimsTo(list, x) <==> x in list
  {
    assert forall i :: 0 <= i < |list| ==> Trim(list[i]) == list[i];
  }

  lemma TrimsToSplit(a: seq<string>, b: seq<string>, x: string)
    ensures TrimsTo(a + b, x) <==> TrimsTo(a, x) || TrimsTo(b, x)
  {
    var list := a + b;
    if TrimsTo(list, x) {
      var i :| 0 <= i < |list| && Trim(list[i]) == x;
      if i < |a| { assert Trim(a[i]) == x; } else { assert Trim(b[i - |a|]) == x; }
    }
    if TrimsTo(a, x) {
      var i :| 0 <= i < |a| && Trim(a[i]) == x;
      assert list[i] == a[i];
    }
    if TrimsTo(b, x) {
      var i :| 0 <= i < |b| && Trim(b[i]) == x;
      assert list[|a| + i] == b[i];
    }
  }

  lemma DedupeOfTwo(manual: seq<string>, asked: seq<string>, x: string)
    requires AllTrimmed(asked)
    ensures x in Dedupe(manual + asked) <==> TrimsTo(manual, x) || x in asked
  {
    DedupeMembers(manual + asked, x);
    TrimsToSplit(manual, asked, x);
    TrimsToItself(asked, x);
  }

  lemma AskedAfter(prior: Option<AppsPolicy>, f: Fragment)
    requires FromGroups(f)
    ensures AskedIn(Some(ApplyFragment(prior, f))) == f.askFirst
  {
    DedupeOfClean(f.askFirst);
  }

  // Blocked afterwards: every manual block, trimmed, and every on-request app.
  lemma BlockedIsManualAndAsked(prior: Option<AppsPolicy>, f: Fragment, x: string)
    requires FromGroups(f)
    ensures x in ApplyFragment(prior, f).blocked <==> TrimsTo(ManualBlocks(prior), x) || x in f.askFirst
  {
    DedupeOfTwo(ManualBlocks(prior), f.askFirst, x);
  }

  lemma FilteredStaysTrimmed(list: seq<string>, others: seq<string>)
    requires AllTrimmed(list)
    ensures AllTrimmed(NotIn(list, others))
  {
    var kept := NotIn(list, others);
    forall i | 0 <= i < |kept| ensures kept[i] != "" && Trimmed(kept[i]) {
      assert kept[i] in kept;
      var j :| 0 <= j < |list| && list[j] == kept[i];
    }
  }

  // A result's own manual blocks are already trimmed.
  lemma ManualOfResult(prior: Option<AppsPolicy>, f: Fragment, x: string)
    requires FromGroups(f)
    ensures TrimsTo(ManualBlocks(Some(ApplyFragment(prior, f))), x)
       <==> TrimsTo(ManualBlocks(prior), x) && x !in f.askFirst
  {
    var once := ApplyFragment(prior, f);
    AskedAfter(prior, f);
    BlockedIsManualAndAsked(prior, f, x);
    FilteredStaysTrimmed(once.blocked, f.askFirst);
    TrimsToItself(NotIn(once.blocked, f.askFirst), x);
  }

  // What a second save's fragment makes of a first save's result: the first
  // fragment's apps are lifted unless asked for again, and a manual block stays
  // unless the first fragment had absorbed it.
  lemma ReplacingAFragment(prior: Option<AppsPolicy>, f: Fragment, g: Fragment, x: string)
    requires FromGroups(f) && FromGroups(g)
    ensures x in ApplyFragment(Some(ApplyFragment(prior, f)), g).blocked
       <==> (TrimsTo(ManualBlocks(prior), x) && x !in f.askFirst) || x in g.askFirst
    ensures AskedIn(Some(ApplyFragment(Some(ApplyFragment(prior, f)), g))) == g.askFirst
  {
    ManualOfResult(prior, f, x);
    AskedAfter(Some(ApplyFragment(prior, f)), g);
    BlockedIsManualAndAsked(Some(ApplyFragment(prior, f)), g, x);
  }

  // A manual block the first save absorbed and the second does not ask for.
  predicate Dropped(prior: Option<AppsPolicy>, f: Fragment, g: Fragment, x: string) {
    TrimsTo(ManualBlocks(prior), x) && x in f.askFirst && x !in g.askFirst
  }

  lemma ComposeAt(prior: Option<AppsPolicy>, f: Fragment, g: Fragment, x: string)
    requires FromGroups(f) && FromGroups(g)
    ensures (x in ApplyFragment(Some(ApplyFragment(prior, f)), g).blocked <==> x in ApplyFragment(prior, g).blocked)
       <==> !Dropped(prior, f, g, x)
  {
    ReplacingAFragment(prior, f, g, x);
    BlockedIsManualAndAsked(prior, g, x);
  }

  ghost predicate DifferExactlyAt(a: seq<string>, b: seq<string>, bad: string -> bool) {
    forall x :: (x in a <==> x in b) <==> !bad(x)
  }

  lemma SameWhereNothingBad(a: seq<string>, b: seq<string>, bad: string -> bool)
    requires DifferExactlyAt(a, b, bad)
    ensures SameMembers(a, b) <==> forall x :: !bad(x)
  {
  }

  // Two saves block what the second alone would, exactly when no manual block was
  // asked for in the first and dropped in the second.
  lemma SavesComposeExactly(prior: Option<AppsPolicy>, f: Fragment, g: Fragment)
    requires FromGroups(f) && FromGroups(g)
    ensures SameMembers(ApplyFragment(Some(ApplyFragment(prior, f)), g).blocked, ApplyFragment(prior, g).blocked)
      <==> forall x :: !Dropped(prior, f, g, x)
  {
    var twice, once := ApplyFragment(Some(ApplyFragment(prior, f)), g).blocked, ApplyFragment(prior, g).blocked;
    var bad := (x: string) => Dropped(prior, f, g, x);
    assert DifferExactlyAt(twice, once, bad) by {
      forall x ensures (x in twice <==> x in once) <==> !bad(x) { ComposeAt(prior, f, g, x); }
    }
    SameWhereNothingBad(twice, once, bad);
    assert forall x :: bad(x) == Dropped(prior, f, g, x);
  }

  // Applying one fragment again changes nothing but, at most, the block list's order.
  lemma ApplyingAgainIsNeutral(prior: Option<AppsPolicy>, f: Fragment)
    requires FromGroups(f)
    ensures var once := ApplyFragment(prior, f);
      var twice := ApplyFragment(Some(once), f);
      SameMembers(twice.blocked, once.blocked) && twice.(blocked := once.blocked) == once
  {
    SavesComposeExactly(prior, f, f);
    AskedAfter(prior, f);
    AskedAfter(Some(ApplyFragment(prior, f)), f);
  }

  // What another editor may show: the lists without the managed apps.
  function StripManaged(apps: AppsPolicy, managed: set<string>): AppsPolicy {
    if managed == {} then apps
    else
      var asked := if apps.askFirst.Some? then Unclaimed(apps.askFirst.value, managed) else [];
      apps.(blocked := Unclaimed(apps.blocked, managed),
            allowed := Unclaimed(apps.allowed, managed),
            askFirst := if apps.askFirst.Some? && apps.askFirst.value != []
                        then (if asked != [] then Some(asked) else None) else apps.askFirst)
  }

  // What showing the stripped value to another editor and writing it straight back
  // leaves, once the fragment is layered over it.
  function StrippedAndBack(prior: AppsPolicy, f: Fragment): AppsPolicy {
    ApplyFragment(Some(StripManaged(prior, Elements(f.askFirst))), f)
  }

  lemma StrippedManual(prior: AppsPolicy, f: Fragment, x: string)
    ensures x in ManualBlocks(Some(StripManaged(prior, Elements(f.askFirst))))
      <==> x in ManualBlocks(Some(prior)) && x !in f.askFirst
  {
    var shown := StripManaged(prior, Elements(f.askFirst));
    if f.askFirst != [] {
      assert f.askFirst[0] in Elements(f.askFirst);
      assert x !in f.askFirst ==> (x in AskedIn(Some(shown)) <==> x in AskedIn(Some(prior)));
    }
  }

  lemma TrimsOfFewer(all: seq<string>, fewer: seq<string>, asked: seq<string>, x: string)
    requires Clean(asked) && x !in asked
    requires forall y :: y in fewer <==> y in all && y !in asked
    ensures TrimsTo(fewer, x) <==> TrimsTo(all, x)
  {
    if TrimsTo(all, x) {
      var i :| 0 <= i < |all| && Trim(all[i]) == x;
      assert all[i] in fewer;
      var j :| 0 <= j < |fewer| && fewer[j] == all[i];
    }
    if TrimsTo(fewer, x) {
      var i :| 0 <= i < |fewer| && Trim(fewer[i]) == x;
      assert fewer[i] in all;
      var j :| 0 <= j < |all| && all[j] == fewer[i];
    }
  }

  // Whatever was asked for before, the same apps are blocked.
  lemma StrippingKeepsTheBlocks(prior: AppsPolicy, f: Fragment, x: string)
    requires FromGroups(f)
    ensures x in StrippedAndBack(prior, f).blocked <==> x in ApplyFragment(Some(prior), f).blocked
  {
    var shown := StripManaged(prior, Elements(f.askFirst));
    BlockedIsManualAndAsked(Some(shown), f, x);
    BlockedIsManualAndAsked(Some(prior), f, x);
    if x !in f.askFirst {
      forall y ensures y in ManualBlocks(Some(shown)) <==> y in ManualBlocks(Some(prior)) && y !in f.askFirst {
        StrippedManual(prior, f, y);
      }
      TrimsOfFewer(ManualBlocks(Some(prior)), ManualBlocks(Some(shown)), f.askFirst, x);
    }
  }

  // The allow list loses its managed apps, for good.
  lemma StrippingTrimsTheAllowList(prior: AppsPolicy, f: Fragment)
    ensures StrippedAndBack(prior, f).allowed == NotIn(prior.allowed, f.askFirst)
    ensures StrippedAndBack(prior, f).allowed == prior.allowed
      <==> forall i :: 0 <= i < |prior.allowed| ==> prior.allowed[i] !in f.askFirst
  {
    var managed := Elements(f.askFirst);
    SameFilter((id: string) => id !in managed, (id: string) => id !in f.askFirst, prior.allowed);
    var kept := NotIn(prior.allowed, f.askFirst);
    if managed == {} {
      assert forall x :: x in f.askFirst ==> x in managed;
      FilterAll((id: string) => id !in f.askFirst, prior.allowed);
    }
    if forall i :: 0 <= i < |prior.allowed| ==> prior.allowed[i] !in f.askFirst {
      FilterAll((id: string) => id !in f.askFirst, prior.allowed);
    } else {
      var i :| 0 <= i < |prior.allowed| && prior.allowed[i] in f.askFirst;
      assert prior.allowed[i] !in kept;
    }
  }

  // So the strip is free, but for the order of the block list, exactly when no managed
  // app is on the allow list.
  lemma StrippingIsFreeExactly(prior: AppsPolicy, f: Fragment)
    requires FromGroups(f)
    ensures var direct, back := ApplyFragment(Some(prior), f), StrippedAndBack(prior, f);
      (SameMembers(back.blocked, direct.blocked) && back.(blocked := direct.blocked) == direct)
      <==> forall i :: 0 <= i < |prior.allowed| ==> prior.allowed[i] !in f.askFirst
  {
    var direct, back := ApplyFragment(Some(prior), f), StrippedAndBack(prior, f);
    StrippingTrimsTheAllowList(prior, f);
    forall x ensures x in back.blocked <==> x in direct.blocked { StrippingKeepsTheBlocks(prior, f, x); }
    assert back.(blocked := direct.blocked) == direct <==> back.allowed == direct.allowed;
  }

  // A save switches the app rules on when it asks for anything and otherwise leaves
  // that alone; it never switches them off, nor touches holds, posture or allow list.
  lemma RulesNeverSwitchOff(prior: Option<AppsPolicy>, f: Fragment)
    requires FromGroups(f)
    ensures var r := ApplyFragment(prior, f);
      && (r.enabled <==> (prior.Some? && prior.value.enabled) || f.askFirst != [])
      && r.askFirst == (if f.askFirst != [] then Some(f.askFirst) else None)
      && (prior.Some? ==> r.posture == prior.value.posture && r.allowed == prior.value.allowed && r.holds == prior.value.holds)
      && (prior.Some? && prior.value.hidden != Some([]) ==> r.hidden == prior.value.hidden)
      && (prior.None? ==> r.posture == Blocklist && r.allowed == [] && r.holds.None? && r.hidden.None?)
  {
    DedupeOfClean(f.askFirst);
  }
}
