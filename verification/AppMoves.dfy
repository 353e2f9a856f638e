// Moving an app between named times (domain/namedTimes.ts `moveApp`): over any run
// of moves an app lives in at most one group, and it is the last one it was moved to.

module AppMoves {
  import opened Seqs
  import opened NamedTimes

  datatype MoveResult = Moved(groups: seq<NamedGroup>, movedFrom: Option<string>) | NoSuchGroup

  function GroupNamed(groups: seq<NamedGroup>, id: string): (k: Option<nat>)
    ensures k.Some? ==> k.value < |groups| && groups[k.value].id == id
    ensures k.None? <==> forall i :: 0 <= i < |groups| ==> groups[i].id != id
  {
    if groups == [] then None
    else if groups[|groups| - 1].id == id && GroupNamed(groups[..|groups| - 1], id).None? then Some(|groups| - 1)
    else GroupNamed(groups[..|groups| - 1], id)
  }

  // The first other group holding the app.
  function Origin(groups: seq<NamedGroup>, pkg: string, to: string): (k: Option<nat>)
    ensures k.Some? ==> k.value < |groups| && groups[k.value].id != to && pkg in groups[k.value].apps
    ensures k.Some? ==> forall i :: 0 <= i < k.value ==> groups[i].id == to || pkg !in groups[i].apps
    ensures k.None? <==> forall i :: 0 <= i < |groups| ==> groups[i].id == to || pkg !in groups[i].apps
  {
    if groups == [] then None
    else
      var before := Origin(groups[..|groups| - 1], pkg, to);
      if before.Some? then before
      else if groups[|groups| - 1].id != to && pkg in groups[|groups| - 1].apps then Some(|groups| - 1) else None
  }

  function WithoutApp(apps: seq<string>, pkg: string): seq<string> {
    Filter((p: string) => p != pkg, apps)
  }

  function Rehomed(g: NamedGroup, pkg: string, to: string, from: Option<string>): NamedGroup {
    if g.id == to then g.(apps := g.apps + [pkg])
    else if from == Some(g.id) then g.(apps := WithoutApp(g.apps, pkg))
    else g
  }

  function MoveApp(groups: seq<NamedGroup>, pkg: string, to: string): MoveResult {
    var target := GroupNamed(groups, to);
    if target.None? then NoSuchGroup
    else if pkg in groups[target.value].apps then Moved(groups, None)
    else
      var origin := Origin(groups, pkg, to);
      var from := if origin.Some? then Some(groups[origin.value].id) else None;
      Moved(Map(g => Rehomed(g, pkg, to, from), groups), from)
  }

  predicate UniqueIds(groups: seq<NamedGroup>) {
    forall i, j :: 0 <= i < j < |groups| ==> groups[i].id != groups[j].id
  }

  // Each app in at most one group, once.
  predicate OneGroupPerApp(groups: seq<NamedGroup>) {
    && (forall i :: 0 <= i < |groups| ==> NoDup(groups[i].apps))
    && (forall i, j, x :: 0 <= i < j < |groups| && x in groups[i].apps ==> x !in groups[j].apps)
  }

  ghost predicate Lives(groups: seq<NamedGroup>, x: string, id: string) {
    exists i :: 0 <= i < |groups| && groups[i].id == id && x in groups[i].apps
  }

  // After a move the app is in the target and nowhere else; every other app stays
  // where it was, and so do the groups' ids, names and limits.
  lemma MovedAt(groups: seq<NamedGroup>, pkg: string, to: string, i: nat)
    requires UniqueIds(groups) && OneGroupPerApp(groups) && GroupNamed(groups, to).Some? && i < |groups|
    ensures var after := MoveApp(groups, pkg, to).groups;
      && |after| == |groups|
      && after[i] == groups[i].(apps := after[i].apps)
      && (pkg in after[i].apps <==> groups[i].id == to)
      && (forall x :: x != pkg ==> (x in after[i].apps <==> x in groups[i].apps))
      && NoDup(after[i].apps)
  {
    var t := GroupNamed(groups, to).value;
    if pkg !in groups[t].apps {
      var origin := Origin(groups, pkg, to);
      var from := if origin.Some? then Some(groups[origin.value].id) else None;
      assert MoveApp(groups, pkg, to).groups[i] == Rehomed(groups[i], pkg, to, from);
      assert groups[i].id == to ==> i == t;
      assert from == Some(groups[i].id) ==> i == origin.value;
      RehomedGroup(groups[i], pkg, to, from);
    }
  }

  lemma RehomedGroup(g: NamedGroup, pkg: string, to: string, from: Option<string>)
    requires NoDup(g.apps) && (g.id == to ==> pkg !in g.apps)
    requires g.id != to && pkg in g.apps ==> from == Some(g.id)
    ensures var h := Rehomed(g, pkg, to, from);
      && h == g.(apps := h.apps) && NoDup(h.apps)
      && (pkg in h.apps <==> g.id == to)
      && (forall x :: x != pkg ==> (x in h.apps <==> x in g.apps))
  {
    FilterNoDup((p: string) => p != pkg, g.apps);
  }

  lemma MoveKeepsOneGroupPerApp(groups: seq<NamedGroup>, pkg: string, to: string)
    requires UniqueIds(groups) && OneGroupPerApp(groups) && GroupNamed(groups, to).Some?
    ensures var after := MoveApp(groups, pkg, to).groups;
      UniqueIds(after) && OneGroupPerApp(after)
  {
    var after := MoveApp(groups, pkg, to).groups;
    forall i | 0 <= i < |groups|
      ensures |after| == |groups| && after[i].id == groups[i].id && NoDup(after[i].apps)
    {
      MovedAt(groups, pkg, to, i);
    }
    forall i, j, x | 0 <= i < j < |after| && x in after[i].apps ensures x !in after[j].apps {
      MovedAt(groups, pkg, to, i);
      MovedAt(groups, pkg, to, j);
    }
  }

  // What a move reports: the group the app left, if it was elsewhere.
  lemma MoveNamesTheOrigin(groups: seq<NamedGroup>, pkg: string, to: string, id: string)
    requires UniqueIds(groups) && OneGroupPerApp(groups) && GroupNamed(groups, to).Some?
    ensures MoveApp(groups, pkg, to).movedFrom == Some(id) <==> id != to && Lives(groups, pkg, id)
  {
    var t := GroupNamed(groups, to).value;
    var origin := Origin(groups, pkg, to);
    if id != to && Lives(groups, pkg, id) {
      var i :| 0 <= i < |groups| && groups[i].id == id && pkg in groups[i].apps;
      assert pkg !in groups[t].apps;
      assert origin.Some? && origin.value == i;
    }
  }

  // --- any run of moves ---------------------------------------------------------

  datatype Move = Move(pkg: string, to: string)

  // A move to no group is refused and leaves the groups alone.
  function Step(groups: seq<NamedGroup>, m: Move): seq<NamedGroup> {
    var r := MoveApp(groups, m.pkg, m.to);
    if r.NoSuchGroup? then groups else r.groups
  }

  function RunMoves(groups: seq<NamedGroup>, moves: seq<Move>): seq<NamedGroup> {
    if moves == [] then groups else Step(RunMoves(groups, moves[..|moves| - 1]), moves[|moves| - 1])
  }

  // The last existing group an app was moved to.
  function LastTarget(groups: seq<NamedGroup>, moves: seq<Move>, x: string): Option<string> {
    if moves == [] then None
    else
      var m := moves[|moves| - 1];
      if m.pkg == x && GroupNamed(groups, m.to).Some? then Some(m.to)
      else LastTarget(groups, moves[..|moves| - 1], x)
  }

  predicate SameIds(a: seq<NamedGroup>, b: seq<NamedGroup>) {
    |a| == |b| && forall i :: 0 <= i < |a| ==> a[i].id == b[i].id
  }

  lemma StepKeeps(groups: seq<NamedGroup>, m: Move, x: string, id: string)
    requires UniqueIds(groups) && OneGroupPerApp(groups)
    ensures var after := Step(groups, m);
      && UniqueIds(after) && OneGroupPerApp(after) && SameIds(after, groups)
      && (Lives(after, x, id) <==>
            if m.pkg == x && GroupNamed(groups, m.to).Some? then id == m.to else Lives(groups, x, id))
  {
    var after := Step(groups, m);
    if GroupNamed(groups, m.to).Some? {
      MoveKeepsOneGroupPerApp(groups, m.pkg, m.to);
      forall i | 0 <= i < |groups|
        ensures |after| == |groups| && after[i].id == groups[i].id
        ensures x in after[i].apps <==> if m.pkg == x then groups[i].id == m.to else x in groups[i].apps
      {
        MovedAt(groups, m.pkg, m.to, i);
      }
      LivesWhere(groups, after, m, x, id);
    }
  }

  lemma LivesWhere(groups: seq<NamedGroup>, after: seq<NamedGroup>, m: Move, x: string, id: string)
    requires SameIds(after, groups) && GroupNamed(groups, m.to).Some?
    requires forall i :: 0 <= i < |groups| ==>
      (x in after[i].apps <==> if m.pkg == x then groups[i].id == m.to else x in groups[i].apps)
    ensures Lives(after, x, id) <==> if m.pkg == x then id == m.to else Lives(groups, x, id)
  {
    if m.pkg == x && id == m.to {
      var t := GroupNamed(groups, m.to).value;
      assert x in after[t].apps && after[t].id == id;
    }
    if m.pkg != x && Lives(groups, x, id) {
      var i :| 0 <= i < |groups| && groups[i].id == id && x in groups[i].apps;
      assert x in after[i].apps && after[i].id == id;
    }
  }

  lemma SameIdsSameTargets(a: seq<NamedGroup>, b: seq<NamedGroup>, id: string)
    requires SameIds(a, b)
    ensures GroupNamed(a, id).Some? <==> GroupNamed(b, id).Some?
  {
  }

  // After any run of moves each app is in at most one group: the last existing one
  // it was moved to, or, never moved, the one it started in.
  lemma {:induction false} MovesLeaveEachAppInOneGroup(groups: seq<NamedGroup>, moves: seq<Move>, x: string, id: string)
    requires UniqueIds(groups) && OneGroupPerApp(groups)
    ensures var after := RunMoves(groups, moves);
      && UniqueIds(after) && OneGroupPerApp(after) && SameIds(after, groups)
      && (Lives(after, x, id) <==>
            if LastTarget(groups, moves, x).Some? then LastTarget(groups, moves, x) == Some(id) else Lives(groups, x, id))
  {
    if moves != [] {
      var before, m := RunMoves(groups, moves[..|moves| - 1]), moves[|moves| - 1];
      MovesLeaveEachAppInOneGroup(groups, moves[..|moves| - 1], x, id);
      StepKeeps(before, m, x, id);
      SameIdsSameTargets(before, groups, m.to);
    }
  }
}
