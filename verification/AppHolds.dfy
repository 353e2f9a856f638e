// Time-boxed holds on one app (domain/appHolds.ts): "just for an hour".

module AppHolds {
  import opened Seqs
  import opened EffectivePolicy
  import JsText

  const MAX_HOLD_SECONDS := 24 * 60 * 60
  const MAX_HOLDS := 64

  // `pkg.trim()` is not empty (JsText.TrimKeepsInk), and the hold ends later than
  // now but within a day.
  predicate Live(h: AppHold, now: int) {
    JsText.HasInk(h.pkg) && now < h.until <= now + MAX_HOLD_SECONDS
  }

  function LiveHolds(holds: seq<AppHold>, now: int): seq<AppHold> {
    Filter((h: AppHold) => Live(h, now), holds)
  }

  function FirstHolds(holds: seq<AppHold>): (r: seq<AppHold>)
    ensures |r| <= MAX_HOLDS && forall h :: h in r ==> h in holds
  {
    if |holds| <= MAX_HOLDS then holds else holds[..MAX_HOLDS]
  }

  function PruneHolds(holds: Option<seq<AppHold>>, now: int): (r: seq<AppHold>)
    ensures |r| <= MAX_HOLDS && forall h :: h in r ==> Live(h, now)
  {
    if holds.None? then [] else FirstHolds(LiveHolds(holds.value, now))
  }

  // The last listed hold on `pkg`.
  function LastFor(holds: seq<AppHold>, pkg: string): Option<AppHold> {
    if holds == [] then None
    else if holds[|holds| - 1].pkg == pkg then Some(holds[|holds| - 1])
    else LastFor(holds[..|holds| - 1], pkg)
  }

  function HoldFor(apps: AppsPolicy, pkg: string, now: int): Option<AppHold> {
    LastFor(PruneHolds(apps.holds, now), pkg)
  }

  function OtherHolds(holds: seq<AppHold>, pkg: string): seq<AppHold> {
    Filter((h: AppHold) => h.pkg != pkg, holds)
  }

  // Replace any hold the app had; `until` of None lifts it.
  function PutHold(apps: AppsPolicy, pkg: string, state: HoldState, until: Option<int>, now: int): AppsPolicy {
    var rest := OtherHolds(PruneHolds(apps.holds, now), pkg);
    apps.(holds := Some(if until.None? then rest else rest + [AppHold(pkg, state, until.value)]))
  }

  function StandingState(apps: AppsPolicy, pkg: string): HoldState {
    if apps.posture.Allowlist? then (if pkg in apps.allowed then Allowed else Blocked)
    else if pkg in apps.blocked then Blocked else Allowed
  }

  function EffectiveState(apps: AppsPolicy, pkg: string, now: int): HoldState {
    var h := HoldFor(apps, pkg, now);
    if h.Some? then h.value.state else StandingState(apps, pkg)
  }

  datatype ComposedHold = ComposedHold(apps: AppsPolicy, deviceOverrides: Option<map<string, Controls>>)

  // The device's own app rules, where it splits them.
  function SplitApps(o: Option<map<string, Controls>>, device: string): Option<AppsPolicy> {
    if o.Some? && device in o.value && AppsC in o.value[device] && o.value[device][AppsC].AppsValue?
    then Some(o.value[device][AppsC].apps)
    else None
  }

  // The app rules a device runs under a base and its overrides.
  function AppsOn(c: ComposedHold, device: string): AppsPolicy {
    var own := SplitApps(c.deviceOverrides, device);
    if own.Some? then own.value else c.apps
  }

  // The hold lands in the asking device's own rules if it has any, else the base.
  function ComposeDeviceHold(base: ComposedHold, device: Option<string>, pkg: string, state: HoldState,
                             until: int, now: int): ComposedHold
  {
    var own := if device.Some? && device.value != "" then SplitApps(base.deviceOverrides, device.value) else None;
    if own.Some? then
      var d := device.value;
      var o := base.deviceOverrides.value;
      ComposedHold(base.apps,
        Some(o[d := o[d][AppsC := AppsValue(PutHold(own.value, pkg, state, Some(until), now))]]))
    else
      ComposedHold(PutHold(base.apps, pkg, state, Some(until), now), base.deviceOverrides)
  }

  // `Live` is the app's own rule.
  lemma LiveIsTheRule(h: AppHold, now: int)
    ensures Live(h, now) <==> JsText.Trim(h.pkg) != "" && now < h.until <= now + 86_400
  {
    JsText.TrimKeepsInk(h.pkg);
  }

  // --- exactly its interval ---------------------------------------------------------

  // The holds on other apps that are live now: what a new hold joins.
  function Others(apps: AppsPolicy, pkg: string, now: int): seq<AppHold> {
    OtherHolds(PruneHolds(apps.holds, now), pkg)
  }

  lemma {:induction false} NoHoldOnPkg(holds: seq<AppHold>, pkg: string)
    requires forall h :: h in holds ==> h.pkg != pkg
    ensures LastFor(holds, pkg) == None
  {
    if holds != [] { NoHoldOnPkg(holds[..|holds| - 1], pkg); }
  }

  // What is live at `t` after a hold was put at `now`.
  lemma LiveAfterPut(apps: AppsPolicy, pkg: string, state: HoldState, until: int, now: int, t: int)
    ensures var held := PutHold(apps, pkg, state, Some(until), now);
      var h := AppHold(pkg, state, until);
      LiveHolds(held.holds.value, t) == LiveHolds(Others(apps, pkg, now), t) + (if Live(h, t) then [h] else [])
  {
    var h := AppHold(pkg, state, until);
    FilterConcat((h: AppHold) => Live(h, t), Others(apps, pkg, now), [h]);
    assert [h][1..] == [];
    assert LiveHolds([h], t) == if Live(h, t) then [h] else [];
  }

  // A put hold is the one in force at exactly the instants of its interval.
  lemma HoldLivesItsInterval(apps: AppsPolicy, pkg: string, state: HoldState, until: int, now: int, t: int)
    requires now < until <= now + 86_400 && JsText.HasInk(pkg) && now <= t
    requires |Others(apps, pkg, now)| < 64
    ensures HoldFor(PutHold(apps, pkg, state, Some(until), now), pkg, t)
         == if t < until then Some(AppHold(pkg, state, until)) else None
  {
    LiveAfterPut(apps, pkg, state, until, now, t);
    var live := LiveHolds(PutHold(apps, pkg, state, Some(until), now).holds.value, t);
    var rest := LiveHolds(Others(apps, pkg, now), t);
    assert FirstHolds(live) == live;
    if t >= until { NoHoldOnPkg(rest, pkg); assert live == rest; }
  }

  // ... and the list has room for it if and only if fewer than 64 other holds are live.
  lemma HoldIsKeptIffThereIsRoom(apps: AppsPolicy, pkg: string, state: HoldState, until: int, now: int)
    requires now < until <= now + 86_400 && JsText.HasInk(pkg)
    ensures HoldFor(PutHold(apps, pkg, state, Some(until), now), pkg, now) == Some(AppHold(pkg, state, until))
       <==> |Others(apps, pkg, now)| < 64
  {
    var rest := Others(apps, pkg, now);
    if |rest| < MAX_HOLDS {
      HoldLivesItsInterval(apps, pkg, state, until, now, now);
    } else {
      LiveAfterPut(apps, pkg, state, until, now, now);
      FilterAll((h: AppHold) => Live(h, now), rest);
      var live := LiveHolds(PutHold(apps, pkg, state, Some(until), now).holds.value, now);
      assert FirstHolds(live) == rest;
      NoHoldOnPkg(rest, pkg);
    }
  }

  // Lifting a hold returns the app to its standing state at once, and for good.
  lemma LiftReturnsToStanding(apps: AppsPolicy, pkg: string, state: HoldState, now: int, t: int)
    requires now <= t
    ensures EffectiveState(PutHold(apps, pkg, state, None, now), pkg, t) == StandingState(apps, pkg)
  {
    var kept := LiveHolds(Others(apps, pkg, now), t);
    NoHoldOnPkg(FirstHolds(kept), pkg);
  }

  // --- what a put does to the other apps ------------------------------------------------

  // What the holds that pruning keeps at `now`, and no others, say of `q` at `t`.
  function KeptState(apps: AppsPolicy, q: string, now: int, t: int): HoldState {
    var h := LastFor(LiveHolds(PruneHolds(apps.holds, now), t), q);
    if h.Some? then h.value.state else StandingState(apps, q)
  }

  lemma LastForSnoc(holds: seq<AppHold>, h: AppHold, q: string)
    ensures LastFor(holds + [h], q) == if h.pkg == q then Some(h) else LastFor(holds, q)
  {
    assert (holds + [h])[..|holds|] == holds;
  }

  lemma OthersSnoc(holds: seq<AppHold>, h: AppHold, pkg: string)
    ensures OtherHolds(holds + [h], pkg) == OtherHolds(holds, pkg) + if h.pkg != pkg then [h] else []
  {
    FilterConcat((g: AppHold) => g.pkg != pkg, holds, [h]);
    assert [h][1..] == [];
  }

  lemma {:induction false} OtherHoldsKeepTheLast(holds: seq<AppHold>, pkg: string, q: string)
    requires q != pkg
    ensures LastFor(OtherHolds(holds, pkg), q) == LastFor(holds, q)
  {
    if holds != [] {
      var init, h := holds[..|holds| - 1], holds[|holds| - 1];
      assert holds == init + [h];
      OtherHoldsKeepTheLast(init, pkg, q);
      OthersSnoc(init, h, pkg);
      var kept := OtherHolds(init, pkg);
      if h.pkg != pkg {
        LastForSnoc(kept, h, q);
      } else {
        assert OtherHolds(holds, pkg) == kept + [] == kept;
      }
      LastForSnoc(init, h, q);
    }
  }

  lemma {:induction false} LiveOthersCommute(holds: seq<AppHold>, pkg: string, t: int)
    ensures LiveHolds(OtherHolds(holds, pkg), t) == OtherHolds(LiveHolds(holds, t), pkg)
  {
    if holds != [] {
      LiveOthersCommute(holds[1..], pkg, t);
      var h := holds[0];
      FilterConcat((g: AppHold) => Live(g, t), if h.pkg != pkg then [h] else [], OtherHolds(holds[1..], pkg));
      FilterConcat((g: AppHold) => g.pkg != pkg, if Live(h, t) then [h] else [], LiveHolds(holds[1..], t));
    }
  }

  lemma {:induction false} LiveIsShorter(holds: seq<AppHold>, t: int)
    ensures |LiveHolds(holds, t)| <= |holds|
  {
  }

  // After a put, or a lift, another app goes by the holds pruning kept, and by them alone.
  lemma OthersGoByTheKept(apps: AppsPolicy, pkg: string, state: HoldState, until: Option<int>, now: int, q: string, t: int)
    requires q != pkg
    ensures EffectiveState(PutHold(apps, pkg, state, until, now), q, t) == KeptState(apps, q, now, t)
  {
    var kept := PruneHolds(apps.holds, now);
    var rest := OtherHolds(kept, pkg);
    LiveOthersCommute(kept, pkg, t);
    OtherHoldsKeepTheLast(LiveHolds(kept, t), pkg, q);
    LiveIsShorter(rest, t);
    var live := LiveHolds(rest, t);
    assert LastFor(live, q) == LastFor(LiveHolds(kept, t), q);
    if until.None? {
      assert FirstHolds(live) == live;
    } else {
      LiveAfterPut(apps, pkg, state, until.value, now, t);
      OneMoreCannotCount(live, AppHold(pkg, state, until.value), q, Live(AppHold(pkg, state, until.value), t));
    }
  }

  // One more hold at the end, on another app, changes nothing for `q`.
  lemma OneMoreCannotCount(live: seq<AppHold>, h: AppHold, q: string, there: bool)
    requires |live| <= 64 && h.pkg != q
    ensures LastFor(FirstHolds(live + if there then [h] else []), q) == LastFor(live, q)
  {
    if there {
      LastForSnoc(live, h, q);
      if |live| == MAX_HOLDS { assert (live + [h])[..MAX_HOLDS] == live; }
    } else {
      assert live + [] == live;
    }
  }

  // When anything about the listed holds changes from `now` on: a hold comes within a
  // day of its end, or ends.
  function Changes(holds: seq<AppHold>, now: int): (r: seq<int>)
    ensures r != [] && r[0] == now && forall c :: c in r ==> c >= now
  {
    if holds == [] then [now]
    else
      var before := Changes(holds[..|holds| - 1], now);
      var h := holds[|holds| - 1];
      before + (if h.until - MAX_HOLD_SECONDS >= now then [h.until - MAX_HOLD_SECONDS] else [])
             + (if h.until >= now then [h.until] else [])
  }

  lemma {:induction false} ChangesOfOne(holds: seq<AppHold>, now: int, k: nat)
    requires k < |holds|
    ensures holds[k].until - 86_400 >= now ==> holds[k].until - 86_400 in Changes(holds, now)
    ensures holds[k].until >= now ==> holds[k].until in Changes(holds, now)
  {
    var n := |holds| - 1;
    if k < n { ChangesOfOne(holds[..n], now, k); }
  }

  // The last change at or before `t`.
  lemma {:induction false} LatestOf(cs: seq<int>, now: int, t: int) returns (c: int)
    requires cs != [] && cs[0] == now && now <= t
    ensures c in cs && c <= t && forall d :: d in cs && d <= t ==> d <= c
  {
    var n := |cs| - 1;
    if n == 0 {
      c := now;
    } else {
      c := LatestOf(cs[..n], now, t);
      if c < cs[n] <= t { c := cs[n]; }
      assert forall d :: d in cs ==> d in cs[..n] || d == cs[n];
    }
  }

  lemma NothingChangesBetween(holds: seq<AppHold>, now: int, c: int, t: int, k: nat)
    requires k < |holds| && now <= c <= t
    requires forall d :: d in Changes(holds, now) && d <= t ==> d <= c
    ensures Live(holds[k], t) == Live(holds[k], c)
  {
    ChangesOfOne(holds, now, k);
  }

  lemma {:induction false} SameLiveSameHolds(holds: seq<AppHold>, c: int, t: int)
    requires forall k :: 0 <= k < |holds| ==> Live(holds[k], t) == Live(holds[k], c)
    ensures LiveHolds(holds, t) == LiveHolds(holds, c)
  {
    if holds != [] {
      assert forall k :: 0 <= k < |holds[1..]| ==> holds[1..][k] == holds[k + 1];
      SameLiveSameHolds(holds[1..], c, t);
    }
  }

  function Listed(apps: AppsPolicy): seq<AppHold> { if apps.holds.Some? then apps.holds.value else [] }

  lemma SteadyBetweenChanges(apps: AppsPolicy, q: string, now: int, c: int, t: int)
    requires now <= c <= t
    requires forall d :: d in Changes(Listed(apps), now) && d <= t ==> d <= c
    ensures EffectiveState(apps, q, t) == EffectiveState(apps, q, c)
    ensures KeptState(apps, q, now, t) == KeptState(apps, q, now, c)
  {
    var holds, kept := Listed(apps), PruneHolds(apps.holds, now);
    forall k | 0 <= k < |holds| ensures Live(holds[k], t) == Live(holds[k], c) {
      NothingChangesBetween(holds, now, c, t, k);
    }
    SameLiveSameHolds(holds, c, t);
    forall k | 0 <= k < |kept| ensures Live(kept[k], t) == Live(kept[k], c) {
      assert kept[k] in kept;
      assert kept[k] in holds;
      var j :| 0 <= j < |holds| && holds[j] == kept[k];
    }
    SameLiveSameHolds(kept, c, t);
  }

  // At every moment a listed hold changes from now on, the kept holds alone say of `q`
  // what the whole list says.
  predicate KeptDecide(apps: AppsPolicy, q: string, now: int) {
    forall k :: 0 <= k < |Changes(Listed(apps), now)| ==>
      var c := Changes(Listed(apps), now)[k]; KeptState(apps, q, now, c) == EffectiveState(apps, q, c)
  }

  ghost predicate Undisturbed(apps: AppsPolicy, pkg: string, state: HoldState, until: Option<int>, now: int, q: string) {
    forall t :: t >= now ==> EffectiveState(PutHold(apps, pkg, state, until, now), q, t) == EffectiveState(apps, q, t)
  }

  // A put (or a lift) leaves another app as it was at every later moment exactly when,
  // at those finitely many, no hold that pruning drops now would have counted: none
  // decides `q`, and none crowds out of the first 64 one that does.
  lemma OthersUndisturbedExactly(apps: AppsPolicy, pkg: string, state: HoldState, until: Option<int>, now: int, q: string)
    requires q != pkg
    ensures Undisturbed(apps, pkg, state, until, now, q) <==> KeptDecide(apps, q, now)
  {
    var cs := Changes(Listed(apps), now);
    if Undisturbed(apps, pkg, state, until, now, q) {
      forall k | 0 <= k < |cs| ensures KeptState(apps, q, now, cs[k]) == EffectiveState(apps, q, cs[k]) {
        assert cs[k] in cs;
        OthersGoByTheKept(apps, pkg, state, until, now, q, cs[k]);
      }
    }
    if KeptDecide(apps, q, now) {
      forall t | t >= now ensures EffectiveState(PutHold(apps, pkg, state, until, now), q, t) == EffectiveState(apps, q, t) {
        var c := LatestOf(cs, now, t);
        var k :| 0 <= k < |cs| && cs[k] == c;
        SteadyBetweenChanges(apps, q, now, c, t);
        OthersGoByTheKept(apps, pkg, state, until, now, q, t);
      }
    }
  }

  // At the moment of the put itself nothing changes for any other app.
  lemma OthersAreUndisturbedNow(apps: AppsPolicy, pkg: string, state: HoldState, until: Option<int>, now: int, q: string)
    requires q != pkg
    ensures EffectiveState(PutHold(apps, pkg, state, until, now), q, now) == EffectiveState(apps, q, now)
  {
    OthersGoByTheKept(apps, pkg, state, until, now, q, now);
    var kept := PruneHolds(apps.holds, now);
    FilterAll((h: AppHold) => Live(h, now), kept);
  }

  // A list that pruning only rids of blank and ended holds loses nothing at all.
  lemma NothingPendingDropped(apps: AppsPolicy, pkg: string, state: HoldState, until: Option<int>, now: int, q: string)
    requires q != pkg && |Listed(apps)| <= 64
    requires forall k :: 0 <= k < |Listed(apps)| ==> Listed(apps)[k].until <= now + 86_400
    ensures Undisturbed(apps, pkg, state, until, now, q)
  {
    forall t | t >= now ensures EffectiveState(PutHold(apps, pkg, state, until, now), q, t) == EffectiveState(apps, q, t) {
      OthersGoByTheKept(apps, pkg, state, until, now, q, t);
      LaterLiveIsLiveNow(Listed(apps), now, t);
      LiveIsShorter(Listed(apps), now);
      LiveIsShorter(Listed(apps), t);
    }
  }

  lemma {:induction false} LaterLiveIsLiveNow(holds: seq<AppHold>, now: int, t: int)
    requires now <= t && forall k :: 0 <= k < |holds| ==> holds[k].until <= now + 86_400
    ensures LiveHolds(LiveHolds(holds, now), t) == LiveHolds(holds, t)
  {
    if holds != [] {
      assert forall k :: 0 <= k < |holds[1..]| ==> holds[1..][k] == holds[k + 1];
      LaterLiveIsLiveNow(holds[1..], now, t);
      var h := holds[0];
      FilterConcat((g: AppHold) => Live(g, t), if Live(h, now) then [h] else [], LiveHolds(holds[1..], now));
    }
  }

  // A hold dated beyond the cap is dropped by a put on another app: `q`, to be blocked
  // from 3600 seconds on, is allowed then.
  lemma ADatedHoldIsLost()
    ensures var apps := AppsPolicy(true, Blocklist, [], [], Some([AppHold("q", Blocked, 90_000)]), None, None);
      && EffectiveState(apps, "q", 7200) == Blocked
      && EffectiveState(PutHold(apps, "p", Allowed, Some(3600), 0), "q", 7200) == Allowed
  {
    var h := AppHold("q", Blocked, 90_000);
    var apps := AppsPolicy(true, Blocklist, [], [], Some([h]), None, None);
    assert JsText.HasInk("q") by { assert !JsText.IsBlank("q"[0]); }
    assert [h][1..] == [];
    assert LiveHolds([h], 0) == [] && LiveHolds([h], 7200) == [h];
    OthersGoByTheKept(apps, "p", Allowed, Some(3600), 0, "q", 7200);
    assert [h][..0] == [];
  }

  lemma FrontAndLast(front: seq<AppHold>, h: AppHold, t: int)
    ensures LiveHolds(front + [h], t) == LiveHolds(front, t) + if Live(h, t) then [h] else []
  {
    FilterConcat((g: AppHold) => Live(g, t), front, [h]);
    assert [h][1..] == [];
  }

  lemma AllLive(front: seq<AppHold>, t: int)
    requires forall k :: 0 <= k < |front| ==> Live(front[k], t)
    ensures LiveHolds(front, t) == front
  {
    FilterAll((g: AppHold) => Live(g, t), front);
  }

  lemma NoneLive(front: seq<AppHold>, t: int)
    requires forall k :: 0 <= k < |front| ==> !Live(front[k], t)
    ensures LiveHolds(front, t) == []
  {
    FilterNone((g: AppHold) => Live(g, t), front);
  }

  // The 65th live hold is dropped by a put on another app, though it would have counted
  // once the 64 before it had ended.
  lemma The65thHoldIsLost(apps: AppsPolicy, front: seq<AppHold>, h: AppHold, pkg: string, state: HoldState,
                          until: Option<int>, now: int, t: int)
    requires apps.holds == Some(front + [h]) && |front| == 64 && h.pkg != pkg
    requires forall k :: 0 <= k < |front| ==> Live(front[k], now) && front[k].pkg != h.pkg && front[k].until <= t
    requires Live(h, now) && now <= t < h.until
    ensures EffectiveState(apps, h.pkg, t) == h.state
    ensures EffectiveState(PutHold(apps, pkg, state, until, now), h.pkg, t) == StandingState(apps, h.pkg)
  {
    FrontAndLast(front, h, now);
    FrontAndLast(front, h, t);
    AllLive(front, now);
    NoneLive(front, t);
    assert PruneHolds(apps.holds, now) == front;
    assert LiveHolds(apps.holds.value, t) == [h];
    OthersGoByTheKept(apps, pkg, state, until, now, h.pkg, t);
  }

  // And a put can lengthen another app's hold: 64 holds dated ahead of it would have
  // crowded it out, and the put drops them.
  lemma ACrowdedHoldIsFreed(apps: AppsPolicy, front: seq<AppHold>, h: AppHold, pkg: string, state: HoldState,
                            until: Option<int>, now: int, t: int)
    requires apps.holds == Some(front + [h]) && |front| == 64 && h.pkg != pkg
    requires forall k :: 0 <= k < |front| ==> !Live(front[k], now) && Live(front[k], t) && front[k].pkg != h.pkg
    requires Live(h, now) && now <= t < h.until
    ensures EffectiveState(apps, h.pkg, t) == StandingState(apps, h.pkg)
    ensures EffectiveState(PutHold(apps, pkg, state, until, now), h.pkg, t) == h.state
  {
    OnlyTheFrontCounts(apps, front, h, t);
    FrontAndLast(front, h, now);
    NoneLive(front, now);
    assert LiveHolds(apps.holds.value, now) == [] + [h] == [h];
    OnlyOneKept(apps, h, now, t);
    OthersGoByTheKept(apps, pkg, state, until, now, h.pkg, t);
  }

  lemma OnlyTheFrontCounts(apps: AppsPolicy, front: seq<AppHold>, h: AppHold, t: int)
    requires apps.holds == Some(front + [h]) && |front| == 64
    requires forall k :: 0 <= k < |front| ==> Live(front[k], t) && front[k].pkg != h.pkg
    ensures EffectiveState(apps, h.pkg, t) == StandingState(apps, h.pkg)
  {
    FrontAndLast(front, h, t);
    AllLive(front, t);
    var live := LiveHolds(front + [h], t);
    assert FirstHolds(live) == front;
    assert HoldFor(apps, h.pkg, t) == LastFor(front, h.pkg);
    NoHoldOnPkg(front, h.pkg);
  }

  lemma OnlyOneKept(apps: AppsPolicy, h: AppHold, now: int, t: int)
    requires apps.holds.Some? && LiveHolds(apps.holds.value, now) == [h] && Live(h, t)
    ensures KeptState(apps, h.pkg, now, t) == h.state
  {
    AllLive([h], t);
    assert PruneHolds(apps.holds, now) == [h];
    assert LastFor([h], h.pkg) == Some(h);
  }

  // The hold reaches the device that asked, for exactly [now, until), whether or
  // not that device splits its app rules.
  lemma HoldReachesItsDevice(base: ComposedHold, device: string, pkg: string, state: HoldState,
                             until: int, now: int, t: int)
    requires device != "" && now < until <= now + 86_400 && JsText.HasInk(pkg) && now <= t
    requires |Others(AppsOn(base, device), pkg, now)| < 64
    ensures EffectiveState(AppsOn(ComposeDeviceHold(base, Some(device), pkg, state, until, now), device), pkg, t)
         == if t < until then state else StandingState(AppsOn(base, device), pkg)
  {
    HoldLivesItsInterval(AppsOn(base, device), pkg, state, until, now, t);
  }

  function PolicyOf(p: Policy, c: ComposedHold): Policy {
    p.(controls := p.controls[AppsC := AppsValue(c.apps)], deviceOverrides := c.deviceOverrides)
  }

  // An apps override holds app rules or is undefined.
  predicate TypedApps(c: ComposedHold) {
    c.deviceOverrides.Some? ==>
      forall d :: d in c.deviceOverrides.value ==>
        Get(c.deviceOverrides.value[d], AppsC).AppsValue? || Get(c.deviceOverrides.value[d], AppsC).Undefined?
  }

  // The app rules above are the ones in the policy the device is sent.
  lemma AppsOnAreSent(p: Policy, c: ComposedHold, device: string)
    requires TypedApps(c)
    ensures Get(Effective(PolicyOf(p, c), device).controls, AppsC) == AppsValue(AppsOn(c, device))
  {
    assert Mine(PolicyOf(p, c), device)
        == if c.deviceOverrides.Some? && device in c.deviceOverrides.value then c.deviceOverrides.value[device] else map[];
  }

  lemma ComposingKeepsTypes(base: ComposedHold, device: Option<string>, pkg: string, state: HoldState, until: int, now: int)
    requires TypedApps(base)
    ensures TypedApps(ComposeDeviceHold(base, device, pkg, state, until, now))
  {
  }

  function SentApps(p: Policy, device: string): Option<AppsPolicy> {
    var v := Get(Effective(p, device).controls, AppsC);
    if v.AppsValue? then Some(v.apps) else None
  }

  // In the policy the asking device is sent, the app is in the held state until the
  // end and in its standing state from then on.
  lemma HoldIsSentForItsInterval(p: Policy, base: ComposedHold, device: string, pkg: string, state: HoldState,
                                 until: int, now: int, t: int)
    requires TypedApps(base)
    requires device != "" && now < until <= now + 86_400 && JsText.HasInk(pkg) && now <= t
    requires |Others(AppsOn(base, device), pkg, now)| < 64
    ensures var before := SentApps(PolicyOf(p, base), device);
      var after := SentApps(PolicyOf(p, ComposeDeviceHold(base, Some(device), pkg, state, until, now)), device);
      && before.Some? && after.Some?
      && EffectiveState(after.value, pkg, t) == if t < until then state else StandingState(before.value, pkg)
  {
    HoldReachesItsDevice(base, device, pkg, state, until, now, t);
    ComposingKeepsTypes(base, Some(device), pkg, state, until, now);
    AppsOnAreSent(p, base, device);
    AppsOnAreSent(p, ComposeDeviceHold(base, Some(device), pkg, state, until, now), device);
  }

  // Every other device with app rules of its own is sent what it was sent before.
  lemma HoldLeavesSplitSiblingsAlone(p: Policy, base: ComposedHold, device: Option<string>, pkg: string,
                                     state: HoldState, until: int, now: int, sibling: string)
    requires SplitApps(base.deviceOverrides, sibling).Some? && (device.Some? ==> sibling != device.value)
    ensures Effective(PolicyOf(p, ComposeDeviceHold(base, device, pkg, state, until, now)), sibling)
         == Effective(PolicyOf(p, base), sibling)
  {
    var after := ComposeDeviceHold(base, device, pkg, state, until, now);
    var mine := Mine(PolicyOf(p, base), sibling);
    assert Mine(PolicyOf(p, after), sibling) == mine;
    BaseAppsDoNotShow(p.controls, AppsValue(base.apps), AppsValue(after.apps), mine);
  }

  // A device with its own value for a control does not see the base's.
  lemma BaseAppsDoNotShow(base: Controls, v: Value, w: Value, mine: Controls)
    requires Get(mine, AppsC) != Undefined
    ensures Overlay(base[AppsC := v], mine) == Overlay(base[AppsC := w], mine)
  {
    var x, y := Overlay(base[AppsC := v], mine), Overlay(base[AppsC := w], mine);
    forall c | c in x ensures c in y && x[c] == y[c] {
      assert x[c] == Get(x, c) && (c in y ==> y[c] == Get(y, c));
    }
    assert forall c :: c in y ==> c in x;
  }

  // --- without a hold in force --------------------------------------------------------

  // The hold counts at `t` for no app: blank, ended, or ending more than a day ahead.
  predicate Idle(h: AppHold, t: int) { JsText.Trim(h.pkg) == "" || h.until <= t || t + 86_400 < h.until }

  lemma {:induction false} NoneListedIsInForce(holds: seq<AppHold>, pkg: string, t: int)
    requires forall k :: 0 <= k < |holds| && holds[k].pkg == pkg ==> Idle(holds[k], t)
    ensures LastFor(FirstHolds(LiveHolds(holds, t)), pkg) == None
  {
    forall h | h in LiveHolds(holds, t) ensures h.pkg != pkg {
      LiveIsTheRule(h, t);
      var k :| 0 <= k < |holds| && holds[k] == h;
    }
    NoHoldOnPkg(FirstHolds(LiveHolds(holds, t)), pkg);
  }

  // Without a hold in force the lists decide: under a blocklist what is listed blocked
  // is blocked, under an allow list everything that is not listed allowed.
  lemma ListsDecide(apps: AppsPolicy, pkg: string, t: int)
    requires forall k :: 0 <= k < |Listed(apps)| && Listed(apps)[k].pkg == pkg ==> Idle(Listed(apps)[k], t)
    ensures EffectiveState(apps, pkg, t) == Blocked
       <==> match apps.posture
            case Blocklist => pkg in apps.blocked
            case Allowlist => pkg !in apps.allowed
  {
    NoneListedIsInForce(Listed(apps), pkg, t);
  }

  // Of up to 64 holds the last one in force on the app decides.
  lemma LastInForceDecides(apps: AppsPolicy, k: nat, t: int)
    requires k < |Listed(apps)| <= 64 && !Idle(Listed(apps)[k], t)
    requires forall j :: k < j < |Listed(apps)| && Listed(apps)[j].pkg == Listed(apps)[k].pkg ==> Idle(Listed(apps)[j], t)
    ensures EffectiveState(apps, Listed(apps)[k].pkg, t) == Listed(apps)[k].state
  {
    LiveIsShorter(Listed(apps), t);
    forall j | 0 <= j < |Listed(apps)| ensures Idle(Listed(apps)[j], t) <==> !Live(Listed(apps)[j], t) {
      LiveIsTheRule(Listed(apps)[j], t);
    }
    LastLive(Listed(apps), k, Listed(apps)[k].pkg, t);
  }

  // With nothing in force on the app after it, the `k`-th hold is the last live one.
  lemma {:induction false} LastLive(holds: seq<AppHold>, k: nat, pkg: string, t: int)
    requires k < |holds| && holds[k].pkg == pkg && Live(holds[k], t)
    requires forall j :: k < j < |holds| && holds[j].pkg == pkg ==> !Live(holds[j], t)
    ensures LastFor(LiveHolds(holds, t), pkg) == Some(holds[k])
  {
    var n := |holds| - 1;
    var front, h := holds[..n], holds[n];
    LiveSnoc(front, h, pkg, t);
    assert holds == front + [h];
    if k < n {
      assert front[k] == holds[k] && forall j :: 0 <= j < n ==> front[j] == holds[j];
      LastLive(front, k, pkg, t);
    }
  }

  lemma LiveSnoc(front: seq<AppHold>, h: AppHold, pkg: string, t: int)
    ensures LastFor(LiveHolds(front + [h], t), pkg)
         == if Live(h, t) && h.pkg == pkg then Some(h) else LastFor(LiveHolds(front, t), pkg)
  {
    FrontAndLast(front, h, t);
    if Live(h, t) { LastForSnoc(LiveHolds(front, t), h, pkg); }
    else { assert LiveHolds(front, t) + [] == LiveHolds(front, t); }
  }

  // --- where a hold is written ----------------------------------------------------------

  predicate OnlyHoldsDiffer(a: AppsPolicy, b: AppsPolicy) { a.(holds := None) == b.(holds := None) }

  // The device asks under app rules of its own.
  predicate OwnRules(o: Option<map<string, Controls>>, device: Option<string>) {
    && device.Some? && device.value != "" && o.Some? && device.value in o.value
    && AppsC in o.value[device.value] && o.value[device.value][AppsC].AppsValue?
  }

  // A hold changes nothing but one list of holds: the asking device's own, or the
  // base's when it has none or no device is named.
  lemma HoldLandsInOnePlace(base: ComposedHold, device: Option<string>, pkg: string, state: HoldState, until: int, now: int)
    ensures var c := ComposeDeviceHold(base, device, pkg, state, until, now);
      && OnlyHoldsDiffer(c.apps, base.apps)
      && (c.deviceOverrides.None? <==> base.deviceOverrides.None?)
      && (!OwnRules(base.deviceOverrides, device) ==> c.deviceOverrides == base.deviceOverrides)
      && (OwnRules(base.deviceOverrides, device) ==>
            var was, after := base.deviceOverrides.value, c.deviceOverrides.value;
            && c.apps == base.apps && after.Keys == was.Keys
            && (forall d :: d in was && d != device.value ==> after[d] == was[d])
            && after[device.value].Keys == was[device.value].Keys
            && (forall x :: x in was[device.value] && x != AppsC ==> after[device.value][x] == was[device.value][x])
            && after[device.value][AppsC].AppsValue?
            && OnlyHoldsDiffer(after[device.value][AppsC].apps, was[device.value][AppsC].apps))
  {
  }

  // And with no device to name, the base's rules hold the app for its interval.
  lemma BaseHoldLivesItsInterval(base: ComposedHold, device: Option<string>, pkg: string, state: HoldState,
                                 until: int, now: int, t: int)
    requires !OwnRules(base.deviceOverrides, device)
    requires now < until <= now + 86_400 && JsText.HasInk(pkg) && now <= t && |Others(base.apps, pkg, now)| < 64
    ensures EffectiveState(ComposeDeviceHold(base, device, pkg, state, until, now).apps, pkg, t)
         == if t < until then state else StandingState(base.apps, pkg)
  {
    HoldLivesItsInterval(base.apps, pkg, state, until, now, t);
  }
}
