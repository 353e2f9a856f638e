// The edge-triggered lock and warning machine (android/jni/src/times.rs
// `EdgeMachine`): a stream of verdicts in, lock, thaw and warn effects out.

module EdgeMachine {
  import opened Seqs
  import opened LockDecision

  datatype WarnLevel = Ten | One

  datatype Effect =
    | ShowLock(reason: LockReason)
    | Freeze
    | AuditLocked
    | Thaw
    | HideLock
    | AuditThawed
    | Warn(level: WarnLevel)
    | TimeLeft(rem: Remaining)

  datatype Edge = Edge(locked: bool, warnedTen: bool, warnedOne: bool)

  const FRESH := Edge(false, false, false)

  // --- one tick, as a function -------------------------------------------------

  predicate Locks(e: Edge, rem: Remaining) { rem.locked && !e.locked }
  predicate Thaws(e: Edge, rem: Remaining) { !rem.locked && e.locked }

  // Time left no longer within the threshold: the warning may fire again.
  predicate Above(rem: Remaining, threshold: int) { rem.effective < 0 || rem.effective > threshold }

  predicate OneDue(e: Edge, rem: Remaining) {
    !rem.locked && !Above(rem, 60) && (Thaws(e, rem) || !e.warnedOne)
  }

  predicate TenDue(e: Edge, rem: Remaining) {
    !rem.locked && !Above(rem, 600) && (Thaws(e, rem) || !e.warnedTen)
  }

  function Next(e: Edge, rem: Remaining): Edge {
    if rem.locked then e.(locked := true)
    else Edge(false, !Above(rem, 600), !Above(rem, 60))
  }

  function Head(e: Edge, rem: Remaining): seq<Effect> {
    if Locks(e, rem) then
      [ShowLock(if rem.reason.Some? then rem.reason.value else ScheduleLock), Freeze, AuditLocked]
    else if Thaws(e, rem) then [Thaw, HideLock, AuditThawed]
    else []
  }

  function Effects(e: Edge, rem: Remaining): seq<Effect> {
    Head(e, rem)
    + (if TenDue(e, rem) && !OneDue(e, rem) then [Warn(Ten)] else [])
    + (if OneDue(e, rem) then [Warn(One)] else [])
    + [TimeLeft(rem)]
  }

  // The machine as it runs: three flags updated in place.
  class EdgeMachine {
    var locked: bool
    var warnedTen: bool
    var warnedOne: bool

    ghost function State(): Edge
      reads this
    {
      Edge(locked, warnedTen, warnedOne)
    }

    constructor ()
      ensures State() == FRESH
    {
      locked, warnedTen, warnedOne := false, false, false;
    }

    method Tick(rem: Remaining) returns (effs: seq<Effect>)
      modifies this
      ensures State() == Next(old(State()), rem)
      ensures effs == Effects(old(State()), rem)
    {
      effs := [];
      if rem.locked && !locked {
        locked := true;
        effs := effs + [ShowLock(if rem.reason.Some? then rem.reason.value else ScheduleLock)];
        effs := effs + [Freeze];
        effs := effs + [AuditLocked];
      } else if !rem.locked && locked {
        locked := false;
        warnedTen := false;
        warnedOne := false;
        effs := effs + [Thaw];
        effs := effs + [HideLock];
        effs := effs + [AuditThawed];
      }
      if !locked {
        if rem.effective < 0 || rem.effective > 600 {
          warnedTen := false;
        }
        if rem.effective < 0 || rem.effective > 60 {
          warnedOne := false;
        }
        var oneDue := 0 <= rem.effective <= 60 && !warnedOne;
        if 0 <= rem.effective <= 600 && !warnedTen {
          warnedTen := true;
          if !oneDue {
            effs := effs + [Warn(Ten)];
          }
        }
        if oneDue {
          warnedOne := true;
          effs := effs + [Warn(One)];
        }
      }
      effs := effs + [TimeLeft(rem)];
    }
  }

  // --- whole runs ----------------------------------------------------------------

  function After(e: Edge, rems: seq<Remaining>): Edge {
    if rems == [] then e else Next(After(e, rems[..|rems| - 1]), rems[|rems| - 1])
  }

  function EffectsAt(e: Edge, rems: seq<Remaining>, k: nat): seq<Effect>
    requires k < |rems|
  {
    Effects(After(e, rems[..k]), rems[k])
  }

  function Trace(e: Edge, rems: seq<Remaining>): seq<Effect> {
    if rems == [] then []
    else Trace(e, rems[..|rems| - 1]) + EffectsAt(e, rems, |rems| - 1)
  }

  // --- what the effects amount to --------------------------------------------------

  // The reason on the lock screen, if it is up; whether the apps are frozen; whether
  // the last audit says locked.
  datatype Scene = Scene(reason: Option<LockReason>, frozen: bool, audited: bool)

  const OPEN := Scene(None, false, false)

  // What one effect makes of the scene; None if it could not come there. A lock is
  // shown, then the apps freeze, then it is audited; they thaw, the lock is hidden, and
  // that is audited. A warning comes only in the open, and the time left is told only
  // when all three agree with it.
  function Step(s: Scene, x: Effect): Option<Scene> {
    match x
    case ShowLock(r) => if s == OPEN then Some(s.(reason := Some(r))) else None
    case Freeze => if s.reason.Some? && !s.frozen && !s.audited then Some(s.(frozen := true)) else None
    case AuditLocked => if s.reason.Some? && s.frozen && !s.audited then Some(s.(audited := true)) else None
    case Thaw => if s.reason.Some? && s.frozen && s.audited then Some(s.(frozen := false)) else None
    case HideLock => if s.reason.Some? && !s.frozen && s.audited then Some(s.(reason := None)) else None
    case AuditThawed => if s.reason.None? && !s.frozen && s.audited then Some(s.(audited := false)) else None
    case Warn(_) => if s == OPEN then Some(s) else None
    case TimeLeft(rem) => if s == (if rem.locked then Scene(s.reason, true, true) else OPEN) then Some(s) else None
  }

  function Watch(effs: seq<Effect>, s: Scene): Option<Scene> {
    if effs == [] then Some(s)
    else
      var before := Watch(effs[..|effs| - 1], s);
      if before.None? then None else Step(before.value, effs[|effs| - 1])
  }

  lemma WatchSnoc(effs: seq<Effect>, x: Effect, s: Scene)
    ensures Watch(effs + [x], s) == if Watch(effs, s).None? then None else Step(Watch(effs, s).value, x)
  {
    assert (effs + [x])[..|effs|] == effs;
  }

  lemma {:induction false} WatchConcat(a: seq<Effect>, b: seq<Effect>, s: Scene)
    ensures Watch(a + b, s) == if Watch(a, s).None? then None else Watch(b, Watch(a, s).value)
  {
    if b == [] {
      assert a + b == a;
    } else {
      var init, x := b[..|b| - 1], b[|b| - 1];
      assert a + b == (a + init) + [x] && b == init + [x];
      WatchConcat(a, init, s);
      WatchSnoc(a + init, x, s);
    }
  }

  lemma WatchThree(x: Effect, y: Effect, z: Effect, s: Scene, s1: Scene, s2: Scene, s3: Scene)
    requires Step(s, x) == Some(s1) && Step(s1, y) == Some(s2) && Step(s2, z) == Some(s3)
    ensures Watch([x, y, z], s) == Some(s3)
  {
    assert [x, y, z] == [x, y] + [z] && [x, y] == [x] + [y] && [x] == [] + [x];
    WatchSnoc([], x, s);
    WatchSnoc([x], y, s);
    WatchSnoc([x, y], z, s);
  }

  function ReasonShown(rem: Remaining): LockReason {
    if rem.reason.Some? then rem.reason.value else ScheduleLock
  }

  // The scene agrees with the machine's own flag.
  predicate Agrees(e: Edge, s: Scene) {
    s == if e.locked then Scene(s.reason, true, true) else OPEN
  }

  lemma WatchTail(warns: seq<Effect>, rem: Remaining, s: Scene)
    requires warns == [] || (|warns| == 1 && warns[0].Warn? && !rem.locked)
    requires s == if rem.locked then Scene(s.reason, true, true) else OPEN
    ensures Watch(warns + [TimeLeft(rem)], s) == Some(s)
  {
    if warns != [] {
      assert warns == [] + [warns[0]];
      WatchSnoc([], warns[0], s);
    }
    WatchSnoc(warns, TimeLeft(rem), s);
  }

  function Warnings(e: Edge, rem: Remaining): seq<Effect> {
    if OneDue(e, rem) then [Warn(One)] else if TenDue(e, rem) then [Warn(Ten)] else []
  }

  lemma EffectsSplit(e: Edge, rem: Remaining)
    ensures Effects(e, rem) == Head(e, rem) + (Warnings(e, rem) + [TimeLeft(rem)])
  {
  }

  function SceneAfter(e: Edge, rem: Remaining, s: Scene): Scene {
    if !rem.locked then OPEN else if e.locked then s else Scene(Some(ReasonShown(rem)), true, true)
  }

  lemma HeadMoves(e: Edge, rem: Remaining, s: Scene)
    requires Agrees(e, s) && (e.locked ==> s.reason.Some?)
    ensures Watch(Head(e, rem), s) == Some(SceneAfter(e, rem, s))
  {
    if Locks(e, rem) {
      var r := Some(ReasonShown(rem));
      WatchThree(ShowLock(r.value), Freeze, AuditLocked, s, Scene(r, false, false), Scene(r, true, false), Scene(r, true, true));
    } else if Thaws(e, rem) {
      WatchThree(Thaw, HideLock, AuditThawed, s, s.(frozen := false), Scene(None, false, true), OPEN);
    }
  }

  lemma OneTickScene(e: Edge, rem: Remaining, s: Scene)
    requires Agrees(e, s) && (e.locked ==> s.reason.Some?)
    ensures Watch(Effects(e, rem), s) == Some(SceneAfter(e, rem, s))
  {
    EffectsSplit(e, rem);
    HeadMoves(e, rem, s);
    WatchConcat(Head(e, rem), Warnings(e, rem) + [TimeLeft(rem)], s);
    WatchTail(Warnings(e, rem), rem, SceneAfter(e, rem, s));
  }

  function SceneOver(e: Edge, rems: seq<Remaining>, s: Scene): Scene {
    if rems == [] then s
    else SceneAfter(After(e, rems[..|rems| - 1]), rems[|rems| - 1], SceneOver(e, rems[..|rems| - 1], s))
  }

  lemma {:induction false} RunScene(e: Edge, rems: seq<Remaining>, s: Scene)
    requires Agrees(e, s) && (e.locked ==> s.reason.Some?)
    ensures Watch(Trace(e, rems), s) == Some(SceneOver(e, rems, s))
    ensures Agrees(After(e, rems), SceneOver(e, rems, s)) && (After(e, rems).locked ==> SceneOver(e, rems, s).reason.Some?)
  {
    if rems != [] {
      var init, rem := rems[..|rems| - 1], rems[|rems| - 1];
      RunScene(e, init, s);
      OneTickScene(After(e, init), rem, SceneOver(e, init, s));
      WatchConcat(Trace(e, init), EffectsAt(e, rems, |rems| - 1), s);
    }
  }

  // The lock in force at the end of the run began with verdict `k`.
  predicate BeganAt(e: Edge, rems: seq<Remaining>, k: nat) {
    && k < |rems| && (forall j :: k <= j < |rems| ==> rems[j].locked)
    && if k == 0 then !e.locked else !rems[k - 1].locked
  }

  lemma {:induction false} LastDecides(e: Edge, rems: seq<Remaining>)
    ensures After(e, rems).locked == if rems == [] then e.locked else rems[|rems| - 1].locked
  {
  }

  lemma {:induction false} BeganReason(e: Edge, rems: seq<Remaining>, s: Scene, k: nat)
    requires BeganAt(e, rems, k)
    ensures SceneOver(e, rems, s) == Scene(Some(ReasonShown(rems[k])), true, true)
  {
    var init := rems[..|rems| - 1];
    LastDecides(e, init);
    if k < |init| { BeganReason(e, init, s, k); }
  }

  // Over every run each lock is shown, freezes the apps and is audited, and each
  // opening thaws them, hides the lock and is audited, strictly in turn; after it the
  // screen, the apps and the audit all say what the last verdict says, and the screen
  // gives the reason of the verdict that began the lock.
  lemma LocksAlternate(e: Edge, rems: seq<Remaining>, s: Scene)
    requires s == if e.locked then Scene(s.reason, true, true) else OPEN
    requires e.locked ==> s.reason.Some?
    ensures Watch(Trace(e, rems), s).Some?
    ensures rems != [] ==> TellsTheVerdict(Watch(Trace(e, rems), s).value, rems[|rems| - 1])
    ensures forall k: nat :: BeganAt(e, rems, k) ==>
              Watch(Trace(e, rems), s).value.reason
              == Some(if rems[k].reason.Some? then rems[k].reason.value else ScheduleLock)
  {
    RunScene(e, rems, s);
    LastDecides(e, rems);
    forall k: nat | BeganAt(e, rems, k) ensures SceneOver(e, rems, s).reason == Some(ReasonShown(rems[k])) {
      BeganReason(e, rems, s, k);
    }
  }

  // Screen, apps and audit all say what the verdict says.
  predicate TellsTheVerdict(s: Scene, rem: Remaining) {
    (s.reason.Some? <==> rem.locked) && (s.frozen <==> rem.locked) && (s.audited <==> rem.locked)
  }

  // --- the warnings ------------------------------------------------------------------

  // Nothing before tick `k` of this unlocked stretch was within the threshold.
  predicate JustWithin(rems: seq<Remaining>, k: nat, threshold: int)
    requires k < |rems|
  {
    k == 0 || rems[k - 1].locked || rems[k - 1].effective < 0 || rems[k - 1].effective > threshold
  }

  predicate WarnsTen(rems: seq<Remaining>, k: nat)
    requires k < |rems|
  {
    !rems[k].locked && 61 <= rems[k].effective <= 600 && JustWithin(rems, k, 600)
  }

  predicate WarnsOne(rems: seq<Remaining>, k: nat)
    requires k < |rems|
  {
    !rems[k].locked && 0 <= rems[k].effective <= 60 && JustWithin(rems, k, 60)
  }

  predicate IsWarning(x: Effect) { x.Warn? }

  lemma LatchesAre(rems: seq<Remaining>, k: nat)
    requires k < |rems|
    ensures var e := After(FRESH, rems[..k]);
      && e.locked == (k > 0 && rems[k - 1].locked)
      && (!e.locked ==> (e.warnedTen <==> !JustWithin(rems, k, 600)) && (e.warnedOne <==> !JustWithin(rems, k, 60)))
  {
    if k > 0 { AfterStep(FRESH, rems, k - 1); }
  }

  // A tick warns "ten minutes" exactly when it is the first of an unlocked stretch
  // with 61 to 600 seconds left, and "one minute" exactly when it is the first with at
  // most 60; never both, never twice.
  lemma WarnsExactly(rems: seq<Remaining>, k: nat)
    requires k < |rems|
    ensures Filter(IsWarning, EffectsAt(FRESH, rems, k))
         == if WarnsTen(rems, k) then [Warn(Ten)] else if WarnsOne(rems, k) then [Warn(One)] else []
  {
    var e, rem := After(FRESH, rems[..k]), rems[k];
    LatchesAre(rems, k);
    OneImpliesTen(rems[..k]);
    EffectsSplit(e, rem);
    FilterConcat(IsWarning, Head(e, rem), Warnings(e, rem) + [TimeLeft(rem)]);
    FilterConcat(IsWarning, Warnings(e, rem), [TimeLeft(rem)]);
    FilterNone(IsWarning, Head(e, rem));
    FilterNone(IsWarning, [TimeLeft(rem)]);
    FilterAll(IsWarning, Warnings(e, rem));
  }

  predicate TellsTime(x: Effect) { x.TimeLeft? }

  // Each tick tells the time left once, as its last effect.
  lemma EachTickTellsTheTime(rems: seq<Remaining>, k: nat)
    requires k < |rems|
    ensures var effs := EffectsAt(FRESH, rems, k);
      effs != [] && effs[|effs| - 1] == TimeLeft(rems[k]) && Filter(TellsTime, effs) == [TimeLeft(rems[k])]
  {
    var e, rem := After(FRESH, rems[..k]), rems[k];
    EffectsSplit(e, rem);
    var before := Head(e, rem) + Warnings(e, rem);
    assert Effects(e, rem) == before + [TimeLeft(rem)];
    FilterConcat(TellsTime, before, [TimeLeft(rem)]);
    FilterNone(TellsTime, before);
    FilterAll(TellsTime, [TimeLeft(rem)]);
  }

  // Whoever has been told "one minute" has been told, or spared, "ten".
  lemma {:induction false} OneImpliesTen(rems: seq<Remaining>)
    ensures After(FRESH, rems).warnedOne ==> After(FRESH, rems).warnedTen
  {
    if rems != [] { OneImpliesTen(rems[..|rems| - 1]); }
  }

  function Threshold(level: WarnLevel): int { if level.Ten? then 600 else 60 }

  predicate Latched(e: Edge, level: WarnLevel) { if level.Ten? then e.warnedTen else e.warnedOne }

  // Tick `k` re-arms this warning: a thaw, or time left back above its threshold.
  predicate Rearms(e: Edge, rems: seq<Remaining>, k: nat, level: WarnLevel)
    requires k < |rems|
  {
    !rems[k].locked && (After(e, rems[..k]).locked || Above(rems[k], Threshold(level)))
  }

  predicate Warns(e: Edge, rems: seq<Remaining>, k: nat, level: WarnLevel)
    requires k < |rems|
  {
    Warn(level) in EffectsAt(e, rems, k)
  }

  lemma AfterStep(e: Edge, rems: seq<Remaining>, k: nat)
    requires k < |rems|
    ensures After(e, rems[..k + 1]) == Next(After(e, rems[..k]), rems[k])
  {
    assert rems[..k + 1][..k] == rems[..k];
  }

  // A latched warning stays latched until some tick re-arms it.
  lemma {:induction false} LatchHolds(e: Edge, rems: seq<Remaining>, i: nat, j: nat, level: WarnLevel)
    requires i <= j <= |rems| && Latched(After(e, rems[..i]), level)
    requires forall k :: i <= k < j ==> !Rearms(e, rems, k, level)
    ensures Latched(After(e, rems[..j]), level)
    decreases j
  {
    if i < j {
      LatchHolds(e, rems, i, j - 1, level);
      AfterStep(e, rems, j - 1);
      assert !Rearms(e, rems, j - 1, level);
    }
  }

  // Between any two warnings of one level some tick re-armed it.
  lemma NoRepeatWithoutRearm(e: Edge, rems: seq<Remaining>, i: nat, j: nat, level: WarnLevel)
    requires i < j < |rems| && Warns(e, rems, i, level) && Warns(e, rems, j, level)
    ensures exists k :: i < k <= j && Rearms(e, rems, k, level)
  {
    AfterStep(e, rems, i);
    assert Latched(After(e, rems[..i + 1]), level);
    if !Rearms(e, rems, j, level) && !exists k :: i < k < j && Rearms(e, rems, k, level) {
      LatchHolds(e, rems, i + 1, j, level);
      assert false;
    }
  }

  // The last minute of an unlocked stretch.
  predicate LastMinute(rems: seq<Remaining>, i: nat, j: nat) {
    i <= j < |rems| && forall k :: i <= k <= j ==> !rems[k].locked && !Above(rems[k], 60)
  }

  // A "one minute" latch was set by a warning in the same last minute.
  lemma {:induction false} LatchWasWarned(rems: seq<Remaining>, n: nat) returns (j: nat)
    requires n < |rems| && !rems[n].locked && !Above(rems[n], 60)
    ensures LastMinute(rems, j, n) && Warns(FRESH, rems, j, One)
    decreases n
  {
    var before := After(FRESH, rems[..n]);
    if OneDue(before, rems[n]) {
      j := n;
    } else {
      assert before.warnedOne && !before.locked;
      assert n > 0;
      AfterStep(FRESH, rems, n - 1);
      j := LatchWasWarned(rems, n - 1);
    }
  }

  // If time left falls by at most a minute a tick, nobody is locked out of a
  // bounded, unlocked tick without a "one minute" warning in that same minute.
  lemma NoLockWithoutWarning(rems: seq<Remaining>, n: nat)
    requires 0 < n < |rems| && rems[n].locked
    requires forall k :: 0 <= k < |rems| ==> (rems[k].locked <==> rems[k].effective == 0)
    requires !rems[n - 1].locked && rems[n - 1].effective >= 0
    requires rems[n - 1].effective - rems[n].effective <= 60
    ensures exists j :: LastMinute(rems, j, n - 1) && Warns(FRESH, rems, j, One)
  {
    var j := LatchWasWarned(rems, n - 1);
  }
}
