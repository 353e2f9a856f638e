// One base charter with per-device overrides (domain/effectivePolicy.ts).

module EffectivePolicy {
  import opened Seqs
  import opened ScheduleMeaning

  datatype HoldState = Allowed | Blocked

  datatype AppHold = AppHold(pkg: string, state: HoldState, until: int)

  datatype Posture = Blocklist | Allowlist

  datatype AppsPolicy = AppsPolicy(
    enabled: bool,
    posture: Posture,
    blocked: seq<string>,
    allowed: seq<string>,
    holds: Option<seq<AppHold>>,
    askFirst: Option<seq<string>>,
    hidden: Option<seq<string>>)

  // The controls a device can have its own value for.
  datatype Control = ScheduleC | BudgetC | WebC | AppsC | LearningC

  const SPLITTABLE: seq<Control> := [ScheduleC, BudgetC, WebC, AppsC, LearningC]

  // A control's value. A key may be present and still undefined, as in an object
  // `{ schedule: undefined }`; controls whose shape does not matter stay opaque.
  datatype Value = Undefined | ScheduleValue(schedule: Schedule) | AppsValue(apps: AppsPolicy) | Opaque(text: string)

  type Controls = map<Control, Value>

  // `rest` stands for every field that is not split and not read here.
  datatype Policy = Policy(
    controls: Controls,
    times: Option<seq<NamedTime>>,
    rest: string,
    deviceOverrides: Option<map<string, Controls>>)

  function Get(m: Controls, c: Control): Value {
    if c in m then m[c] else Undefined
  }

  function Overrides(p: Policy): map<string, Controls> {
    if p.deviceOverrides.Some? then p.deviceOverrides.value else map[]
  }

  function Mine(p: Policy, device: string): Controls {
    if device in Overrides(p) then Overrides(p)[device] else map[]
  }

  // --- what a device is sent ------------------------------------------------------

  // Defined overrides win over the base; nothing else is added.
  function Overlay(base: Controls, mine: Controls): (r: Controls)
    ensures forall c :: c in r <==> c in base || Get(mine, c) != Undefined
    ensures forall c :: Get(r, c) == if Get(mine, c) != Undefined then Get(mine, c) else Get(base, c)
  {
    map c | c in base.Keys + mine.Keys && (c in base || mine[c] != Undefined)
      :: if Get(mine, c) != Undefined then mine[c] else base[c]
  }

  function Effective(p: Policy, device: string): Policy {
    p.(controls := Overlay(p.controls, Mine(p, device)), deviceOverrides := None)
  }

  method EffectivePolicyForDevice(p: Policy, device: string) returns (r: Policy)
    ensures r == Effective(p, device)
  {
    var bare := p.(deviceOverrides := None);
    if device !in Overrides(p) {
      assert Overlay(p.controls, map[]) == p.controls;
      return bare;
    }
    var mine := Overrides(p)[device];
    var merged := p.controls;
    var i := 0;
    while i < |SPLITTABLE|
      invariant 0 <= i <= |SPLITTABLE|
      invariant forall c :: c in merged <==> c in p.controls || (c in SPLITTABLE[..i] && Get(mine, c) != Undefined)
      invariant forall c :: c in merged ==>
        merged[c] == if c in SPLITTABLE[..i] && Get(mine, c) != Undefined then mine[c] else p.controls[c]
    {
      var control := SPLITTABLE[i];
      if Get(mine, control) != Undefined {
        merged := merged[control := mine[control]];
      }
      i := i + 1;
    }
    EveryControlIsSplittable();
    assert merged == Overlay(p.controls, mine);
    r := bare.(controls := merged);
  }

  lemma EveryControlIsSplittable()
    ensures forall c: Control :: c in SPLITTABLE && c in SPLITTABLE[..|SPLITTABLE|]
  {
    forall c: Control ensures c in SPLITTABLE {
      match c
      case ScheduleC => assert SPLITTABLE[0] == c;
      case BudgetC => assert SPLITTABLE[1] == c;
      case WebC => assert SPLITTABLE[2] == c;
      case AppsC => assert SPLITTABLE[3] == c;
      case LearningC => assert SPLITTABLE[4] == c;
    }
  }

  // --- splitting and sharing ---------------------------------------------------------

  function Current(p: Policy, device: string, c: Control): Value {
    if Get(Mine(p, device), c) != Undefined then Get(Mine(p, device), c) else Get(p.controls, c)
  }

  function SplitMap(p: Policy, c: Control, devices: set<string>): (r: map<string, Controls>)
    ensures r.Keys == Overrides(p).Keys + devices
    ensures forall d :: d in r ==>
      r[d] == if d in devices then Mine(p, d)[c := Current(p, d, c)] else Overrides(p)[d]
  {
    map d | d in Overrides(p).Keys + devices
      :: if d in devices then Mine(p, d)[c := Current(p, d, c)] else Overrides(p)[d]
  }

  function Split(p: Policy, c: Control, devices: seq<string>): Policy {
    p.(deviceOverrides := Some(SplitMap(p, c, Elements(devices))))
  }

  // One device's seeding, as the loop does it: an entry already seeded stays put.
  function Seeded(mine: Controls, c: Control, base: Value): Controls {
    mine[c := if Get(mine, c) != Undefined then Get(mine, c) else base]
  }

  lemma SplitStep(p: Policy, c: Control, seen: set<string>, id: string)
    ensures var o := SplitMap(p, c, seen);
      o[id := Seeded(if id in o then o[id] else map[], c, Get(p.controls, c))] == SplitMap(p, c, seen + {id})
  {
    var o, after := SplitMap(p, c, seen), SplitMap(p, c, seen + {id});
    var mine := if id in o then o[id] else map[];
    SeededTwice(Mine(p, id), c, Get(p.controls, c));
    var wanted := o[id := Seeded(mine, c, Get(p.controls, c))];
    forall d ensures (d in wanted <==> d in after) && (d in wanted ==> wanted[d] == after[d]) {
    }
    assert wanted == after;
  }

  lemma SeededTwice(mine: Controls, c: Control, base: Value)
    ensures Seeded(Seeded(mine, c, base), c, base) == Seeded(mine, c, base)
  {
    assert Seeded(mine, c, base)[c := Seeded(mine, c, base)[c]] == Seeded(mine, c, base);
  }

  method SetControlSplit(p: Policy, c: Control, devices: seq<string>) returns (r: Policy)
    ensures r == Split(p, c, devices)
  {
    var o := Overrides(p);
    var i := 0;
    ghost var seen: set<string> := {};
    while i < |devices|
      invariant 0 <= i <= |devices|
      invariant seen == Elements(devices[..i])
      invariant o == SplitMap(p, c, seen)
    {
      var id := devices[i];
      SplitStep(p, c, seen, id);
      o := o[id := Seeded(if id in o then o[id] else map[], c, Get(p.controls, c))];
      seen := seen + {id};
      i := i + 1;
      assert devices[..i] == devices[..i - 1] + [id];
    }
    assert devices[..i] == devices;
    r := p.(deviceOverrides := Some(o));
  }

  function Without(m: Controls, c: Control): Controls { m - {c} }

  function SharedMap(o: map<string, Controls>, c: Control): (r: map<string, Controls>)
    ensures forall d :: d in r <==> d in o && Without(o[d], c) != map[]
    ensures forall d :: d in r ==> r[d] == Without(o[d], c)
  {
    map d | d in o && Without(o[d], c) != map[] :: Without(o[d], c)
  }

  function Shared(p: Policy, c: Control): Policy {
    if p.deviceOverrides.None? then p
    else
      var next := SharedMap(p.deviceOverrides.value, c);
      p.(deviceOverrides := if next == map[] then None else Some(next))
  }

  method SetControlShared(p: Policy, c: Control) returns (r: Policy)
    ensures r == Shared(p, c)
  {
    if p.deviceOverrides.None? { return p; }
    var o := p.deviceOverrides.value;
    var next: map<string, Controls> := map[];
    var todo := o.Keys;
    while todo != {}
      invariant todo <= o.Keys
      invariant forall d :: d in next <==> d in o && d !in todo && Without(o[d], c) != map[]
      invariant forall d :: d in next ==> next[d] == Without(o[d], c)
      decreases todo
    {
      var id :| id in todo;
      var rest := Without(o[id], c);
      if rest != map[] {
        next := next[id := rest];
      }
      todo := todo - {id};
    }
    assert next == SharedMap(o, c);
    if next == map[] {
      r := p.(deviceOverrides := None);
    } else {
      r := p.(deviceOverrides := Some(next));
    }
  }

  // One device's own value for one control replaced.
  function SetDeviceControl(p: Policy, device: string, c: Control, v: Value): Policy {
    p.(deviceOverrides := Some(Overrides(p)[device := Mine(p, device)[c := v]]))
  }

  // Narrow an override map to some controls.
  function Restrict(m: Controls, cs: seq<Control>): (r: Controls)
    ensures forall c :: c in r <==> c in m && c in cs && m[c] != Undefined
    ensures forall c :: c in r ==> r[c] == m[c]
  {
    map c | c in m && c in cs && m[c] != Undefined :: m[c]
  }

  function PickMap(o: map<string, Controls>, cs: seq<Control>): (r: map<string, Controls>)
    ensures forall d :: d in r <==> d in o && Restrict(o[d], cs) != map[]
    ensures forall d :: d in r ==> r[d] == Restrict(o[d], cs)
  {
    map d | d in o && Restrict(o[d], cs) != map[] :: Restrict(o[d], cs)
  }

  function Pick(o: Option<map<string, Controls>>, cs: seq<Control>): Option<map<string, Controls>> {
    if o.None? then None
    else
      var out := PickMap(o.value, cs);
      if out == map[] then None else Some(out)
  }

  method PickOverrides(o: Option<map<string, Controls>>, cs: seq<Control>) returns (r: Option<map<string, Controls>>)
    ensures r == Pick(o, cs)
  {
    if o.None? { return None; }
    var out: map<string, Controls> := map[];
    var todo := o.value.Keys;
    while todo != {}
      invariant todo <= o.value.Keys
      invariant forall d :: d in out <==> d in o.value && d !in todo && Restrict(o.value[d], cs) != map[]
      invariant forall d :: d in out ==> out[d] == Restrict(o.value[d], cs)
      decreases todo
    {
      var id :| id in todo;
      var kept := PickControls(o.value[id], cs);
      if kept != map[] {
        out := out[id := kept];
      }
      todo := todo - {id};
    }
    assert out == PickMap(o.value, cs);
    r := if out == map[] then None else Some(out);
  }

  method PickControls(m: Controls, cs: seq<Control>) returns (kept: Controls)
    ensures kept == Restrict(m, cs)
  {
    kept := map[];
    var i := 0;
    while i < |cs|
      invariant 0 <= i <= |cs|
      invariant kept == Restrict(m, cs[..i])
    {
      if Get(m, cs[i]) != Undefined {
        kept := kept[cs[i] := m[cs[i]]];
      }
      i := i + 1;
      assert cs[..i] == cs[..i - 1] + [cs[i - 1]];
    }
    assert cs[..i] == cs;
  }

  // --- the overlay algebra ----------------------------------------------------------

  lemma SameOverlay(base: Controls, a: Controls, b: Controls)
    requires forall c :: Get(a, c) == Get(b, c) || (Get(a, c) == Get(base, c) && Get(b, c) == Undefined)
    requires forall c :: Get(a, c) == Undefined ==> Get(b, c) == Undefined
    ensures Overlay(base, a) == Overlay(base, b)
  {
    var x, y := Overlay(base, a), Overlay(base, b);
    assert forall c :: c in x ==> x[c] == Get(x, c);
    assert forall c :: c in y ==> y[c] == Get(y, c);
    assert forall c :: Get(base, c) != Undefined ==> c in base;
  }

  // Splitting a control changes no device's rules, listed or not.
  lemma SplitIsNeutral(p: Policy, c: Control, devices: seq<string>, device: string)
    ensures Effective(Split(p, c, devices), device) == Effective(p, device)
  {
    SameOverlay(p.controls, Mine(Split(p, c, devices), device), Mine(p, device));
  }

  // Afterwards each listed device holds its own copy wherever there was one to hold.
  lemma SplitSeedsEveryDevice(p: Policy, c: Control, devices: seq<string>, device: string)
    requires device in devices
    ensures Get(Mine(Split(p, c, devices), device), c) == Get(Effective(p, device).controls, c)
  {
  }

  // Editing one device reaches that device's that control, and nothing else.
  lemma EditReachesOneControl(p: Policy, device: string, c: Control, v: Value, other: string, d: Control)
    ensures var after := SetDeviceControl(p, device, c, v);
      Get(Effective(after, other).controls, d)
      == if other == device && d == c then (if v != Undefined then v else Get(p.controls, c))
         else Get(Effective(p, other).controls, d)
    ensures other != device ==> Effective(SetDeviceControl(p, device, c, v), other) == Effective(p, other)
  {
  }

  // Sharing returns every device to the base for that control and keeps the rest.
  lemma SharingReturnsToBase(p: Policy, c: Control, device: string, d: Control)
    ensures Get(Effective(Shared(p, c), device).controls, d)
         == if d == c then Get(p.controls, c) else Get(Effective(p, device).controls, d)
  {
    assert Mine(Shared(p, c), device) == Without(Mine(p, device), c);
  }

  // No override is an empty record, and the map itself is not empty.
  predicate Tidy(p: Policy) {
    p.deviceOverrides.Some? ==>
      p.deviceOverrides.value != map[]
      && forall d :: d in p.deviceOverrides.value ==> p.deviceOverrides.value[d] != map[]
  }

  // Splitting a control nobody had split, and sharing it again, is exactly undone.
  lemma SharingUndoesSplitting(p: Policy, c: Control, devices: seq<string>)
    requires Tidy(p) && forall d :: d in Overrides(p) ==> c !in Overrides(p)[d]
    ensures Shared(Split(p, c, devices), c) == p
  {
    var o, q := Overrides(p), SplitMap(p, c, Elements(devices));
    forall d | d in q ensures Without(q[d], c) == Mine(p, d) {
      SeedingUndone(Mine(p, d), c, Current(p, d, c));
    }
    var back := SharedMap(q, c);
    forall d ensures (d in back <==> d in o) && (d in back ==> back[d] == o[d]) {
      assert d in q ==> Without(q[d], c) == Mine(p, d);
    }
    assert back == o;
  }

  lemma SeedingUndone(mine: Controls, c: Control, v: Value)
    requires c !in mine
    ensures Without(mine[c := v], c) == mine == Without(mine, c)
  {
  }

  // A save that narrows the overrides to the controls it signs brings in no other
  // control, and the signed ones reach every device as they would have.
  lemma PickBringsInNothingElse(p: Policy, cs: seq<Control>, device: string, c: Control)
    ensures Get(Effective(p.(deviceOverrides := Pick(p.deviceOverrides, cs)), device).controls, c)
         == if c in cs then Get(Effective(p, device).controls, c) else Get(p.controls, c)
  {
    var q := p.(deviceOverrides := Pick(p.deviceOverrides, cs));
    if device in Overrides(p) {
      assert Mine(q, device) == Restrict(Mine(p, device), cs);
    } else {
      assert device !in Overrides(q);
    }
  }

  // What a device uses for a control is what it would be sent.
  lemma DeviceControlValueIsEffective(p: Policy, device: string, c: Control)
    ensures Current(p, device, c) == Get(Effective(p, device).controls, c)
  {
  }

  // A device is sent everything of the base as it is, but for the controls it has set
  // itself, and never the map of overrides.
  lemma SentIsOwnOverBase(p: Policy, device: string, c: Control)
    ensures var r := Effective(p, device);
      && r.times == p.times && r.rest == p.rest && r.deviceOverrides.None?
      && (var own := device in Overrides(p) && c in Overrides(p)[device] && Overrides(p)[device][c] != Undefined;
          && (own ==> c in r.controls && r.controls[c] == Overrides(p)[device][c])
          && (!own && c in p.controls ==> c in r.controls && r.controls[c] == p.controls[c])
          && (!own && c !in p.controls ==> c !in r.controls))
  {
    var r, mine := Effective(p, device), Mine(p, device);
    assert Get(r.controls, c) == if Get(mine, c) != Undefined then Get(mine, c) else Get(p.controls, c);
  }
}
