// Winding down the local link (android/jni/src/link.rs): sessions, ingest tasks,
// the audits they spawn, the retire thread and the handle's owner, interleaved in
// every order. Each action is one atomic step of one of them.

module LinkDrain {
  // One call of `ingest`: counted and about to be spawned, running in the broker,
  // counted for its audits and about to spawn them, absorbing, over.
  datatype Phase = Handing | Running | AuditHanding | Absorbing | Ended

  datatype AuditPhase = NoAudit | AuditLive | AuditDone

  datatype Ingest = Ingest(phase: Phase, audit: AuditPhase)

  datatype Thread = NoThread | Sleeping | Forgetting | Draining | Leaving | Finished

  datatype Tasks = Tasks(
    counter: int,        // the atomic in-flight count
    reading: nat,        // sessions that may still take a frame
    midFrame: nat,       // sessions past a frame's checks, about to call `ingest`
    ingests: seq<Ingest>)

  datatype Owner = Owner(
    held: bool,          // the handle still owns the runtime
    slot: bool,          // the retire slot holds it
    taken: nat,          // how often `rt.take()` found it
    torn: nat,           // how often it was shut down
    closed: bool,        // WardLink::shutdown has run
    thread: Thread,
    forget: bool,        // the retire asked for the state files to go
    forgotten: bool,     // they were deleted
    files: bool,         // some state file exists
    limitPassed: bool)   // the drain deadline is behind us

  datatype State = State(tasks: Tasks, owner: Owner)

  datatype TaskStep =
    | OpenSession | FrameArrives | CallIngest | LeaveReading | LeaveMidFrame
    | SpawnIngest(i: nat) | BrokerDone(i: nat, audits: bool) | SpawnAudit(i: nat)
    | EndIngest(i: nat) | EndAudit(i: nat)

  datatype OwnerStep =
    | Persist
    | Retire(graceZero: bool, forget: bool, threadStarts: bool)
    | GraceOver | ForgetFiles | LimitPasses | ReadCounter | TearDown

  datatype Action = Task(task: TaskStep) | Own(own: OwnerStep)

  const START := State(Tasks(0, 0, 0, []), Owner(true, false, 0, 0, false, NoThread, false, false, false, false))

  // --- the tasks ----------------------------------------------------------------

  predicate At(x: Tasks, i: nat, p: Phase) { i < |x.ingests| && x.ingests[i].phase == p }

  predicate TaskEnabled(s: State, t: TaskStep) {
    match t
    // A closed link opens no session. One that is open notices the close in a step
    // of its own: until then, a poll that reached its reader before the close was
    // seen may take a buffered frame and ingest it, the runtime shut down or not.
    case OpenSession => !s.owner.closed
    case FrameArrives => s.tasks.reading > 0
    case CallIngest => s.tasks.midFrame > 0
    // It notices the close, or ends for reasons of its own.
    case LeaveReading => s.tasks.reading > 0
    case LeaveMidFrame => s.tasks.midFrame > 0
    case SpawnIngest(i) => At(s.tasks, i, Handing)
    case BrokerDone(i, _) => At(s.tasks, i, Running)
    case SpawnAudit(i) => At(s.tasks, i, AuditHanding)
    // A task ends in its own time, by panicking, or as the runtime drops it.
    case EndIngest(i) => At(s.tasks, i, Running) || At(s.tasks, i, Absorbing)
    case EndAudit(i) => i < |s.tasks.ingests| && s.tasks.ingests[i].audit == AuditLive
  }

  // The ingest a step is about, as the step leaves it.
  function Stepped(x: Ingest, t: TaskStep): Ingest {
    match t
    case SpawnIngest(_) => x.(phase := Running)
    case BrokerDone(_, audits) => x.(phase := if audits then AuditHanding else Absorbing)
    case SpawnAudit(_) => Ingest(Absorbing, AuditLive)
    case EndIngest(_) => x.(phase := Ended)
    case EndAudit(_) => x.(audit := AuditDone)
    case _ => x
  }

  // What the step adds to the counter: `fetch_add` before a task is spawned,
  // `fetch_sub` as its token is dropped.
  function Counted(t: TaskStep): int {
    match t
    case CallIngest => 1
    case BrokerDone(_, audits) => if audits then 1 else 0
    case EndIngest(_) => -1
    case EndAudit(_) => -1
    case _ => 0
  }

  predicate About(t: TaskStep, i: nat) {
    match t
    case SpawnIngest(j) => i == j
    case BrokerDone(j, _) => i == j
    case SpawnAudit(j) => i == j
    case EndIngest(j) => i == j
    case EndAudit(j) => i == j
    case _ => false
  }

  function Updated(xs: seq<Ingest>, t: TaskStep): (r: seq<Ingest>)
    ensures |r| >= |xs|
    ensures forall i :: 0 <= i < |xs| ==> r[i] == if About(t, i) then Stepped(xs[i], t) else xs[i]
  {
    if t.CallIngest? then xs + [Ingest(Handing, NoAudit)]
    else if t.OpenSession? || t.FrameArrives? || t.LeaveReading? || t.LeaveMidFrame? || t.i >= |xs| then xs
    else xs[t.i := Stepped(xs[t.i], t)]
  }

  function ReadingAdds(t: TaskStep): int {
    match t
    case OpenSession => 1
    case CallIngest => 1
    case FrameArrives => -1
    case LeaveReading => -1
    case _ => 0
  }

  function MidFrameAdds(t: TaskStep): int {
    match t
    case FrameArrives => 1
    case CallIngest => -1
    case LeaveMidFrame => -1
    case _ => 0
  }

  function TaskNext(x: Tasks, t: TaskStep): Tasks
    requires x.reading + ReadingAdds(t) >= 0 && x.midFrame + MidFrameAdds(t) >= 0
  {
    Tasks(x.counter + Counted(t), x.reading + ReadingAdds(t), x.midFrame + MidFrameAdds(t), Updated(x.ingests, t))
  }

  // Sessions that have not noticed a close.
  function Sessions(x: Tasks): nat { x.reading + x.midFrame }

  // --- the handle's owner and the retire thread -------------------------------------

  predicate OwnEnabled(o: Owner, step: OwnerStep) {
    match step
    case Persist => !o.closed
    // `retire` and then `Drop`, or `Drop` alone, any number of times.
    case Retire(_, _, _) => true
    case GraceOver => o.thread == Sleeping
    case ForgetFiles => o.thread == Forgetting
    case LimitPasses => o.thread == Draining
    case ReadCounter => o.thread == Draining
    case TearDown => o.thread == Leaving
  }

  function Forgot(o: Owner, forget: bool): Owner {
    if forget then o.(files := false, forgotten := true) else o
  }

  // Take the slot and shut the runtime down.
  function Torn(o: Owner): Owner {
    if o.slot then o.(slot := false, torn := o.torn + 1) else o
  }

  function RetireInner(o: Owner, graceZero: bool, forget: bool, threadStarts: bool): Owner {
    if !o.held then o
    else
      var t := o.(held := false, taken := o.taken + 1, slot := true, forget := forget, closed := o.closed || graceZero);
      if threadStarts then t.(thread := if graceZero then Forgetting else Sleeping)
      else
        // The failed start: everything the thread would have done, at once.
        Torn(Forgot(t.(closed := true), forget))
  }

  function OwnNext(o: Owner, counter: int, step: OwnerStep): Owner {
    match step
    case Persist => o.(files := true)
    case Retire(graceZero, forget, threadStarts) => RetireInner(o, graceZero, forget, threadStarts)
    case GraceOver => o.(closed := true, thread := Forgetting)
    case ForgetFiles => Forgot(o.(thread := Draining), o.forget)
    case LimitPasses => o.(limitPassed := true)
    case ReadCounter => if counter == 0 || o.limitPassed then o.(thread := Leaving) else o
    case TearDown => Torn(o.(thread := Finished))
  }

  predicate Enabled(s: State, a: Action) {
    match a
    case Task(t) => TaskEnabled(s, t)
    case Own(o) => OwnEnabled(s.owner, o)
  }

  function Next(s: State, a: Action): State
    requires Enabled(s, a)
  {
    match a
    case Task(t) => s.(tasks := TaskNext(s.tasks, t))
    case Own(o) => s.(owner := OwnNext(s.owner, s.tasks.counter, o))
  }

  predicate CanRun(s: State, run: seq<Action>)
    decreases |run|
  {
    run == [] || (Enabled(s, run[0]) && CanRun(Next(s, run[0]), run[1..]))
  }

  function Run(s: State, run: seq<Action>): State
    requires CanRun(s, run)
    decreases |run|
  {
    if run == [] then s else Run(Next(s, run[0]), run[1..])
  }

  // --- the counter is the live tasks ------------------------------------------------

  // The tokens one ingest call accounts for: its own task, and its audits'.
  function Tokens(x: Ingest): nat {
    (if x.phase == Ended then 0 else 1) + (if x.phase == AuditHanding || x.audit == AuditLive then 1 else 0)
  }

  function AllTokens(xs: seq<Ingest>): nat {
    if xs == [] then 0 else Tokens(xs[0]) + AllTokens(xs[1..])
  }

  lemma {:induction false} TokensUpdate(xs: seq<Ingest>, ys: seq<Ingest>, i: nat)
    requires i < |xs| == |ys| && forall k :: 0 <= k < |xs| && k != i ==> xs[k] == ys[k]
    ensures AllTokens(ys) == AllTokens(xs) - Tokens(xs[i]) + Tokens(ys[i])
  {
    if i > 0 {
      TokensUpdate(xs[1..], ys[1..], i - 1);
    } else {
      assert xs[1..] == ys[1..];
    }
  }

  lemma {:induction false} TokensSnoc(xs: seq<Ingest>, x: Ingest)
    ensures AllTokens(xs + [x]) == AllTokens(xs) + Tokens(x)
  {
    if xs == [] {
      assert ([] + [x])[1..] == [];
    } else {
      assert (xs + [x])[1..] == xs[1..] + [x];
      TokensSnoc(xs[1..], x);
    }
  }

  lemma {:induction false} TokensOfOne(xs: seq<Ingest>, i: nat)
    requires i < |xs|
    ensures AllTokens(xs) >= Tokens(xs[i])
  {
    if i > 0 { TokensOfOne(xs[1..], i - 1); }
  }

  predicate Shaped(x: Ingest) {
    x.phase == Handing || x.phase == Running || x.phase == AuditHanding ==> x.audit == NoAudit
  }

  predicate Counting(x: Tasks) {
    && x.counter == AllTokens(x.ingests)
    && forall i :: 0 <= i < |x.ingests| ==> Shaped(x.ingests[i])
  }

  predicate Orderly(o: Owner) {
    && (o.held ==> o.taken == 0 && o.torn == 0 && !o.slot && o.thread == NoThread)
    && (!o.held ==> o.taken == 1 && o.torn == if o.slot then 0 else 1)
    && (o.slot <==> o.thread == Sleeping || o.thread == Forgetting || o.thread == Draining || o.thread == Leaving)
    && (o.thread == Forgetting || o.thread == Draining || o.thread == Leaving || o.torn > 0 || o.forgotten ==> o.closed)
    && (o.forgotten ==> !o.files)
  }

  predicate Inv(s: State) { Counting(s.tasks) && Orderly(s.owner) }

  lemma TaskKeepsCounting(s: State, t: TaskStep)
    requires Counting(s.tasks) && TaskEnabled(s, t)
    ensures Counting(TaskNext(s.tasks, t))
  {
    var xs, ys := s.tasks.ingests, TaskNext(s.tasks, t).ingests;
    if t.CallIngest? {
      TokensSnoc(xs, Ingest(Handing, NoAudit));
    } else if t.OpenSession? || t.FrameArrives? || t.LeaveReading? || t.LeaveMidFrame? {
      assert ys == xs;
    } else {
      TokensUpdate(xs, ys, t.i);
    }
  }

  lemma OwnerKeepsOrder(o: Owner, counter: int, step: OwnerStep)
    requires Orderly(o) && OwnEnabled(o, step)
    ensures Orderly(OwnNext(o, counter, step))
  {
  }

  lemma InvKept(s: State, a: Action)
    requires Inv(s) && Enabled(s, a)
    ensures Inv(Next(s, a))
  {
    match a
    case Task(t) => TaskKeepsCounting(s, t);
    case Own(o) => OwnerKeepsOrder(s.owner, s.tasks.counter, o);
  }

  lemma {:induction false} InvHolds(s: State, run: seq<Action>)
    requires Inv(s) && CanRun(s, run)
    ensures Inv(Run(s, run))
    decreases |run|
  {
    if run != [] {
      InvKept(s, run[0]);
      InvHolds(Next(s, run[0]), run[1..]);
    }
  }

  // Under every interleaving the counter is the number of ingest and audit tasks
  // counted in and not yet over; it is positive while any is.
  lemma CounterIsLiveTasks(run: seq<Action>, i: nat)
    requires CanRun(START, run)
    ensures var x := Run(START, run).tasks;
      && x.counter == AllTokens(x.ingests)
      && (i < |x.ingests| && Tokens(x.ingests[i]) > 0 ==> x.counter > 0)
  {
    InvHolds(START, run);
    var x := Run(START, run).tasks;
    if i < |x.ingests| { TokensOfOne(x.ingests, i); }
  }

  // An ingest call, with the audits it spawns, is live over one unbroken stretch:
  // once none of its tokens is left, none comes back.
  predicate Over(x: Tasks, i: nat) { i < |x.ingests| && Tokens(x.ingests[i]) == 0 }

  lemma OverIsOver(s: State, a: Action, i: nat)
    requires Enabled(s, a) && Over(s.tasks, i)
    ensures Over(Next(s, a).tasks, i)
  {
  }

  lemma {:induction false} OverStays(s: State, run: seq<Action>, i: nat)
    requires CanRun(s, run) && Over(s.tasks, i)
    ensures Over(Run(s, run).tasks, i)
    decreases |run|
  {
    if run != [] {
      OverIsOver(s, run[0], i);
      OverStays(Next(s, run[0]), run[1..], i);
    }
  }

  // So from an ingest call to the end of the audits it spawned the counter never
  // touches zero: if one of its tokens is there at the end of a run, the counter
  // was positive at every point since the call.
  lemma NoGapBeforeTheAudits(before: seq<Action>, after: seq<Action>, i: nat)
    requires CanRun(START, before) && CanRun(Run(START, before), after)
    requires i < |Run(START, before).tasks.ingests| && !Over(Run(Run(START, before), after).tasks, i)
    ensures Run(START, before).tasks.counter > 0
  {
    InvHolds(START, before);
    var s := Run(START, before);
    if Over(s.tasks, i) { OverStays(s, after, i); }
    TokensOfOne(s.tasks.ingests, i);
  }

  // --- the runtime and the files -----------------------------------------------------

  // However `retire` and `Drop` combine, the runtime is taken and shut down at most
  // once; the state files go only after the link is shut down, and stay gone.
  lemma TakenOnceForgottenLast(run: seq<Action>, after: seq<Action>)
    requires CanRun(START, run) && CanRun(Run(START, run), after)
    ensures var o := Run(START, run).owner;
      && o.taken <= 1 && o.torn <= o.taken
      && (o.torn > 0 ==> o.closed)
      && (o.forgotten ==> o.closed && !o.files && !Run(Run(START, run), after).owner.files)
  {
    InvHolds(START, run);
    var s := Run(START, run);
    InvHolds(s, after);
    if s.owner.forgotten { ForgottenStays(s, after); }
  }

  lemma {:induction false} ForgottenStays(s: State, run: seq<Action>)
    requires CanRun(s, run) && s.owner.forgotten
    ensures Run(s, run).owner.forgotten
    decreases |run|
  {
    if run != [] { ForgottenStays(Next(s, run[0]), run[1..]); }
  }

  // --- what is alive when the runtime goes --------------------------------------------

  // On a closed link: the first `n` ingests are over, at most `m` sessions have not
  // noticed, and with none there is no newer ingest.
  predicate Since(s: State, n: nat, m: nat) {
    && s.owner.closed && n <= |s.tasks.ingests|
    && (forall i :: 0 <= i < n ==> Over(s.tasks, i))
    && Sessions(s.tasks) <= m
    && (m == 0 ==> |s.tasks.ingests| == n)
  }

  lemma SinceStep(s: State, a: Action, n: nat, m: nat)
    requires Enabled(s, a) && Since(s, n, m)
    ensures Since(Next(s, a), n, m)
  {
    forall i | 0 <= i < n ensures Over(Next(s, a).tasks, i) { OverIsOver(s, a, i); }
    if a.Task? && !a.task.CallIngest? {
      assert |Next(s, a).tasks.ingests| == |s.tasks.ingests|;
    }
  }

  lemma {:induction false} SinceHolds(s: State, run: seq<Action>, n: nat, m: nat)
    requires CanRun(s, run) && Since(s, n, m)
    ensures Since(Run(s, run), n, m)
    decreases |run|
  {
    if run != [] {
      SinceStep(s, run[0], n, m);
      SinceHolds(Next(s, run[0]), run[1..], n, m);
    }
  }

  lemma NoTokensNone(xs: seq<Ingest>, i: nat)
    requires AllTokens(xs) == 0 && i < |xs|
    ensures Tokens(xs[i]) == 0
  {
    TokensOfOne(xs, i);
  }

  lemma {:induction false} AllOver(xs: seq<Ingest>)
    requires forall i :: 0 <= i < |xs| ==> Tokens(xs[i]) == 0
    ensures AllTokens(xs) == 0
  {
    if xs != [] {
      assert forall i :: 0 <= i < |xs[1..]| ==> xs[1..][i] == xs[i + 1];
      AllOver(xs[1..]);
    }
  }

  lemma AfterAZeroRead(s: State, after: seq<Action>)
    requires Inv(s) && s.owner.closed && s.tasks.counter == 0 && CanRun(s, after)
    ensures Since(Run(s, after), |s.tasks.ingests|, Sessions(s.tasks))
  {
    forall k | 0 <= k < |s.tasks.ingests| ensures Over(s.tasks, k) { NoTokensNone(s.tasks.ingests, k); }
    SinceHolds(s, after, |s.tasks.ingests|, Sessions(s.tasks));
  }

  lemma NothingWithoutSessions(t: State, n: nat)
    requires Inv(t) && Since(t, n, 0)
    ensures t.tasks.counter == 0
  {
    var xs := t.tasks.ingests;
    assert |xs| == n;
    forall i | 0 <= i < |xs| ensures Tokens(xs[i]) == 0 { assert Over(t.tasks, i); }
    AllOver(xs);
  }

  // When the drain read zero, every ingest called so far is over for good, and any task
  // alive later was called by a session that had not noticed the close; with no such
  // session nothing is alive when the runtime is shut down, and nothing starts after.
  lemma ZeroReadLeavesOnlyStragglers(run: seq<Action>, after: seq<Action>)
    requires CanRun(START, run) && CanRun(Run(START, run), after)
    requires Run(START, run).owner.thread == Draining && Run(START, run).tasks.counter == 0
    ensures var s := Run(START, run);
      && Since(Run(s, after), |s.tasks.ingests|, Sessions(s.tasks))
      && (Sessions(s.tasks) == 0 ==> Run(s, after).tasks.counter == 0)
  {
    InvHolds(START, run);
    var s := Run(START, run);
    AfterAZeroRead(s, after);
    InvHolds(s, after);
    if Sessions(s.tasks) == 0 { NothingWithoutSessions(Run(s, after), |s.tasks.ingests|); }
  }

  // --- every teardown before the limit -------------------------------------------------

  // The step that commits to one: the retire thread reads zero, or it could not be
  // started and the runtime is shut down at once.
  predicate Decides(s: State, a: Action) {
    || (a == Own(ReadCounter) && s.owner.thread == Draining && s.tasks.counter == 0 && !s.owner.limitPassed)
    || (a.Own? && a.own.Retire? && !a.own.threadStarts && s.owner.held)
  }

  predicate Committed(o: Owner) { o.thread == Leaving || o.torn > 0 }

  lemma CommitsByDeciding(s: State, a: Action)
    requires Inv(s) && Enabled(s, a) && !Committed(s.owner)
    requires Committed(Next(s, a).owner) && !Next(s, a).owner.limitPassed
    ensures Decides(s, a)
  {
  }

  lemma LimitStaysPassed(s: State, a: Action)
    requires Enabled(s, a) && s.owner.limitPassed
    ensures Next(s, a).owner.limitPassed
  {
  }

  lemma {:induction false} LimitNotPassedBefore(s: State, run: seq<Action>)
    requires CanRun(s, run) && !Run(s, run).owner.limitPassed
    ensures !s.owner.limitPassed
    decreases |run|
  {
    if run != [] {
      LimitNotPassedBefore(Next(s, run[0]), run[1..]);
      if s.owner.limitPassed { LimitStaysPassed(s, run[0]); }
    }
  }

  // `n` actions on, `run` is at the state `at`, and `at` goes on to where it ends.
  predicate Reaches(s: State, run: seq<Action>, n: nat, at: State) {
    && CanRun(s, run) && n < |run| && CanRun(s, run[..n]) && Run(s, run[..n]) == at
    && Enabled(at, run[n]) && CanRun(Next(at, run[n]), run[n + 1..])
    && Run(Next(at, run[n]), run[n + 1..]) == Run(s, run)
  }

  lemma ReachesNow(s: State, run: seq<Action>)
    requires run != [] && CanRun(s, run)
    ensures Reaches(s, run, 0, s)
  {
    assert run[..0] == [];
  }

  lemma ReachesLater(s: State, run: seq<Action>, n: nat, at: State)
    requires run != [] && CanRun(s, run) && Reaches(Next(s, run[0]), run[1..], n, at)
    ensures Reaches(s, run, n + 1, at)
  {
    assert run[..n + 1][0] == run[0] && run[..n + 1][1..] == run[1..][..n];
    assert run[1..][n + 1..] == run[n + 2..];
  }

  lemma {:induction false} TheDecision(s: State, run: seq<Action>) returns (n: nat, at: State)
    requires Inv(s) && CanRun(s, run) && !Committed(s.owner)
    requires Committed(Run(s, run).owner) && !Run(s, run).owner.limitPassed
    ensures Reaches(s, run, n, at) && Inv(at) && Decides(at, run[n])
    decreases |run|
  {
    var next := Next(s, run[0]);
    InvKept(s, run[0]);
    if Committed(next.owner) {
      LimitNotPassedBefore(next, run[1..]);
      CommitsByDeciding(s, run[0]);
      n, at := 0, s;
      ReachesNow(s, run);
    } else {
      n, at := TheDecision(next, run[1..]);
      ReachesLater(s, run, n, at);
      n := n + 1;
    }
  }

  // No task is alive, then or however things go on.
  ghost predicate NoTaskEver(s: State) {
    forall after :: CanRun(s, after) ==> Run(s, after).tasks.counter == 0
  }

  // Nothing counted in flight, and no session that has not noticed the close.
  predicate Idle(x: Tasks) { x.counter == 0 && Sessions(x) == 0 }

  lemma IdleClosedStaysIdle(s: State)
    requires Inv(s) && s.owner.closed && Idle(s.tasks)
    ensures NoTaskEver(s)
  {
    forall after | CanRun(s, after) ensures Run(s, after).tasks.counter == 0 {
      AfterAZeroRead(s, after);
      InvHolds(s, after);
      NothingWithoutSessions(Run(s, after), |s.tasks.ingests|);
    }
  }

  lemma BusyHasATask(s: State)
    requires Inv(s) && !Idle(s.tasks)
    ensures !NoTaskEver(s)
  {
    if s.tasks.counter != 0 {
      assert CanRun(s, []) && Run(s, []).tasks.counter != 0;
    } else if s.tasks.midFrame > 0 {
      RunOne(s, Task(CallIngest));
      assert Run(s, [Task(CallIngest)]).tasks.counter == 1;
    } else {
      var run := [Task(FrameArrives)] + [Task(CallIngest)];
      RunOne(Next(s, Task(FrameArrives)), Task(CallIngest));
      RunCons(s, Task(FrameArrives), [Task(CallIngest)]);
      assert CanRun(s, run) && Run(s, run).tasks.counter == 1;
    }
  }

  lemma DecidedCleanExactly(s: State, a: Action)
    requires Inv(s) && Enabled(s, a) && Decides(s, a)
    ensures NoTaskEver(Next(s, a)) <==> Idle(s.tasks)
  {
    var t := Next(s, a);
    InvKept(s, a);
    assert t.tasks == s.tasks && t.owner.closed;
    if Idle(s.tasks) { IdleClosedStaysIdle(t); } else { BusyHasATask(t); }
  }

  // Over every run: a runtime shut down before the limit was so decided by a zero
  // reading, or by a retire whose thread could not be started; and no task is left,
  // then or later, exactly if at that decision nothing was counted in flight and every
  // session had noticed the close or ended.
  lemma TornDownBeforeTheLimit(run: seq<Action>) returns (n: nat, at: State)
    requires CanRun(START, run) && Run(START, run).owner.torn > 0 && !Run(START, run).owner.limitPassed
    ensures Reaches(START, run, n, at) && Decides(at, run[n])
    ensures NoTaskEver(Next(at, run[n])) <==> Idle(at.tasks)
    ensures Idle(at.tasks) ==> Run(START, run).tasks.counter == 0
  {
    n, at := TheDecision(START, run);
    DecidedCleanExactly(at, run[n]);
  }

  // A retire whose thread cannot be started does not wait: from any idle link, the one
  // just started included, a session opens, its frame's ingest runs, and the runtime is
  // shut down with that ingest alive.
  lemma SpawnFailureHappens(s: State)
    requires Inv(s) && s.owner.held && !s.owner.closed && s.tasks.counter == 0
    ensures var i := |s.tasks.ingests|;
      var run := [Task(OpenSession), Task(FrameArrives), Task(CallIngest), Task(SpawnIngest(i)), Own(Retire(false, true, false))];
      && CanRun(s, run) && Run(s, run).owner.torn == 1
      && Run(s, run).tasks.counter == 1 && At(Run(s, run).tasks, i, Running)
  {
    var i := |s.tasks.ingests|;
    var last := Own(Retire(false, true, false));
    var s1 := Next(s, Task(OpenSession));
    var s2 := Next(s1, Task(FrameArrives));
    var s3 := Next(s2, Task(CallIngest));
    var s4 := Next(s3, Task(SpawnIngest(i)));
    RunOne(s4, last);
    RunCons(s3, Task(SpawnIngest(i)), [last]);
    RunCons(s2, Task(CallIngest), [Task(SpawnIngest(i)), last]);
    RunCons(s1, Task(FrameArrives), [Task(CallIngest), Task(SpawnIngest(i)), last]);
    RunCons(s, Task(OpenSession), [Task(FrameArrives), Task(CallIngest), Task(SpawnIngest(i)), last]);
  }

  // Whenever the counter reads zero with a session past its checks, that session can
  // still call `ingest` and the runtime be shut down under the new ingest, well before
  // the deadline.
  lemma AStragglerIsCutOff(s: State)
    requires Inv(s) && s.owner.thread == Draining && s.tasks.counter == 0 && s.tasks.midFrame > 0
    ensures var i := |s.tasks.ingests|;
      var run := [Own(ReadCounter), Task(CallIngest), Task(SpawnIngest(i)), Own(TearDown)];
      && CanRun(s, run)
      && Run(s, run).owner == s.owner.(thread := Finished, slot := false, torn := 1)
      && Run(s, run).tasks.counter == 1 && At(Run(s, run).tasks, i, Running)
  {
    var i := |s.tasks.ingests|;
    var s1 := Next(s, Own(ReadCounter));
    CutOffMidFrame(s1);
    RunCons(s, Own(ReadCounter), [Task(CallIngest), Task(SpawnIngest(i)), Own(TearDown)]);
  }

  lemma CutOffMidFrame(s: State)
    requires Inv(s) && s.owner.thread == Leaving && s.tasks.counter == 0 && s.tasks.midFrame > 0
    ensures var i := |s.tasks.ingests|;
      var run := [Task(CallIngest), Task(SpawnIngest(i)), Own(TearDown)];
      && CanRun(s, run)
      && Run(s, run).owner == s.owner.(thread := Finished, slot := false, torn := 1)
      && Run(s, run).tasks.counter == 1 && At(Run(s, run).tasks, i, Running)
  {
    var i := |s.tasks.ingests|;
    var s2 := Next(s, Task(CallIngest));
    var s3 := Next(s2, Task(SpawnIngest(i)));
    RunOne(s3, Own(TearDown));
    RunCons(s2, Task(SpawnIngest(i)), [Own(TearDown)]);
    RunCons(s, Task(CallIngest), [Task(SpawnIngest(i)), Own(TearDown)]);
  }

  // The same with a session that has not even read its frame yet: it takes one that is
  // buffered after the close and after the zero reading.
  lemma ALateReaderIsCutOff(s: State)
    requires Inv(s) && s.owner.thread == Draining && s.tasks.counter == 0 && s.tasks.reading > 0
    ensures var i := |s.tasks.ingests|;
      var run := [Own(ReadCounter), Task(FrameArrives), Task(CallIngest), Task(SpawnIngest(i)), Own(TearDown)];
      && CanRun(s, run)
      && Run(s, run).owner == s.owner.(thread := Finished, slot := false, torn := 1)
      && Run(s, run).tasks.counter == 1 && At(Run(s, run).tasks, i, Running)
  {
    var i := |s.tasks.ingests|;
    var s1 := Next(s, Own(ReadCounter));
    var s2 := Next(s1, Task(FrameArrives));
    CutOffMidFrame(s2);
    RunCons(s1, Task(FrameArrives), [Task(CallIngest), Task(SpawnIngest(i)), Own(TearDown)]);
    RunCons(s, Own(ReadCounter), [Task(FrameArrives), Task(CallIngest), Task(SpawnIngest(i)), Own(TearDown)]);
  }

  // And such moments come from any idle link, the one just started included: it is
  // retired while a session is open.
  lemma StragglersHappen(s: State)
    requires Inv(s) && s.owner.held && !s.owner.closed && s.tasks.counter == 0
    ensures var run := [Task(OpenSession), Own(Retire(true, false, true)), Own(ForgetFiles)];
      && CanRun(s, run)
      && Run(s, run).owner.thread == Draining
      && Run(s, run).tasks.counter == 0 && Run(s, run).tasks.reading > 0
  {
    var s1 := Next(s, Task(OpenSession));
    var s2 := Next(s1, Own(Retire(true, false, true)));
    RunOne(s2, Own(ForgetFiles));
    RunCons(s1, Own(Retire(true, false, true)), [Own(ForgetFiles)]);
    RunCons(s, Task(OpenSession), [Own(Retire(true, false, true)), Own(ForgetFiles)]);
  }

  lemma RunCons(s: State, a: Action, rest: seq<Action>)
    requires Enabled(s, a) && CanRun(Next(s, a), rest)
    ensures CanRun(s, [a] + rest) && Run(s, [a] + rest) == Run(Next(s, a), rest)
  {
    assert ([a] + rest)[1..] == rest;
  }

  lemma RunOne(s: State, a: Action)
    requires Enabled(s, a)
    ensures CanRun(s, [a]) && Run(s, [a]) == Next(s, a)
  {
    assert [a][1..] == [];
  }
}
