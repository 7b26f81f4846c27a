/** Going to sleep: when a thread starts to wait although an immediate action is
  * queued that no other thread is about to run.
  */
module SchedulerSleep {
  import opened Options
  import opened Deferred
  import opened Scheduler
  import opened SchedulerRuns

  /** What run_deferred leaves behind, as long as the data mutex is held. */
  ghost predicate ExitIs(s: State, how: Exit) {
    match how
    case Skipped => s.running
    case Ran(First) => !s.running && s.deferred == []
    case Ran(Second(_, mark)) => !s.running && mark <= |s.enqueued| && s.deferred == s.enqueued[mark..]
  }

  ghost predicate Exits(s: State) {
    forall t :: t in s.stacks && Top(s.stacks[t]).Leave? ==> ExitIs(s, Top(s.stacks[t]).how)
  }

  /** Only the holder of the data mutex changes what ExitIs speaks of. */
  lemma OtherSteps(s: State, step: Step, u: Tid)
    requires Inv(s) && Enabled(s, step) && u in s.stacks && Top(s.stacks[u]).Leave? && step != Go(u)
    ensures var s' := Apply(s, step); s'.running == s.running && s'.deferred == s.deferred && s'.enqueued == s.enqueued
  {
    hide Inv, ThreadsOk, Conserved, DelayedOk, InsertTimed, AddUsec, LoopStep, LeaveStep, EnqueueStep;
    InvParts(s);
    Free(s, u);
    if step.Go? { Free(s, step.t); }
  }

  lemma LoopExits(s: State, t: Tid)
    requires Inv(s) && Enabled(s, Go(t)) && Top(s.stacks[t]).Loop?
    ensures var s' := Apply(s, Go(t)); t in s'.stacks && (Top(s'.stacks[t]).Leave? ==> ExitIs(s', Top(s'.stacks[t]).how))
  {
    hide Inv, ThreadsOk, Conserved, DelayedOk, Locks, LeaveStep, EnqueueStep, Compare;
    InvParts(s);
    AtLoop(s, t);
  }

  /** Returning to user code. */
  lemma Returns(s: State, t: Tid)
    requires Inv(s) && Enabled(s, Go(t))
    requires var f := Top(s.stacks[t]); f.WantWriter? || f.WakingUp? || f.Leave? || f.Enqueueing?
    ensures var s' := Apply(s, Go(t)); t in s'.stacks && !Top(s'.stacks[t]).Leave?
  {
    hide Inv, ThreadsOk, Pop, LoopStep, LeaveStep, EnqueueStep;
    InvParts(s);
    Under(s, t);
    match Top(s.stacks[t])
    case Leave(who, _) => LeaveMoves(s, t, who, t);
    case Enqueueing(delay) => EnqueueMoves(s, t, delay, t);
    case _ =>
  }

  // Each step changes the stack of its own thread only.

  ghost predicate SameStack(s: State, s': State, u: Tid) {
    (u in s.stacks <==> u in s'.stacks) && (u in s.stacks ==> s'.stacks[u] == s.stacks[u])
  }

  lemma LeaveMoves(s: State, t: Tid, who: Caller, u: Tid)
    requires t in s.stacks && |s.stacks[t]| > 1
    ensures var s' := LeaveStep(s, t, who);
            && (u != t ==> SameStack(s, s', u))
            && t in s'.stacks && (s'.stacks[t] == Pop(s.stacks[t]) || !Top(s'.stacks[t]).Leave?)
  {
    hide Pop, Compare;
  }

  lemma EnqueueMoves(s: State, t: Tid, delay: nat, u: Tid)
    requires t in s.stacks && |s.stacks[t]| > 1 && Normal(s.clock)
    ensures var s' := EnqueueStep(s, t, delay);
            (u != t ==> SameStack(s, s', u)) && t in s'.stacks && s'.stacks[t] == Pop(s.stacks[t])
  {
    hide Pop, InsertTimed, AddUsec;
  }

  lemma LoopMoves(s: State, t: Tid, who: Caller, phase: Phase, u: Tid)
    requires t in s.stacks && u != t
    ensures SameStack(s, LoopStep(s, t, who, phase), u)
  {
    hide Become, Compare;
  }

  lemma OwnStep(s: State, t: Tid)
    requires Inv(s) && Enabled(s, Go(t))
    ensures var s' := Apply(s, Go(t)); t in s'.stacks && (Top(s'.stacks[t]).Leave? ==> ExitIs(s', Top(s'.stacks[t]).how))
  {
    hide Inv, LoopStep, LeaveStep, EnqueueStep;
    match Top(s.stacks[t])
    case Loop(_, _) => LoopExits(s, t);
    case WantWriter => Returns(s, t);
    case WakingUp => Returns(s, t);
    case Leave(_, _) => Returns(s, t);
    case Enqueueing(_) => Returns(s, t);
    case _ =>
  }

  lemma ExitsKept(s: State, step: Step)
    requires Inv(s) && Exits(s) && Enabled(s, step)
    ensures Exits(Apply(s, step))
  {
    hide Inv, ThreadsOk, Conserved, DelayedOk, Locks, InsertTimed, AddUsec, LoopStep, LeaveStep, EnqueueStep;
    InvParts(s);
    var s' := Apply(s, step);
    forall u | u in s'.stacks && Top(s'.stacks[u]).Leave? ensures ExitIs(s', Top(s'.stacks[u]).how) {
      if step == Go(u) {
        OwnStep(s, u);
      } else {
        OthersStay(s, step, u);
        OtherSteps(s, step, u);
      }
    }
  }

  lemma OthersStay(s: State, step: Step, u: Tid)
    requires Inv(s) && Enabled(s, step) && u in Apply(s, step).stacks && step != Go(u) && Top(Apply(s, step).stacks[u]).Leave?
    ensures u in s.stacks && s.stacks[u] == Apply(s, step).stacks[u]
  {
    hide Inv, LoopStep, LeaveStep, EnqueueStep;
    match step
    case Go(t) => MovesOne(s, t, u);
    case Return(t) => ReturnsToRunner(s, t);
    case _ =>
  }

  lemma MovesOne(s: State, t: Tid, u: Tid)
    requires Enabled(s, Go(t)) && u != t
    ensures SameStack(s, Apply(s, Go(t)), u)
  {
    hide Become, Pop, LoopStep, LeaveStep, EnqueueStep;
    match Top(s.stacks[t])
    case Loop(who, phase) => LoopMoves(s, t, who, phase, u);
    case Leave(who, _) => LeaveMoves(s, t, who, u);
    case Enqueueing(delay) => EnqueueMoves(s, t, delay, u);
    case _ =>
  }

  lemma ReturnsToRunner(s: State, t: Tid)
    requires Inv(s) && Enabled(s, Return(t))
    ensures !Top(Pop(s.stacks[t])).Leave?
  {
    hide Inv, ThreadsOk;
    InvParts(s);
    AtAction(s, t);
  }

  lemma {:induction false} RunKeepsExits(s: State, steps: seq<Step>)
    requires Inv(s) && Exits(s) && Feasible(s, steps)
    ensures Inv(Run(s, steps)) && Exits(Run(s, steps))
    decreases |steps|
  {
    hide Inv, Exits, Apply, Enabled;
    if steps != [] {
      StepKeepsInv(s, steps[0]);
      ExitsKept(s, steps[0]);
      RunKeepsExits(Apply(s, steps[0]), steps[1..]);
    }
  }

  /** The thread is inside an action that it runs itself. */
  ghost predicate InAction(s: State, t: Tid) {
    exists i: nat :: ActsAt(s, t, i)
  }

  lemma InActionIs(s: State, t: Tid)
    requires Inv(s) && t in s.stacks && Top(s.stacks[t]).Leave?
    ensures s.runner.Some? && s.runner.value.0 == t <==> InAction(s, t)
  {
    hide Conserved, DelayedOk, Locks, Marks;
    var st := s.stacks[t];
    assert Shape(st);
    if s.runner.Some? && s.runner.value.0 == t {
      var i := s.runner.value.1;
      assert At(s.stacks, t, i) && Runner(st[i]);
      assert i < |st| - 1;
      assert ActsAt(s, t, i + 1);
    }
    if InAction(s, t) {
      var i: nat :| ActsAt(s, t, i);
      assert At(s.stacks, t, i - 1) && Runner(st[i - 1]);
    }
  }

  /** The second loop has been left, and something was enqueued since the time was
    * sampled.
    */
  ghost predicate EnqueuedSince(how: Exit, enqueued: nat) {
    how.Ran? && how.phase.Second? && how.phase.mark < enqueued
  }

  ghost predicate StartsToWait(s: State, t: Tid) {
    t in s.stacks && Top(s.stacks[t]).Waiting?
  }

  lemma LeaveKeepsQueues(s: State, t: Tid, who: Caller)
    requires t in s.stacks && |s.stacks[t]| > 1
    ensures var s' := LeaveStep(s, t, who); s'.deferred == s.deferred && s'.runner == s.runner
  {
    hide Become, Pop, Compare;
  }

  /** What is queued when run_deferred has been left. */
  lemma QueuedAfter(s: State, t: Tid)
    requires Inv(s) && Exits(s) && t in s.stacks && Top(s.stacks[t]).Leave?
    ensures s.deferred != [] && (s.runner.Some? ==> s.runner.value.0 == t)
            <==> (InAction(s, t) && s.deferred != []) || EnqueuedSince(Top(s.stacks[t]).how, |s.enqueued|)
  {
    assert ExitIs(s, Top(s.stacks[t]).how);
    hide Inv, Exits, ThreadsOk, Locks, Conserved, DelayedOk, InAction;
    InvParts(s);
    InActionIs(s, t);
  }

  lemma WaitsOnQueued(s: State, t: Tid)
    requires Inv(s) && Exits(s) && Enabled(s, Go(t)) && Top(s.stacks[t]).Leave? && StartsToWait(Apply(s, Go(t)), t)
    ensures var s' := Apply(s, Go(t));
            s'.deferred != [] && (s'.runner.Some? ==> s'.runner.value.0 == t)
            <==> (InAction(s, t) && s.deferred != []) || EnqueuedSince(Top(s.stacks[t]).how, |s.enqueued|)
  {
    hide Inv, Exits, LeaveStep, LoopStep, EnqueueStep, InAction, EnqueuedSince, StartsToWait;
    LeaveKeepsQueues(s, t, Top(s.stacks[t]).who);
    QueuedAfter(s, t);
  }

  /** Exactly when, in any run, a thread starts to wait although an immediate action
    * is queued and no other thread is running actions: it sleeps inside an action,
    * with another one queued; or its run_deferred has left the second loop, and an
    * immediate action was enqueued since the time was sampled.
    */
  lemma SleepsOnQueuedIff(threads: set<Tid>, clock: Time, steps: seq<Step>, t: Tid)
    requires Normal(clock) && clock != END && Feasible(Init(threads, clock), steps)
    requires var s := Run(Init(threads, clock), steps);
             Enabled(s, Go(t)) && Top(s.stacks[t]).Leave? && StartsToWait(Apply(s, Go(t)), t)
    ensures var (s, s') := (Run(Init(threads, clock), steps), Apply(Run(Init(threads, clock), steps), Go(t)));
            s'.deferred != [] && (s'.runner.Some? ==> s'.runner.value.0 == t)
            <==> (InAction(s, t) && s.deferred != []) || EnqueuedSince(Top(s.stacks[t]).how, |s.enqueued|)
  {
    hide Inv, Run, Feasible, Exits, Apply, Enabled, InAction;
    InitInv(threads, clock);
    NobodyLeaves(threads, clock);
    RunKeepsExits(Init(threads, clock), steps);
    WaitsOnQueued(Run(Init(threads, clock), steps), t);
  }

  lemma NobodyLeaves(threads: set<Tid>, clock: Time)
    ensures Exits(Init(threads, clock))
  {}

  // ------------------------------------------------------------------ a lost wakeup

  lemma {:induction false} Extend(s: State, steps: seq<Step>, step: Step)
    requires Feasible(s, steps) && Enabled(Run(s, steps), step)
    ensures Feasible(s, steps + [step]) && Run(s, steps + [step]) == Apply(Run(s, steps), step)
    decreases |steps|
  {
    hide Apply, Enabled;
    if steps == [] {
      assert [step][1..] == [];
      assert steps + [step] == [step];
    } else {
      assert (steps + [step])[1..] == steps[1..] + [step];
      Extend(Apply(s, steps[0]), steps[1..], step);
    }
  }

  /** One thread whose clock shows `clock`: deferred and delayed actions, its stack,
    * how many actions were issued and done, and the runner's depth if there is one.
    */
  ghost function Alone(clock: Time, st: Stack, locked: bool, deferred: seq<nat>, delayed: seq<Item>,
                       issued: nat, enqueued: seq<nat>, done: seq<nat>, current: seq<nat>, runner: bool): State
  {
    State(if locked then Some(0) else None, None, runner, false, deferred, delayed, map[0 := st], clock,
          issued, enqueued, [], done, current, if runner then Some((0, 1)) else None, 0, 0)
  }

  /** Stacks of a single thread, as steps build them. */
  lemma Frames(base: Stack, f: Frame, g: Frame)
    ensures Become(base + [f], g) == base + [g] && Pop(base + [f]) == base && Top(base + [f]) == f
    ensures forall s: State, st: Stack :: s.stacks.Keys == {0} ==> Move(s, 0, st).stacks == map[0 := st]
  {}

  ghost function Sleeper(f: Frame): Stack {
    [Outside] + [f]
  }

  lemma Nothing(clock: Time, x: Item)
    ensures Feasible(Init({0}, clock), [])
    ensures Run(Init({0}, clock), []) == Alone(clock, [Outside], false, [], [], 0, [], [], [], false)
    ensures InsertTimed([], x) == [x]
  {}

  /** The first call of the only thread. */
  lemma FirstCall(clock: Time, call: Call)
    requires Normal(clock) && !call.WriterUnlock?
    ensures Feasible(Init({0}, clock), [Begin(0, call)])
    ensures Run(Init({0}, clock), [Begin(0, call)])
            == Alone(clock, Sleeper(FirstFrame(call, false)), false, [], [], 0, [], [], [], false)
  {
    hide Feasible, Run, InsertTimed, Init;
    Nothing(clock, Item(clock, 0));
    var none: seq<Step> := [];
    Extend(Init({0}, clock), none, Begin(0, call));
    assert none + [Begin(0, call)] == [Begin(0, call)];
  }

  lemma EnqueueAlone(clock: Time) returns (steps: seq<Step>)
    requires Normal(clock) && clock != END
    ensures Feasible(Init({0}, clock), steps)
    ensures Run(Init({0}, clock), steps)
            == Alone(clock, [Outside], false, [], [Item(AddUsec(clock, 1), 0)], 1, [], [], [], false)
  {
    hide Feasible, Run, AddUsec, Become, Pop, Init, Compare, InsertTimed, LoopStep, LeaveStep;
    var s0 := Init({0}, clock);
    steps := [Begin(0, Enqueue(1))];
    FirstCall(clock, Enqueue(1));
    Frames([Outside], WantEnqueue(1), Enqueueing(1));
    Extend(s0, steps, Go(0));
    steps := steps + [Go(0)];
    assert Run(s0, steps) == Alone(clock, Sleeper(Enqueueing(1)), true, [], [], 0, [], [], [], false);
    steps := EnterFirst(clock, steps);
  }

  lemma EnterFirst(clock: Time, before: seq<Step>) returns (steps: seq<Step>)
    requires Normal(clock) && clock != END && Feasible(Init({0}, clock), before)
    requires Run(Init({0}, clock), before) == Alone(clock, Sleeper(Enqueueing(1)), true, [], [], 0, [], [], [], false)
    ensures Feasible(Init({0}, clock), steps)
    ensures Run(Init({0}, clock), steps)
            == Alone(clock, [Outside], false, [], [Item(AddUsec(clock, 1), 0)], 1, [], [], [], false)
  {
    hide Feasible, Run, AddUsec, Become, Pop, Init, Compare, InsertTimed, LoopStep, LeaveStep;
    Nothing(clock, Item(AddUsec(clock, 1), 0));
    Frames([Outside], Enqueueing(1), Outside);
    Extend(Init({0}, clock), before, Go(0));
    steps := before + [Go(0)];
  }

  lemma FallAsleep(clock: Time, before: seq<Step>) returns (steps: seq<Step>)
    requires Normal(clock) && clock != END && Feasible(Init({0}, clock), before)
    requires Run(Init({0}, clock), before)
             == Alone(clock, [Outside], false, [], [Item(AddUsec(clock, 1), 0)], 1, [], [], [], false)
    ensures Feasible(Init({0}, clock), steps)
    ensures var due := AddUsec(clock, 1);
            Run(Init({0}, clock), steps) == Alone(due, Sleeper(Loop(FromSleep(None), First)), true, [], [Item(due, 0)], 1, [], [], [], true)
  {
    hide Feasible, Run, AddUsec, InsertTimed, Become, Pop, Init, Compare, LoopStep, EnqueueStep, LeaveStep;
    var due := AddUsec(clock, 1);
    AddUsecExact(clock, 1);
    var q := [Item(due, 0)];
    var sleep := FromSleep(None);
    var s0 := Init({0}, clock);
    steps := before;
    Extend(s0, steps, Tick(due));
    steps := steps + [Tick(due)];
    assert Run(s0, steps) == Alone(due, [Outside], false, [], q, 1, [], [], [], false);
    Frames([Outside], Enter(sleep), Check(sleep));
    Extend(s0, steps, Begin(0, Sleep(None)));
    steps := steps + [Begin(0, Sleep(None))];
    assert Run(s0, steps) == Alone(due, Sleeper(Enter(sleep)), false, [], q, 1, [], [], [], false);
    Frames([Outside], Enter(sleep), Check(sleep));
    Extend(s0, steps, Go(0));
    steps := steps + [Go(0)];
    assert Run(s0, steps) == Alone(due, Sleeper(Check(sleep)), true, [], q, 1, [], [], [], false);
    Frames([Outside], Check(sleep), Loop(sleep, First));
    Extend(s0, steps, Go(0));
    steps := steps + [Go(0)];
    assert Run(s0, steps) == Alone(due, Sleeper(Loop(sleep, First)), true, [], q, 1, [], [], [], true);
  }

  /** The time was sampled after the first action had been issued. */
  ghost function Sampled(s: State): State {
    s.(sampled := 1)
  }

  lemma RunDelayed(clock: Time, due: Time, before: seq<Step>) returns (steps: seq<Step>)
    requires Normal(clock) && Normal(due) && Feasible(Init({0}, clock), before)
    requires Run(Init({0}, clock), before)
             == Alone(due, Sleeper(Loop(FromSleep(None), First)), true, [], [Item(due, 0)], 1, [], [], [], true)
    ensures Feasible(Init({0}, clock), steps)
    ensures Run(Init({0}, clock), steps)
            == Sampled(Alone(due, Sleeper(Running(FromSleep(None), Second(due, 0))) + [Acting(0, false)], false, [], [], 1, [], [], [0], true))
  {
    hide Feasible, Run, InsertTimed, Become, Pop, Init, EnqueueStep, LeaveStep;
    var q := [Item(due, 0)];
    var sleep := FromSleep(None);
    var second := Second(due, 0);
    var s0 := Init({0}, clock);
    steps := before;
    Frames([Outside], Loop(sleep, First), Loop(sleep, second));
    Extend(s0, steps, Go(0));
    steps := steps + [Go(0)];
    assert Run(s0, steps) == Sampled(Alone(due, Sleeper(Loop(sleep, second)), true, [], q, 1, [], [], [], true));
    assert q[1..] == [];
    Frames([Outside], Loop(sleep, second), Running(sleep, second));
    Extend(s0, steps, Go(0));
    steps := steps + [Go(0)];
    assert Run(s0, steps) == Sampled(Alone(due, Sleeper(Running(sleep, second)) + [Acting(0, false)], false, [], [], 1, [], [], [0], true));
  }

  lemma EnqueueInAction(clock: Time, due: Time, base: Stack, before: seq<Step>) returns (steps: seq<Step>)
    requires Normal(clock) && Normal(due) && Feasible(Init({0}, clock), before)
    requires |base| > 1 && Run(Init({0}, clock), before)
             == Sampled(Alone(due, base + [Acting(0, false)], false, [], [], 1, [], [], [0], true))
    ensures Feasible(Init({0}, clock), steps)
    ensures Run(Init({0}, clock), steps) == Sampled(Alone(due, base, false, [1], [], 2, [1], [0], [], true))
  {
    hide Feasible, Run, InsertTimed, Become, Pop, Init, LoopStep, LeaveStep, Compare, AddUsec;
    var a := Acting(0, false);
    var up := base + [a];
    var s0 := Init({0}, clock);
    Frames(base, a, a);
    steps := before;
    Frames(up, WantEnqueue(0), Enqueueing(0));
    Extend(s0, steps, Begin(0, Enqueue(0)));
    steps := steps + [Begin(0, Enqueue(0))];
    assert Run(s0, steps) == Sampled(Alone(due, up + [WantEnqueue(0)], false, [], [], 1, [], [], [0], true));
    Frames(up, WantEnqueue(0), Enqueueing(0));
    Extend(s0, steps, Go(0));
    steps := steps + [Go(0)];
    assert Run(s0, steps) == Sampled(Alone(due, up + [Enqueueing(0)], true, [], [], 1, [], [], [0], true));
    Frames(up, Enqueueing(0), a);
    Extend(s0, steps, Go(0));
    steps := steps + [Go(0)];
    assert Run(s0, steps) == Sampled(Alone(due, up, false, [1], [], 2, [1], [], [0], true));
    Frames(base, a, a);
    Extend(s0, steps, Return(0));
    steps := steps + [Return(0)];
    assert Run(s0, steps) == Sampled(Alone(due, base, false, [1], [], 2, [1], [0], [], true));
  }

  lemma BackToSleep(clock: Time, due: Time, before: seq<Step>) returns (steps: seq<Step>)
    requires Normal(clock) && Normal(due) && Feasible(Init({0}, clock), before)
    requires Run(Init({0}, clock), before)
             == Sampled(Alone(due, Sleeper(Running(FromSleep(None), Second(due, 0))), false, [1], [], 2, [1], [0], [], true))
    ensures Feasible(Init({0}, clock), steps)
    ensures Run(Init({0}, clock), steps) == Sampled(Alone(due, Sleeper(Waiting(None)), false, [1], [], 2, [1], [0], [], false))
  {
    hide Feasible, Run, InsertTimed, Become, Pop, Init, EnqueueStep;
    var sleep := FromSleep(None);
    var second := Second(due, 0);
    var s0 := Init({0}, clock);
    steps := before;
    Frames([Outside], Running(sleep, second), Loop(sleep, second));
    Extend(s0, steps, Go(0));
    steps := steps + [Go(0)];
    assert Run(s0, steps) == Sampled(Alone(due, Sleeper(Loop(sleep, second)), true, [1], [], 2, [1], [0], [], true));
    Frames([Outside], Loop(sleep, second), Leave(sleep, Ran(second)));
    Extend(s0, steps, Go(0));
    steps := steps + [Go(0)];
    assert Run(s0, steps) == Sampled(Alone(due, Sleeper(Leave(sleep, Ran(second))), true, [1], [], 2, [1], [0], [], false));
    Frames([Outside], Leave(sleep, Ran(second)), Waiting(None));
    Extend(s0, steps, Go(0));
    steps := steps + [Go(0)];
    assert Run(s0, steps) == Sampled(Alone(due, Sleeper(Waiting(None)), false, [1], [], 2, [1], [0], [], false));
  }

  /** A thread goes to sleep for good although an action that may run at once is
    * waiting: a delayed action enqueued it after run_deferred had left the loop
    * over immediate actions, and the signal came before the wait.
    */
  lemma LostWakeup(clock: Time) returns (steps: seq<Step>)
    requires Normal(clock) && clock != END
    ensures Feasible(Init({0}, clock), steps)
    ensures var s := Run(Init({0}, clock), steps);
            s.stacks == map[0 := [Outside, Waiting(None)]] && s.deferred == [1] && !s.running && s.delayed == []
  {
    hide Feasible, Run, AddUsec;
    var due := AddUsec(clock, 1);
    AddUsecExact(clock, 1);
    steps := EnqueueAlone(clock);
    steps := FallAsleep(clock, steps);
    steps := RunDelayed(clock, due, steps);
    steps := EnqueueInAction(clock, due, Sleeper(Running(FromSleep(None), Second(due, 0))), steps);
    steps := BackToSleep(clock, due, steps);
    assert Sleeper(Waiting(None)) == [Outside, Waiting(None)];
  }

  /** One thread with two immediate actions on its queue. */
  lemma EnqueueTwo(clock: Time) returns (steps: seq<Step>)
    requires Normal(clock) && clock != END
    ensures Feasible(Init({0}, clock), steps)
    ensures Run(Init({0}, clock), steps) == Alone(clock, [Outside], false, [0, 1], [], 2, [0, 1], [], [], false)
  {
    hide Feasible, Run, Become, Pop, Init, Compare, LoopStep, LeaveStep;
    var s0 := Init({0}, clock);
    steps := [];
    Nothing(clock, Item(clock, 0));
    steps := EnqueueOne(clock, [], steps);
    steps := EnqueueOne(clock, [0], steps);
    assert [0] + [1] == [0, 1];
  }

  lemma EnqueueOne(clock: Time, q: seq<nat>, before: seq<Step>) returns (steps: seq<Step>)
    requires Normal(clock) && Feasible(Init({0}, clock), before)
    requires Run(Init({0}, clock), before) == Alone(clock, [Outside], false, q, [], |q|, q, [], [], false)
    ensures Feasible(Init({0}, clock), steps)
    ensures Run(Init({0}, clock), steps) == Alone(clock, [Outside], false, q + [|q|], [], |q| + 1, q + [|q|], [], [], false)
  {
    hide Feasible, Run, Become, Pop, Init, Compare, LoopStep, LeaveStep, InsertTimed, AddUsec;
    var s0 := Init({0}, clock);
    steps := before;
    Frames([Outside], WantEnqueue(0), Enqueueing(0));
    Extend(s0, steps, Begin(0, Enqueue(0)));
    steps := steps + [Begin(0, Enqueue(0))];
    assert Run(s0, steps) == Alone(clock, Sleeper(WantEnqueue(0)), false, q, [], |q|, q, [], [], false);
    Frames([Outside], WantEnqueue(0), Enqueueing(0));
    Extend(s0, steps, Go(0));
    steps := steps + [Go(0)];
    assert Run(s0, steps) == Alone(clock, Sleeper(Enqueueing(0)), true, q, [], |q|, q, [], [], false);
    Frames([Outside], Enqueueing(0), Outside);
    Extend(s0, steps, Go(0));
    steps := steps + [Go(0)];
    assert Run(s0, steps) == Alone(clock, [Outside], false, q + [|q|], [], |q| + 1, q + [|q|], [], [], false);
  }

  /** The thread sleeps, and its run_deferred starts the first action. */
  lemma StartNested(clock: Time, before: seq<Step>) returns (steps: seq<Step>)
    requires Normal(clock) && Feasible(Init({0}, clock), before)
    requires Run(Init({0}, clock), before) == Alone(clock, [Outside], false, [0, 1], [], 2, [0, 1], [], [], false)
    ensures Feasible(Init({0}, clock), steps)
    ensures Run(Init({0}, clock), steps)
            == Alone(clock, Sleeper(Running(FromSleep(None), First)) + [Acting(0, false)], false, [1], [], 2, [0, 1], [], [0], true)
               .(started := [0])
  {
    hide Feasible, Run, Become, Pop, Init, Compare, LeaveStep, EnqueueStep;
    var sleep := FromSleep(None);
    var s0 := Init({0}, clock);
    steps := before;
    Frames([Outside], Enter(sleep), Check(sleep));
    Extend(s0, steps, Begin(0, Sleep(None)));
    steps := steps + [Begin(0, Sleep(None))];
    assert Run(s0, steps) == Alone(clock, Sleeper(Enter(sleep)), false, [0, 1], [], 2, [0, 1], [], [], false);
    Frames([Outside], Enter(sleep), Check(sleep));
    Extend(s0, steps, Go(0));
    steps := steps + [Go(0)];
    assert Run(s0, steps) == Alone(clock, Sleeper(Check(sleep)), true, [0, 1], [], 2, [0, 1], [], [], false);
    Frames([Outside], Check(sleep), Loop(sleep, First));
    Extend(s0, steps, Go(0));
    steps := steps + [Go(0)];
    assert Run(s0, steps) == Alone(clock, Sleeper(Loop(sleep, First)), true, [0, 1], [], 2, [0, 1], [], [], true);
    Frames([Outside], Loop(sleep, First), Running(sleep, First));
    Extend(s0, steps, Go(0));
    steps := steps + [Go(0)];
    assert [0, 1][1..] == [1];
  }

  /** The action sleeps in turn, and nothing is run. */
  lemma SleepNested(clock: Time, base: Stack, s1: State, before: seq<Step>) returns (steps: seq<Step>)
    requires Normal(clock) && Feasible(Init({0}, clock), before) && Run(Init({0}, clock), before) == s1
    requires s1 == Alone(clock, base, false, [1], [], 2, [0, 1], [], [0], true).(started := [0]) && User(Top(base))
    ensures Feasible(Init({0}, clock), steps)
    ensures Run(Init({0}, clock), steps) == s1.(stacks := map[0 := base + [Waiting(None)]])
  {
    hide Feasible, Run, Become, Pop, Init, Compare, LoopStep, LeaveStep, EnqueueStep;
    var sleep := FromSleep(None);
    var s0 := Init({0}, clock);
    steps := before;
    Frames(base, Enter(sleep), Check(sleep));
    Extend(s0, steps, Begin(0, Sleep(None)));
    steps := steps + [Begin(0, Sleep(None))];
    assert Run(s0, steps) == s1.(stacks := map[0 := base + [Enter(sleep)]]);
    Frames(base, Enter(sleep), Check(sleep));
    Extend(s0, steps, Go(0));
    steps := steps + [Go(0)];
    steps := NothingRun(clock, base, s1, steps);
  }

  lemma NothingRun(clock: Time, base: Stack, s1: State, before: seq<Step>) returns (steps: seq<Step>)
    requires s1 == Alone(clock, base, false, [1], [], 2, [0, 1], [], [0], true).(started := [0])
    requires Normal(clock) && Feasible(Init({0}, clock), before)
    requires Run(Init({0}, clock), before) == s1.(dataOwner := Some(0), stacks := map[0 := base + [Check(FromSleep(None))]])
    ensures Feasible(Init({0}, clock), steps)
    ensures Run(Init({0}, clock), steps) == s1.(stacks := map[0 := base + [Waiting(None)]])
  {
    hide Feasible, Run, Become, Pop, Init, Compare, LoopStep, EnqueueStep;
    var (sleep, s0) := (FromSleep(None), Init({0}, clock));
    var locked := s1.(dataOwner := Some(0));
    steps := before;
    Frames(base, Check(sleep), Leave(sleep, Skipped));
    Extend(s0, steps, Go(0));
    steps := steps + [Go(0)];
    assert Run(s0, steps) == locked.(stacks := map[0 := base + [Leave(sleep, Skipped)]]);
    Frames(base, Leave(sleep, Skipped), Waiting(None));
    Extend(s0, steps, Go(0));
    steps := steps + [Go(0)];
  }

  /** The other way to sleep for good: an action sleeps while another one is queued.
    * Its run_deferred does nothing because the outer one is running.
    */
  lemma NestedSleep(clock: Time) returns (steps: seq<Step>)
    requires Normal(clock) && clock != END
    ensures Feasible(Init({0}, clock), steps)
    ensures var s := Run(Init({0}, clock), steps);
            && s.stacks == map[0 := [Outside, Running(FromSleep(None), First), Acting(0, false), Waiting(None)]]
            && s.deferred == [1] && s.delayed == []
  {
    hide Feasible, Run;
    steps := EnqueueTwo(clock);
    steps := StartNested(clock, steps);
    var base: Stack := Sleeper(Running(FromSleep(None), First)) + [Acting(0, false)];
    steps := SleepNested(clock, base, Run(Init({0}, clock), steps), steps);
    assert base + [Waiting(None)] == [Outside, Running(FromSleep(None), First), Acting(0, false), Waiting(None)];
  }
}
