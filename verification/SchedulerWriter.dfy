/** The writer mutex (lib/c/2014/labcomm2014_pthread_scheduler.c): when writer_lock and
  * writer_unlock start an action while their thread holds it.
  */
module SchedulerWriter {
  import opened Options
  import opened Deferred
  import opened Scheduler
  import opened SchedulerRuns

  /** A frame of run_deferred that writer_lock or writer_unlock called. */
  ghost predicate OnWriterPath(f: Frame) {
    (f.Enter? || f.Check? || f.Loop? || f.Running? || f.Leave?) && (f.who.FromLock? || f.who.FromUnlock?)
  }

  /** Did the thread hold the mutex when it made the call? writer_unlock releases it. */
  predicate HeldAtCall(f: Frame)
    requires OnWriterPath(f)
  {
    f.who.FromLock? && f.who.held
  }

  /** Does the thread hold the mutex after so many changes by its actions? */
  predicate HeldNow(f: Frame, changes: nat)
    requires OnWriterPath(f)
  {
    HeldAtCall(f) != (changes % 2 == 1)
  }

  ghost predicate CallIs(f: Frame, holds: bool, changes: nat) {
    OnWriterPath(f) ==>
      && (f.Enter? || f.Check? ==> (holds <==> HeldAtCall(f)))
      && (Runner(f) ==> (holds <==> HeldNow(f, changes)))
  }

  /** What is known on the writer path about the mutex: at its start it is as it was at
    * the call, and only actions change that.
    */
  ghost predicate PathIs(st: Stack, holds: bool, changes: nat) {
    && CallIs(Top(st), holds, changes)
    && (forall i :: 0 < i < |st| && OnWriterPath(st[i - 1]) && Runner(st[i - 1]) && st[i].Acting? ==>
          (st[i].held <==> HeldNow(st[i - 1], changes)))
  }

  ghost predicate WriterInv(s: State) {
    forall t :: t in s.stacks ==> PathIs(s.stacks[t], s.writerOwner == Some(t), s.changes)
  }

  ghost predicate Runs(st: Stack) {
    exists i :: 0 <= i < |st| && Runner(st[i])
  }

  lemma WriterFrom(s: State, s': State, t: Tid)
    requires WriterInv(s) && t in s.stacks && t in s'.stacks && s'.stacks == s.stacks[t := s'.stacks[t]]
    requires s'.writerOwner == s.writerOwner || s'.writerOwner == None || s'.writerOwner == Some(t)
    requires s'.writerOwner == s.writerOwner || s.writerOwner == None || s.writerOwner == Some(t)
    requires s'.changes == s.changes || forall u :: u in s.stacks && u != t ==> !Runs(s.stacks[u])
    requires PathIs(s'.stacks[t], s'.writerOwner == Some(t), s'.changes)
    ensures WriterInv(s')
  {
    forall u | u in s'.stacks ensures PathIs(s'.stacks[u], s'.writerOwner == Some(u), s'.changes) {
      if u != t { PathOther(s.stacks[u], s.writerOwner == Some(u), s.changes, s'.changes); }
    }
  }

  /** Nobody but the runner is concerned by changes. */
  lemma PathOther(st: Stack, holds: bool, changes: nat, changes': nat)
    requires PathIs(st, holds, changes) && (changes' == changes || !Runs(st))
    ensures PathIs(st, holds, changes')
  {}

  ghost predicate SamePath(f: Frame, g: Frame) {
    && (OnWriterPath(f) <==> OnWriterPath(g)) && (OnWriterPath(f) ==> (HeldAtCall(f) <==> HeldAtCall(g)))
  }

  lemma PathSwap(st: Stack, f: Frame, holds: bool, changes: nat)
    requires PathIs(st, holds, changes) && (CallIs(Top(st), holds, changes) ==> CallIs(f, holds, changes)) && !f.Acting?
    ensures PathIs(Become(st, f), holds, changes)
  {}

  lemma PathPop(st: Stack, holds: bool, holds': bool, changes: nat)
    requires PathIs(st, holds, changes) && |st| > 1 && CallIs(Top(Pop(st)), holds', changes)
    ensures PathIs(Pop(st), holds', changes)
  {}

  /** The action returns to its runner, and there is no other one. */
  lemma PathReturn(st: Stack, holds: bool, changes: nat, changes': nat)
    requires PathIs(st, holds, changes) && |st| > 1 && Top(st).Acting? && st[|st| - 2].Running?
    requires forall i :: 0 <= i < |st| - 2 ==> !Runner(st[i])
    requires changes' == changes + if holds != Top(st).held then 1 else 0
    ensures PathIs(Pop(st), holds, changes')
  {}

  lemma PathCall(st: Stack, f: Frame, a: Frame, holds: bool, changes: nat)
    requires PathIs(st, holds, changes) && Top(st).Loop? && f.Running? && SamePath(f, Top(st)) && a.Acting? && a.held == holds
    ensures PathIs(Become(st, f) + [a], holds, changes)
  {}

  lemma PathPush(st: Stack, f: Frame, holds: bool, holds': bool, changes: nat)
    requires PathIs(st, holds, changes) && !f.Acting? && CallIs(f, holds', changes)
    ensures PathIs(st + [f], holds', changes)
  {}

  lemma NobodyRuns(s: State, t: Tid)
    requires ThreadsOk(s) && s.runner == None && t in s.stacks
    ensures !Runs(s.stacks[t])
  {
    hide Shapes, Current, Marks;
    forall i: nat | i < |s.stacks[t]| ensures !Runner(s.stacks[t][i]) { assert At(s.stacks, t, i); }
  }

  lemma OnlyRunner(s: State, t: Tid, i: nat, u: Tid, j: nat)
    requires ThreadsOk(s) && s.runner == Some((t, i)) && u in s.stacks && j < |s.stacks[u]| && (u != t || j != i)
    ensures !Runner(s.stacks[u][j])
  {
    hide Shapes, Current, Marks;
    assert At(s.stacks, u, j);
  }

  lemma WriterSwaps(s: State, t: Tid)
    requires Enabled(s, Go(t)) && WriterInv(s)
    requires var f := Top(s.stacks[t]);
             f.Enter? || (f.Check? && s.running) || f.Running? || f.Waiting? || f.WantEnqueue? || f.WantWakeup?
    ensures WriterInv(Apply(s, Go(t)))
  {
    hide PathIs, Become, LoopStep, LeaveStep, EnqueueStep;
    var (st, holds, s') := (s.stacks[t], s.writerOwner == Some(t), Apply(s, Go(t)));
    assert PathIs(st, holds, s.changes);
    match Top(st) {
      case Enter(who) => PathSwap(st, Check(who), holds, s.changes);
      case Check(who) => PathSwap(st, Leave(who, Skipped), holds, s.changes);
      case Running(who, phase) => PathSwap(st, Loop(who, phase), holds, s.changes);
      case Waiting(until) => PathSwap(st, Check(FromSleep(until)), holds, s.changes);
      case WantEnqueue(delay) => PathSwap(st, Enqueueing(delay), holds, s.changes);
      case WantWakeup => PathSwap(st, WakingUp, holds, s.changes);
    }
    WriterFrom(s, s', t);
  }

  /** Nobody runs actions, and the thread begins to. */
  lemma WriterTakes(s: State, t: Tid)
    requires Inv(s) && Enabled(s, Go(t)) && WriterInv(s) && Top(s.stacks[t]).Check? && !s.running
    ensures WriterInv(Apply(s, Go(t)))
  {
    hide Inv, PathIs, Become, ThreadsOk, Conserved, DelayedOk, Locks, LoopStep, LeaveStep, EnqueueStep;
    InvParts(s);
    forall u | u in s.stacks ensures !Runs(s.stacks[u]) { NobodyRuns(s, u); }
    var (st, holds, s') := (s.stacks[t], s.writerOwner == Some(t), Apply(s, Go(t)));
    assert PathIs(st, holds, s.changes);
    PathOther(st, holds, s.changes, 0);
    PathSwap(st, Loop(Top(st).who, First), holds, 0);
    WriterFrom(s, s', t);
  }

  lemma WriterPops(s: State, t: Tid)
    requires Enabled(s, Go(t)) && WriterInv(s) && ThreadsOk(s)
    requires var f := Top(s.stacks[t]); f.WantWriter? || f.WakingUp? || f.Enqueueing?
    ensures WriterInv(Apply(s, Go(t)))
  {
    hide PathIs, Become, ThreadsOk, LoopStep, LeaveStep, InsertTimed, AddUsec;
    var (st, holds, s') := (s.stacks[t], s.writerOwner == Some(t), Apply(s, Go(t)));
    assert PathIs(st, holds, s.changes);
    Under(s, t);
    PathPop(st, holds, s'.writerOwner == Some(t), s.changes);
    WriterFrom(s, s', t);
  }

  lemma WriterGoes(s: State, t: Tid)
    requires Inv(s) && Enabled(s, Go(t)) && WriterInv(s)
    ensures WriterInv(Apply(s, Go(t)))
  {
    hide Inv, PathIs, Become, ThreadsOk, Conserved, DelayedOk, Locks, LoopStep, EnqueueStep, Compare;
    InvParts(s);
    var f := Top(s.stacks[t]);
    if f.Leave? {
      WriterLeaves(s, t);
      WriterFrom(s, Apply(s, Go(t)), t);
    } else if f.Loop? {
      WriterLoops(s, t);
      WriterFrom(s, Apply(s, Go(t)), t);
    } else if f.WantWriter? || f.WakingUp? || f.Enqueueing? {
      WriterPops(s, t);
    } else if f.Check? && !s.running {
      WriterTakes(s, t);
    } else {
      WriterSwaps(s, t);
    }
  }

  lemma WriterLeaves(s: State, t: Tid)
    requires Enabled(s, Go(t)) && ThreadsOk(s) && Top(s.stacks[t]).Leave?
    requires PathIs(s.stacks[t], s.writerOwner == Some(t), s.changes)
    ensures PathIs(Apply(s, Go(t)).stacks[t], s.writerOwner == Some(t), s.changes)
  {
    hide PathIs, Become, ThreadsOk, Compare;
    var (st, holds, who) := (s.stacks[t], s.writerOwner == Some(t), Top(s.stacks[t]).who);
    Under(s, t);
    PathPop(st, holds, holds, s.changes);
    PathSwap(st, WantWriter, holds, s.changes);
    if who.FromSleep? { PathSwap(st, Waiting(who.until), holds, s.changes); }
  }

  lemma WriterLoops(s: State, t: Tid)
    requires Enabled(s, Go(t)) && Top(s.stacks[t]).Loop? && PathIs(s.stacks[t], s.writerOwner == Some(t), s.changes)
    ensures var s' := Apply(s, Go(t));
            && PathIs(s'.stacks[t], s.writerOwner == Some(t), s.changes)
            && s'.writerOwner == s.writerOwner && s'.changes == s.changes
    ensures Apply(s, Go(t)).stacks == s.stacks[t := Apply(s, Go(t)).stacks[t]]
  {
    hide PathIs, Become, Compare, LeaveStep, EnqueueStep;
    var (st, holds, who, phase) := (s.stacks[t], s.writerOwner == Some(t), Top(s.stacks[t]).who, Top(s.stacks[t]).phase);
    if phase.First? && s.deferred != [] {
      PathCall(st, Running(who, phase), Acting(s.deferred[0], holds), holds, s.changes);
    } else if phase.First? && s.delayed != [] {
      PathSwap(st, Loop(who, Second(s.clock, |s.enqueued|)), holds, s.changes);
    } else if phase.Second? && s.delayed != [] && Compare(s.delayed[0].when, phase.now) <= 0 {
      PathCall(st, Running(who, phase), Acting(s.delayed[0].action, holds), holds, s.changes);
    } else {
      PathSwap(st, Leave(who, Ran(phase)), holds, s.changes);
    }
  }

  lemma WriterReturns(s: State, t: Tid)
    requires Inv(s) && Enabled(s, Return(t)) && WriterInv(s)
    ensures WriterInv(Apply(s, Return(t)))
  {
    hide Inv, PathIs, ThreadsOk, Conserved, DelayedOk, Locks;
    InvParts(s);
    AtAction(s, t);
    var (st, holds, s') := (s.stacks[t], s.writerOwner == Some(t), Apply(s, Return(t)));
    forall u, j: nat | u in s.stacks && j < |s.stacks[u]| && (u != t || j != |st| - 2) ensures !Runner(s.stacks[u][j]) {
      OnlyRunner(s, t, |st| - 2, u, j);
    }
    assert PathIs(st, holds, s.changes);
    PathReturn(st, holds, s.changes, s'.changes);
    WriterFrom(s, s', t);
  }

  lemma WriterKept(s: State, step: Step)
    requires Inv(s) && Enabled(s, step) && WriterInv(s)
    ensures WriterInv(Apply(s, step))
  {
    hide Inv, PathIs, ThreadsOk, Conserved, DelayedOk, Locks, InsertTimed, AddUsec, Compare, Become, LoopStep, LeaveStep, EnqueueStep;
    match step
    case Begin(t, call) =>
      var s' := Apply(s, step);
      var f := FirstFrame(call, s.writerOwner == Some(t));
      assert PathIs(s.stacks[t], s.writerOwner == Some(t), s.changes);
      PathPush(s.stacks[t], f, s.writerOwner == Some(t), s'.writerOwner == Some(t), s.changes);
      WriterFrom(s, s', t);
    case Return(t) => WriterReturns(s, t);
    case Go(t) => WriterGoes(s, t);
    case Tick(_) =>
  }

  lemma {:induction false} RunKeepsWriter(s: State, steps: seq<Step>)
    requires Inv(s) && WriterInv(s) && Feasible(s, steps)
    ensures Inv(Run(s, steps)) && WriterInv(Run(s, steps))
    decreases |steps|
  {
    hide Inv, Apply, Enabled, WriterInv;
    if steps != [] {
      StepKeepsInv(s, steps[0]);
      WriterKept(s, steps[0]);
      RunKeepsWriter(Apply(s, steps[0]), steps[1..]);
    }
  }

  /** A thread on its way through writer_lock or writer_unlock starts an action. */
  ghost predicate StartsOnWriterPath(s: State, t: Tid) {
    Enabled(s, Go(t)) && OnWriterPath(Top(s.stacks[t])) && Apply(s, Go(t)).current != s.current
  }

  lemma StartsAtLoop(s: State, t: Tid)
    requires StartsOnWriterPath(s, t)
    ensures Top(s.stacks[t]).Loop?
  {
    hide Compare, InsertTimed, AddUsec, Become;
  }

  /** Deferred tasks are run before the writer mutex is taken and after it is released.
    * In every run, a thread in writer_lock or writer_unlock starts an action while it
    * holds the mutex if and only if one of two things is so and not both: it held the
    * mutex when it called writer_lock; an odd number of the actions that the call has
    * run have taken it and not released it, or the other way round.
    */
  lemma ActionUnderWriterLockIff(threads: set<Tid>, clock: Time, steps: seq<Step>, t: Tid)
    requires Normal(clock) && clock != END && Feasible(Init(threads, clock), steps)
    requires StartsOnWriterPath(Run(Init(threads, clock), steps), t)
    ensures var s := Run(Init(threads, clock), steps);
            s.writerOwner == Some(t) <==> HeldAtCall(Top(s.stacks[t])) != (s.changes % 2 == 1)
  {
    hide Inv, Run, Feasible, Apply;
    InitInv(threads, clock);
    RunKeepsWriter(Init(threads, clock), steps);
    var s := Run(Init(threads, clock), steps);
    StartsAtLoop(s, t);
    assert PathIs(s.stacks[t], s.writerOwner == Some(t), s.changes);
  }

  /** An action that returns leaves the writer mutex as it found it. */
  ghost predicate GivesBack(s: State, step: Step)
    requires Enabled(s, step)
  {
    step.Return? ==> (s.writerOwner == Some(step.t)) == Top(s.stacks[step.t]).held
  }

  ghost predicate AllGiveBack(s: State, steps: seq<Step>)
    requires Feasible(s, steps)
    decreases |steps|
  {
    steps == [] || (GivesBack(s, steps[0]) && AllGiveBack(Apply(s, steps[0]), steps[1..]))
  }

  lemma NoChange(s: State, step: Step)
    requires Enabled(s, step) && GivesBack(s, step) && s.changes == 0
    ensures Apply(s, step).changes == 0
  {
    hide Compare, InsertTimed, AddUsec, Become;
  }

  lemma {:induction false} NoChanges(s: State, steps: seq<Step>)
    requires Feasible(s, steps) && AllGiveBack(s, steps) && s.changes == 0
    ensures Run(s, steps).changes == 0
    decreases |steps|
  {
    hide Apply, Enabled, GivesBack;
    if steps != [] {
      NoChange(s, steps[0]);
      NoChanges(Apply(s, steps[0]), steps[1..]);
    }
  }

  /** Hence, if actions give back what they take, exactly if the call is a writer_lock by
    * a thread that holds the mutex already, and never in writer_unlock.
    */
  lemma NoActionUnderWriterLock(threads: set<Tid>, clock: Time, steps: seq<Step>, t: Tid)
    requires Normal(clock) && clock != END && Feasible(Init(threads, clock), steps)
    requires AllGiveBack(Init(threads, clock), steps) && StartsOnWriterPath(Run(Init(threads, clock), steps), t)
    ensures var s := Run(Init(threads, clock), steps);
            s.writerOwner == Some(t) <==> Top(s.stacks[t]).who == FromLock(true)
  {
    hide Run, Feasible, AllGiveBack, Apply;
    ActionUnderWriterLockIff(threads, clock, steps, t);
    NoChanges(Init(threads, clock), steps);
  }
}
