/** The pthread scheduler (lib/c/2014/labcomm2014_pthread_scheduler.c) as threads
  * that take turns: a step is what a thread does between two points where another
  * one could come in. Deferred actions are arbitrary user code, which may call
  * the scheduler again.
  */
module Scheduler {
  import opened Options
  import opened Deferred

  type Tid = nat

  /** Who called run_deferred. `held` is whether the thread had the writer mutex when it
    * called writer_lock, `until` the time a sleep ends, if any.
    */
  datatype Caller = FromLock(held: bool) | FromUnlock | FromSleep(until: Option<Time>)

  /** Which loop of run_deferred an action was taken from. The second loop has
    * sampled the time; `mark` is how many immediate actions had been enqueued by
    * then.
    */
  datatype Phase = First | Second(now: Time, mark: nat)

  /** How run_deferred ended: at once because another one is running, or after the
    * loop it had reached.
    */
  datatype Exit = Skipped | Ran(phase: Phase)

  /** Where a thread is, one entry for each function on its stack. */
  datatype Frame =
    | Outside                                  // user code
    | Acting(a: nat, held: bool)               // user code of an action; did the thread hold the writer lock?
    | Enter(who: Caller)                       // data_lock before run_deferred
    | Check(who: Caller)                       // run_deferred, data lock held
    | Loop(who: Caller, phase: Phase)          // at the head of a loop, data lock held
    | Running(who: Caller, phase: Phase)       // run_action, data lock released
    | Leave(who: Caller, how: Exit)            // after run_deferred, data lock held
    | Waiting(until: Option<Time>)             // in pthread_cond_wait
    | WantWriter
    | WantEnqueue(delay: nat)
    | Enqueueing(delay: nat)                   // data lock held
    | WantWakeup
    | WakingUp                                 // data lock held

  predicate User(f: Frame) {
    f.Outside? || f.Acting?
  }

  predicate HoldsData(f: Frame) {
    f.Check? || f.Loop? || f.Leave? || f.Enqueueing? || f.WakingUp?
  }

  /** Between setting and clearing running_deferred. */
  predicate Runner(f: Frame) {
    f.Loop? || f.Running?
  }

  type Stack = s: seq<Frame> | s != [] witness [Outside]

  function Top(s: Stack): Frame {
    s[|s| - 1]
  }

  /** Replace the top of a stack. */
  function Become(s: Stack, f: Frame): Stack {
    s[..|s| - 1] + [f]
  }

  function Pop(s: Stack): Stack
    requires |s| > 1
  {
    s[..|s| - 1]
  }

  /** The scheduler, its threads and the clock. The last line is history: the
    * number of actions issued (each gets the next number), the immediate ones in
    * the order they were enqueued and started, the finished ones, the one that is
    * running, where the runner is (thread and depth), how many of its actions have
    * returned with the writer mutex taken or released, and how many actions had been
    * issued when it sampled the time.
    */
  datatype State = State(
    dataOwner: Option<Tid>, writerOwner: Option<Tid>, running: bool, wakeup: bool,
    deferred: seq<nat>, delayed: seq<Item>,
    stacks: map<Tid, Stack>, clock: Time,
    issued: nat, enqueued: seq<nat>, started: seq<nat>, done: seq<nat>, current: seq<nat>, runner: Option<(Tid, nat)>,
    changes: nat, sampled: nat)

  datatype Call = WriterLock | WriterUnlock | Sleep(until: Option<Time>) | Wakeup | Enqueue(delay: nat)

  datatype Step =
    | Begin(t: Tid, call: Call)  // user code calls the scheduler
    | Return(t: Tid)             // the action returns
    | Go(t: Tid)                 // the thread goes on inside the scheduler
    | Tick(now: Time)

  ghost predicate Enabled(s: State, step: Step) {
    Normal(s.clock) &&
    match step
    case Begin(t, call) =>
      && t in s.stacks && User(Top(s.stacks[t]))
      && (call.WriterUnlock? ==> s.writerOwner == Some(t))
    case Return(t) => t in s.stacks && Top(s.stacks[t]).Acting? && |s.stacks[t]| > 1
    case Go(t) =>
      && t in s.stacks && !User(Top(s.stacks[t])) && |s.stacks[t]| > 1
      && (match Top(s.stacks[t])
          case Enter(_) | Running(_, _) | Waiting(_) | WantEnqueue(_) | WantWakeup => s.dataOwner == None
          case WantWriter => s.writerOwner == None
          case _ => true)
    case Tick(now) => Normal(now) && now != END
  }

  function FirstFrame(call: Call, held: bool): Frame {
    match call
    case WriterLock => Enter(FromLock(held))
    case WriterUnlock => Enter(FromUnlock)
    case Sleep(until) => Enter(FromSleep(until))
    case Wakeup => WantWakeup
    case Enqueue(delay) => WantEnqueue(delay)
  }

  function Move(s: State, t: Tid, st: Stack): State {
    s.(stacks := s.stacks[t := st])
  }

  /** run_action: take the action off its queue and run it without the lock. */
  function Start(s: State, t: Tid, who: Caller, phase: Phase, a: nat): State
    requires t in s.stacks
  {
    var st := Become(s.stacks[t], Running(who, phase)) + [Acting(a, s.writerOwner == Some(t))];
    Move(s.(dataOwner := None, current := [a]), t, st)
  }

  /** Leaving run_deferred. */
  function Finish(s: State, t: Tid, who: Caller, phase: Phase): State
    requires t in s.stacks
  {
    Move(s.(running := false, runner := None), t, Become(s.stacks[t], Leave(who, Ran(phase))))
  }

  function LoopStep(s: State, t: Tid, who: Caller, phase: Phase): State
    requires t in s.stacks
  {
    match phase
    case First =>
      if s.deferred != [] then
        Start(s.(deferred := s.deferred[1..], started := s.started + [s.deferred[0]]), t, who, First, s.deferred[0])
      else if s.delayed != [] then
        Move(s.(sampled := s.issued), t, Become(s.stacks[t], Loop(who, Second(s.clock, |s.enqueued|))))
      else Finish(s, t, who, phase)
    case Second(now, _) =>
      // an empty queue ends the loop because the sentinel is never due
      if s.delayed != [] && Compare(s.delayed[0].when, now) <= 0 then
        Start(s.(delayed := s.delayed[1..]), t, who, phase, s.delayed[0].action)
      else Finish(s, t, who, phase)
  }

  function LeaveStep(s: State, t: Tid, who: Caller): State
    requires t in s.stacks && |s.stacks[t]| > 1
  {
    var free := s.(dataOwner := None);
    match who
    case FromLock(_) => Move(free, t, Become(s.stacks[t], WantWriter))
    case FromUnlock => Move(free, t, Pop(s.stacks[t]))
    case FromSleep(until) =>
      if s.wakeup || (until.Some? && Compare(until.value, s.clock) <= 0)
      then Move(free.(wakeup := false), t, Pop(s.stacks[t]))
      else Move(free, t, Become(s.stacks[t], Waiting(until)))
  }

  function EnqueueStep(s: State, t: Tid, delay: nat): State
    requires t in s.stacks && |s.stacks[t]| > 1 && Normal(s.clock)
  {
    var a := s.issued;
    var s1 := Move(s.(dataOwner := None, issued := a + 1), t, Pop(s.stacks[t]));
    if delay == 0 then s1.(deferred := s.deferred + [a], enqueued := s.enqueued + [a])
    else s1.(delayed := InsertTimed(s.delayed, Item(AddUsec(s.clock, delay), a)))
  }

  function Apply(s: State, step: Step): State
    requires Enabled(s, step)
  {
    match step
    case Begin(t, call) =>
      Move(if call.WriterUnlock? then s.(writerOwner := None) else s, t, s.stacks[t] + [FirstFrame(call, s.writerOwner == Some(t))])
    case Return(t) =>
      var changed := (s.writerOwner == Some(t)) != Top(s.stacks[t]).held;
      Move(s.(done := s.done + [Top(s.stacks[t]).a], current := [], changes := s.changes + if changed then 1 else 0),
           t, Pop(s.stacks[t]))
    case Go(t) =>
      var st := s.stacks[t];
      var locked := s.(dataOwner := Some(t));
      (match Top(st)
       case Enter(who) => Move(locked, t, Become(st, Check(who)))
       case Check(who) =>
         if s.running then Move(s, t, Become(st, Leave(who, Skipped)))
         else Move(s.(running := true, runner := Some((t, |st| - 1)), changes := 0), t, Become(st, Loop(who, First)))
       case Loop(who, phase) => LoopStep(s, t, who, phase)
       case Running(who, phase) => Move(locked, t, Become(st, Loop(who, phase)))
       case Leave(who, _) => LeaveStep(s, t, who)
       case Waiting(until) => Move(locked, t, Become(st, Check(FromSleep(until))))
       case WantWriter => Move(s.(writerOwner := Some(t)), t, Pop(st))
       case WantEnqueue(delay) => Move(locked, t, Become(st, Enqueueing(delay)))
       case Enqueueing(delay) => EnqueueStep(s, t, delay)
       case WantWakeup => Move(locked, t, Become(st, WakingUp))
       case WakingUp => Move(s.(dataOwner := None, wakeup := true), t, Pop(st))
       case _ => s)
    case Tick(now) => s.(clock := now)
  }

  // ---------------------------------------------------------------------- invariant

  type Stacks = map<Tid, Stack>

  /** Below the top there is only user code and, under an action, its runner. */
  ghost predicate Shape(st: Stack) {
    && st[0] == Outside
    && (forall i :: 0 <= i < |st| - 1 ==> User(st[i]) || st[i].Running?)
    && (forall i :: 0 < i < |st| && st[i].Acting? ==> st[i - 1].Running?)
    && (forall i :: 0 < i < |st| ==> !st[i].Outside?)
    && (forall i :: 0 < i < |st| && st[i - 1].Running? ==> st[i].Acting?)
  }

  ghost predicate Shapes(stacks: Stacks) {
    forall t :: t in stacks ==> Shape(stacks[t])
  }

  /** The data mutex is with the thread that is inside a critical section. */
  ghost predicate Locks(stacks: Stacks, dataOwner: Option<Tid>) {
    forall t :: t in stacks ==> (dataOwner == Some(t) <==> HoldsData(Top(stacks[t])))
  }

  ghost predicate At(stacks: Stacks, t: Tid, i: nat) {
    t in stacks && i < |stacks[t]|
  }

  /** running_deferred guards a single runner. */
  ghost predicate OneRunner(stacks: Stacks, runner: Option<(Tid, nat)>) {
    && (forall t, i: nat :: At(stacks, t, i) && Runner(stacks[t][i]) ==> runner == Some((t, i)))
    && (runner.Some? ==> At(stacks, runner.value.0, runner.value.1) && Runner(stacks[runner.value.0][runner.value.1]))
  }

  /** `current` is the action on a stack, above its runner. */
  ghost predicate Current(stacks: Stacks, runner: Option<(Tid, nat)>, current: seq<nat>) {
    && |current| <= 1
    && (forall t, i: nat :: At(stacks, t, i) && stacks[t][i].Acting? ==> current == [stacks[t][i].a])
    && (current != [] ==> runner.Some? && At(stacks, runner.value.0, runner.value.1 + 1)
                          && stacks[runner.value.0][runner.value.1 + 1].Acting?)
  }

  /** In the second loop, everything enqueued before the time was sampled has been
    * started and nothing since.
    */
  ghost predicate Marks(stacks: Stacks, runner: Option<(Tid, nat)>, started: nat) {
    runner.Some? && At(stacks, runner.value.0, runner.value.1) ==>
      var f := stacks[runner.value.0][runner.value.1];
      Runner(f) && f.phase.Second? ==> f.phase.mark == started && f.phase.now != END
  }

  /** The queued actions, delayed ones included. */
  function Actions(items: seq<Item>): multiset<nat> {
    if items == [] then multiset{} else multiset{items[0].action} + Actions(items[1..])
  }

  function Numbers(n: nat): multiset<nat> {
    if n == 0 then multiset{} else Numbers(n - 1) + multiset{n - 1}
  }

  /** Every action is in one place, once. */
  ghost predicate Conserved(s: State) {
    multiset(s.deferred) + Actions(s.delayed) + multiset(s.current) + multiset(s.done) == Numbers(s.issued)
  }

  ghost predicate DelayedOk(delayed: seq<Item>) {
    InOrder(delayed) && forall i :: 0 <= i < |delayed| ==> delayed[i].when != END
  }

  ghost predicate Inv(s: State) {
    && Normal(s.clock) && s.clock != END && (s.running <==> s.runner.Some?)
    && Shapes(s.stacks) && Locks(s.stacks, s.dataOwner) && OneRunner(s.stacks, s.runner)
    && Current(s.stacks, s.runner, s.current) && Marks(s.stacks, s.runner, |s.started|)
    && Conserved(s) && s.enqueued == s.started + s.deferred && DelayedOk(s.delayed)
  }

  // ------------------------------------------------------------- changes of a stack

  /** What a step may do to the stack of its thread. */
  ghost predicate Pushed(st: Stack, st': Stack) {
    User(Top(st)) && |st'| == |st| + 1 && st'[..|st|] == st && var f := Top(st'); !User(f) && !Runner(f) && !HoldsData(f)
  }

  ghost predicate Swapped(st: Stack, st': Stack) {
    |st| > 1 && |st'| == |st| && st'[..|st| - 1] == st[..|st| - 1] && !User(Top(st)) && !User(Top(st'))
  }

  ghost predicate Popped(st: Stack, st': Stack) {
    |st| > 1 && st' == st[..|st| - 1] && !Runner(Top(st)) && !Top(st).Outside?
  }

  ghost predicate Called(st: Stack, st': Stack) {
    && |st| > 1 && |st'| == |st| + 1 && st'[..|st| - 1] == st[..|st| - 1] && Top(st).Loop?
    && st'[|st| - 1].Running? && st'[|st| - 1].phase == Top(st).phase && Top(st').Acting?
  }

  lemma ShapeKept(st: Stack, st': Stack)
    requires Shape(st) && (Pushed(st, st') || Swapped(st, st') || Popped(st, st') || Called(st, st'))
    ensures Shape(st')
  {
    forall i | 0 <= i < |st'| && i < |st| && (Pushed(st, st') || i < |st| - 1) ensures st'[i] == st[i] {
      if Pushed(st, st') { assert st'[..|st|][i] == st[i]; } else { assert st'[..|st| - 1][i] == st[..|st| - 1][i]; }
    }
  }

  lemma ShapesKept(stacks: Stacks, t: Tid, st: Stack)
    requires Shapes(stacks) && t in stacks
    requires Pushed(stacks[t], st) || Swapped(stacks[t], st) || Popped(stacks[t], st) || Called(stacks[t], st)
    ensures Shapes(stacks[t := st])
  {
    hide Shape, Pushed, Swapped, Popped, Called;
    ShapeKept(stacks[t], st);
  }

  lemma LocksKept(stacks: Stacks, t: Tid, st: Stack, owner: Option<Tid>, owner': Option<Tid>)
    requires Locks(stacks, owner) && t in stacks
    requires owner' == owner || owner == None || owner == Some(t)
    requires owner' == owner || owner' == None || owner' == Some(t)
    requires owner' == Some(t) <==> HoldsData(Top(st))
    ensures Locks(stacks[t := st], owner')
  {}

  /** Where runners and actions are does not change. */
  ghost predicate SameRunners(st: Stack, st': Stack) {
    && (forall i: nat :: i < |st'| && Runner(st'[i]) ==> i < |st| && Runner(st[i]) && st'[i].phase == st[i].phase)
    && (forall i: nat :: i < |st| && Runner(st[i]) ==> i < |st'| && Runner(st'[i]))
  }

  lemma RunnersKept(stacks: Stacks, t: Tid, st: Stack, runner: Option<(Tid, nat)>, n: nat)
    requires OneRunner(stacks, runner) && Marks(stacks, runner, n) && t in stacks && SameRunners(stacks[t], st)
    ensures OneRunner(stacks[t := st], runner) && Marks(stacks[t := st], runner, n)
  {
    var stacks' := stacks[t := st];
    forall u, i: nat | At(stacks', u, i) && Runner(stacks'[u][i]) ensures runner == Some((u, i)) {
      assert At(stacks, u, i) && Runner(stacks[u][i]);
    }
  }

  lemma ActionsKept(stacks: Stacks, t: Tid, st: Stack, runner: Option<(Tid, nat)>, current: seq<nat>)
    requires Current(stacks, runner, current) && t in stacks
    requires forall i: nat :: i < |st| && st[i].Acting? ==> i < |stacks[t]| && st[i] == stacks[t][i]
    requires forall i: nat :: i < |stacks[t]| && stacks[t][i].Acting? ==> i < |st| && st[i] == stacks[t][i]
    ensures Current(stacks[t := st], runner, current)
  {
    var stacks' := stacks[t := st];
    forall u, i: nat | At(stacks', u, i) && stacks'[u][i].Acting? ensures current == [stacks'[u][i].a] {
      assert At(stacks, u, i);
    }
  }

  // ------------------------------------------------------------------ the steps

  /** A step that leaves runner and action where they are. */
  ghost predicate Quiet(st: Stack, st': Stack) {
    || Pushed(st, st')
    || (Swapped(st, st') && Runner(Top(st)) == Runner(Top(st')) && (Runner(Top(st)) ==> Top(st).phase == Top(st').phase))
    || (Popped(st, st') && !Top(st).Acting?)
  }

  lemma QuietFrames(st: Stack, st': Stack)
    requires Quiet(st, st')
    ensures SameRunners(st, st')
    ensures forall i: nat :: i < |st'| && st'[i].Acting? ==> i < |st| && st'[i] == st[i]
    ensures forall i: nat :: i < |st| && st[i].Acting? ==> i < |st'| && st'[i] == st[i]
  {
    if Pushed(st, st') {
      forall i: nat | i < |st| ensures st'[i] == st[i] { assert st'[..|st|][i] == st[i]; }
    } else {
      forall i: nat | i < |st| - 1 ensures st'[i] == st[i] { assert st'[..|st| - 1][i] == st[..|st| - 1][i]; }
    }
  }

  /** The parts of the state that neither locks nor stacks belong to. */
  ghost predicate SameQueues(s: State, s': State) {
    && s'.deferred == s.deferred && s'.delayed == s.delayed && s'.issued == s.issued && s'.enqueued == s.enqueued
    && s'.started == s.started && s'.done == s.done && s'.current == s.current
  }

  ghost predicate LockStep(s: State, s': State, t: Tid) {
    && t in s'.stacks
    && (s'.dataOwner == s.dataOwner || s.dataOwner == None || s.dataOwner == Some(t))
    && (s'.dataOwner == s.dataOwner || s'.dataOwner == None || s'.dataOwner == Some(t))
    && (s'.dataOwner == Some(t) <==> HoldsData(Top(s'.stacks[t])))
  }

  ghost predicate ThreadsOk(s: State) {
    && Shapes(s.stacks) && OneRunner(s.stacks, s.runner)
    && Current(s.stacks, s.runner, s.current) && Marks(s.stacks, s.runner, |s.started|)
  }

  lemma QuietKeeps(s: State, s': State, t: Tid, st: Stack)
    requires ThreadsOk(s) && t in s.stacks && Quiet(s.stacks[t], st) && s'.stacks == s.stacks[t := st]
    requires s'.runner == s.runner && s'.current == s.current && s'.started == s.started
    ensures ThreadsOk(s')
  {
    hide Shapes, OneRunner, Current, Marks, Pushed, Swapped, Popped, SameRunners, Called;
    ShapesKept(s.stacks, t, st) by { QuietIsChange(s.stacks[t], st); }
    QuietFrames(s.stacks[t], st);
    RunnersKept(s.stacks, t, st, s.runner, |s.started|);
    ActionsKept(s.stacks, t, st, s.runner, s.current);
  }

  lemma QuietIsChange(st: Stack, st': Stack)
    requires Quiet(st, st')
    ensures Pushed(st, st') || Swapped(st, st') || Popped(st, st') || Called(st, st')
  {}

  /** Inv, from its parts. */
  lemma InvFrom(s: State, s': State, t: Tid)
    requires Inv(s) && ThreadsOk(s') && LockStep(s, s', t) && t in s.stacks
    requires s'.stacks == s.stacks[t := s'.stacks[t]]
    requires s'.clock == s.clock && (s'.running <==> s'.runner.Some?)
    requires Conserved(s') && s'.enqueued == s'.started + s'.deferred && DelayedOk(s'.delayed)
    ensures Inv(s')
  {
    hide Shapes, OneRunner, Current, Marks, Conserved, DelayedOk, Locks;
    LocksKept(s.stacks, t, s'.stacks[t], s.dataOwner, s'.dataOwner);
  }

  lemma InvParts(s: State)
    requires Inv(s)
    ensures ThreadsOk(s) && Locks(s.stacks, s.dataOwner) && Conserved(s) && DelayedOk(s.delayed)
    ensures s.enqueued == s.started + s.deferred && (s.running <==> s.runner.Some?) && Normal(s.clock) && s.clock != END
  {}

  lemma QuietStep(s: State, s': State, t: Tid)
    requires Inv(s) && t in s.stacks && LockStep(s, s', t) && Quiet(s.stacks[t], s'.stacks[t])
    requires s'.stacks == s.stacks[t := s'.stacks[t]] && s'.clock == s.clock
    requires s'.runner == s.runner && s'.running == s.running && SameQueues(s, s')
    ensures Inv(s')
  {
    hide ThreadsOk, Inv, LockStep, Quiet, DelayedOk, Actions, Locks;
    InvParts(s);
    QuietKeeps(s, s', t, s'.stacks[t]);
    InvFrom(s, s', t);
  }

  lemma BeginKeeps(s: State, t: Tid, call: Call)
    requires Inv(s) && Enabled(s, Begin(t, call))
    ensures Inv(Apply(s, Begin(t, call)))
  {
    hide Inv, ThreadsOk, Conserved, DelayedOk;
    InvParts(s);
    var s' := Apply(s, Begin(t, call));
    assert s'.stacks[t][..|s.stacks[t]|] == s.stacks[t];
    QuietStep(s, s', t);
  }

  lemma Becoming(st: Stack, f: Frame)
    requires |st| > 1 && !User(Top(st)) && !User(f)
    ensures Swapped(st, Become(st, f)) && Top(Become(st, f)) == f
  {}

  /** Under a frame of the scheduler there is user code. */
  lemma Under(s: State, t: Tid)
    requires ThreadsOk(s) && t in s.stacks && |s.stacks[t]| > 1 && !User(Top(s.stacks[t]))
    ensures User(Top(Pop(s.stacks[t])))
  {
    hide OneRunner, Current, Marks;
    assert Shape(s.stacks[t]);
  }

  lemma Free(s: State, t: Tid)
    requires Inv(s) && t in s.stacks
    ensures s.dataOwner == Some(t) <==> HoldsData(Top(s.stacks[t]))
  {
    hide ThreadsOk, Conserved, DelayedOk;
  }

  /** Getting the data mutex, or finding that deferred actions are being run. */
  lemma SwapGoes(s: State, t: Tid, f: Frame)
    requires Inv(s) && t in s.stacks && |s.stacks[t]| > 1 && !User(Top(s.stacks[t])) && !User(f) && HoldsData(f)
    requires s.dataOwner == None || s.dataOwner == Some(t)
    requires var g := Top(s.stacks[t]); Runner(g) == Runner(f) && (Runner(g) ==> g.phase == f.phase)
    ensures Inv(Move(s.(dataOwner := Some(t)), t, Become(s.stacks[t], f)))
  {
    hide Inv, Become, Swapped, Pushed, Popped;
    Becoming(s.stacks[t], f);
    QuietStep(s, Move(s.(dataOwner := Some(t)), t, Become(s.stacks[t], f)), t);
  }

  /** Returning to user code, or queueing for the writer mutex or a wakeup. */
  lemma LeaveGoes(s: State, s': State, t: Tid, st: Stack)
    requires Inv(s) && t in s.stacks && |s.stacks[t]| > 1
    requires var g := Top(s.stacks[t]); !User(g) && !Runner(g)
    requires st == Pop(s.stacks[t]) || st == Become(s.stacks[t], WantWriter)
             || exists u :: st == Become(s.stacks[t], Waiting(u))
    requires s'.stacks == s.stacks[t := st] && s'.clock == s.clock && s'.runner == s.runner && s'.running == s.running
    requires SameQueues(s, s')
    requires s'.dataOwner == (if HoldsData(Top(s.stacks[t])) then None else s.dataOwner)
    ensures Inv(s')
  {
    hide Inv, ThreadsOk, Conserved, DelayedOk, Swapped, Become, Locks;
    InvParts(s);
    Free(s, t);
    if st == Pop(s.stacks[t]) {
      Under(s, t);
    } else if st == Become(s.stacks[t], WantWriter) {
      Becoming(s.stacks[t], WantWriter);
    } else {
      var u :| st == Become(s.stacks[t], Waiting(u));
      Becoming(s.stacks[t], Waiting(u));
    }
    QuietStep(s, s', t);
  }

  lemma QuietGoes(s: State, t: Tid)
    requires Inv(s) && Enabled(s, Go(t))
    requires var f := Top(s.stacks[t]); !f.Loop? && !f.Enqueueing? && !f.Leave? && (f.Check? ==> s.running)
    ensures Inv(Apply(s, Go(t)))
  {
    hide Inv, Become, ThreadsOk, Conserved, DelayedOk, Locks, InsertTimed, AddUsec, LoopStep, EnqueueStep, LeaveStep;
    InvParts(s);
    Free(s, t);
    var s' := Apply(s, Go(t));
    match Top(s.stacks[t])
    case Enter(who) => SwapGoes(s, t, Check(who));
    case Check(who) => SwapGoes(s, t, Leave(who, Skipped));
    case Running(who, phase) => SwapGoes(s, t, Loop(who, phase));
    case Waiting(until) => SwapGoes(s, t, Check(FromSleep(until)));
    case WantEnqueue(delay) => SwapGoes(s, t, Enqueueing(delay));
    case WantWakeup => SwapGoes(s, t, WakingUp);
    case WantWriter => LeaveGoes(s, s', t, s'.stacks[t]);
    case WakingUp => LeaveGoes(s, s', t, s'.stacks[t]);
  }

  lemma LeaveKeeps(s: State, t: Tid)
    requires Inv(s) && Enabled(s, Go(t)) && Top(s.stacks[t]).Leave?
    ensures Inv(Apply(s, Go(t)))
  {
    hide Inv, LeaveStep, LoopStep, EnqueueStep, SameQueues;
    var s' := LeaveStep(s, t, Top(s.stacks[t]).who);
    LeaveOutcome(s, t, Top(s.stacks[t]).who);
    LeaveFrees(s, t);
    LeaveGoes(s, s', t, s'.stacks[t]);
  }

  lemma LeaveFrees(s: State, t: Tid)
    requires Inv(s) && t in s.stacks && Top(s.stacks[t]).Leave?
    ensures HoldsData(Top(s.stacks[t])) && s.dataOwner == Some(t)
  {
    hide Inv;
    Free(s, t);
  }

  /** sleep waits or returns, lock goes on, unlock returns; the mutex is free. */
  lemma LeaveOutcome(s: State, t: Tid, who: Caller)
    requires t in s.stacks && |s.stacks[t]| > 1
    ensures var s' := LeaveStep(s, t, who);
            && t in s'.stacks && s'.stacks == s.stacks[t := s'.stacks[t]] && SameQueues(s, s') && s'.dataOwner == None
            && s'.clock == s.clock && s'.runner == s.runner && s'.running == s.running
            && (s'.stacks[t] == Pop(s.stacks[t]) || s'.stacks[t] == Become(s.stacks[t], WantWriter)
                || exists u :: s'.stacks[t] == Become(s.stacks[t], Waiting(u)))
  {
    hide Pop, Become, Compare;
  }

  // ------------------------------------------------- the runner and the queues

  /** Other threads have no runner frame while nobody runs. */
  lemma TakeKeeps(s: State, t: Tid)
    requires Inv(s) && Enabled(s, Go(t)) && Top(s.stacks[t]).Check? && !s.running
    ensures Inv(Apply(s, Go(t)))
  {
    hide Inv, Conserved, DelayedOk, Locks, Become, Swapped;
    InvParts(s);
    Free(s, t);
    var st := s.stacks[t];
    var f := Loop(Top(st).who, First);
    var s' := Apply(s, Go(t));
    Becoming(st, f);
    NewRunner(s.stacks, t, f, s.current, |s.started|);
    SameConserved(s, s');
    InvFrom(s, s', t);
  }

  lemma SameConserved(s: State, s': State)
    requires Conserved(s) && SameQueues(s, s')
    ensures Conserved(s')
  {
    hide Actions, Numbers;
  }

  lemma NewRunner(stacks: Stacks, t: Tid, f: Frame, current: seq<nat>, n: nat)
    requires Shapes(stacks) && OneRunner(stacks, None) && Current(stacks, None, current)
    requires t in stacks && |stacks[t]| > 1 && !User(Top(stacks[t])) && f.Loop? && f.phase.First?
    ensures var st := Become(stacks[t], f);
            var (stacks', runner) := (stacks[t := st], Some((t, |st| - 1)));
            Shapes(stacks') && OneRunner(stacks', runner) && Current(stacks', runner, current) && Marks(stacks', runner, n)
  {
    var st := Become(stacks[t], f);
    Becoming(stacks[t], f);
    assert Shapes(stacks[t := st]) by { hide Shape, Become; ShapesKept(stacks, t, st); }
    var stacks' := stacks[t := st];
    assert forall u, i: nat :: At(stacks', u, i) && (u != t || i < |st| - 1) ==>
             At(stacks, u, i) && stacks[u][i] == stacks'[u][i];
  }

  /** A thread at the head of a loop is the runner. */
  lemma AtLoop(s: State, t: Tid)
    requires ThreadsOk(s) && t in s.stacks && Top(s.stacks[t]).Loop?
    ensures s.runner == Some((t, |s.stacks[t]| - 1)) && s.current == []
    ensures Top(s.stacks[t]).phase.Second? ==>
            Top(s.stacks[t]).phase.mark == |s.started| && Top(s.stacks[t]).phase.now != END
  {
    assert At(s.stacks, t, |s.stacks[t]| - 1);
  }

  /** The runner's top frame may change its phase. */
  lemma SecondLoop(s: State, t: Tid)
    requires Inv(s) && Enabled(s, Go(t)) && Top(s.stacks[t]).Loop? && Top(s.stacks[t]).phase.First?
    requires s.deferred == [] && s.delayed != []
    ensures Inv(Apply(s, Go(t)))
  {
    hide Inv, Conserved, DelayedOk, Locks, Become, Swapped;
    InvParts(s);
    Free(s, t);
    AtLoop(s, t);
    var f := Loop(Top(s.stacks[t]).who, Second(s.clock, |s.enqueued|));
    var s' := Apply(s, Go(t));
    assert s.started + [] == s.started;
    Becoming(s.stacks[t], f);
    SamePlace(s.stacks, t, f, s.runner, s.current, |s.started|);
    SameConserved(s, s');
    InvFrom(s, s', t);
  }

  lemma SamePlace(stacks: Stacks, t: Tid, f: Frame, runner: Option<(Tid, nat)>, current: seq<nat>, n: nat)
    requires Shapes(stacks) && OneRunner(stacks, runner) && Current(stacks, runner, current)
    requires t in stacks && |stacks[t]| > 1 && Top(stacks[t]).Loop? && f.Loop?
    requires f.phase.Second? ==> f.phase.mark == n && f.phase.now != END
    requires runner == Some((t, |stacks[t]| - 1))
    ensures var stacks' := stacks[t := Become(stacks[t], f)];
            Shapes(stacks') && OneRunner(stacks', runner) && Current(stacks', runner, current) && Marks(stacks', runner, n)
  {
    var st := Become(stacks[t], f);
    Becoming(stacks[t], f);
    assert Shapes(stacks[t := st]) by { hide Shape, Become; ShapesKept(stacks, t, st); }
    var stacks' := stacks[t := st];
    assert forall u, i: nat :: At(stacks', u, i) && (u != t || i < |st| - 1) ==>
             At(stacks, u, i) && stacks[u][i] == stacks'[u][i];
  }

  lemma NoRunner(stacks: Stacks, t: Tid, f: Frame, runner: Option<(Tid, nat)>, current: seq<nat>)
    requires Shapes(stacks) && OneRunner(stacks, runner) && Current(stacks, runner, current) && current == []
    requires t in stacks && |stacks[t]| > 1 && Top(stacks[t]).Loop? && f.Leave?
    requires runner == Some((t, |stacks[t]| - 1))
    ensures var stacks' := stacks[t := Become(stacks[t], f)];
            Shapes(stacks') && OneRunner(stacks', None) && Current(stacks', None, current)
  {
    var st := Become(stacks[t], f);
    Becoming(stacks[t], f);
    assert Shapes(stacks[t := st]) by { hide Shape, Become; ShapesKept(stacks, t, st); }
    var stacks' := stacks[t := st];
    assert forall u, i: nat :: At(stacks', u, i) && (u != t || i < |st| - 1) ==>
             At(stacks, u, i) && stacks[u][i] == stacks'[u][i];
  }

  lemma FinishKeeps(s: State, t: Tid)
    requires Inv(s) && t in s.stacks && |s.stacks[t]| > 1 && Top(s.stacks[t]).Loop?
    ensures Inv(Finish(s, t, Top(s.stacks[t]).who, Top(s.stacks[t]).phase))
  {
    hide Inv, Conserved, DelayedOk, Locks, Become, Swapped;
    InvParts(s);
    Free(s, t);
    AtLoop(s, t);
    var f := Leave(Top(s.stacks[t]).who, Ran(Top(s.stacks[t]).phase));
    var s' := Finish(s, t, Top(s.stacks[t]).who, Top(s.stacks[t]).phase);
    Becoming(s.stacks[t], f);
    NoRunner(s.stacks, t, f, s.runner, s.current);
    SameConserved(s, s');
    InvFrom(s, s', t);
  }

  lemma ActionCalled(stacks: Stacks, t: Tid, f: Frame, a: Frame, runner: Option<(Tid, nat)>, n: nat)
    requires Shapes(stacks) && OneRunner(stacks, runner) && Current(stacks, runner, [])
    requires t in stacks && |stacks[t]| > 1 && Top(stacks[t]).Loop? && f.Running? && f.phase == Top(stacks[t]).phase && a.Acting?
    requires f.phase.Second? ==> f.phase.mark == n && f.phase.now != END
    requires runner == Some((t, |stacks[t]| - 1))
    ensures var stacks' := stacks[t := Become(stacks[t], f) + [a]];
            Shapes(stacks') && OneRunner(stacks', runner) && Current(stacks', runner, [a.a]) && Marks(stacks', runner, n)
  {
    var st: Stack := Become(stacks[t], f) + [a];
    var stacks' := stacks[t := st];
    assert Shapes(stacks') by {
      hide Shape;
      assert st[..|stacks[t]| - 1] == stacks[t][..|stacks[t]| - 1];
      ShapesKept(stacks, t, st);
    }
    assert forall u, i: nat :: At(stacks', u, i) && (u != t || i < |st| - 2) ==>
             At(stacks, u, i) && stacks[u][i] == stacks'[u][i];
  }

  /** Starting the first action of a queue; `q` is the state without it. */
  lemma StartKeeps(s: State, q: State, t: Tid, a: nat, s': State)
    requires Inv(s) && t in s.stacks && |s.stacks[t]| > 1 && Top(s.stacks[t]).Loop?
    requires q == s.(deferred := q.deferred, delayed := q.delayed, started := q.started)
    requires s' == Start(q, t, Top(s.stacks[t]).who, Top(s.stacks[t]).phase, a)
    requires Top(s.stacks[t]).phase.Second? ==> q.started == s.started
    requires q.enqueued == q.started + q.deferred && DelayedOk(q.delayed) && Conserved(s')
    ensures Inv(s')
  {
    hide Inv, Conserved, DelayedOk, Locks;
    InvParts(s);
    Free(s, t);
    AtLoop(s, t);
    var (f, who, phase) := (Top(s.stacks[t]), Top(s.stacks[t]).who, Top(s.stacks[t]).phase);
    ActionCalled(s.stacks, t, Running(who, phase), Acting(a, s.writerOwner == Some(t)), s.runner, |q.started|);
    InvFrom(s, s', t);
  }

  lemma StartImmediate(s: State, t: Tid)
    requires Inv(s) && Enabled(s, Go(t)) && Top(s.stacks[t]).Loop? && Top(s.stacks[t]).phase.First? && s.deferred != []
    ensures Inv(Apply(s, Go(t)))
  {
    hide Inv, ThreadsOk, DelayedOk, Locks, Become, Conserved;
    InvParts(s);
    AtLoop(s, t);
    var q := s.(deferred := s.deferred[1..], started := s.started + [s.deferred[0]]);
    var s' := Apply(s, Go(t));
    assert s.started + s.deferred == q.started + q.deferred;
    TakeFirst(s, s');
    StartKeeps(s, q, t, s.deferred[0], s');
  }

  lemma TakeFirst(s: State, s': State)
    requires Conserved(s) && s.current == [] && s'.done == s.done && s'.issued == s.issued && s'.delayed == s.delayed
    requires s.deferred != [] && s'.deferred == s.deferred[1..] && s'.current == [s.deferred[0]]
    ensures Conserved(s')
  {
    hide Actions, Numbers;
    assert s.deferred == [s.deferred[0]] + s.deferred[1..];
  }

  lemma DelayedTail(d: seq<Item>)
    requires DelayedOk(d) && d != []
    ensures DelayedOk(d[1..]) && Actions(d) == multiset{d[0].action} + Actions(d[1..])
  {
    hide Compare;
  }

  lemma StartDelayed(s: State, t: Tid)
    requires Inv(s) && Enabled(s, Go(t)) && Top(s.stacks[t]).Loop? && Top(s.stacks[t]).phase.Second? && s.delayed != []
    requires Compare(s.delayed[0].when, Top(s.stacks[t]).phase.now) <= 0
    ensures Inv(Apply(s, Go(t)))
  {
    hide Inv, ThreadsOk, DelayedOk, Locks, Become, Actions, Compare;
    InvParts(s);
    AtLoop(s, t);
    var q := s.(delayed := s.delayed[1..]);
    var s' := Apply(s, Go(t));
    DelayedTail(s.delayed);
    assert Conserved(s') by { hide Numbers; }
    StartKeeps(s, q, t, s.delayed[0].action, s');
  }

  // --------------------------------------------------------- return, enqueue, tick

  /** The action on top of a stack is the current one, its runner just below. */
  lemma AtAction(s: State, t: Tid)
    requires ThreadsOk(s) && t in s.stacks && Top(s.stacks[t]).Acting? && |s.stacks[t]| > 1
    ensures s.current == [Top(s.stacks[t]).a] && s.runner == Some((t, |s.stacks[t]| - 2))
    ensures s.stacks[t][|s.stacks[t]| - 2].Running?
  {
    var n := |s.stacks[t]|;
    assert Shape(s.stacks[t]);
    assert At(s.stacks, t, n - 1) && At(s.stacks, t, n - 2);
  }

  lemma ActionReturned(stacks: Stacks, t: Tid, runner: Option<(Tid, nat)>, a: nat, n: nat)
    requires Shapes(stacks) && OneRunner(stacks, runner) && Current(stacks, runner, [a]) && Marks(stacks, runner, n)
    requires t in stacks && |stacks[t]| > 1 && Top(stacks[t]).Acting? && runner == Some((t, |stacks[t]| - 2))
    ensures var stacks' := stacks[t := Pop(stacks[t])];
            Shapes(stacks') && OneRunner(stacks', runner) && Current(stacks', runner, []) && Marks(stacks', runner, n)
  {
    var st := Pop(stacks[t]);
    var stacks' := stacks[t := st];
    assert Shapes(stacks') by { hide Shape; ShapesKept(stacks, t, st); }
    forall u, i: nat | At(stacks', u, i) ensures stacks'[u][i] == stacks[u][i] && !stacks'[u][i].Acting? {
      assert At(stacks, u, i);
      OneAction(stacks, runner, t, u, i);
    }
  }

  /** An action other than the top of t would have a second runner under it. */
  lemma OneAction(stacks: Stacks, runner: Option<(Tid, nat)>, t: Tid, u: Tid, i: nat)
    requires Shapes(stacks) && OneRunner(stacks, runner)
    requires t in stacks && |stacks[t]| > 1 && Top(stacks[t]).Acting? && runner == Some((t, |stacks[t]| - 2))
    requires At(stacks, u, i)
    ensures stacks[u][i].Acting? ==> u == t && i == |stacks[t]| - 1
  {
    if stacks[u][i].Acting? {
      assert Shape(stacks[u]);
      assert i > 0 && At(stacks, u, i - 1) && Runner(stacks[u][i - 1]);
    }
  }

  lemma ReturnKeeps(s: State, t: Tid)
    requires Inv(s) && Enabled(s, Return(t))
    ensures Inv(Apply(s, Return(t)))
  {
    hide Inv, Locks, DelayedOk;
    InvParts(s);
    Free(s, t);
    AtAction(s, t);
    var s' := Apply(s, Return(t));
    ActionReturned(s.stacks, t, s.runner, s.current[0], |s.started|);
    assert Conserved(s') by { hide Actions, Numbers; }
    InvFrom(s, s', t);
  }

  lemma {:induction false} ActionsConcat(a: seq<Item>, b: seq<Item>)
    ensures Actions(a + b) == Actions(a) + Actions(b)
  {
    if a == [] {
      assert a + b == b;
    } else {
      assert (a + b)[1..] == a[1..] + b;
      ActionsConcat(a[1..], b);
    }
  }

  lemma {:induction false} ActionsInsert(d: seq<Item>, x: Item)
    ensures Actions(InsertTimed(d, x)) == Actions(d) + multiset{x.action}
  {
    hide Rank, Actions;
    var k := Rank(d, x.when);
    assert d == d[..k] + d[k..];
    ActionsConcat(d[..k], d[k..]);
    ActionsConcat(d[..k] + [x], d[k..]);
    ActionsConcat(d[..k], [x]);
    ActionsOne(x);
  }

  lemma ActionsOne(x: Item)
    ensures Actions([x]) == multiset{x.action}
  {
    assert Actions([]) == multiset{};
  }

  lemma DelayedInsert(d: seq<Item>, x: Item)
    requires DelayedOk(d) && x.when != END
    ensures DelayedOk(InsertTimed(d, x))
  {
    hide Compare, Rank, InsertTimed, InOrder;
    InsertKeepsOrder(d, x);
    InsertAt(d, x);
    var r := InsertTimed(d, x);
    forall i | 0 <= i < |r| ensures r[i].when != END {
      assert r[i] in multiset(r);
      assert r[i] in d || r[i] == x;
    }
  }

  lemma EnqueueKeeps(s: State, t: Tid)
    requires Inv(s) && Enabled(s, Go(t)) && Top(s.stacks[t]).Enqueueing?
    ensures Inv(Apply(s, Go(t)))
  {
    hide Inv, ThreadsOk, Locks, DelayedOk, Conserved, AddUsec, InsertTimed, Quiet, Normal;
    InvParts(s);
    Free(s, t);
    Under(s, t);
    var (s', delay, st) := (Apply(s, Go(t)), Top(s.stacks[t]).delay, Pop(s.stacks[t]));
    assert Quiet(s.stacks[t], st) by { PopQuiet(s.stacks[t]); }
    QuietKeeps(s, s', t, st);
    EnqueueConserves(s, s', delay);
    if delay > 0 {
      AddUsecExact(s.clock, delay);
      DelayedInsert(s.delayed, Item(AddUsec(s.clock, delay), s.issued));
    } else {
      assert s.started + s.deferred + [s.issued] == s.started + (s.deferred + [s.issued]);
    }
    InvFrom(s, s', t);
  }

  lemma PopQuiet(st: Stack)
    requires |st| > 1 && !User(Top(st)) && !Runner(Top(st))
    ensures Quiet(st, Pop(st))
  {}

  lemma EnqueueConserves(s: State, s': State, delay: nat)
    requires Conserved(s) && Normal(s.clock)
    requires s'.issued == s.issued + 1 && s'.done == s.done && s'.current == s.current
    requires if delay == 0 then s'.deferred == s.deferred + [s.issued] && s'.delayed == s.delayed
             else s'.deferred == s.deferred && s'.delayed == InsertTimed(s.delayed, Item(AddUsec(s.clock, delay), s.issued))
    ensures Conserved(s')
  {
    hide Actions, InsertTimed, AddUsec;
    if delay > 0 { ActionsInsert(s.delayed, Item(AddUsec(s.clock, delay), s.issued)); }
  }

  lemma TickKeeps(s: State, now: Time)
    requires Inv(s) && Enabled(s, Tick(now))
    ensures Inv(Apply(s, Tick(now)))
  {
    hide Shapes, Locks, OneRunner, Current, Marks, DelayedOk, Actions, Numbers;
  }

  /** Every step of every thread keeps the invariant. */
  lemma StepKeepsInv(s: State, step: Step)
    requires Inv(s) && Enabled(s, step)
    ensures Inv(Apply(s, step))
  {
    hide Inv, Apply, Compare, ThreadsOk, Locks, Conserved, DelayedOk;
    InvParts(s);
    match step
    case Begin(t, call) => BeginKeeps(s, t, call);
    case Return(t) => ReturnKeeps(s, t);
    case Tick(now) => TickKeeps(s, now);
    case Go(t) =>
      match Top(s.stacks[t])
      case Loop(who, phase) => LoopKeeps(s, t);
      case Enqueueing(_) => EnqueueKeeps(s, t);
      case Leave(_, _) => LeaveKeeps(s, t);
      case Check(_) => if s.running { QuietGoes(s, t); } else { TakeKeeps(s, t); }
      case _ => QuietGoes(s, t);
  }

  lemma LoopKeeps(s: State, t: Tid)
    requires Inv(s) && Enabled(s, Go(t)) && Top(s.stacks[t]).Loop?
    ensures Inv(Apply(s, Go(t)))
  {
    hide Inv, Compare, ThreadsOk, Locks, Conserved, DelayedOk, Start, Finish, Become;
    InvParts(s);
    var phase := Top(s.stacks[t]).phase;
    if phase.First? && s.deferred != [] {
      StartImmediate(s, t);
    } else if phase.First? && s.delayed != [] {
      SecondLoop(s, t);
    } else if phase.Second? && s.delayed != [] && Compare(s.delayed[0].when, phase.now) <= 0 {
      StartDelayed(s, t);
    } else {
      FinishKeeps(s, t);
    }
  }
}
