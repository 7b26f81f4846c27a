/** Why callers of writer_lock have to be disciplined: a run in which a thread locks the
  * writer mutex twice.
  */
module SchedulerLocks {
  import opened Options
  import opened Deferred
  import opened Scheduler
  import opened SchedulerRuns
  import opened SchedulerSleep
  import opened SchedulerWriter

  /** One thread that holds the writer mutex. */
  ghost function Holding(s: State): State {
    s.(writerOwner := Some(0))
  }

  /** writer_lock with nothing to do. */
  lemma Lock(clock: Time) returns (steps: seq<Step>)
    requires Normal(clock) && clock != END
    ensures Feasible(Init({0}, clock), steps)
    ensures Run(Init({0}, clock), steps) == Holding(Alone(clock, [Outside], false, [], [], 0, [], [], [], false))
  {
    hide Feasible, Run, Become, Pop, Init, Compare, EnqueueStep, LoopStep, LeaveStep, InsertTimed, AddUsec;
    var s0 := Init({0}, clock);
    steps := [Begin(0, WriterLock)];
    FirstCall(clock, WriterLock);
    Frames([Outside], Enter(FromLock(false)), Check(FromLock(false)));
    Extend(s0, steps, Go(0));
    steps := steps + [Go(0)];
    assert Run(s0, steps) == Alone(clock, Sleeper(Check(FromLock(false))), true, [], [], 0, [], [], [], false);
    Frames([Outside], Check(FromLock(false)), Loop(FromLock(false), First));
    Extend(s0, steps, Go(0));
    steps := steps + [Go(0)];
    assert Run(s0, steps) == Alone(clock, Sleeper(Loop(FromLock(false), First)), true, [], [], 0, [], [], [], true);
    steps := Acquire(clock, steps);
  }

  lemma Acquire(clock: Time, before: seq<Step>) returns (steps: seq<Step>)
    requires Normal(clock) && Feasible(Init({0}, clock), before)
    requires Run(Init({0}, clock), before) == Alone(clock, Sleeper(Loop(FromLock(false), First)), true, [], [], 0, [], [], [], true)
    ensures Feasible(Init({0}, clock), steps)
    ensures Run(Init({0}, clock), steps) == Holding(Alone(clock, [Outside], false, [], [], 0, [], [], [], false))
  {
    hide Feasible, Run, Become, Pop, Init, Compare, EnqueueStep;
    var s0 := Init({0}, clock);
    var leave := Leave(FromLock(false), Ran(First));
    steps := before;
    Frames([Outside], Loop(FromLock(false), First), leave);
    Extend(s0, steps, Go(0));
    steps := steps + [Go(0)];
    assert Run(s0, steps) == Alone(clock, Sleeper(leave), true, [], [], 0, [], [], [], false);
    Frames([Outside], leave, WantWriter);
    Extend(s0, steps, Go(0));
    steps := steps + [Go(0)];
    assert Run(s0, steps) == Alone(clock, Sleeper(WantWriter), false, [], [], 0, [], [], [], false);
    Frames([Outside], WantWriter, Outside);
    Extend(s0, steps, Go(0));
    steps := steps + [Go(0)];
  }

  lemma EnqueueHolding(clock: Time, before: seq<Step>) returns (steps: seq<Step>)
    requires Normal(clock) && Feasible(Init({0}, clock), before)
    requires Run(Init({0}, clock), before) == Holding(Alone(clock, [Outside], false, [], [], 0, [], [], [], false))
    ensures Feasible(Init({0}, clock), steps)
    ensures Run(Init({0}, clock), steps) == Holding(Alone(clock, [Outside], false, [0], [], 1, [0], [], [], false))
  {
    hide Feasible, Run, Become, Pop, Init, Compare, LoopStep, LeaveStep, InsertTimed, AddUsec;
    var s0 := Init({0}, clock);
    steps := before;
    Frames([Outside], WantEnqueue(0), Enqueueing(0));
    Extend(s0, steps, Begin(0, Enqueue(0)));
    steps := steps + [Begin(0, Enqueue(0))];
    assert Run(s0, steps) == Holding(Alone(clock, Sleeper(WantEnqueue(0)), false, [], [], 0, [], [], [], false));
    Frames([Outside], WantEnqueue(0), Enqueueing(0));
    Extend(s0, steps, Go(0));
    steps := steps + [Go(0)];
    assert Run(s0, steps) == Holding(Alone(clock, Sleeper(Enqueueing(0)), true, [], [], 0, [], [], [], false));
    Frames([Outside], Enqueueing(0), Outside);
    Extend(s0, steps, Go(0));
    steps := steps + [Go(0)];
  }

  lemma LockAgain(clock: Time, before: seq<Step>) returns (steps: seq<Step>)
    requires Normal(clock) && Feasible(Init({0}, clock), before)
    requires Run(Init({0}, clock), before) == Holding(Alone(clock, [Outside], false, [0], [], 1, [0], [], [], false))
    ensures Feasible(Init({0}, clock), steps)
    ensures Run(Init({0}, clock), steps)
            == Holding(Alone(clock, Sleeper(Loop(FromLock(true), First)), true, [0], [], 1, [0], [], [], true))
  {
    hide Feasible, Run, Become, Pop, Init, Compare, LoopStep, LeaveStep, EnqueueStep;
    var s0 := Init({0}, clock);
    steps := before;
    Frames([Outside], Enter(FromLock(true)), Check(FromLock(true)));
    Extend(s0, steps, Begin(0, WriterLock));
    steps := steps + [Begin(0, WriterLock)];
    assert Run(s0, steps) == Holding(Alone(clock, Sleeper(Enter(FromLock(true))), false, [0], [], 1, [0], [], [], false));
    Frames([Outside], Enter(FromLock(true)), Check(FromLock(true)));
    Extend(s0, steps, Go(0));
    steps := steps + [Go(0)];
    assert Run(s0, steps) == Holding(Alone(clock, Sleeper(Check(FromLock(true))), true, [0], [], 1, [0], [], [], false));
    Frames([Outside], Check(FromLock(true)), Loop(FromLock(true), First));
    Extend(s0, steps, Go(0));
    steps := steps + [Go(0)];
  }

  /** A second writer_lock by the thread that holds the mutex starts an action under it,
    * before the thread blocks for good.
    */
  lemma LockedTwice(clock: Time) returns (steps: seq<Step>)
    requires Normal(clock) && clock != END
    ensures Feasible(Init({0}, clock), steps)
    ensures var s := Run(Init({0}, clock), steps);
            && Enabled(s, Go(0)) && OnWriterPath(Top(s.stacks[0])) && s.writerOwner == Some(0)
            && Apply(s, Go(0)).current == [0] && s.current == []
  {
    hide Feasible, Run, Init, Become, Pop;
    steps := Lock(clock);
    steps := EnqueueHolding(clock, steps);
    steps := LockAgain(clock, steps);
    assert Sleeper(Loop(FromLock(true), First)) == [Outside, Loop(FromLock(true), First)];
  }
}
