/** The second loop of run_deferred while the clock does not go back: it starts only what
  * was queued before it sampled the time, and so it ends, whatever its actions enqueue.
  */
module SchedulerClock {
  import opened Options
  import opened Deferred
  import opened Scheduler
  import opened SchedulerRuns

  ghost predicate Monotone(s: State, step: Step) {
    step.Tick? ==> Compare(s.clock, step.now) <= 0
  }

  ghost predicate AllMonotone(s: State, steps: seq<Step>)
    requires Feasible(s, steps)
    decreases |steps|
  {
    steps == [] || (Monotone(s, steps[0]) && AllMonotone(Apply(s, steps[0]), steps[1..]))
  }

  /** The time that the runner has sampled, if it has. */
  ghost predicate HasSampled(s: State, now: Time) {
    && s.runner.Some? && At(s.stacks, s.runner.value.0, s.runner.value.1)
    && var f := s.stacks[s.runner.value.0][s.runner.value.1];
       Runner(f) && f.phase.Second? && f.phase.now == now
  }

  /** What was issued after the sampling is later than the sampled time. */
  ghost predicate NewIsLater(delayed: seq<Item>, sampled: nat, now: Time) {
    forall i :: 0 <= i < |delayed| && delayed[i].action >= sampled ==> Compare(delayed[i].when, now) > 0
  }

  ghost predicate ClockInv(s: State) {
    && s.sampled <= s.issued && (forall i :: 0 <= i < |s.delayed| ==> s.delayed[i].action < s.issued)
    && forall now :: HasSampled(s, now) ==>
         Normal(now) && now != END && Compare(now, s.clock) <= 0 && NewIsLater(s.delayed, s.sampled, now)
  }

  lemma Later(a: Time, b: Time, c: Time)
    requires Normal(a) && Normal(b) && Normal(c) && Compare(a, b) <= 0 && Compare(b, c) <= 0
    ensures Compare(a, c) <= 0
  {
    CompareTrans(a, b, c);
  }

  /** A timed action is due later than now. */
  lemma DueLater(now: Time, clock: Time, delay: nat)
    requires Normal(now) && Normal(clock) && now != END && clock != END && Compare(now, clock) <= 0 && delay > 0
    ensures Compare(AddUsec(clock, delay), now) > 0
  {
    AddUsecExact(clock, delay);
    var due := AddUsec(clock, delay);
    CompareIsChronological(now, clock);
    CompareIsChronological(clock, now);
    CompareIsChronological(now, due);
    CompareIsChronological(due, now);
  }

  // ------------------------------------------------------------------- the invariant

  /** A step that leaves the runner's frame, or its phase, as it is. */
  lemma SampledBefore(s: State, step: Step, now: Time)
    requires Inv(s) && Enabled(s, step) && HasSampled(Apply(s, step), now)
    ensures HasSampled(s, now) || SamplesNow(s, step)
    ensures SamplesNow(s, step) ==> now == s.clock
  {
    hide Inv, ThreadsOk, Conserved, DelayedOk, Locks, Compare, LoopStep, LeaveStep, EnqueueStep;
    InvParts(s);
    match step
    case Begin(t, call) =>
    case Return(t) => AtAction(s, t);
    case Tick(_) =>
    case Go(t) => GoSampled(s, t, now);
  }

  ghost predicate SamplesNow(s: State, step: Step)
    requires Enabled(s, step)
  {
    && step.Go? && Top(s.stacks[step.t]).Loop? && Top(s.stacks[step.t]).phase.First?
    && s.deferred == [] && s.delayed != []
  }

  lemma GoSampled(s: State, t: Tid, now: Time)
    requires Inv(s) && Enabled(s, Go(t)) && HasSampled(Apply(s, Go(t)), now)
    ensures HasSampled(s, now) || SamplesNow(s, Go(t))
    ensures SamplesNow(s, Go(t)) ==> now == s.clock
  {
    hide Inv, ThreadsOk, Conserved, DelayedOk, Locks, Compare, LoopStep, LeaveStep, EnqueueStep, InsertTimed, AddUsec;
    InvParts(s);
    match Top(s.stacks[t])
    case Loop(who, phase) => AtLoop(s, t); LoopSampled(s, t, who, phase, now);
    case Leave(who, _) => LeaveSampled(s, t, who, now);
    case Enqueueing(delay) => EnqueueSampled(s, t, delay, now);
    case _ =>
  }

  lemma LoopSampled(s: State, t: Tid, who: Caller, phase: Phase, now: Time)
    requires t in s.stacks && Top(s.stacks[t]) == Loop(who, phase) && s.runner == Some((t, |s.stacks[t]| - 1))
    requires HasSampled(LoopStep(s, t, who, phase), now)
    ensures HasSampled(s, now) || (phase.First? && s.deferred == [] && s.delayed != [] && now == s.clock)
    ensures phase.First? && s.deferred == [] && s.delayed != [] ==> now == s.clock
  {
    hide Compare;
  }

  lemma LeaveSampled(s: State, t: Tid, who: Caller, now: Time)
    requires t in s.stacks && |s.stacks[t]| > 1 && Top(s.stacks[t]).Leave? && HasSampled(LeaveStep(s, t, who), now)
    ensures HasSampled(s, now)
  {
    hide Compare;
  }

  lemma EnqueueSampled(s: State, t: Tid, delay: nat, now: Time)
    requires t in s.stacks && |s.stacks[t]| > 1 && Normal(s.clock) && HasSampled(EnqueueStep(s, t, delay), now)
    ensures HasSampled(s, now)
  {
    hide InsertTimed, AddUsec;
  }

  /** What a step does to the delayed queue, the counters and the clock. */
  ghost predicate QueueGrows(s: State, s': State)
    requires Normal(s.clock)
  {
    && s'.clock == s.clock && s'.issued == s.issued + 1 && s'.sampled == s.sampled
    && (s'.delayed == s.delayed || exists delay: nat :: delay > 0 && Inserts(s, s', delay))
  }

  ghost predicate Inserts(s: State, s': State, delay: nat)
    requires Normal(s.clock)
  {
    s'.delayed == InsertTimed(s.delayed, Item(AddUsec(s.clock, delay), s.issued))
  }

  ghost predicate QueueShrinks(s: State, s': State) {
    s'.issued == s.issued && (s'.delayed == s.delayed || (s.delayed != [] && s'.delayed == s.delayed[1..]))
  }

  lemma QueueAfter(s: State, step: Step)
    requires Enabled(s, step)
    ensures var s' := Apply(s, step);
            QueueGrows(s, s') || (QueueShrinks(s, s') && (step.Tick? || s'.clock == s.clock)
                                  && s'.sampled == if SamplesNow(s, step) then s.issued else s.sampled)
    ensures SamplesNow(s, step) ==> Apply(s, step).delayed == s.delayed && Apply(s, step).issued == s.issued
  {
    hide Become, Pop, Compare, InsertTimed, AddUsec, QueueGrows, LoopStep, LeaveStep, EnqueueStep;
    match step
    case Go(t) =>
      match Top(s.stacks[t]) {
        case Loop(who, phase) => LoopQueue(s, t, who, phase);
        case Leave(who, _) => LeaveQueue(s, t, who);
        case Enqueueing(delay) => EnqueueQueue(s, t, delay);
        case _ =>
      }
    case _ =>
  }

  lemma LoopQueue(s: State, t: Tid, who: Caller, phase: Phase)
    requires t in s.stacks
    ensures var s' := LoopStep(s, t, who, phase);
            var sampling := phase.First? && s.deferred == [] && s.delayed != [];
            && QueueShrinks(s, s') && s'.clock == s.clock && s'.sampled == (if sampling then s.issued else s.sampled)
            && (sampling ==> s'.delayed == s.delayed)
  {
    hide Become, Compare;
  }

  lemma LeaveQueue(s: State, t: Tid, who: Caller)
    requires t in s.stacks && |s.stacks[t]| > 1
    ensures var s' := LeaveStep(s, t, who); QueueShrinks(s, s') && s'.clock == s.clock && s'.sampled == s.sampled
  {
    hide Become, Pop, Compare;
  }

  lemma EnqueueQueue(s: State, t: Tid, delay: nat)
    requires t in s.stacks && |s.stacks[t]| > 1 && Normal(s.clock)
    ensures QueueGrows(s, EnqueueStep(s, t, delay))
  {
    hide Pop, InsertTimed, AddUsec;
    if delay > 0 { assert Inserts(s, EnqueueStep(s, t, delay), delay); }
  }

  lemma InsertedLater(d: seq<Item>, x: Item, sampled: nat, now: Time)
    requires NewIsLater(d, sampled, now) && Compare(x.when, now) > 0
    ensures NewIsLater(InsertTimed(d, x), sampled, now)
  {
    hide Compare, Rank;
  }

  lemma InsertedIssued(d: seq<Item>, x: Item, n: nat)
    requires (forall i :: 0 <= i < |d| ==> d[i].action < n) && x.action == n
    ensures forall i :: 0 <= i < |InsertTimed(d, x)| ==> InsertTimed(d, x)[i].action < n + 1
  {
    hide Rank;
  }

  lemma ClockKept(s: State, step: Step)
    requires Inv(s) && Enabled(s, step) && Monotone(s, step) && ClockInv(s)
    ensures ClockInv(Apply(s, step))
  {
    hide Inv, HasSampled, Compare, InsertTimed, AddUsec, Apply;
    var s' := Apply(s, step);
    QueueAfter(s, step);
    InvParts(s);
    if QueueGrows(s, s') && s'.delayed != s.delayed {
      var delay: nat :| delay > 0 && Inserts(s, s', delay);
      InsertedIssued(s.delayed, Item(AddUsec(s.clock, delay), s.issued), s.issued);
    }
    forall now | HasSampled(s', now)
      ensures Normal(now) && now != END && Compare(now, s'.clock) <= 0
      ensures NewIsLater(s'.delayed, s'.sampled, now)
    {
      SampledBefore(s, step, now);
      if SamplesNow(s, step) {
        CompareSelf(s.clock);
      } else {
        ClockOne(s, step, s', now);
      }
    }
  }

  lemma CompareSelf(t: Time)
    requires Normal(t)
    ensures Compare(t, t) == 0
  {
    CompareIsChronological(t, t);
  }

  lemma ClockOne(s: State, step: Step, s': State, now: Time)
    requires Enabled(s, step) && s' == Apply(s, step) && Monotone(s, step) && s.clock != END && !SamplesNow(s, step)
    requires Normal(now) && now != END && Compare(now, s.clock) <= 0 && s.sampled <= s.issued && NewIsLater(s.delayed, s.sampled, now)
    ensures Compare(now, s'.clock) <= 0 && NewIsLater(s'.delayed, s'.sampled, now)
  {
    hide Compare, InsertTimed, AddUsec, Apply;
    QueueAfter(s, step);
    if QueueGrows(s, s') {
      if s'.delayed != s.delayed {
        var delay: nat :| delay > 0 && Inserts(s, s', delay);
        DueLater(now, s.clock, delay);
        InsertedLater(s.delayed, Item(AddUsec(s.clock, delay), s.issued), s.sampled, now);
      }
    } else if step.Tick? {
      TickClock(s, step);
      Later(now, s.clock, step.now);
    }
  }

  lemma TickClock(s: State, step: Step)
    requires Enabled(s, step) && step.Tick?
    ensures Apply(s, step).clock == step.now && Normal(step.now)
  {}

  lemma {:induction false} RunKeepsClock(s: State, steps: seq<Step>)
    requires Inv(s) && ClockInv(s) && Feasible(s, steps) && AllMonotone(s, steps)
    ensures Inv(Run(s, steps)) && ClockInv(Run(s, steps))
    decreases |steps|
  {
    hide Inv, Apply, Enabled, ClockInv, Monotone;
    if steps != [] {
      StepKeepsInv(s, steps[0]);
      ClockKept(s, steps[0]);
      RunKeepsClock(Apply(s, steps[0]), steps[1..]);
    }
  }

  // ------------------------------------------------------------------------- results

  /** The second loop starts an action. */
  ghost predicate StartsDelayed(s: State, t: Tid) {
    && Enabled(s, Go(t)) && Top(s.stacks[t]).Loop? && Top(s.stacks[t]).phase.Second?
    && s.delayed != [] && Compare(s.delayed[0].when, Top(s.stacks[t]).phase.now) <= 0
  }

  /** It was queued before the time was sampled. */
  lemma StartsOld(threads: set<Tid>, clock: Time, steps: seq<Step>, t: Tid)
    requires Normal(clock) && clock != END && Feasible(Init(threads, clock), steps) && AllMonotone(Init(threads, clock), steps)
    requires StartsDelayed(Run(Init(threads, clock), steps), t)
    ensures var s := Run(Init(threads, clock), steps);
            Apply(s, Go(t)).current == [s.delayed[0].action] && s.delayed[0].action < s.sampled
  {
    hide Inv, Run, Feasible, AllMonotone, ThreadsOk, Conserved, DelayedOk, Locks, Compare;
    InitInv(threads, clock);
    NothingSampled(threads, clock);
    RunKeepsClock(Init(threads, clock), steps);
    var s := Run(Init(threads, clock), steps);
    InvParts(s);
    AtLoop(s, t);
    assert HasSampled(s, Top(s.stacks[t]).phase.now);
  }

  lemma NothingSampled(threads: set<Tid>, clock: Time)
    ensures ClockInv(Init(threads, clock))
  {}

  /** How many actions queued before the sampling are still waiting. */
  function Old(delayed: seq<Item>, sampled: nat): nat {
    if delayed == [] then 0 else (if delayed[0].action < sampled then 1 else 0) + Old(delayed[1..], sampled)
  }

  lemma {:induction false} OldConcat(a: seq<Item>, b: seq<Item>, sampled: nat)
    ensures Old(a + b, sampled) == Old(a, sampled) + Old(b, sampled)
  {
    if a == [] {
      assert a + b == b;
    } else {
      assert (a + b)[1..] == a[1..] + b;
      OldConcat(a[1..], b, sampled);
    }
  }

  lemma OldInsert(d: seq<Item>, x: Item, sampled: nat)
    requires x.action >= sampled
    ensures Old(InsertTimed(d, x), sampled) == Old(d, sampled)
  {
    hide Rank;
    var k := Rank(d, x.when);
    assert d == d[..k] + d[k..];
    OldConcat(d[..k], d[k..], sampled);
    OldConcat(d[..k] + [x], d[k..], sampled);
    OldConcat(d[..k], [x], sampled);
    assert [x][1..] == [];
  }

  /** Between two samplings their number never grows, and each start in the second loop
    * makes it smaller: the loop ends.
    */
  lemma OldDecreases(threads: set<Tid>, clock: Time, steps: seq<Step>, step: Step)
    requires Normal(clock) && clock != END && Feasible(Init(threads, clock), steps) && AllMonotone(Init(threads, clock), steps)
    requires Enabled(Run(Init(threads, clock), steps), step)
    ensures var s := Run(Init(threads, clock), steps);
            var s' := Apply(s, step);
            && (!SamplesNow(s, step) ==> Old(s'.delayed, s'.sampled) <= Old(s.delayed, s.sampled))
            && (step.Go? && StartsDelayed(s, step.t) ==> Old(s'.delayed, s'.sampled) < Old(s.delayed, s.sampled))
  {
    hide Inv, Run, Feasible, AllMonotone, Compare, InsertTimed, AddUsec, Apply, Enabled;
    InitInv(threads, clock);
    NothingSampled(threads, clock);
    RunKeepsClock(Init(threads, clock), steps);
    var s := Run(Init(threads, clock), steps);
    InvParts(s);
    var s' := Apply(s, step);
    QueueAfter(s, step);
    if QueueGrows(s, s') && s'.delayed != s.delayed {
      var delay: nat :| delay > 0 && Inserts(s, s', delay);
      OldInsert(s.delayed, Item(AddUsec(s.clock, delay), s.issued), s.sampled);
    }
    if step.Go? && StartsDelayed(s, step.t) {
      StartsOld(threads, clock, steps, step.t);
      StartTakes(s, step.t);
    }
  }

  lemma StartTakes(s: State, t: Tid)
    requires StartsDelayed(s, t)
    ensures var s' := Apply(s, Go(t)); s'.delayed == s.delayed[1..] && s'.sampled == s.sampled && s'.issued == s.issued
  {
    hide Become, Compare;
  }
}
