/** Every run of the scheduler: what holds after any interleaving of any threads,
  * whatever the actions do.
  */
module SchedulerRuns {
  import opened Options
  import opened Deferred
  import opened Scheduler

  ghost function Init(threads: set<Tid>, clock: Time): State {
    var idle: Stack := [Outside];
    State(None, None, false, false, [], [], map t | t in threads :: idle, clock, 0, [], [], [], [], None, 0, 0)
  }

  /** Each step can be taken where it is taken. */
  ghost predicate Feasible(s: State, steps: seq<Step>)
    decreases |steps|
  {
    steps == [] || (Enabled(s, steps[0]) && Feasible(Apply(s, steps[0]), steps[1..]))
  }

  ghost function Run(s: State, steps: seq<Step>): State
    requires Feasible(s, steps)
    decreases |steps|
  {
    if steps == [] then s else Run(Apply(s, steps[0]), steps[1..])
  }

  lemma InitInv(threads: set<Tid>, clock: Time)
    requires Normal(clock) && clock != END
    ensures Inv(Init(threads, clock))
  {}

  lemma {:induction false} RunKeepsInv(s: State, steps: seq<Step>)
    requires Inv(s) && Feasible(s, steps)
    ensures Inv(Run(s, steps))
    decreases |steps|
  {
    hide Inv, Apply, Enabled;
    if steps != [] {
      StepKeepsInv(s, steps[0]);
      RunKeepsInv(Apply(s, steps[0]), steps[1..]);
    }
  }

  // -------------------------------------------------------------------- what it means

  ghost predicate ActsAt(s: State, t: Tid, i: nat) {
    At(s.stacks, t, i) && s.stacks[t][i].Acting?
  }

  /** How often an action is queued, running or done. */
  ghost function Places(s: State, a: nat): nat {
    multiset(s.deferred)[a] + Actions(s.delayed)[a] + multiset(s.current)[a] + multiset(s.done)[a]
  }

  lemma {:induction false} CountNumbers(n: nat, a: nat)
    ensures Numbers(n)[a] == if a < n then 1 else 0
  {
    if n > 0 { CountNumbers(n - 1, a); }
  }

  lemma ConservedMeans(s: State, a: nat)
    requires Conserved(s)
    ensures Places(s, a) == if a < s.issued then 1 else 0
  {
    CountNumbers(s.issued, a);
    assert (multiset(s.deferred) + Actions(s.delayed) + multiset(s.current) + multiset(s.done))[a] == Numbers(s.issued)[a];
  }

  lemma SingleAction(s: State, t: Tid, i: nat, u: Tid, j: nat)
    requires Inv(s) && ActsAt(s, t, i) && ActsAt(s, u, j)
    ensures t == u && i == j && s.running && s.current == [s.stacks[t][i].a]
  {
    hide Conserved, DelayedOk, Locks, Marks;
    assert Shape(s.stacks[t]) && Shape(s.stacks[u]);
    assert i > 0 && j > 0;
    assert At(s.stacks, t, i - 1) && At(s.stacks, u, j - 1);
  }

  /** The safety theorem. After every run: an action is queued, running or done,
    * exactly once; at most one runs, and only while running_deferred is set;
    * the data mutex has one holder; immediate actions start in the order they
    * were enqueued; delayed ones wait in the order they are due.
    */
  lemma EveryRun(threads: set<Tid>, clock: Time, steps: seq<Step>)
    requires Normal(clock) && clock != END && Feasible(Init(threads, clock), steps)
    ensures var s := Run(Init(threads, clock), steps);
            && (forall a: nat :: Places(s, a) == if a < s.issued then 1 else 0)
            && (forall t, i: nat, u, j: nat :: ActsAt(s, t, i) && ActsAt(s, u, j) ==> t == u && i == j && s.running)
            && (forall t, u :: t in s.stacks && u in s.stacks && HoldsData(Top(s.stacks[t])) && HoldsData(Top(s.stacks[u]))
                  ==> t == u)
            && s.started <= s.enqueued && s.enqueued == s.started + s.deferred
            && InOrder(s.delayed)
  {
    hide Inv, Run, Places, ThreadsOk, Conserved;
    InitInv(threads, clock);
    RunKeepsInv(Init(threads, clock), steps);
    var s := Run(Init(threads, clock), steps);
    InvParts(s);
    forall a: nat ensures Places(s, a) == if a < s.issued then 1 else 0 { ConservedMeans(s, a); }
    forall t, i: nat, u, j: nat | ActsAt(s, t, i) && ActsAt(s, u, j) ensures t == u && i == j && s.running {
      SingleAction(s, t, i, u, j);
    }
  }

  /** What a thread starts, and when: nothing else is running; an immediate action
    * is the longest waiting one; a delayed one is the first of its queue, and is
    * due at the sampled time.
    */
  lemma StartsInOrder(s: State, t: Tid, a: nat)
    requires Inv(s) && Enabled(s, Go(t)) && Apply(s, Go(t)).current == [a] && Apply(s, Go(t)).current != s.current
    ensures s.current == [] && Top(s.stacks[t]).Loop?
    ensures var (phase, s') := (Top(s.stacks[t]).phase, Apply(s, Go(t)));
            if phase.First? then
              |s.started| < |s.enqueued| && a == s.enqueued[|s.started|] && s'.started == s.enqueued[..|s.started| + 1]
            else
              && s.delayed != [] && s.delayed[0].action == a && Compare(s.delayed[0].when, phase.now) <= 0
              && s'.started == s.started && s'.delayed == s.delayed[1..]
  {
    hide Inv, ThreadsOk, Conserved, DelayedOk, Locks, Compare, InsertTimed, AddUsec;
    InvParts(s);
    if Top(s.stacks[t]).Loop? { AtLoop(s, t); }
  }

  ghost predicate HasLeft(s: State, t: Tid) {
    t in s.stacks && Top(s.stacks[t]).Leave?
  }

  /** Leaving the loops. After the second one the first delayed action is later
    * than the sampled time, and the immediate queue holds exactly what has been
    * enqueued since then. So it is empty if and only if nothing was.
    */
  lemma LoopsEnd(s: State, t: Tid)
    requires Inv(s) && Enabled(s, Go(t)) && Top(s.stacks[t]).Loop? && HasLeft(Apply(s, Go(t)), t)
    ensures var (phase, s') := (Top(s.stacks[t]).phase, Apply(s, Go(t)));
            && !s'.running
            && (phase.First? ==> s'.deferred == [] && s'.delayed == [])
            && (phase.Second? ==>
                  && (s'.delayed == [] || Compare(s'.delayed[0].when, phase.now) > 0)
                  && phase.mark <= |s'.enqueued| && s'.deferred == s'.enqueued[phase.mark..]
                  && (s'.deferred == [] <==> |s'.enqueued| == phase.mark))
  {
    hide Inv, ThreadsOk, Conserved, DelayedOk, Locks, Compare;
    InvParts(s);
    AtLoop(s, t);
  }
}
