/** The critical sections of the pthread scheduler on the linked queues: what a
  * thread does to them while it holds the data mutex. They refine the queue
  * updates of the interleaved steps.
  */
module Sections {
  import opened Deferred
  import Options
  import Scheduler

  /** The actions of a queue without regard to time. */
  function Order(s: seq<Item>): (r: seq<nat>)
    ensures |r| == |s|
  {
    seq(|s|, i requires 0 <= i < |s| => s[i].action)
  }

  lemma OrderFirst(s: seq<Item>)
    ensures Order(s) == if s == [] then [] else [s[0].action] + Order(s[1..])
  {}

  class Queues {
    const deferred: Queue
    const delayed: Queue

    ghost predicate Valid()
      reads this, deferred, deferred.head, deferred.nodes, delayed, delayed.head, delayed.nodes
    {
      && deferred != delayed && deferred.Valid() && delayed.Valid()
      && deferred.head != delayed.head && deferred.head !in delayed.nodes && delayed.head !in deferred.nodes
      && forall i, j :: 0 <= i < |deferred.nodes| && 0 <= j < |delayed.nodes| ==> deferred.nodes[i] != delayed.nodes[j]
    }

    /** labcomm2014_pthread_scheduler_new. */
    constructor ()
      ensures Valid() && deferred.Items() == [] && delayed.Items() == []
    {
      deferred := new Queue();
      delayed := new Queue();
    }

    method EnqueueNow(action: nat)
      requires Valid()
      modifies deferred`nodes, deferred.head`next, deferred.head`prev, deferred.nodes`next, deferred.nodes`prev
      ensures Valid() && delayed.Items() == old(delayed.Items())
      ensures Order(deferred.Items()) == Order(old(deferred.Items())) + [action]
    {
      var x := new Node(END, action);
      deferred.Append(x);
    }

    method EnqueueLater(when: Time, action: nat)
      requires Valid() && when != END
      modifies delayed`nodes, delayed.head`next, delayed.head`prev, delayed.nodes`next, delayed.nodes`prev
      ensures Valid() && deferred.Items() == old(deferred.Items())
      ensures delayed.Items() == InsertTimed(old(delayed.Items()), Item(when, action))
    {
      hide InsertTimed, Rank;
      var x := new Node(when, action);
      ghost var k := delayed.InsertByTime(x);
    }

    /** scheduler_enqueue between locking and unlocking. */
    method Enqueue(delay: nat, action: nat, now: Time)
      requires Valid() && Normal(now)
      modifies deferred`nodes, deferred.head`next, deferred.head`prev, deferred.nodes`next, deferred.nodes`prev
      modifies delayed`nodes, delayed.head`next, delayed.head`prev, delayed.nodes`next, delayed.nodes`prev
      ensures Valid()
      ensures Order(deferred.Items()) == Order(old(deferred.Items())) + if delay == 0 then [action] else []
      ensures delayed.Items()
              == if delay == 0 then old(delayed.Items()) else InsertTimed(old(delayed.Items()), Item(AddUsec(now, delay), action))
    {
      hide InsertTimed, AddUsec;
      if delay == 0 {
        EnqueueNow(action);
      } else {
        AddUsecExact(now, delay);
        EnqueueLater(AddUsec(now, delay), action);
      }
    }

    /** One turn of the first loop of run_deferred, up to the call of the action. */
    method TakeImmediate() returns (found: bool, action: nat)
      requires Valid()
      modifies deferred`nodes, deferred.head`next, deferred.head`prev, deferred.nodes`next, deferred.nodes`prev
      ensures Valid() && delayed.Items() == old(delayed.Items())
      ensures found <==> old(deferred.Items()) != []
      ensures Order(old(deferred.Items())) == (if found then [action] else []) + Order(deferred.Items())
    {
      hide Order, Queue.Valid, Queue.Items;
      OrderFirst(deferred.Items());
      var empty := deferred.Empty();
      if empty { return false, 0; }
      var x := deferred.First();
      deferred.Remove(x);
      return true, x.action;
    }

    /** One turn of the second loop. The guard looks at the sentinel when the queue
      * is empty; since the clock never shows 0, it does not pass.
      */
    method TakeDue(now: Time) returns (found: bool, action: nat)
      requires Valid() && now != END
      modifies delayed`nodes, delayed.head`next, delayed.head`prev, delayed.nodes`next, delayed.nodes`prev
      ensures Valid() && deferred.Items() == old(deferred.Items())
      ensures found <==> old(delayed.Items()) != [] && Compare(old(delayed.Items())[0].when, now) <= 0
      ensures if found then old(delayed.Items())[0].action == action && delayed.Items() == old(delayed.Items())[1..]
              else delayed.Items() == old(delayed.Items())
    {
      var x := delayed.First();
      found, action := Compare(x.when, now) <= 0, 0;
      if found {
        delayed.Remove(x);
        action := x.action;
      }
    }

    /** The queues are those of a state of the interleaved model. */
    ghost predicate Stands(s: Scheduler.State)
      requires Valid()
      reads this, deferred, deferred.head, deferred.nodes, delayed, delayed.head, delayed.nodes
    {
      Order(deferred.Items()) == s.deferred && delayed.Items() == s.delayed
    }

    /** The critical section of scheduler_enqueue is its step. */
    method EnqueueTurn(ghost s: Scheduler.State, ghost t: Scheduler.Tid, delay: nat, action: nat, now: Time)
      requires Valid() && Stands(s) && t in s.stacks && |s.stacks[t]| > 1
      requires Normal(now) && now == s.clock && action == s.issued
      modifies deferred`nodes, deferred.head`next, deferred.head`prev, deferred.nodes`next, deferred.nodes`prev
      modifies delayed`nodes, delayed.head`next, delayed.head`prev, delayed.nodes`next, delayed.nodes`prev
      ensures Valid() && Stands(Scheduler.EnqueueStep(s, t, delay))
    {
      hide InsertTimed, AddUsec, Valid;
      EnqueueQueues(s, t, delay);
      Enqueue(delay, action, now);
    }

    /** One turn of a loop of run_deferred, up to the call of the action, is a step of the
      * runner; it starts the action that is found.
      */
    method LoopTurn(ghost s: Scheduler.State, ghost t: Scheduler.Tid, ghost who: Scheduler.Caller, first: bool, now: Time, ghost mark: nat)
      returns (found: bool, action: nat)
      requires Valid() && Stands(s) && t in s.stacks && now != END
      modifies deferred`nodes, deferred.head`next, deferred.head`prev, deferred.nodes`next, deferred.nodes`prev
      modifies delayed`nodes, delayed.head`next, delayed.head`prev, delayed.nodes`next, delayed.nodes`prev
      ensures var phase := if first then Scheduler.First else Scheduler.Second(now, mark);
              var s' := Scheduler.LoopStep(s, t, who, phase);
              && Valid() && Stands(s')
              && (if found then s'.current == [action] && s'.dataOwner == Options.None
                  else s'.current == s.current && s'.dataOwner == s.dataOwner)
    {
      hide Compare, Valid;
      LoopQueues(s, t, who, if first then Scheduler.First else Scheduler.Second(now, mark));
      if first {
        found, action := TakeImmediate();
      } else {
        found, action := TakeDue(now);
      }
    }
  }

  lemma EnqueueQueues(s: Scheduler.State, t: Scheduler.Tid, delay: nat)
    requires t in s.stacks && |s.stacks[t]| > 1 && Normal(s.clock)
    ensures var s' := Scheduler.EnqueueStep(s, t, delay);
            && s'.deferred == s.deferred + (if delay == 0 then [s.issued] else [])
            && s'.delayed == if delay == 0 then s.delayed else InsertTimed(s.delayed, Item(AddUsec(s.clock, delay), s.issued))
  {
    hide InsertTimed, AddUsec;
  }

  lemma LoopQueues(s: Scheduler.State, t: Scheduler.Tid, who: Scheduler.Caller, phase: Scheduler.Phase)
    requires t in s.stacks
    ensures var s' := Scheduler.LoopStep(s, t, who, phase);
            match phase
            case First =>
              if s.deferred != [] then
                && s'.deferred == s.deferred[1..] && s'.delayed == s.delayed && s'.current == [s.deferred[0]]
                && s'.dataOwner == Options.None
              else s'.deferred == s.deferred && s'.delayed == s.delayed && s'.current == s.current && s'.dataOwner == s.dataOwner
            case Second(now, _) =>
              if s.delayed != [] && Compare(s.delayed[0].when, now) <= 0 then
                && s'.deferred == s.deferred && s'.delayed == s.delayed[1..] && s'.current == [s.delayed[0].action]
                && s'.dataOwner == Options.None
              else s'.deferred == s.deferred && s'.delayed == s.delayed && s'.current == s.current && s'.dataOwner == s.dataOwner
  {
    hide Compare, Scheduler.Become;
  }
}
