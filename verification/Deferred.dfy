/** The queues of deferred actions in lib/c/2014/labcomm2014_pthread_scheduler.c:
  * points in time, the order of delayed actions, and the circular doubly linked
  * lists that hold them.
  */
module Deferred {

  datatype Time = Time(sec: int, nsec: int)

  /** Time 0 marks the sentinel and counts as the end of time. */
  const END: Time := Time(0, 0)

  const NSEC: int := 1_000_000_000

  /** timespec_compare. */
  function Compare(a: Time, b: Time): int {
    if a.sec == b.sec && a.nsec == b.nsec then 0
    else if a.sec == 0 && a.nsec == 0 then 1
    else if b.sec == 0 && b.nsec == 0 then -1
    else if a.sec < b.sec then -1
    else if a.sec == b.sec then (if a.nsec < b.nsec then -1 else if a.nsec == b.nsec then 0 else 1)
    else 1
  }

  /** timespec_add_usec. */
  function AddUsec(t: Time, usec: nat): Time
    requires 0 <= t.nsec
  {
    var nsec := t.nsec + usec % 1_000_000 * 1000;
    Time(t.sec + (usec / 1_000_000 + nsec / NSEC), nsec % NSEC)
  }

  ghost predicate Normal(t: Time) {
    0 <= t.sec && 0 <= t.nsec < NSEC
  }

  ghost function Nanos(t: Time): int {
    t.sec * NSEC + t.nsec
  }

  /** Before the end of time the order is that of the nanosecond counts. */
  lemma CompareIsChronological(a: Time, b: Time)
    requires Normal(a) && Normal(b)
    ensures a != END && b != END ==> (Compare(a, b) < 0 <==> Nanos(a) < Nanos(b))
    ensures Compare(a, b) == 0 <==> a == b
    ensures a != END ==> Compare(a, END) < 0
    ensures Compare(a, b) == -Compare(b, a)
  {
    if a.sec < b.sec {
      assert a.sec + 1 <= b.sec;
    } else if b.sec < a.sec {
      assert b.sec + 1 <= a.sec;
    }
  }

  lemma CompareTrans(a: Time, b: Time, c: Time)
    requires Compare(a, b) <= 0 && Compare(b, c) <= 0
    ensures Compare(a, c) <= 0
    ensures Compare(a, b) < 0 || Compare(b, c) < 0 ==> Compare(a, c) < 0
  {}

  /** Adding microseconds is exact, stays normal, and never reaches the mark. */
  lemma AddUsecExact(t: Time, usec: nat)
    requires Normal(t)
    ensures Normal(AddUsec(t, usec)) && Nanos(AddUsec(t, usec)) == Nanos(t) + usec * 1000
    ensures usec > 0 || t != END ==> AddUsec(t, usec) != END
  {
    var sec, part := usec / 1_000_000, usec % 1_000_000;
    assert usec == sec * 1_000_000 + part;
    var nsec := t.nsec + part * 1000;
    assert nsec == nsec / NSEC * NSEC + nsec % NSEC;
  }

  // ------------------------------------------------------------- ordered sequences

  datatype Item = Item(when: Time, action: nat)

  ghost predicate InOrder(s: seq<Item>) {
    forall i, j :: 0 <= i < j < |s| ==> Compare(s[i].when, s[j].when) <= 0
  }

  /** How many items from the front on are not later than the time. */
  function Rank(s: seq<Item>, when: Time): (k: nat)
    ensures k <= |s|
  {
    if s == [] || Compare(when, s[0].when) < 0 then 0 else 1 + Rank(s[1..], when)
  }

  function InsertTimed(s: seq<Item>, x: Item): seq<Item> {
    var k := Rank(s, x.when);
    s[..k] + [x] + s[k..]
  }

  lemma {:induction false} RankIs(s: seq<Item>, when: Time, k: nat)
    requires k <= |s| && (forall j :: 0 <= j < k ==> Compare(when, s[j].when) >= 0)
    requires k < |s| ==> Compare(when, s[k].when) < 0
    ensures Rank(s, when) == k
  {
    if k > 0 { RankIs(s[1..], when, k - 1); }
  }

  lemma {:induction false} RankSplits(s: seq<Item>, when: Time)
    ensures forall j :: 0 <= j < Rank(s, when) ==> Compare(when, s[j].when) >= 0
    ensures Rank(s, when) < |s| ==> Compare(when, s[Rank(s, when)].when) < 0
  {
    if s != [] && Compare(when, s[0].when) >= 0 {
      RankSplits(s[1..], when);
      forall j | 0 <= j < Rank(s, when) ensures Compare(when, s[j].when) >= 0 {
        if j > 0 { assert s[j] == s[1..][j - 1]; }
      }
    }
  }

  lemma CompareFlip(a: Time, b: Time)
    ensures Compare(a, b) >= 0 <==> Compare(b, a) <= 0
    ensures Compare(a, b) < 0 <==> Compare(b, a) > 0
  {}

  lemma {:induction false} InsertPlaces(s: seq<Item>, x: Item)
    requires InOrder(s)
    ensures var k := Rank(s, x.when);
            && (forall j :: 0 <= j < k ==> Compare(s[j].when, x.when) <= 0)
            && (forall j :: k <= j < |s| ==> Compare(x.when, s[j].when) < 0)
  {
    hide Compare, Rank;
    var k := Rank(s, x.when);
    RankSplits(s, x.when);
    forall j | 0 <= j < k ensures Compare(s[j].when, x.when) <= 0 { CompareFlip(x.when, s[j].when); }
    forall j | k <= j < |s| ensures Compare(x.when, s[j].when) < 0 {
      if j > k { CompareLess(x.when, s[k].when, s[j].when); }
    }
  }

  lemma InsertPermutes(s: seq<Item>, x: Item)
    ensures multiset(InsertTimed(s, x)) == multiset(s) + multiset{x}
  {
    var k := Rank(s, x.when);
    assert s == s[..k] + s[k..];
  }

  /** Insertion keeps the order and is stable: of two actions due at the same
    * time the one enqueued first stays in front.
    */
  lemma {:induction false} InsertKeepsOrder(s: seq<Item>, x: Item)
    requires InOrder(s)
    ensures InOrder(InsertTimed(s, x))
    ensures multiset(InsertTimed(s, x)) == multiset(s) + multiset{x}
    ensures var k := Rank(s, x.when);
            && InsertTimed(s, x)[k] == x
            && InsertTimed(s, x)[..k] == s[..k] && InsertTimed(s, x)[k + 1..] == s[k..]
            && (forall j :: 0 <= j < k ==> Compare(s[j].when, x.when) <= 0)
            && (forall j :: k <= j < |s| ==> Compare(x.when, s[j].when) < 0)
  {
    hide *;
    var k := Rank(s, x.when);
    InsertPlaces(s, x);
    InsertPermutes(s, x);
    InsertAt(s, x);
    OrderedAround(s, k, x);
  }

  lemma {:induction false} InsertAt(s: seq<Item>, x: Item)
    ensures var (k, r) := (Rank(s, x.when), InsertTimed(s, x));
            && k <= |s| && r == s[..k] + [x] + s[k..] && r[k] == x
            && r[..k] == s[..k] && r[k + 1..] == s[k..]
  {
    hide Rank;
  }

  lemma OrderedAround(s: seq<Item>, k: nat, x: Item)
    requires InOrder(s) && k <= |s|
    requires forall j :: 0 <= j < k ==> Compare(s[j].when, x.when) <= 0
    requires forall j :: k <= j < |s| ==> Compare(x.when, s[j].when) < 0
    ensures InOrder(s[..k] + [x] + s[k..])
  {
    hide Compare;
    var r := s[..k] + [x] + s[k..];
    forall i, j | 0 <= i < j < |r| ensures Compare(r[i].when, r[j].when) <= 0 {
      assert r[i] == if i < k then s[i] else if i == k then x else s[i - 1];
      assert r[j] == if j < k then s[j] else if j == k then x else s[j - 1];
    }
  }

  lemma CompareLess(a: Time, b: Time, c: Time)
    requires Compare(a, b) < 0 && Compare(b, c) <= 0
    ensures Compare(a, c) < 0
  {
    CompareTrans(a, b, c);
  }

  // --------------------------------------------------------------- linked queues

  class Node {
    var next: Node
    var prev: Node
    var when: Time
    var action: nat

    /** A new element; as a sentinel it is an empty queue. */
    constructor (when: Time, action: nat)
      ensures next == this && prev == this && this.when == when && this.action == action
    {
      next, prev := this, this;
      this.when, this.action := when, action;
    }
  }

  class Queue {
    /** The sentinel. */
    const head: Node
    ghost var nodes: seq<Node>

    /** Once around, from sentinel to sentinel. */
    ghost function Ring(): (r: seq<Node>)
      reads this
      ensures |r| == |nodes| + 2
    {
      [head] + nodes + [head]
    }

    ghost predicate Links(i: nat)
      requires i <= |nodes|
      reads this, head, nodes
    {
      var r := Ring();
      r[i].next == r[i + 1] && r[i + 1].prev == r[i]
    }

    /** A circular doubly linked list whose only mark of END is the sentinel. */
    ghost predicate Valid()
      reads this, head, nodes
    {
      && head !in nodes && head.when == END
      && (forall i, j :: 0 <= i < j < |nodes| ==> nodes[i] != nodes[j])
      && (forall i :: 0 <= i <= |nodes| ==> Links(i))
    }

    ghost function Items(): (s: seq<Item>)
      reads this, nodes
      ensures |s| == |nodes|
    {
      seq(|nodes|, i requires 0 <= i < |nodes| reads this, nodes => Item(nodes[i].when, nodes[i].action))
    }

    constructor ()
      ensures Valid() && nodes == [] && fresh(head) && Items() == []
    {
      head := new Node(END, 0);
      nodes := [];
    }

    /** queue_empty. */
    method Empty() returns (empty: bool)
      requires Valid()
      ensures empty <==> Items() == []
    {
      assert Links(0);
      empty := head.next == head;
    }

    /** The four assignments that link x in front of b. */
    static method Link(x: Node, b: Node)
      requires x != b && x != b.prev
      modifies x`next, x`prev, b`prev, b.prev`next
      ensures x.next == b && b.prev == x && x.prev == old(b.prev) && old(b.prev).next == x
    {
      x.next := b;
      x.prev := b.prev;
      x.prev.next := x;
      x.next.prev := x;
    }

    method InsertBefore(x: Node, b: Node, ghost k: nat)
      requires Valid() && x != head && x !in nodes && k <= |nodes| && Ring()[k + 1] == b
      modifies this`nodes, head`next, head`prev, nodes`next, nodes`prev, x`next, x`prev
      ensures Valid() && nodes == old(nodes)[..k] + [x] + old(nodes)[k..]
      ensures Items() == old(Items())[..k] + [Item(x.when, x.action)] + old(Items())[k..]
    {
      ghost var r := Ring();
      assert Links(k);
      Link(x, b);
      nodes := nodes[..k] + [x] + nodes[k..];
      ghost var r' := Ring();
      forall i | 0 <= i <= |nodes| ensures Links(i) {
        if i < k {
          assert old(Links(i));
          assert r'[i] == r[i] && r'[i + 1] == r[i + 1];
        } else if i > k + 1 {
          assert old(Links(i - 1));
          assert r'[i] == r[i - 1] && r'[i + 1] == r[i];
        }
      }
    }

    /** scheduler_enqueue without delay: in front of the sentinel, that is last. */
    method Append(x: Node)
      requires Valid() && x != head && x !in nodes
      modifies this`nodes, head`next, head`prev, nodes`next, nodes`prev, x`next, x`prev
      ensures Valid() && nodes == old(nodes) + [x]
      ensures Items() == old(Items()) + [Item(x.when, x.action)]
    {
      InsertBefore(x, head, |nodes|);
    }

    /** The scan of scheduler_enqueue. It stops at the sentinel at the latest,
      * since no element is due at the end of time.
      */
    method FindPlace(when: Time) returns (b: Node, ghost k: nat)
      requires Valid() && when != END
      ensures k == Rank(Items(), when) && k <= |nodes| && b == Ring()[k + 1]
    {
      assert Links(0);
      b, k := head.next, 0;
      while Compare(when, b.when) >= 0
        invariant k <= |nodes| && b == Ring()[k + 1]
        invariant forall j :: 0 <= j < k ==> Compare(when, Items()[j].when) >= 0
        decreases |nodes| - k
      {
        assert k < |nodes|;
        assert Links(k + 1);
        b, k := b.next, k + 1;
      }
      RankIs(Items(), when, k);
    }

    /** scheduler_enqueue with a delay. */
    method InsertByTime(x: Node) returns (ghost k: nat)
      requires Valid() && x != head && x !in nodes && x.when != END
      modifies this`nodes, head`next, head`prev, nodes`next, nodes`prev, x`next, x`prev
      ensures Valid() && k == Rank(old(Items()), x.when) && nodes == old(nodes)[..k] + [x] + old(nodes)[k..]
      ensures Items() == InsertTimed(old(Items()), Item(x.when, x.action))
    {
      var b;
      b, k := FindPlace(x.when);
      InsertBefore(x, b, k);
    }

    /** The first element, or the sentinel: `queue.next`. */
    method First() returns (x: Node)
      requires Valid()
      ensures x == if nodes == [] then head else nodes[0]
      ensures x.when == if Items() == [] then END else Items()[0].when
    {
      assert Links(0);
      x := head.next;
    }

    /** The unlinking in run_action, of the first element. */
    method Remove(x: Node)
      requires Valid() && nodes != [] && x == nodes[0]
      modifies this`nodes, head`next, head`prev, nodes`next, nodes`prev
      ensures Valid() && nodes == old(nodes)[1..] && Items() == old(Items())[1..]
      ensures x.when == old(Items())[0].when && x.action == old(Items())[0].action
    {
      ghost var r := Ring();
      assert Links(0) && Links(1);
      x.prev.next := x.next;
      x.next.prev := x.prev;
      nodes := nodes[1..];
      forall i | 0 <= i <= |nodes| ensures Links(i) {
        assert old(Links(i + 1));
        assert Ring()[i + 1] == r[i + 2];
        if i > 0 { assert Ring()[i] == r[i + 1]; }
      }
    }
  }
}
