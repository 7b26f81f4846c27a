/** Objects reached through C access paths: `.field`, an element of an array
  * stored in place, or an element of an allocated array.
  */
module Memory {
  import opened Types

  datatype Loc = Member(i: nat) | InPlace(k: nat) | OnHeap(k: nat)

  /** A place in a sample, outermost step first. It also names the block that is
    * allocated for the string or the variable array at that place.
    */
  type Place = seq<Loc>

  function Step(v: Value, s: Loc): (r: seq<Value>)
    ensures |r| <= 1
  {
    match s
    case Member(i) => if v.Rec? && i < |v.fields| then [v.fields[i]] else []
    case InPlace(k) => if v.Arr? && k < |v.a| then [v.a[k]] else []
    case OnHeap(k) => if v.Arr? && k < |v.a| then [v.a[k]] else []
  }

  function Store(v: Value, s: Loc, w: Value): Value
    requires Step(v, s) != []
  {
    match s
    case Member(i) => Rec(v.fields[i := w])
    case InPlace(k) => Arr(v.n, v.a[k := w])
    case OnHeap(k) => Arr(v.n, v.a[k := w])
  }

  /** The object at a place, as a sequence of at most one value. */
  function Get(v: Value, p: Place): (r: seq<Value>)
    ensures |r| <= 1
    decreases |p|
  {
    if p == [] then [v]
    else
      var up := Get(v, p[..|p| - 1]);
      if up == [] then [] else Step(up[0], p[|p| - 1])
  }

  function Put(v: Value, p: Place, w: Value): Value
    requires Get(v, p) != []
    decreases |p|
  {
    if p == [] then w
    else
      var q := p[..|p| - 1];
      Put(v, q, Store(Get(v, q)[0], p[|p| - 1], w))
  }

  lemma GetAppend(v: Value, p: Place, s: Loc)
    ensures Get(v, p + [s]) == if Get(v, p) == [] then [] else Step(Get(v, p)[0], s)
  {
    assert (p + [s])[..|p|] == p;
  }

  lemma PutAppend(v: Value, p: Place, s: Loc, w: Value)
    requires Get(v, p + [s]) != []
    ensures Get(v, p) != []
    ensures Put(v, p + [s], w) == Put(v, p, Store(Get(v, p)[0], s, w))
  {
    assert (p + [s])[..|p|] == p;
  }

  lemma StoreStore(u: Value, s: Loc, x: Value, w: Value)
    requires Step(u, s) != []
    ensures Step(Store(u, s, x), s) == [x] && Store(Store(u, s, x), s, w) == Store(u, s, w)
  {}

  lemma {:induction false} GetPut(v: Value, p: Place, w: Value)
    requires Get(v, p) != []
    ensures Get(Put(v, p, w), p) == [w]
    decreases |p|
  {
    if p != [] {
      var q := p[..|p| - 1];
      GetPut(v, q, Store(Get(v, q)[0], p[|p| - 1], w));
    }
  }

  lemma {:induction false} PutPut(v: Value, p: Place, x: Value, w: Value)
    requires Get(v, p) != []
    ensures Get(Put(v, p, x), p) == [x]
    ensures Put(Put(v, p, x), p, w) == Put(v, p, w)
    decreases |p|
  {
    hide Step, Store;
    GetPut(v, p, x);
    if p != [] {
      var q, s := p[..|p| - 1], p[|p| - 1];
      var u := Get(v, q)[0];
      var ux := Store(u, s, x);
      StoreStore(u, s, x, w);
      PutPut(v, q, ux, Store(ux, s, w));
    }
  }

  lemma {:induction false} PutGet(v: Value, p: Place)
    requires Get(v, p) != []
    ensures Put(v, p, Get(v, p)[0]) == v
    decreases |p|
  {
    if p != [] {
      var q, s := p[..|p| - 1], p[|p| - 1];
      PutGet(v, q);
      assert Store(Get(v, q)[0], s, Get(v, p)[0]) == Get(v, q)[0];
    }
  }

  /** Every allocated array the path goes through is still allocated. */
  predicate Live(live: set<Place>, p: Place)
    decreases |p|
  {
    p == [] ||
    (Live(live, p[..|p| - 1]) && (p[|p| - 1].OnHeap? ==> p[..|p| - 1] in live))
  }

  lemma LiveAppend(live: set<Place>, p: Place, s: Loc)
    ensures Live(live, p + [s]) <==> Live(live, p) && (s.OnHeap? ==> p in live)
  {
    assert (p + [s])[..|p|] == p;
  }

  /** Liveness of a path depends on shorter places only. */
  lemma {:induction false} LiveDependsOnShorter(a: set<Place>, b: set<Place>, p: Place)
    requires Live(a, p)
    requires forall q :: q in a && |q| < |p| ==> q in b
    ensures Live(b, p)
    decreases |p|
  {
    if p != [] { LiveDependsOnShorter(a, b, p[..|p| - 1]); }
  }
}
