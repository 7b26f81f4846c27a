/** The memory a decoded sample owns: one block for each string and one for each
  * variable array, named by its place in the sample.
  */
module Blocks {
  import opened Types
  import opened Memory
  import opened ArrayWalk

  function BlocksOf(t: Type, v: Value, at: Place): set<Place>
    requires HasType(v, t)
    decreases t, 1, 0
  {
    match t
    case Void => {}
    case Prim(p) => if p.String? then {at} else {}
    case User(_, decl) => BlocksOf(decl, v, at)
    case Struct(fields) => FieldBlocks(t, v, at, |fields|)
    case Array(exps, elem) =>
      (if IsVariable(exps) then {at} else {}) + ElemBlocks(exps, elem, v.a, at, |v.a|)
  }

  /** The blocks of the first i fields. */
  function FieldBlocks(t: Type, v: Value, at: Place, i: nat): set<Place>
    requires t.Struct? && HasType(v, t) && i <= |t.fields|
    decreases t, 0, i
  {
    if i == 0 then {}
    else FieldBlocks(t, v, at, i - 1) + BlocksOf(t.fields[i - 1].ty, v.fields[i - 1], at + [Member(i - 1)])
  }

  /** The blocks of the first k elements. */
  function ElemBlocks(exps: seq<Exp>, elem: Type, a: seq<Value>, at: Place, k: nat): set<Place>
    requires forall i :: 0 <= i < |a| ==> HasType(a[i], elem)
    decreases elem, 2, k
  {
    if k == 0 || k > |a| then {}
    else ElemBlocks(exps, elem, a, at, k - 1) + BlocksOf(elem, a[k - 1], at + [ElemLoc(exps, k - 1)])
  }

  /** All blocks of a value lie at or under its own place. */
  lemma {:induction false} BlocksUnder(t: Type, v: Value, at: Place, b: Place)
    requires HasType(v, t) && b in BlocksOf(t, v, at)
    ensures at <= b
    decreases t, 1, 0
  {
    match t
    case Void =>
    case Prim(_) =>
    case User(_, decl) => BlocksUnder(decl, v, at, b);
    case Struct(fields) => var j := FieldBlocksUnder(t, v, at, |fields|, b);
    case Array(exps, elem) =>
      if b in ElemBlocks(exps, elem, v.a, at, |v.a|) {
        var j := ElemBlocksUnder(exps, elem, v.a, at, |v.a|, b);
      }
  }

  lemma {:induction false} FieldBlocksUnder(t: Type, v: Value, at: Place, i: nat, b: Place) returns (j: nat)
    requires t.Struct? && HasType(v, t) && i <= |t.fields| && b in FieldBlocks(t, v, at, i)
    ensures j < i && at + [Member(j)] <= b && at <= b
    decreases t, 0, i
  {
    if b in FieldBlocks(t, v, at, i - 1) {
      j := FieldBlocksUnder(t, v, at, i - 1, b);
    } else {
      j := i - 1;
      BlocksUnder(t.fields[j].ty, v.fields[j], at + [Member(j)], b);
      assert at <= at + [Member(j)];
    }
  }

  lemma {:induction false} ElemBlocksUnder(exps: seq<Exp>, elem: Type, a: seq<Value>, at: Place, k: nat, b: Place)
    returns (j: nat)
    requires forall i :: 0 <= i < |a| ==> HasType(a[i], elem)
    requires b in ElemBlocks(exps, elem, a, at, k)
    ensures j < k && at + [ElemLoc(exps, j)] <= b && at <= b
    decreases elem, 2, k
  {
    if b in ElemBlocks(exps, elem, a, at, k - 1) {
      j := ElemBlocksUnder(exps, elem, a, at, k - 1, b);
    } else {
      j := k - 1;
      BlocksUnder(elem, a[j], at + [ElemLoc(exps, j)], b);
      assert at <= at + [ElemLoc(exps, j)];
    }
  }

  /** A type that C_isDynamic rejects owns nothing. */
  lemma {:induction false} StaticOwnsNothing(t: Type, v: Value, at: Place)
    requires HasType(v, t) && !IsDynamic(t)
    ensures BlocksOf(t, v, at) == {}
    decreases t, 1, 0
  {
    match t
    case Void =>
    case Prim(_) =>
    case User(_, decl) => StaticOwnsNothing(decl, v, at);
    case Struct(fields) => StaticFieldsOwnNothing(t, v, at, |fields|);
    case Array(exps, elem) => StaticElemsOwnNothing(exps, elem, v.a, at, |v.a|);
  }

  lemma {:induction false} StaticFieldsOwnNothing(t: Type, v: Value, at: Place, i: nat)
    requires t.Struct? && HasType(v, t) && !IsDynamic(t) && i <= |t.fields|
    ensures FieldBlocks(t, v, at, i) == {}
    decreases t, 0, i
  {
    if i > 0 {
      StaticFieldsOwnNothing(t, v, at, i - 1);
      StaticOwnsNothing(t.fields[i - 1].ty, v.fields[i - 1], at + [Member(i - 1)]);
    }
  }

  lemma {:induction false} StaticElemsOwnNothing(exps: seq<Exp>, elem: Type, a: seq<Value>, at: Place, k: nat)
    requires forall i :: 0 <= i < |a| ==> HasType(a[i], elem)
    requires !IsDynamic(elem)
    ensures ElemBlocks(exps, elem, a, at, k) == {}
    decreases elem, 2, k
  {
    if 0 < k <= |a| {
      StaticElemsOwnNothing(exps, elem, a, at, k - 1);
      StaticOwnsNothing(elem, a[k - 1], at + [ElemLoc(exps, k - 1)]);
    }
  }

  /** Carrying the references over moves no memory. */
  lemma {:induction false} CarriedBlocks(t: Type, v: Value, at: Place, rt: RefTables)
    requires HasType(v, t) && HasType(Carried(v, rt), t)
    ensures BlocksOf(t, Carried(v, rt), at) == BlocksOf(t, v, at)
    decreases t, 1, 0
  {
    match t
    case Void =>
    case Prim(_) =>
    case User(_, decl) => CarriedBlocks(decl, v, at, rt);
    case Struct(fields) => CarriedFieldBlocks(t, v, at, |fields|, rt);
    case Array(exps, elem) => CarriedElemBlocks(exps, elem, v.a, Carried(v, rt).a, at, |v.a|, rt);
  }

  lemma {:induction false} CarriedFieldBlocks(t: Type, v: Value, at: Place, i: nat, rt: RefTables)
    requires t.Struct? && HasType(v, t) && HasType(Carried(v, rt), t) && i <= |t.fields|
    ensures FieldBlocks(t, Carried(v, rt), at, i) == FieldBlocks(t, v, at, i)
    decreases t, 0, i
  {
    if i > 0 {
      CarriedFieldBlocks(t, v, at, i - 1, rt);
      CarriedBlocks(t.fields[i - 1].ty, v.fields[i - 1], at + [Member(i - 1)], rt);
    }
  }

  lemma {:induction false} CarriedElemBlocks(exps: seq<Exp>, elem: Type, a: seq<Value>, b: seq<Value>,
                                             at: Place, k: nat, rt: RefTables)
    requires |a| == |b| && forall i :: 0 <= i < |a| ==> HasType(a[i], elem) && HasType(b[i], elem)
    requires forall i :: 0 <= i < |a| ==> b[i] == Carried(a[i], rt)
    ensures ElemBlocks(exps, elem, b, at, k) == ElemBlocks(exps, elem, a, at, k)
    decreases elem, 2, k
  {
    if 0 < k <= |a| {
      CarriedElemBlocks(exps, elem, a, b, at, k - 1, rt);
      CarriedBlocks(elem, a[k - 1], at + [ElemLoc(exps, k - 1)], rt);
    }
  }

  /** No block lies at or under this place yet. */
  ghost predicate Fresh(live: set<Place>, at: Place) {
    forall b :: b in live ==> !(at <= b)
  }

  lemma NotBoth(at: Place, s: Loc, r: Loc, b: Place)
    requires at + [s] <= b && s != r
    ensures !(at + [r] <= b)
  {
    assert (at + [s])[|at|] == s && (at + [r])[|at|] == r;
  }

  lemma PrefixUp(at: Place, s: Loc, b: Place)
    ensures at + [s] <= b ==> at <= b && b != at
  {
    assert at <= at + [s];
  }

  lemma FreshUnder(live: set<Place>, at: Place, s: Loc)
    requires Fresh(live, at) || Fresh(live - {at}, at)
    ensures Fresh(live, at + [s])
  {
    forall b | b in live ensures !(at + [s] <= b) {
      PrefixUp(at, s, b);
      assert b == at || b in live - {at};
    }
  }

  lemma FreshField(live: set<Place>, t: Type, v: Value, at: Place, i: nat)
    requires t.Struct? && HasType(v, t) && i < |t.fields| && Fresh(live, at)
    ensures Fresh(live + FieldBlocks(t, v, at, i), at + [Member(i)])
  {
    FreshUnder(live, at, Member(i));
    forall b | b in FieldBlocks(t, v, at, i) ensures !(at + [Member(i)] <= b) {
      var j := FieldBlocksUnder(t, v, at, i, b);
      NotBoth(at, Member(j), Member(i), b);
    }
  }

  lemma FreshElem(live: set<Place>, exps: seq<Exp>, elem: Type, a: seq<Value>, at: Place, k: nat)
    requires forall i :: 0 <= i < |a| ==> HasType(a[i], elem)
    requires k < |a| && Fresh(live - {at}, at)
    ensures Fresh(live + ElemBlocks(exps, elem, a, at, k), at + [ElemLoc(exps, k)])
  {
    FreshUnder(live, at, ElemLoc(exps, k));
    forall b | b in ElemBlocks(exps, elem, a, at, k) ensures !(at + [ElemLoc(exps, k)] <= b) {
      var j := ElemBlocksUnder(exps, elem, a, at, k, b);
      NotBoth(at, ElemLoc(exps, j), ElemLoc(exps, k), b);
    }
  }
}
