/** The emitted deallocation frees exactly the blocks of the value, each once,
  * and never follows a pointer into a block it has freed.
  */
module Dealloc {
  import opened Types
  import opened Memory
  import opened Codegen
  import opened LoopNests
  import opened ArrayWalk
  import opened Blocks
  import opened Encoder

  ghost function Freed(c: Core, blocks: set<Place>): Core {
    c.(live := c.live - blocks)
  }

  lemma FreedTwice(c: Core, a: set<Place>, b: set<Place>)
    ensures Freed(Freed(c, a), b) == Freed(c, a + b) && Freed(c, {}) == c
  {
    assert (c.live - a) - b == c.live - (a + b);
    assert c.live - {} == c.live;
  }

  lemma {:induction false} DeallocCorrect(t: Type, lv: Path, d: nat, rt: RefTables, env: Env, c: Core, v: Value)
    requires Holds(c, t, v, Eval(lv, env)) && Below(lv, d)
    ensures HasType(v, t)
    ensures Reaches(Exec(EmitDealloc(t, lv, d), rt, env, c), env, d, Freed(c, BlocksOf(t, v, Eval(lv, env))))
    decreases t, 1, 0
  {
    if !IsDynamic(t) {
      FreeNothing(t, lv, d, rt, env, c, v);
    } else {
      match t
      case Prim(p) =>
      case User(_, decl) => DeallocCorrect(decl, lv, d, rt, env, c, v);
      case Struct(_) => DeallocStruct(t, lv, d, rt, env, c, v);
      case Array(_, _) => DeallocArray(t, lv, d, rt, env, c, v);
    }
  }

  lemma FreeNothing(t: Type, lv: Path, d: nat, rt: RefTables, env: Env, c: Core, v: Value)
    requires Holds(c, t, v, Eval(lv, env)) && !IsDynamic(t)
    ensures HasType(v, t)
    ensures Reaches(Exec(EmitDealloc(t, lv, d), rt, env, c), env, d, Freed(c, BlocksOf(t, v, Eval(lv, env))))
  {
    StaticOwnsNothing(t, v, Eval(lv, env));
    FreedTwice(c, {}, {});
    ExecSkip(rt, env, c);
    ExecSeq(Skip, Skip, rt, env, c);
  }

  // ---------------------------------------------------------------------- structs

  lemma HoldsFieldStill(c: Core, t: Type, v: Value, at: Place, i: nat)
    requires t.Struct? && Holds(c, t, v, at) && i < |t.fields|
    ensures HasType(v, t) && v.Rec? && |v.fields| == |t.fields|
    ensures Holds(Freed(c, FieldBlocks(t, v, at, i)), t.fields[i].ty, v.fields[i], at + [Member(i)])
  {
    hide Get, Live, BlocksOf, FieldBlocks, HasType;
    HoldsTyped(c, t, v, at);
    HoldsField(c, t, v, at, i);
    var gone := FieldBlocks(t, v, at, i);
    var s := Freed(c, gone);
    forall b | b in gone ensures !(at + [Member(i)] <= b) && |b| >= |at + [Member(i)]| {
      var j := FieldBlocksUnder(t, v, at, i, b);
      NotBoth(at, Member(j), Member(i), b);
    }
    forall b | b in BlocksOf(t.fields[i].ty, v.fields[i], at + [Member(i)]) ensures b in s.live {
      BlocksUnder(t.fields[i].ty, v.fields[i], at + [Member(i)], b);
    }
    LiveDependsOnShorter(c.live, s.live, at + [Member(i)]);
  }

  lemma {:induction false} DeallocFields(t: Type, lv: Path, d: nat, rt: RefTables, outer: Env, env: Env, c: Core,
                                         v: Value, i: nat)
    requires t.Struct? && Holds(c, t, v, Eval(lv, outer)) && Below(lv, d) && i <= |t.fields| && Same(outer, env, d)
    ensures HasType(v, t)
    ensures var at := Eval(lv, outer);
            Reaches(Exec(EmitFieldDeallocs(t, lv, d, i), rt, env, Freed(c, FieldBlocks(t, v, at, i))),
                    outer, d, Freed(c, FieldBlocks(t, v, at, |t.fields|)))
    decreases t, 0, |t.fields| - i
  {
    hide *;
    var at := Eval(lv, outer);
    HoldsTyped(c, t, v, at);
    UnfoldFieldDeallocs(t, lv, d, i);
    var s := Freed(c, FieldBlocks(t, v, at, i));
    if i == |t.fields| {
      ExecSkip(rt, env, s);
      Reach(outer, env, d, s);
    } else {
      var (ty, code) := (t.fields[i].ty, EmitDealloc(t.fields[i].ty, lv + [Dot(i)], d));
      HoldsFieldStill(c, t, v, at, i);
      EvalSame(lv, outer, env, d);
      EvalAppend(lv, Dot(i), env);
      MemberLoc(i, env);
      BelowMember(lv, d, i);
      DeallocCorrect(ty, lv + [Dot(i)], d, rt, env, s, v.fields[i]);
      UnfoldFieldBlocks(t, v, at, i);
      FreedTwice(c, FieldBlocks(t, v, at, i), BlocksOf(ty, v.fields[i], at + [Member(i)]));
      ExecSeq(code, EmitFieldDeallocs(t, lv, d, i + 1), rt, env, s);
      var r := Exec(code, rt, env, s);
      Reached(r, env, d, Freed(c, FieldBlocks(t, v, at, i + 1)));
      SameTrans(outer, env, r.env, d, 0, 0);
      DeallocFields(t, lv, d, rt, outer, r.env, c, v, i + 1);
    }
  }

  lemma UnfoldFieldDeallocs(t: Type, lv: Path, d: nat, i: nat)
    requires t.Struct? && i <= |t.fields|
    ensures EmitFieldDeallocs(t, lv, d, i) ==
            if i == |t.fields| then Skip
            else Seq(EmitDealloc(t.fields[i].ty, lv + [Dot(i)], d), EmitFieldDeallocs(t, lv, d, i + 1))
  {}

  lemma UnfoldFieldBlocks(t: Type, v: Value, at: Place, i: nat)
    requires t.Struct? && HasType(v, t) && i < |t.fields|
    ensures HasType(v.fields[i], t.fields[i].ty)
    ensures FieldBlocks(t, v, at, i + 1)
            == FieldBlocks(t, v, at, i) + BlocksOf(t.fields[i].ty, v.fields[i], at + [Member(i)])
  {}

  lemma {:induction false} DeallocStruct(t: Type, lv: Path, d: nat, rt: RefTables, env: Env, c: Core, v: Value)
    requires t.Struct? && IsDynamic(t) && Holds(c, t, v, Eval(lv, env)) && Below(lv, d)
    ensures HasType(v, t)
    ensures Reaches(Exec(EmitDealloc(t, lv, d), rt, env, c), env, d, Freed(c, BlocksOf(t, v, Eval(lv, env))))
    decreases t, 0, |t.fields| + 1
  {
    hide Exec, Holds, Same, Below, Eval, HasType, Freed, Reaches, IsDynamic;
    HoldsTyped(c, t, v, Eval(lv, env));
    FreedTwice(c, {}, {});
    assert Same(env, env, d) by { Reflexive(env, d); }
    DeallocFields(t, lv, d, rt, env, env, c, v, 0);
  }

  // ----------------------------------------------------------------------- arrays

  lemma HoldsElemStill(c: Core, exps: seq<Exp>, elem: Type, v: Value, at: Place, k: nat)
    requires Holds(c, Array(exps, elem), v, at) && v.Arr? && k < |v.a|
    requires forall i :: 0 <= i < |v.a| ==> HasType(v.a[i], elem)
    ensures Holds(Freed(c, ElemBlocks(exps, elem, v.a, at, k)), elem, v.a[k], at + [ElemLoc(exps, k)])
  {
    hide Get, Live, BlocksOf, ElemBlocks, HasType;
    HoldsElem(c, exps, elem, v, at, k);
    var gone := ElemBlocks(exps, elem, v.a, at, k);
    var here := at + [ElemLoc(exps, k)];
    var s := Freed(c, gone);
    forall b | b in gone ensures !(here <= b) && |b| >= |here| {
      var j := ElemBlocksUnder(exps, elem, v.a, at, k, b);
      NotBoth(at, ElemLoc(exps, j), ElemLoc(exps, k), b);
    }
    forall b | b in BlocksOf(elem, v.a[k], here) ensures b in s.live {
      BlocksUnder(elem, v.a[k], here, b);
    }
    LiveDependsOnShorter(c.live, s.live, here);
  }

  /** While element blocks go, the array itself stays. */
  lemma ArrayStill(c: Core, exps: seq<Exp>, elem: Type, v: Value, at: Place, k: nat)
    requires Holds(c, Array(exps, elem), v, at) && v.Arr?
    requires forall i :: 0 <= i < |v.a| ==> HasType(v.a[i], elem)
    ensures var s := Freed(c, ElemBlocks(exps, elem, v.a, at, k));
            && ArrayAt(s, at, v.n) && Get(s.mem, at) == [v]
            && (IsVariable(exps) ==> at in s.live)
  {
    var s := Freed(c, ElemBlocks(exps, elem, v.a, at, k));
    forall b | b in ElemBlocks(exps, elem, v.a, at, k) ensures |b| > |at| {
      var j := ElemBlocksUnder(exps, elem, v.a, at, k, b);
    }
    LiveDependsOnShorter(c.live, s.live, at);
  }

  lemma {:induction false} DeallocElement(t: Type, lv: Path, d: nat, rt: RefTables, env: Env, c: Core, v: Value,
                                          cs: nat -> Core, e: Env, off: nat)
    requires t.Array? && Below(lv, d) && Holds(c, t, v, Eval(lv, env)) && v.Arr?
    requires forall i :: 0 <= i < |v.a| ==> HasType(v.a[i], t.elem)
    requires forall k: nat :: cs(k) == Freed(c, ElemBlocks(t.exps, t.elem, v.a, Eval(lv, env), k))
    requires off < |v.a| && AtElement(t.exps, lv, d, env, e, off)
    ensures ElementStep(EmitDealloc(t.elem, Nested(t.exps, lv, d), d + 1), rt, e, cs, off, d)
    decreases t, 0, 0
  {
    hide Exec, HasType, Live, Get, Same, Below, Eval, Nested, EmitDealloc, Holds, Freed, BlocksOf;
    var at := Eval(lv, env);
    HoldsElemStill(c, t.exps, t.elem, v, at, off);
    BelowNested(t.exps, lv, d);
    DeallocCorrect(t.elem, Nested(t.exps, lv, d), d + 1, rt, e, cs(off), v.a[off]);
    FreedTwice(c, ElemBlocks(t.exps, t.elem, v.a, at, off), BlocksOf(t.elem, v.a[off], at + [ElemLoc(t.exps, off)]));
  }

  lemma {:induction false} DeallocElements(t: Type, lv: Path, d: nat, rt: RefTables, env: Env, c: Core, v: Value)
    requires t.Array? && Below(lv, d) && Holds(c, t, v, Eval(lv, env))
    ensures v.Arr? && forall i :: 0 <= i < |v.a| ==> HasType(v.a[i], t.elem)
    ensures Reaches(Exec(if IsDynamic(t.elem) then OverElements(t.exps, lv, d, EmitDealloc(t.elem, Nested(t.exps, lv, d), d + 1))
                         else Skip, rt, env, c),
                    env, d, Freed(c, ElemBlocks(t.exps, t.elem, v.a, Eval(lv, env), |v.a|)))
    decreases t, 0, 1
  {
    hide Exec, HasType, Live, Get, Same, Below, Eval, Nested, OverElements, ElementStep, AtElement, Prod,
         ArrayAt, Freed, Holds, EmitDealloc, ElemBlocks, Reaches;
    var at := Eval(lv, env);
    var (exps, elem) := (t.exps, t.elem);
    HoldsArray(c, exps, elem, v, at);
    FreedTwice(c, {}, {});
    if !IsDynamic(elem) {
      StaticElemsOwnNothing(exps, elem, v.a, at, |v.a|);
      ExecSkip(rt, env, c);
      Reflexive(env, d);
      Reach(env, env, d, c);
    } else {
      var cs := (k: nat) => Freed(c, ElemBlocks(exps, elem, v.a, at, k));
      var code := EmitDealloc(elem, Nested(exps, lv, d), d + 1);
      forall off: nat | off <= Prod(v.n, 0) ensures ArrayAt(cs(off), at, v.n) {
        ArrayStill(c, exps, elem, v, at, off);
      }
      forall e: Env, off: nat | off < Prod(v.n, 0) && AtElement(exps, lv, d, env, e, off)
        ensures ElementStep(code, rt, e, cs, off, d)
      {
        DeallocElement(t, lv, d, rt, env, c, v, cs, e, off);
      }
      WalkElements(exps, lv, d, code, rt, env, cs, v.n);
      NoElemBlocks(exps, elem, v.a, at);
      var r := Exec(OverElements(exps, lv, d, code), rt, env, c);
      Reach(env, r.env, d, r.core);
    }
  }

  lemma NoElemBlocks(exps: seq<Exp>, elem: Type, a: seq<Value>, at: Place)
    requires forall i :: 0 <= i < |a| ==> HasType(a[i], elem)
    ensures ElemBlocks(exps, elem, a, at, 0) == {}
  {}

  lemma {:induction false} DeallocArray(t: Type, lv: Path, d: nat, rt: RefTables, env: Env, c: Core, v: Value)
    requires t.Array? && Below(lv, d) && Holds(c, t, v, Eval(lv, env))
    ensures HasType(v, t)
    ensures Reaches(Exec(EmitDealloc(t, lv, d), rt, env, c), env, d, Freed(c, BlocksOf(t, v, Eval(lv, env))))
    decreases t, 0, 2
  {
    hide *;
    var at := Eval(lv, env);
    var (exps, elem) := (t.exps, t.elem);
    HoldsTyped(c, t, v, at);
    DeallocElements(t, lv, d, rt, env, c, v);
    var gone := ElemBlocks(exps, elem, v.a, at, |v.a|);
    var own := if IsVariable(exps) then {at} else {};
    var code := if IsDynamic(elem) then OverElements(exps, lv, d, EmitDealloc(elem, Nested(exps, lv, d), d + 1)) else Skip;
    var last := if IsVariable(exps) then Free(lv) else Skip;
    UnfoldArrayDealloc(t, lv, d, v, at);
    ExecSeq(code, last, rt, env, c);
    var r := Exec(code, rt, env, c);
    Reached(r, env, d, Freed(c, gone));
    EvalSame(lv, env, r.env, d);
    FreeOwn(c, exps, elem, v, lv, rt, env, r.env);
    FreedTwice(c, gone, own);
    Reach(env, r.env, d, Freed(Freed(c, gone), own));
  }

  lemma FreeOwn(c: Core, exps: seq<Exp>, elem: Type, v: Value, lv: Path, rt: RefTables, env: Env, e: Env)
    requires Holds(c, Array(exps, elem), v, Eval(lv, env)) && v.Arr? && Eval(lv, e) == Eval(lv, env)
    requires forall i :: 0 <= i < |v.a| ==> HasType(v.a[i], elem)
    ensures var at := Eval(lv, env);
            var s := Freed(c, ElemBlocks(exps, elem, v.a, at, |v.a|));
            Exec(if IsVariable(exps) then Free(lv) else Skip, rt, e, s)
            == Run(e, Freed(s, if IsVariable(exps) then {at} else {}))
  {
    hide Holds, Live, Get, Eval, HasType, ElemBlocks;
    var at := Eval(lv, env);
    ArrayStill(c, exps, elem, v, at, |v.a|);
    FreedTwice(Freed(c, ElemBlocks(exps, elem, v.a, at, |v.a|)), {}, {});
  }

  lemma UnfoldArrayDealloc(t: Type, lv: Path, d: nat, v: Value, at: Place)
    requires t.Array? && HasType(v, t) && v.Arr? && forall i :: 0 <= i < |v.a| ==> HasType(v.a[i], t.elem)
    ensures EmitDealloc(t, lv, d)
            == Seq(if IsDynamic(t.elem) then OverElements(t.exps, lv, d, EmitDealloc(t.elem, Nested(t.exps, lv, d), d + 1)) else Skip,
                   if IsVariable(t.exps) then Free(lv) else Skip)
    ensures BlocksOf(t, v, at)
            == ElemBlocks(t.exps, t.elem, v.a, at, |v.a|) + (if IsVariable(t.exps) then {at} else {})
  {}
}
