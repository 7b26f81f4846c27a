/** The emitted sizeof returns the number of bytes the emitted encoder writes,
  * whichever mixture of compile-time constants and run-time sums it uses.
  */
module Sizeof {
  import opened Wire
  import opened Types
  import opened Memory
  import opened Codegen
  import opened LoopNests
  import opened ArrayWalk
  import opened Encoder

  ghost function Grew(c: Core, n: nat): Core {
    c.(size := c.size + n)
  }

  lemma GrewElsewhere(c: Core, n: nat)
    ensures Grew(c, n).mem == c.mem && Grew(c, n).live == c.live
  {}

  lemma GrewTwice(c: Core, a: nat, b: nat)
    ensures Grew(Grew(c, a), b) == Grew(c, a + b) && Grew(c, 0) == c
  {}

  // ------------------------------------------------------- types of constant size

  /** Without strings and variable arrays every value takes C_fixedSizeof bytes. */
  lemma {:induction false} FixedSizeCorrect(t: Type, v: Value, rt: RefTables)
    requires HasType(v, t) && !IsDynamic(t)
    ensures |Enc(t, v, rt.toWire)| == FixedSizeof(t)
    decreases t, 1, 0
  {
    match t
    case Void =>
    case Prim(_) =>
    case User(_, decl) => FixedSizeCorrect(decl, v, rt);
    case Struct(_) => FixedFieldsCorrect(t, v, rt, 0);
    case Array(exps, elem) =>
      hide Enc, HasType, Prod, EncElems, EncLimits;
      ArrayTyped(exps, elem, v);
      SameLength(exps, v.n);
      NoLimits(exps, v.n, 0);
      FixedElemsCorrect(elem, v.a, rt, 0);
      PrefixEnds(exps, elem, v, rt);
  }

  lemma {:induction false} FixedFieldsCorrect(t: Type, v: Value, rt: RefTables, i: nat)
    requires t.Struct? && HasType(v, t) && !IsDynamic(t) && i <= |t.fields|
    ensures |EncFields(t, v, rt.toWire, i)| == FixedFieldsSizeof(t, i)
    decreases t, 0, |t.fields| - i
  {
    if i < |t.fields| {
      FixedSizeCorrect(t.fields[i].ty, v.fields[i], rt);
      FixedFieldsCorrect(t, v, rt, i + 1);
    }
  }

  lemma {:induction false} NoLimits(exps: seq<Exp>, n: seq<nat>, i: nat)
    requires |exps| == |n| && i <= |n| && !IsVariable(exps)
    ensures EncLimits(exps, n, i) == []
    decreases |n| - i
  {
    if i < |n| { NoLimits(exps, n, i + 1); }
  }

  lemma {:induction false} FixedElemsCorrect(elem: Type, a: seq<Value>, rt: RefTables, k: nat)
    requires forall i :: 0 <= i < |a| ==> HasType(a[i], elem)
    requires !IsDynamic(elem) && k <= |a|
    ensures |EncElems(elem, a, rt.toWire, k)| == FixedSizeof(elem) * (|a| - k)
    decreases elem, 2, |a| - k
  {
    hide Enc, FixedSizeof, HasType, IsDynamic;
    if k < |a| {
      FixedSizeCorrect(elem, a[k], rt);
      FixedElemsCorrect(elem, a, rt, k + 1);
      OneMore(FixedSizeof(elem), |a| - k);
    }
  }

  lemma OneMore(f: nat, n: nat)
    requires n > 0
    ensures f * n == f + f * (n - 1)
  {}

  // ---------------------------------------------------------------- dynamic types

  lemma {:induction false} SizeofCorrect(t: Type, lv: Path, d: nat, rt: RefTables, env: Env, c: Core, v: Value)
    requires IsDynamic(t) && Holds(c, t, v, Eval(lv, env)) && Below(lv, d)
    ensures HasType(v, t)
    ensures Reaches(Exec(EmitSizeof(t, lv, d), rt, env, c), env, d, Grew(c, |Enc(t, v, rt.toWire)|))
    decreases t, 1, 0
  {
    match t
    case Prim(p) => SizeofString(lv, d, rt, env, c, v);
    case User(_, decl) => SizeofCorrect(decl, lv, d, rt, env, c, v);
    case Struct(_) => SizeofStruct(t, lv, d, rt, env, c, v);
    case Array(_, _) => SizeofArray(t, lv, d, rt, env, c, v);
  }

  lemma SizeofString(lv: Path, d: nat, rt: RefTables, env: Env, c: Core, v: Value)
    requires Holds(c, Prim(String), v, Eval(lv, env))
    ensures HasType(v, Prim(String))
    ensures Reaches(Exec(AddString(lv), rt, env, c), env, d, Grew(c, |Enc(Prim(String), v, rt.toWire)|))
  {
    CStringWhole(v.chars);
    PackSize(|v.chars|);
  }

  /** What the dynamic fields from i on contribute at run time. */
  ghost function DynamicPart(t: Type, v: Value, rt: RefTables, i: nat): nat
    requires t.Struct? && HasType(v, t) && i <= |t.fields|
    decreases |t.fields| - i
  {
    if i == |t.fields| then 0
    else (if IsDynamic(t.fields[i].ty) then |Enc(t.fields[i].ty, v.fields[i], rt.toWire)| else 0) + DynamicPart(t, v, rt, i + 1)
  }

  /** The split of a struct into its fixed and dynamic fields loses nothing. */
  lemma {:induction false} SplitFields(t: Type, v: Value, rt: RefTables, i: nat)
    requires t.Struct? && HasType(v, t) && i <= |t.fields|
    ensures |EncFields(t, v, rt.toWire, i)| == DynamicPart(t, v, rt, i) + FixedPart(t, i)
    decreases |t.fields| - i
  {
    if i < |t.fields| {
      if !IsDynamic(t.fields[i].ty) { FixedSizeCorrect(t.fields[i].ty, v.fields[i], rt); }
      SplitFields(t, v, rt, i + 1);
    }
  }

  lemma {:induction false} SizeofFields(t: Type, lv: Path, d: nat, rt: RefTables, outer: Env, env: Env, c: Core,
                                        v: Value, i: nat)
    requires t.Struct? && Holds(c, t, v, Eval(lv, outer)) && Below(lv, d) && i <= |t.fields| && Same(outer, env, d)
    ensures HasType(v, t)
    ensures Reaches(Exec(EmitFieldSizeofs(t, lv, d, i), rt, env, c), outer, d, Grew(c, DynamicPart(t, v, rt, i)))
    decreases t, 0, |t.fields| - i
  {
    hide *;
    var at := Eval(lv, outer);
    HoldsTyped(c, t, v, at);
    UnfoldFieldSizeofs(t, lv, d, v, rt, i);
    if i == |t.fields| {
      ExecSkip(rt, env, c);
      GrewTwice(c, 0, 0);
      Reach(outer, env, d, c);
    } else {
      var ty := t.fields[i].ty;
      var code := if IsDynamic(ty) then EmitSizeof(ty, lv + [Dot(i)], d) else Skip;
      FieldTyped(t, v, i);
      var n := if IsDynamic(ty) then |Enc(ty, v.fields[i], rt.toWire)| else 0;
      var c1 := Grew(c, n);
      if IsDynamic(ty) {
        HoldsField(c, t, v, at, i);
        EvalSame(lv, outer, env, d);
        EvalAppend(lv, Dot(i), env);
        MemberLoc(i, env);
        BelowMember(lv, d, i);
        SizeofCorrect(ty, lv + [Dot(i)], d, rt, env, c, v.fields[i]);
      } else {
        ExecSkip(rt, env, c);
        GrewTwice(c, 0, 0);
        Reflexive(env, d);
        Reach(env, env, d, c);
      }
      ExecSeq(code, EmitFieldSizeofs(t, lv, d, i + 1), rt, env, c);
      var r := Exec(code, rt, env, c);
      Reached(r, env, d, c1);
      SameTrans(outer, env, r.env, d, 0, 0);
      GrewElsewhere(c, n);
      HoldsElsewhere(c, c1, t, v, at);
      SizeofFields(t, lv, d, rt, outer, r.env, c1, v, i + 1);
      GrewTwice(c, n, DynamicPart(t, v, rt, i + 1));
    }
  }

  lemma UnfoldFieldSizeofs(t: Type, lv: Path, d: nat, v: Value, rt: RefTables, i: nat)
    requires t.Struct? && i <= |t.fields| && HasType(v, t)
    ensures i == |t.fields| ==> EmitFieldSizeofs(t, lv, d, i) == Skip && DynamicPart(t, v, rt, i) == 0
    ensures i < |t.fields| ==>
            && EmitFieldSizeofs(t, lv, d, i)
               == Seq(if IsDynamic(t.fields[i].ty) then EmitSizeof(t.fields[i].ty, lv + [Dot(i)], d) else Skip,
                      EmitFieldSizeofs(t, lv, d, i + 1))
            && DynamicPart(t, v, rt, i)
               == (if IsDynamic(t.fields[i].ty) then |Enc(t.fields[i].ty, v.fields[i], rt.toWire)| else 0)
                  + DynamicPart(t, v, rt, i + 1)
  {}

  lemma {:induction false} SizeofStruct(t: Type, lv: Path, d: nat, rt: RefTables, env: Env, c: Core, v: Value)
    requires t.Struct? && IsDynamic(t) && Holds(c, t, v, Eval(lv, env)) && Below(lv, d)
    ensures HasType(v, t)
    ensures Reaches(Exec(EmitSizeof(t, lv, d), rt, env, c), env, d, Grew(c, |Enc(t, v, rt.toWire)|))
    decreases t, 0, |t.fields| + 1
  {
    hide *;
    Reflexive(env, d);
    SizeofFields(t, lv, d, rt, env, env, c, v, 0);
    SplitFields(t, v, rt, 0);
    var c1 := Grew(c, DynamicPart(t, v, rt, 0));
    var last := if FixedPart(t, 0) > 0 then AddConst(FixedPart(t, 0)) else Skip;
    UnfoldStructSizeof(t, lv, d, v, rt);
    ExecSeq(EmitFieldSizeofs(t, lv, d, 0), last, rt, env, c);
    var r := Exec(EmitFieldSizeofs(t, lv, d, 0), rt, env, c);
    Reached(r, env, d, c1);
    AddFixed(FixedPart(t, 0), rt, r.env, c1);
    GrewTwice(c, DynamicPart(t, v, rt, 0), FixedPart(t, 0));
    Reach(env, r.env, d, Grew(c1, FixedPart(t, 0)));
  }

  lemma AddFixed(n: nat, rt: RefTables, env: Env, c: Core)
    ensures Exec(if n > 0 then AddConst(n) else Skip, rt, env, c) == Run(env, Grew(c, n))
  {}

  lemma UnfoldStructSizeof(t: Type, lv: Path, d: nat, v: Value, rt: RefTables)
    requires t.Struct? && IsDynamic(t) && HasType(v, t)
    ensures Enc(t, v, rt.toWire) == EncFields(t, v, rt.toWire, 0)
    ensures EmitSizeof(t, lv, d)
            == Seq(EmitFieldSizeofs(t, lv, d, 0), if FixedPart(t, 0) > 0 then AddConst(FixedPart(t, 0)) else Skip)
  {}

  // ----------------------------------------------------------------------- arrays

  lemma {:induction false} SizeofLimits(exps: seq<Exp>, lv: Path, rt: RefTables, env: Env, c: Core, n: seq<nat>, i: nat)
    requires DimsFit(exps, n) && i <= |n| && ArrayAt(c, Eval(lv, env), n)
    ensures |exps| == |n|
    ensures Exec(EmitLimitSizeofs(exps, lv, i), rt, env, c) == Run(env, Grew(c, |EncLimits(exps, n, i)|))
    decreases |n| - i
  {
    hide *;
    SameLength(exps, n);
    UnfoldLimitSizeofs(exps, lv, n, i);
    if i == |n| {
      ExecSkip(rt, env, c);
      GrewTwice(c, 0, 0);
    } else {
      var here := if exps[i].Variable? then SizePacked(n[i]) else 0;
      var s := if exps[i].Variable? then AddPacked(Count(lv, i)) else Skip;
      SizeofLimit(exps, lv, rt, env, c, n, i);
      ExecSeq(s, EmitLimitSizeofs(exps, lv, i + 1), rt, env, c);
      GrewElsewhere(c, here);
      ArrayElsewhere(c, Grew(c, here), Eval(lv, env), n);
      SizeofLimits(exps, lv, rt, env, Grew(c, here), n, i + 1);
      GrewTwice(c, here, |EncLimits(exps, n, i + 1)|);
    }
  }

  lemma SizeofLimit(exps: seq<Exp>, lv: Path, rt: RefTables, env: Env, c: Core, n: seq<nat>, i: nat)
    requires DimsFit(exps, n) && i < |n| && ArrayAt(c, Eval(lv, env), n)
    ensures Exec(if exps[i].Variable? then AddPacked(Count(lv, i)) else Skip, rt, env, c)
            == Run(env, Grew(c, if exps[i].Variable? then SizePacked(n[i]) else 0))
  {}

  lemma UnfoldLimitSizeofs(exps: seq<Exp>, lv: Path, n: seq<nat>, i: nat)
    requires |exps| == |n| && i <= |n|
    ensures i == |n| ==> EmitLimitSizeofs(exps, lv, i) == Skip && |EncLimits(exps, n, i)| == 0
    ensures i < |n| ==>
            && EmitLimitSizeofs(exps, lv, i)
               == Seq(if exps[i].Variable? then AddPacked(Count(lv, i)) else Skip, EmitLimitSizeofs(exps, lv, i + 1))
            && |EncLimits(exps, n, i)|
               == (if exps[i].Variable? then SizePacked(n[i]) else 0) + |EncLimits(exps, n, i + 1)|
  {
    if i < |n| && exps[i].Variable? { PackSize(n[i]); }
  }

  lemma {:induction false} SizeofElement(t: Type, lv: Path, d: nat, rt: RefTables, env: Env, c: Core, v: Value,
                                         cs: nat -> Core, e: Env, off: nat)
    requires t.Array? && IsDynamic(t.elem) && Below(lv, d) && Holds(c, t, v, Eval(lv, env)) && v.Arr?
    requires forall i :: 0 <= i < |v.a| ==> HasType(v.a[i], t.elem)
    requires forall k: nat :: cs(k) == Grew(c, |EncPrefix(t.elem, v.a, rt, k)|)
    requires off < |v.a| && AtElement(t.exps, lv, d, env, e, off)
    ensures ElementStep(EmitSizeof(t.elem, Nested(t.exps, lv, d), d + 1), rt, e, cs, off, d)
    decreases t, 0, 0
  {
    hide Exec, Enc, HasType, Live, Get, Same, Below, Eval, Nested, EmitSizeof, Holds, Grew;
    var at := Eval(lv, env);
    HoldsElem(c, t.exps, t.elem, v, at, off);
    GrewElsewhere(c, |EncPrefix(t.elem, v.a, rt, off)|);
    HoldsElsewhere(c, cs(off), t.elem, v.a[off], at + [ElemLoc(t.exps, off)]);
    BelowNested(t.exps, lv, d);
    SizeofCorrect(t.elem, Nested(t.exps, lv, d), d + 1, rt, e, cs(off), v.a[off]);
    GrewTwice(c, |EncPrefix(t.elem, v.a, rt, off)|, |Enc(t.elem, v.a[off], rt.toWire)|);
  }

  lemma {:induction false} SizeofElements(t: Type, lv: Path, d: nat, rt: RefTables, env: Env, c: Core, v: Value)
    requires t.Array? && IsDynamic(t.elem) && Below(lv, d) && Holds(c, t, v, Eval(lv, env))
    ensures v.Arr? && forall i :: 0 <= i < |v.a| ==> HasType(v.a[i], t.elem)
    ensures Reaches(Exec(OverElements(t.exps, lv, d, EmitSizeof(t.elem, Nested(t.exps, lv, d), d + 1)), rt, env, c),
                    env, d, Grew(c, |EncElems(t.elem, v.a, rt.toWire, 0)|))
    decreases t, 0, 1
  {
    hide Exec, Enc, EncElems, HasType, Live, Get, Same, Below, Eval, Nested, OverElements, ElementStep, AtElement, Prod,
         ArrayAt, Grew, Holds, EncPrefix, EncLimits, EmitSizeof;
    var at := Eval(lv, env);
    var (exps, elem) := (t.exps, t.elem);
    HoldsArray(c, exps, elem, v, at);
    var cs := (k: nat) => Grew(c, |EncPrefix(elem, v.a, rt, k)|);
    var code := EmitSizeof(elem, Nested(exps, lv, d), d + 1);
    forall off: nat | off <= Prod(v.n, 0) ensures ArrayAt(cs(off), at, v.n) {
      GrewElsewhere(c, |EncPrefix(elem, v.a, rt, off)|);
      ArrayElsewhere(c, cs(off), at, v.n);
    }
    forall e: Env, off: nat | off < Prod(v.n, 0) && AtElement(exps, lv, d, env, e, off)
      ensures ElementStep(code, rt, e, cs, off, d)
    {
      SizeofElement(t, lv, d, rt, env, c, v, cs, e, off);
    }
    WalkElements(exps, lv, d, code, rt, env, cs, v.n);
    PrefixEnds(exps, elem, v, rt);
    GrewTwice(c, 0, 0);
  }

  lemma FixedElements(t: Type, lv: Path, d: nat, rt: RefTables, env: Env, c: Core, v: Value)
    requires t.Array? && !IsDynamic(t.elem) && Holds(c, t, v, Eval(lv, env))
    ensures v.Arr? && forall i :: 0 <= i < |v.a| ==> HasType(v.a[i], t.elem)
    ensures Reaches(Exec(AddProduct(FixedSizeof(t.elem), Limits(t.exps, lv)), rt, env, c),
                    env, d, Grew(c, |EncElems(t.elem, v.a, rt.toWire, 0)|))
  {
    hide Enc, EncElems, HasType, Live, Get, Eval, Prod, ArrayAt, Holds, EvalLimits, Evaluates;
    HoldsArray(c, t.exps, t.elem, v, Eval(lv, env));
    LimitValues(t.exps, lv, env, c, v.n);
    FixedElemsCorrect(t.elem, v.a, rt, 0);
  }

  lemma {:induction false} SizeofArray(t: Type, lv: Path, d: nat, rt: RefTables, env: Env, c: Core, v: Value)
    requires t.Array? && IsDynamic(t) && Below(lv, d) && Holds(c, t, v, Eval(lv, env))
    ensures HasType(v, t)
    ensures Reaches(Exec(EmitSizeof(t, lv, d), rt, env, c), env, d, Grew(c, |Enc(t, v, rt.toWire)|))
    decreases t, 0, 2
  {
    hide *;
    var at := Eval(lv, env);
    var (exps, elem) := (t.exps, t.elem);
    HoldsTyped(c, t, v, at);
    HoldsArray(c, exps, elem, v, at);
    SizeofLimits(exps, lv, rt, env, c, v.n, 0);
    var lims := |EncLimits(exps, v.n, 0)|;
    var c1 := Grew(c, lims);
    GrewElsewhere(c, lims);
    HoldsElsewhere(c, c1, t, v, at);
    var code := if IsDynamic(elem) then OverElements(exps, lv, d, EmitSizeof(elem, Nested(exps, lv, d), d + 1))
                else AddProduct(FixedSizeof(elem), Limits(exps, lv));
    if IsDynamic(elem) {
      SizeofElements(t, lv, d, rt, env, c1, v);
    } else {
      FixedElements(t, lv, d, rt, env, c1, v);
    }
    PrefixEnds(exps, elem, v, rt);
    GrewTwice(c, lims, |EncElems(elem, v.a, rt.toWire, 0)|);
    UnfoldArraySizeof(t, lv, d);
    ExecSeq(EmitLimitSizeofs(exps, lv, 0), code, rt, env, c);
  }

  lemma UnfoldArraySizeof(t: Type, lv: Path, d: nat)
    requires t.Array? && IsDynamic(t)
    ensures EmitSizeof(t, lv, d)
            == Seq(EmitLimitSizeofs(t.exps, lv, 0),
                   if IsDynamic(t.elem) then OverElements(t.exps, lv, d, EmitSizeof(t.elem, Nested(t.exps, lv, d), d + 1))
                   else AddProduct(FixedSizeof(t.elem), Limits(t.exps, lv)))
  {}
}
