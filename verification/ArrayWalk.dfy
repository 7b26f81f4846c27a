/** The code emitted around the elements of an array, whichever of the four
  * emitters produced the element code: it runs that code on every element, in
  * memory order, at a path that denotes the element.
  */
module ArrayWalk {
  import opened Types
  import opened Memory
  import opened Codegen
  import opened LoopNests

  ghost predicate Below(lv: Path, d: nat) {
    forall i :: 0 <= i < |lv| && !lv[i].Dot? ==> lv[i].depth < d
  }

  lemma {:induction false} HornerSame(a: Env, b: Env, d: nat, dims: seq<nat>, k: nat)
    requires k <= |dims| && SameLoops(a, b, d, k)
    ensures Horner(a, d, dims, k) == Horner(b, d, dims, k)
  {
    if k > 0 { HornerSame(a, b, d, dims, k - 1); }
  }

  /** A path keeps its meaning while deeper variables change. */
  lemma EvalSame(lv: Path, a: Env, b: Env, d: nat)
    requires Below(lv, d) && Same(a, b, d)
    ensures Eval(lv, a) == Eval(lv, b)
  {
    forall i | 0 <= i < |lv| ensures Resolve(lv[i], a) == Resolve(lv[i], b) {
      if lv[i].Fixed? {
        HornerSame(a, b, lv[i].depth, lv[i].dims, |lv[i].dims|);
      }
    }
  }

  lemma EvalAppend(lv: Path, a: Access, env: Env)
    ensures Eval(lv + [a], env) == Eval(lv, env) + [Resolve(a, env)]
  {}

  function ElemLoc(exps: seq<Exp>, k: nat): Loc {
    if IsVariable(exps) then OnHeap(k) else InPlace(k)
  }

  /** At this place lies an array with these dimensions. */
  ghost predicate ArrayAt(c: Core, at: Place, n: seq<nat>) {
    Live(c.live, at) && var u := Get(c.mem, at); u != [] && u[0].Arr? && u[0].n == n
  }

  lemma LimitValue(exps: seq<Exp>, lv: Path, env: Env, c: Core, n: seq<nat>, j: nat)
    requires DimsFit(exps, n) && ArrayAt(c, Eval(lv, env), n) && j < |n|
    ensures EvalLimit(LimitOf(exps, lv, j), env, c) == [n[j]]
  {}

  lemma LimitValues(exps: seq<Exp>, lv: Path, env: Env, c: Core, n: seq<nat>)
    requires DimsFit(exps, n) && ArrayAt(c, Eval(lv, env), n)
    ensures Evaluates(Limits(exps, lv), env, c) && EvalLimits(Limits(exps, lv), env, c) == n
  {
    hide EvalLimit, ArrayAt;
    forall j | 0 <= j < |n| ensures EvalLimit(Limits(exps, lv)[j], env, c) == [n[j]] {
      LimitValue(exps, lv, env, c, n, j);
    }
  }

  /** The element code, run where the nested path denotes element `off`. */
  ghost predicate ElementStep(code: Stmt, rt: RefTables, e: Env, cs: nat -> Core, off: nat, d: nat) {
    var r := Exec(code, rt, e, cs(off));
    r.Run? && r.core == cs(off + 1) && Same(e, r.env, d + 1)
  }

  ghost predicate AtElement(exps: seq<Exp>, lv: Path, d: nat, env: Env, e: Env, off: nat) {
    Same(env, e, d) && Eval(Nested(exps, lv, d), e) == Eval(lv, env) + [ElemLoc(exps, off)]
  }

  ghost predicate ElementSteps(exps: seq<Exp>, lv: Path, d: nat, code: Stmt, rt: RefTables,
                               env: Env, cs: nat -> Core, total: nat) {
    forall e: Env, off: nat :: off < total && AtElement(exps, lv, d, env, e, off)
      ==> ElementStep(code, rt, e, cs, off, d)
  }

  ghost predicate ArrayStays(cs: nat -> Core, at: Place, n: seq<nat>) {
    forall off: nat :: off <= Prod(n, 0) ==> ArrayAt(cs(off), at, n)
  }

  lemma WalkLimits(exps: seq<Exp>, lv: Path, d: nat, env: Env, cs: nat -> Core, n: seq<nat>)
    requires Below(lv, d) && DimsFit(exps, n) && ArrayStays(cs, Eval(lv, env), n)
    ensures LimitsHold(Limits(exps, lv), env, cs, n, d)
  {
    hide Exec, Prod, EvalLimit, Same, ArrayAt, Below, DimsFit, Get, Eval, Live;
    assert |Limits(exps, lv)| == |n| by { SameLength(exps, n); }
    forall e: Env, off: nat, j: nat | Same(env, e, d) && off <= Prod(n, 0) && j < |n|
      ensures EvalLimit(Limits(exps, lv)[j], e, cs(off)) == [n[j]]
    {
      EvalSame(lv, env, e, d);
      LimitValue(exps, lv, e, cs(off), n, j);
    }
  }

  lemma SameLength(exps: seq<Exp>, n: seq<nat>)
    requires DimsFit(exps, n)
    ensures |exps| == |n|
    ensures !IsVariable(exps) ==> LitDims(exps) == n
  {}

  lemma ExecSeq(a: Stmt, b: Stmt, rt: RefTables, env: Env, c: Core)
    ensures var r := Exec(a, rt, env, c);
            Exec(Seq(a, b), rt, env, c) == if r.Stuck? then Stuck else Exec(b, rt, r.env, r.core)
  {}

  /** After C_emitCalcIndex the nested path denotes the element whose linear
    * index the loop variables spell.
    */
  lemma ReachElement(exps: seq<Exp>, lv: Path, d: nat, rt: RefTables, env: Env, e: Env, c: Core, n: seq<nat>)
    requires Below(lv, d) && DimsFit(exps, n) && Same(env, e, d) && ArrayAt(c, Eval(lv, env), n)
    ensures var off := Horner(e, d, n, |n|);
            if IsVariable(exps) then
              var e' := e[Linear(d) := off];
              && Exec(SetLinear(d, Limits(exps, lv)), rt, e, c) == Run(e', c)
              && AtElement(exps, lv, d, env, e', off)
              && Same(e, e', d) && SameLoops(e, e', d, |n|)
            else AtElement(exps, lv, d, env, e, off)
  {
    var off := Horner(e, d, n, |n|);
    SameLength(exps, n);
    EvalSame(lv, env, e, d);
    if IsVariable(exps) {
      LimitValues(exps, lv, e, c, n);
      var e' := e[Linear(d) := off];
      assert Same(e, e', d) && Same(env, e', d);
      EvalSame(lv, e, e', d);
      EvalAppend(lv, Indexed(d), e');
    } else {
      EvalAppend(lv, Fixed(d, LitDims(exps)), e);
    }
  }

  lemma BodyOfWalk(exps: seq<Exp>, lv: Path, d: nat, code: Stmt, rt: RefTables,
                   env: Env, cs: nat -> Core, n: seq<nat>, e: Env)
    requires Below(lv, d) && DimsFit(exps, n) && ArrayStays(cs, Eval(lv, env), n)
    requires ElementSteps(exps, lv, d, code, rt, env, cs, Prod(n, 0))
    requires Same(env, e, d) && Horner(e, d, n, |n|) < Prod(n, 0)
    ensures BodyStep(ElementCode(exps, lv, d, code), rt, e, cs, Horner(e, d, n, |n|), d, |n|)
  {
    hide Exec, Horner, Prod, ArrayAt, DimsFit, Below, AtElement, Same, SameLoops, Get, Eval, Limits;
    var off := Horner(e, d, n, |n|);
    ReachElement(exps, lv, d, rt, env, e, cs(off), n);
    var e' := if IsVariable(exps) then e[Linear(d) := off] else e;
    assert ElementStep(code, rt, e', cs, off, d);
    var r := Exec(code, rt, e', cs(off));
    Deeper(e', r.env, d, |n|);
    if IsVariable(exps) {
      ExecSeq(SetLinear(d, Limits(exps, lv)), code, rt, e, cs(off));
      SameTrans(e, e', r.env, d, |n|, |n|);
    }
  }

  lemma Deeper(a: Env, b: Env, d: nat, k: nat)
    requires Same(a, b, d + 1)
    ensures Same(a, b, d) && SameLoops(a, b, d, k)
  {}

  /** The theorem of this module. */
  lemma WalkElements(exps: seq<Exp>, lv: Path, d: nat, code: Stmt, rt: RefTables,
                     env: Env, cs: nat -> Core, n: seq<nat>)
    requires Below(lv, d) && DimsFit(exps, n) && ArrayStays(cs, Eval(lv, env), n)
    requires ElementSteps(exps, lv, d, code, rt, env, cs, Prod(n, 0))
    ensures var r := Exec(OverElements(exps, lv, d, code), rt, env, cs(0));
            r.Run? && r.core == cs(Prod(n, 0)) && Same(env, r.env, d)
  {
    hide Exec, Horner, Prod, ArrayStays, DimsFit, Below, ElementSteps, Same, BodyStep, ElementCode,
         LimitsHold, Get, Eval, Limits, LoopNest;
    var body := ElementCode(exps, lv, d, code);
    forall e: Env | Same(env, e, d) && Horner(e, d, n, |n|) < Prod(n, 0)
      ensures BodyStep(body, rt, e, cs, Horner(e, d, n, |n|), d, |n|)
    {
      BodyOfWalk(exps, lv, d, code, rt, env, cs, n, e);
    }
    WalkLimits(exps, lv, d, env, cs, n);
    NestVisitsAll(Limits(exps, lv), d, body, rt, env, cs, n);
  }

  // -------------------------------------------------------------------- execution

  ghost predicate Reaches(r: Outcome, env: Env, d: nat, c: Core) {
    r.Run? && r.core == c && Same(env, r.env, d)
  }

  lemma ExecSkip(rt: RefTables, env: Env, c: Core)
    ensures Exec(Skip, rt, env, c) == Run(env, c)
  {}

  lemma Reach(outer: Env, env: Env, d: nat, c: Core)
    requires Same(outer, env, d)
    ensures Reaches(Run(env, c), outer, d, c)
  {}

  lemma Reached(r: Outcome, env: Env, d: nat, c: Core)
    requires Reaches(r, env, d, c)
    ensures r.Run? && r.core == c && Same(env, r.env, d)
  {}

  lemma BelowMember(lv: Path, d: nat, i: nat)
    requires Below(lv, d)
    ensures Below(lv + [Dot(i)], d)
  {}

  lemma FieldTyped(t: Type, v: Value, i: nat)
    requires t.Struct? && HasType(v, t) && i < |t.fields|
    ensures v.Rec? && |v.fields| == |t.fields| && HasType(v.fields[i], t.fields[i].ty)
  {}

  lemma ArrayTyped(exps: seq<Exp>, elem: Type, v: Value)
    requires HasType(v, Array(exps, elem))
    ensures v.Arr? && DimsFit(exps, v.n) && |v.a| == Prod(v.n, 0)
    ensures forall i :: 0 <= i < |v.a| ==> HasType(v.a[i], elem)
  {}

  lemma BelowNested(exps: seq<Exp>, lv: Path, d: nat)
    requires Below(lv, d)
    ensures Below(Nested(exps, lv, d), d + 1)
  {}
}
