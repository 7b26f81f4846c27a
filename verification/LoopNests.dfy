/** What the emitted loop nests do, for any number of dimensions: they take the
  * loop body through the linear indices 0, 1, ..., product-1, in that order.
  */
module LoopNests {
  import opened Types
  import opened Memory
  import opened Codegen

  /** The variables an enclosing scope may look at keep their values. */
  ghost predicate Same(a: Env, b: Env, d: nat) {
    forall x: Var :: x.depth < d ==> Val(a, x) == Val(b, x)
  }

  lemma Reflexive(env: Env, d: nat)
    ensures Same(env, env, d)
  {}

  /** So do the loop variables of depth d below dimension k. */
  ghost predicate SameLoops(a: Env, b: Env, d: nat, k: nat) {
    forall j: nat :: j < k ==> Val(a, Loop(d, j)) == Val(b, Loop(d, j))
  }

  lemma SameTrans(a: Env, b: Env, c: Env, d: nat, j: nat, k: nat)
    requires Same(a, b, d) && Same(b, c, d) && j <= k
    requires j == 0 || (SameLoops(a, b, d, j) && SameLoops(b, c, d, k))
    ensures Same(a, c, d) && SameLoops(a, c, d, j)
  {}

  /** The body, run at linear index `off`, takes state cs(off) to cs(off + 1). */
  ghost predicate BodyStep(body: Stmt, rt: RefTables, env: Env, cs: nat -> Core, off: nat, d: nat, k: nat) {
    var r := Exec(body, rt, env, cs(off));
    r.Run? && r.core == cs(off + 1) && Same(env, r.env, d) && SameLoops(env, r.env, d, k)
  }

  ghost predicate BodySteps(body: Stmt, rt: RefTables, outer: Env, cs: nat -> Core, dims: seq<nat>, d: nat) {
    forall e: Env :: Same(outer, e, d) && Horner(e, d, dims, |dims|) < Prod(dims, 0)
      ==> BodyStep(body, rt, e, cs, Horner(e, d, dims, |dims|), d, |dims|)
  }

  /** In every state of the loop the limits have the values dims. */
  ghost predicate LimitsHold(limits: seq<Limit>, outer: Env, cs: nat -> Core, dims: seq<nat>, d: nat) {
    && |limits| == |dims|
    && forall e: Env, off: nat, j: nat | Same(outer, e, d) && off <= Prod(dims, 0) && j < |dims| ::
         EvalLimit(limits[j], e, cs(off)) == [dims[j]]
  }

  /** base + i * q */
  ghost function Row(base: nat, q: nat, i: nat): nat {
    if i == 0 then base else Row(base, q, i - 1) + q
  }

  lemma {:induction false} RowEnd(base: nat, q: nat, i: nat, n: nat)
    requires i <= n
    ensures Row(base, q, n) == base + n * q
    ensures i < n ==> Row(base, q, i) + q <= Row(base, q, n)
    ensures Row(base, q, i) <= Row(base, q, n)
  {
    if n > 0 {
      RowEnd(base, q, if i < n then i else i - 1, n - 1);
      assert n * q == (n - 1) * q + q;
    }
  }

  lemma LastRow(base: nat, dims: seq<nat>, k: nat, i: nat)
    requires k < |dims| && i <= dims[k]
    ensures var q := Prod(dims, k + 1);
            && Row(base, q, 0) == base && Row(base, q, i + 1) == Row(base, q, i) + q
            && Row(base, q, dims[k]) == base + Prod(dims, k)
            && Row(base, q, i) <= base + Prod(dims, k)
            && (i < dims[k] ==> Row(base, q, i) + q <= base + Prod(dims, k))
  {
    RowEnd(base, Prod(dims, k + 1), i, dims[k]);
  }

  /** The linear index of the first element the loops from dimension k on visit. */
  ghost function Start(env: Env, d: nat, dims: seq<nat>, k: nat): nat
    requires k <= |dims|
  {
    if k == 0 then 0
    else Row(Start(env, d, dims, k - 1), Prod(dims, k), Val(env, Loop(d, k - 1)))
  }

  lemma {:induction false} StartSame(a: Env, b: Env, d: nat, dims: seq<nat>, k: nat)
    requires k <= |dims| && SameLoops(a, b, d, k)
    ensures Start(a, d, dims, k) == Start(b, d, dims, k)
  {
    if k > 0 { StartSame(a, b, d, dims, k - 1); }
  }

  lemma Regroup(h: nat, n: nat, p: nat, i: nat)
    ensures h * (n * p) + i * p == (h * n + i) * p
  {
    assert h * (n * p) == (h * n) * p;
    var hn := h * n;
    assert (hn + i) * p == hn * p + i * p;
  }

  /** The Horner expression the compiler emits is the row-major position. */
  lemma {:induction false} StartIsHorner(env: Env, d: nat, dims: seq<nat>, k: nat)
    requires k <= |dims|
    ensures Start(env, d, dims, k) == Horner(env, d, dims, k) * Prod(dims, k)
  {
    if k > 0 {
      StartIsHorner(env, d, dims, k - 1);
      var h, n, p, i := Horner(env, d, dims, k - 1), dims[k - 1], Prod(dims, k), Val(env, Loop(d, k - 1));
      RowEnd(h * (n * p), p, 0, i);
      Regroup(h, n, p, i);
    }
  }

  lemma AssignLoop(env: Env, d: nat, k: nat, i: nat, dims: seq<nat>)
    requires k < |dims|
    ensures var at := env[Loop(d, k) := i];
            && Same(env, at, d) && SameLoops(env, at, d, k) && SameLoops(env, at, d, 0)
            && Val(at, Loop(d, k)) == i
            && Start(at, d, dims, k + 1) == Row(Start(env, d, dims, k), Prod(dims, k + 1), i)
  {
    StartSame(env, env[Loop(d, k) := i], d, dims, k);
  }

  lemma SameVal(a: Env, b: Env, d: nat, k: nat)
    requires SameLoops(a, b, d, k + 1)
    ensures Val(a, Loop(d, k)) == Val(b, Loop(d, k))
  {}

  lemma LimitAt(limits: seq<Limit>, outer: Env, e: Env, cs: nat -> Core, dims: seq<nat>, d: nat, off: nat, j: nat)
    requires LimitsHold(limits, outer, cs, dims, d)
    requires Same(outer, e, d) && off <= Prod(dims, 0) && j < |dims|
    ensures |limits| == |dims| && EvalLimit(limits[j], e, cs(off)) == [dims[j]]
  {}

  lemma StartAtEnd(env: Env, d: nat, dims: seq<nat>)
    ensures Start(env, d, dims, |dims|) == Horner(env, d, dims, |dims|)
  {
    StartIsHorner(env, d, dims, |dims|);
  }

  lemma BodyAt(body: Stmt, rt: RefTables, outer: Env, e: Env, cs: nat -> Core, dims: seq<nat>, d: nat)
    requires BodySteps(body, rt, outer, cs, dims, d)
    requires Same(outer, e, d) && Start(e, d, dims, |dims|) < Prod(dims, 0)
    ensures BodyStep(body, rt, e, cs, Start(e, d, dims, |dims|), d, |dims|)
  {
    hide Exec, BodyStep, Start, Prod, Horner;
    StartAtEnd(e, d, dims);
  }

  lemma NestEnds(limits: seq<Limit>, d: nat, body: Stmt, rt: RefTables,
                 outer: Env, env: Env, cs: nat -> Core, dims: seq<nat>)
    requires LimitsHold(limits, outer, cs, dims, d) && BodySteps(body, rt, outer, cs, dims, d)
    requires Same(outer, env, d) && Start(env, d, dims, |dims|) + Prod(dims, |dims|) <= Prod(dims, 0)
    ensures Prod(dims, |dims|) == 1
    ensures var base := Start(env, d, dims, |dims|);
            var r := Exec(LoopNest(limits, d, |dims|, body), rt, env, cs(base));
            r.Run? && r.core == cs(base + 1) && Same(env, r.env, d) && SameLoops(env, r.env, d, |dims|)
  {
    hide BodySteps, Exec, Same, SameLoops, Start;
    assert LoopNest(limits, d, |dims|, body) == body;
    BodyAt(body, rt, outer, env, cs, dims, d);
  }

  lemma ExecFor(limits: seq<Limit>, d: nat, k: nat, body: Stmt, rt: RefTables, env: Env, c: Core, n: nat)
    requires k < |limits| && EvalLimit(limits[k], env, c) == [n]
    ensures var s := LoopNest(limits, d, k, body);
            && s == For(Loop(d, k), limits[k], LoopNest(limits, d, k + 1, body))
            && Exec(s, rt, env, c) == Iterate(s, 0, n, rt, env, c)
  {}

  /** One turn of a for loop. */
  lemma Turn(s: Stmt, i: nat, n: nat, rt: RefTables, env: Env, c: Core)
    requires s.For? && i <= n && EvalLimit(s.limit, env[s.x := i], c) == [n]
    ensures i == n ==> Iterate(s, i, n, rt, env, c) == Run(env[s.x := i], c)
    ensures var r := Exec(s.body, rt, env[s.x := i], c);
            i < n && r.Run? && Val(r.env, s.x) == i
            ==> Iterate(s, i, n, rt, env, c) == Iterate(s, i + 1, n, rt, r.env, r.core)
  {}

  /** The loops from dimension k on cover one block of Prod(dims, k) consecutive
    * linear indices.
    */
  lemma {:induction false} NestRuns(limits: seq<Limit>, d: nat, k: nat, body: Stmt, rt: RefTables,
                                    outer: Env, env: Env, cs: nat -> Core, dims: seq<nat>)
    requires LimitsHold(limits, outer, cs, dims, d) && BodySteps(body, rt, outer, cs, dims, d)
    requires k <= |dims| && Same(outer, env, d)
    requires Start(env, d, dims, k) + Prod(dims, k) <= Prod(dims, 0)
    ensures var base := Start(env, d, dims, k);
            var r := Exec(LoopNest(limits, d, k, body), rt, env, cs(base));
            r.Run? && r.core == cs(base + Prod(dims, k)) && Same(env, r.env, d) && SameLoops(env, r.env, d, k)
    decreases |dims| - k, 1, 0
  {
    hide *;
    if k == |dims| {
      NestEnds(limits, d, body, rt, outer, env, cs, dims);
    } else {
      var base := Start(env, d, dims, k);
      LimitAt(limits, outer, env, cs, dims, d, base, k);
      ExecFor(limits, d, k, body, rt, env, cs(base), dims[k]);
      LastRow(base, dims, k, 0);
      LoopRuns(limits, d, k, body, rt, outer, env, cs, dims, base, 0);
    }
  }

  lemma {:induction false} LoopRuns(limits: seq<Limit>, d: nat, k: nat, body: Stmt, rt: RefTables,
                                    outer: Env, env: Env, cs: nat -> Core, dims: seq<nat>, base: nat, i: nat)
    requires LimitsHold(limits, outer, cs, dims, d) && BodySteps(body, rt, outer, cs, dims, d)
    requires k < |dims| && Same(outer, env, d) && i <= dims[k]
    requires base == Start(env, d, dims, k) && base + Prod(dims, k) <= Prod(dims, 0)
    ensures var r := Iterate(LoopNest(limits, d, k, body), i, dims[k], rt, env, cs(Row(base, Prod(dims, k + 1), i)));
            r.Run? && r.core == cs(base + Prod(dims, k)) && Same(env, r.env, d) && SameLoops(env, r.env, d, k)
    decreases |dims| - k, 0, dims[k] - i
  {
    hide *;
    var n, q := dims[k], Prod(dims, k + 1);
    var at := env[Loop(d, k) := i];
    AssignLoop(env, d, k, i, dims);
    SameTrans(outer, env, at, d, 0, 0);
    LastRow(base, dims, k, i);
    var here := Row(base, q, i);
    LimitAt(limits, outer, at, cs, dims, d, here, k);
    ExecFor(limits, d, k, body, rt, at, cs(here), n);
    var s := LoopNest(limits, d, k, body);
    Turn(s, i, n, rt, env, cs(here));
    if i < n {
      NestRuns(limits, d, k + 1, body, rt, outer, at, cs, dims);
      var r := Exec(s.body, rt, at, cs(here));
      assert r.core == cs(Row(base, q, i + 1));
      SameVal(at, r.env, d, k);
      SameTrans(env, at, r.env, d, k, k + 1);
      SameTrans(outer, at, r.env, d, 0, 0);
      StartSame(env, r.env, d, dims, k);
      LoopRuns(limits, d, k, body, rt, outer, r.env, cs, dims, base, i + 1);
      var end := Iterate(s, i + 1, n, rt, r.env, r.core);
      SameTrans(env, r.env, end.env, d, k, k);
    }
  }

  /** A complete nest: every element once, in memory order. */
  lemma NestVisitsAll(limits: seq<Limit>, d: nat, body: Stmt, rt: RefTables,
                      env: Env, cs: nat -> Core, dims: seq<nat>)
    requires LimitsHold(limits, env, cs, dims, d) && BodySteps(body, rt, env, cs, dims, d)
    ensures var r := Exec(LoopNest(limits, d, 0, body), rt, env, cs(0));
            r.Run? && r.core == cs(Prod(dims, 0)) && Same(env, r.env, d)
  {
    hide *;
    StartZero(env, d, dims);
    NestRuns(limits, d, 0, body, rt, env, env, cs, dims);
  }

  lemma StartZero(env: Env, d: nat, dims: seq<nat>)
    ensures Start(env, d, dims, 0) == 0 && Same(env, env, d)
  {}
}
