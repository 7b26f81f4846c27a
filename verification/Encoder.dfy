/** The emitted encoder writes exactly the encoding of the value it is given. */
module Encoder {
  import opened Wire
  import opened Types
  import opened Memory
  import opened Codegen
  import opened LoopNests
  import opened ArrayWalk
  import opened Blocks

  /** A complete value in valid memory. */
  ghost predicate Holds(c: Core, t: Type, v: Value, at: Place) {
    HasType(v, t) && Live(c.live, at) && Get(c.mem, at) == [v] && BlocksOf(t, v, at) <= c.live
  }

  lemma {:induction false} FieldBlocksHas(t: Type, v: Value, at: Place, i: nat, j: nat)
    requires t.Struct? && HasType(v, t) && i < j <= |t.fields|
    ensures BlocksOf(t.fields[i].ty, v.fields[i], at + [Member(i)]) <= FieldBlocks(t, v, at, j)
  {
    if i < j - 1 { FieldBlocksHas(t, v, at, i, j - 1); }
  }

  lemma {:induction false} ElemBlocksHas(exps: seq<Exp>, elem: Type, a: seq<Value>, at: Place, i: nat, k: nat)
    requires forall j :: 0 <= j < |a| ==> HasType(a[j], elem)
    requires i < k <= |a|
    ensures BlocksOf(elem, a[i], at + [ElemLoc(exps, i)]) <= ElemBlocks(exps, elem, a, at, k)
  {
    if i < k - 1 { ElemBlocksHas(exps, elem, a, at, i, k - 1); }
  }

  lemma HoldsField(c: Core, t: Type, v: Value, at: Place, i: nat)
    requires t.Struct? && Holds(c, t, v, at) && i < |t.fields|
    ensures v.Rec? && |v.fields| == |t.fields| && Holds(c, t.fields[i].ty, v.fields[i], at + [Member(i)])
  {
    hide FieldBlocks, Live, Get;
    FieldTyped(t, v, i);
    FieldBlocksHas(t, v, at, i, |t.fields|);
    GetAppend(c.mem, at, Member(i));
    LiveAppend(c.live, at, Member(i));
  }

  lemma HoldsArray(c: Core, exps: seq<Exp>, elem: Type, v: Value, at: Place)
    requires Holds(c, Array(exps, elem), v, at)
    ensures v.Arr? && DimsFit(exps, v.n) && |v.a| == Prod(v.n, 0) && ArrayAt(c, at, v.n)
    ensures forall i :: 0 <= i < |v.a| ==> HasType(v.a[i], elem)
    ensures HasType(v, Array(exps, elem))
  {}

  lemma HoldsElem(c: Core, exps: seq<Exp>, elem: Type, v: Value, at: Place, i: nat)
    requires Holds(c, Array(exps, elem), v, at) && v.Arr? && i < |v.a|
    ensures Holds(c, elem, v.a[i], at + [ElemLoc(exps, i)])
  {
    hide ElemBlocks, Live, Get, Prod;
    ArrayTyped(exps, elem, v);
    ElemBlocksHas(exps, elem, v.a, at, i, |v.a|);
    GetAppend(c.mem, at, ElemLoc(exps, i));
    LiveAppend(c.live, at, ElemLoc(exps, i));
  }

  lemma HoldsElsewhere(c: Core, c': Core, t: Type, v: Value, at: Place)
    requires Holds(c, t, v, at) && c.mem == c'.mem && c.live == c'.live
    ensures Holds(c', t, v, at)
  {}

  lemma {:induction false} CStringWhole(s: seq<byte>)
    requires 0 !in s
    ensures CString(s) == s
  {
    if s != [] {
      CStringWhole(s[1..]);
      assert [s[0]] + s[1..] == s;
    }
  }

  ghost function Wrote(c: Core, bytes: seq<byte>): Core {
    c.(output := c.output + bytes)
  }

  lemma WroteTwice(c: Core, a: seq<byte>, b: seq<byte>)
    ensures Wrote(Wrote(c, a), b) == Wrote(c, a + b)
  {
    assert (c.output + a) + b == c.output + (a + b);
  }

  lemma WroteNothing(c: Core)
    ensures Wrote(c, []) == c
  {
    assert c.output + [] == c.output;
  }

  lemma {:induction false} EncoderCorrect(t: Type, lv: Path, d: nat, rt: RefTables, env: Env, c: Core, v: Value)
    requires Holds(c, t, v, Eval(lv, env)) && Below(lv, d)
    ensures HasType(v, t)
    ensures Reaches(Exec(EmitEncoder(t, lv, d), rt, env, c), env, d, Wrote(c, Enc(t, v, rt.toWire)))
    decreases t, 1, 0
  {
    hide Exec, EncFields, EncElems, EncLimits, Get, Live, Eval, OverElements, EmitWriteLimits, EmitFieldEncoders, Below, Wrote, Reaches;
    match t
    case Void =>
      WroteNothing(c);
      ExecSkip(rt, env, c);
      Reach(env, env, d, c);
    case Prim(p) => EncodePrim(p, lv, d, rt, env, c, v);
    case User(_, decl) => EncoderCorrect(decl, lv, d, rt, env, c, v);
    case Struct(_) => EncodeFields(t, lv, d, rt, env, env, c, v, 0);
    case Array(_, _) => EncodeArray(t, lv, d, rt, env, c, v);
  }

  lemma EncodePrim(p: Prim, lv: Path, d: nat, rt: RefTables, env: Env, c: Core, v: Value)
    requires Holds(c, Prim(p), v, Eval(lv, env))
    ensures Reaches(Exec(WritePrim(p, lv), rt, env, c), env, d, Wrote(c, Enc(Prim(p), v, rt.toWire)))
  {
    if p.String? { CStringWhole(v.chars); }
  }

  // ---------------------------------------------------------------------- structs

  lemma {:induction false} EncodeFields(t: Type, lv: Path, d: nat, rt: RefTables, outer: Env, env: Env, c: Core,
                                        v: Value, i: nat)
    requires t.Struct? && Holds(c, t, v, Eval(lv, outer)) && Below(lv, d) && i <= |t.fields| && Same(outer, env, d)
    ensures HasType(v, t)
    ensures Reaches(Exec(EmitFieldEncoders(t, lv, d, i), rt, env, c), outer, d, Wrote(c, EncFields(t, v, rt.toWire, i)))
    decreases t, 0, |t.fields| - i
  {
    hide *;
    var at := Eval(lv, outer);
    HoldsTyped(c, t, v, at);
    UnfoldFieldEncoders(t, lv, d, v, rt, i);
    if i == |t.fields| {
      ExecSkip(rt, env, c);
      WroteNothing(c);
      Reach(outer, env, d, c);
    } else {
      var (ty, code) := (t.fields[i].ty, EmitEncoder(t.fields[i].ty, lv + [Dot(i)], d));
      HoldsField(c, t, v, at, i);
      EvalSame(lv, outer, env, d);
      EvalAppend(lv, Dot(i), env);
      MemberLoc(i, env);
      BelowMember(lv, d, i);
      EncoderCorrect(ty, lv + [Dot(i)], d, rt, env, c, v.fields[i]);
      var c1 := Wrote(c, Enc(ty, v.fields[i], rt.toWire));
      ExecSeq(code, EmitFieldEncoders(t, lv, d, i + 1), rt, env, c);
      var r := Exec(code, rt, env, c);
      Reached(r, env, d, c1);
      SameTrans(outer, env, r.env, d, 0, 0);
      WroteElsewhere(c, Enc(ty, v.fields[i], rt.toWire));
      HoldsElsewhere(c, c1, t, v, at);
      EncodeFields(t, lv, d, rt, outer, r.env, c1, v, i + 1);
      WroteTwice(c, Enc(ty, v.fields[i], rt.toWire), EncFields(t, v, rt.toWire, i + 1));
    }
  }

  lemma HoldsTyped(c: Core, t: Type, v: Value, at: Place)
    requires Holds(c, t, v, at)
    ensures HasType(v, t)
  {}

  lemma MemberLoc(i: nat, env: Env)
    ensures Resolve(Dot(i), env) == Member(i)
  {}

  lemma WroteElsewhere(c: Core, bytes: seq<byte>)
    ensures Wrote(c, bytes).mem == c.mem && Wrote(c, bytes).live == c.live
  {}

  lemma UnfoldFieldEncoders(t: Type, lv: Path, d: nat, v: Value, rt: RefTables, i: nat)
    requires t.Struct? && i <= |t.fields| && HasType(v, t)
    ensures i == |t.fields| ==> EmitFieldEncoders(t, lv, d, i) == Skip && EncFields(t, v, rt.toWire, i) == []
    ensures i < |t.fields| ==>
            && EmitFieldEncoders(t, lv, d, i)
               == Seq(EmitEncoder(t.fields[i].ty, lv + [Dot(i)], d), EmitFieldEncoders(t, lv, d, i + 1))
            && EncFields(t, v, rt.toWire, i) == Enc(t.fields[i].ty, v.fields[i], rt.toWire) + EncFields(t, v, rt.toWire, i + 1)
  {}

  // ----------------------------------------------------------------------- arrays

  lemma {:induction false} EncodeLimits(exps: seq<Exp>, lv: Path, rt: RefTables, env: Env, c: Core, n: seq<nat>, i: nat)
    requires DimsFit(exps, n) && i <= |n| && ArrayAt(c, Eval(lv, env), n)
    ensures |exps| == |n|
    ensures Exec(EmitWriteLimits(exps, lv, i), rt, env, c) == Run(env, Wrote(c, EncLimits(exps, n, i)))
    decreases |n| - i
  {
    hide *;
    SameLength(exps, n);
    UnfoldWriteLimits(exps, lv, n, i);
    if i == |n| {
      ExecSkip(rt, env, c);
      WroteNothing(c);
    } else {
      var here := if exps[i].Variable? then Pack(n[i]) else [];
      var s := if exps[i].Variable? then WriteLimit(lv, i) else Skip;
      EncodeLimit(exps, lv, rt, env, c, n, i);
      ExecSeq(s, EmitWriteLimits(exps, lv, i + 1), rt, env, c);
      WroteElsewhere(c, here);
      ArrayElsewhere(c, Wrote(c, here), Eval(lv, env), n);
      EncodeLimits(exps, lv, rt, env, Wrote(c, here), n, i + 1);
      WroteTwice(c, here, EncLimits(exps, n, i + 1));
    }
  }

  lemma ArrayElsewhere(c: Core, c': Core, at: Place, n: seq<nat>)
    requires ArrayAt(c, at, n) && c.mem == c'.mem && c.live == c'.live
    ensures ArrayAt(c', at, n)
  {}

  lemma EncodeLimit(exps: seq<Exp>, lv: Path, rt: RefTables, env: Env, c: Core, n: seq<nat>, i: nat)
    requires DimsFit(exps, n) && i < |n| && ArrayAt(c, Eval(lv, env), n)
    ensures Exec(if exps[i].Variable? then WriteLimit(lv, i) else Skip, rt, env, c)
            == Run(env, Wrote(c, if exps[i].Variable? then Pack(n[i]) else []))
  {
    if exps[i].Literal? { WroteNothing(c); }
  }

  lemma UnfoldWriteLimits(exps: seq<Exp>, lv: Path, n: seq<nat>, i: nat)
    requires |exps| == |n| && i <= |n|
    ensures i == |n| ==> EmitWriteLimits(exps, lv, i) == Skip && EncLimits(exps, n, i) == []
    ensures i < |n| ==>
            && EmitWriteLimits(exps, lv, i)
               == Seq(if exps[i].Variable? then WriteLimit(lv, i) else Skip, EmitWriteLimits(exps, lv, i + 1))
            && EncLimits(exps, n, i) == (if exps[i].Variable? then Pack(n[i]) else []) + EncLimits(exps, n, i + 1)
  {}

  /** The encodings of the first k elements. */
  ghost function EncPrefix(elem: Type, a: seq<Value>, rt: RefTables, k: nat): seq<byte>
    requires forall i :: 0 <= i < |a| ==> HasType(a[i], elem)
  {
    if k == 0 || k > |a| then [] else EncPrefix(elem, a, rt, k - 1) + Enc(elem, a[k - 1], rt.toWire)
  }

  lemma {:induction false} EncPrefixSplits(elem: Type, a: seq<Value>, rt: RefTables, k: nat)
    requires forall i :: 0 <= i < |a| ==> HasType(a[i], elem)
    requires k <= |a|
    ensures EncElems(elem, a, rt.toWire, 0) == EncPrefix(elem, a, rt, k) + EncElems(elem, a, rt.toWire, k)
  {
    hide Enc;
    if k > 0 {
      EncPrefixSplits(elem, a, rt, k - 1);
      assert EncElems(elem, a, rt.toWire, k - 1) == Enc(elem, a[k - 1], rt.toWire) + EncElems(elem, a, rt.toWire, k);
      assert EncPrefix(elem, a, rt, k - 1) + (Enc(elem, a[k - 1], rt.toWire) + EncElems(elem, a, rt.toWire, k))
          == (EncPrefix(elem, a, rt, k - 1) + Enc(elem, a[k - 1], rt.toWire)) + EncElems(elem, a, rt.toWire, k);
    }
  }

  lemma {:induction false} EncodeElement(t: Type, lv: Path, d: nat, rt: RefTables, env: Env, c: Core, v: Value,
                                         cs: nat -> Core, e: Env, off: nat)
    requires t.Array? && Below(lv, d) && Holds(c, t, v, Eval(lv, env)) && v.Arr?
    requires forall i :: 0 <= i < |v.a| ==> HasType(v.a[i], t.elem)
    requires forall k: nat :: cs(k) == Wrote(c, EncPrefix(t.elem, v.a, rt, k))
    requires off < |v.a| && AtElement(t.exps, lv, d, env, e, off)
    ensures ElementStep(EmitEncoder(t.elem, Nested(t.exps, lv, d), d + 1), rt, e, cs, off, d)
    decreases t, 0, 0
  {
    hide Exec, Enc, HasType, Live, Get, Same, Below, Eval, Nested, EmitEncoder, Holds, Wrote;
    var at := Eval(lv, env);
    HoldsElem(c, t.exps, t.elem, v, at, off);
    WroteElsewhere(c, EncPrefix(t.elem, v.a, rt, off));
    HoldsElsewhere(c, cs(off), t.elem, v.a[off], at + [ElemLoc(t.exps, off)]);
    BelowNested(t.exps, lv, d);
    EncoderCorrect(t.elem, Nested(t.exps, lv, d), d + 1, rt, e, cs(off), v.a[off]);
    WroteTwice(c, EncPrefix(t.elem, v.a, rt, off), Enc(t.elem, v.a[off], rt.toWire));
  }

  lemma {:induction false} EncodeArray(t: Type, lv: Path, d: nat, rt: RefTables, env: Env, c: Core, v: Value)
    requires t.Array? && Below(lv, d) && Holds(c, t, v, Eval(lv, env))
    ensures HasType(v, t)
    ensures Reaches(Exec(EmitEncoder(t, lv, d), rt, env, c), env, d, Wrote(c, Enc(t, v, rt.toWire)))
    decreases t, 0, 1
  {
    hide Exec, Enc, EncElems, HasType, Live, Get, Same, Below, Eval, Nested, OverElements, ElementStep, AtElement, Prod,
         ArrayAt, EmitWriteLimits, Wrote, Holds, EncPrefix, EncLimits;
    var at := Eval(lv, env);
    var (exps, elem) := (t.exps, t.elem);
    HoldsArray(c, exps, elem, v, at);
    SameLength(exps, v.n);
    EncodeLimits(exps, lv, rt, env, c, v.n, 0);
    var lims := EncLimits(exps, v.n, 0);
    var c1 := Wrote(c, lims);
    WroteElsewhere(c, lims);
    HoldsElsewhere(c, c1, t, v, at);
    HoldsArray(c1, exps, elem, v, at);
    var cs := (k: nat) => Wrote(c1, EncPrefix(elem, v.a, rt, k));
    var code := EmitEncoder(elem, Nested(exps, lv, d), d + 1);
    forall off: nat | off <= Prod(v.n, 0) ensures ArrayAt(cs(off), at, v.n) {
      WroteElsewhere(c1, EncPrefix(elem, v.a, rt, off));
      ArrayElsewhere(c1, cs(off), at, v.n);
    }
    forall e: Env, off: nat | off < Prod(v.n, 0) && AtElement(exps, lv, d, env, e, off)
      ensures ElementStep(code, rt, e, cs, off, d)
    {
      EncodeElement(t, lv, d, rt, env, c1, v, cs, e, off);
    }
    WalkElements(exps, lv, d, code, rt, env, cs, v.n);
    PrefixEnds(exps, elem, v, rt);
    WroteNothing(c1);
    WroteTwice(c, lims, EncElems(elem, v.a, rt.toWire, 0));
    ExecSeq(EmitWriteLimits(exps, lv, 0), OverElements(exps, lv, d, code), rt, env, c);
  }

  lemma PrefixEnds(exps: seq<Exp>, elem: Type, v: Value, rt: RefTables)
    requires HasType(v, Array(exps, elem)) && v.Arr? && forall i :: 0 <= i < |v.a| ==> HasType(v.a[i], elem)
    ensures EncPrefix(elem, v.a, rt, 0) == []
    ensures EncPrefix(elem, v.a, rt, |v.a|) == EncElems(elem, v.a, rt.toWire, 0)
    ensures |exps| == |v.n|
    ensures Enc(Array(exps, elem), v, rt.toWire) == EncLimits(exps, v.n, 0) + EncElems(elem, v.a, rt.toWire, 0)
  {
    EncPrefixSplits(elem, v.a, rt, |v.a|);
    assert EncElems(elem, v.a, rt.toWire, |v.a|) == [];
  }
}
