/** The emitted decoder rebuilds the value that was encoded, consumes exactly
  * its bytes, and allocates exactly its blocks.
  */
module Decoder {
  import opened Wire
  import opened Types
  import opened Memory
  import opened Codegen
  import opened LoopNests
  import opened ArrayWalk
  import opened Blocks

  /** The state after decoding v at `at`. */
  ghost function Decoded(c: Core, t: Type, v: Value, at: Place, rt: RefTables, rest: seq<byte>): Core
    requires HasType(v, t) && Get(c.mem, at) != []
  {
    c.(mem := Put(c.mem, at, Carried(v, rt)), live := c.live + BlocksOf(t, v, at), input := rest)
  }

  /** What the decoder needs at `at`: reachable, uninitialised memory. */
  ghost predicate ReadyFor(c: Core, t: Type, at: Place) {
    Live(c.live, at) && Get(c.mem, at) == [Blank(t)] && Fresh(c.live, at)
  }

  lemma {:induction false} DecoderCorrect(t: Type, lv: Path, d: nat, rx: RefTables, rt: RefTables, env: Env, c: Core,
                                          v: Value, rest: seq<byte>)
    requires rx.fromWire == rt.fromWire
    requires HasType(v, t) && Below(lv, d) && ReadyFor(c, t, Eval(lv, env))
    requires c.input == Enc(t, v, rt.toWire) + rest
    ensures Reaches(Exec(EmitDecoder(t, lv, d), rx, env, c), env, d, Decoded(c, t, v, Eval(lv, env), rt, rest))
    decreases t, 1, 0
  {
    match t
    case Void => DecodeVoid(lv, d, rx, rt, env, c, v, rest);
    case Prim(p) => DecodePrim(p, lv, d, rx, rt, env, c, v, rest);
    case User(_, decl) => DecoderCorrect(decl, lv, d, rx, rt, env, c, v, rest);
    case Struct(_) => DecodeStruct(t, lv, d, rx, rt, env, c, v, rest);
    case Array(_, _) => DecodeArray(t, lv, d, rx, rt, env, c, v, rest);
  }

  lemma DecodeVoid(lv: Path, d: nat, rx: RefTables, rt: RefTables, env: Env, c: Core, v: Value, rest: seq<byte>)
    requires rx.fromWire == rt.fromWire
    requires HasType(v, Void) && ReadyFor(c, Void, Eval(lv, env)) && c.input == Enc(Void, v, rt.toWire) + rest
    ensures Reaches(Exec(Skip, rx, env, c), env, d, Decoded(c, Void, v, Eval(lv, env), rt, rest))
  {
    PutGet(c.mem, Eval(lv, env));
    assert Carried(v, rt) == Blank(Void);
    assert c.live + {} == c.live && c.input == rest;
  }

  lemma DecodePrim(p: Prim, lv: Path, d: nat, rx: RefTables, rt: RefTables, env: Env, c: Core, v: Value, rest: seq<byte>)
    requires rx.fromWire == rt.fromWire
    requires HasType(v, Prim(p)) && ReadyFor(c, Prim(p), Eval(lv, env)) && c.input == Enc(Prim(p), v, rt.toWire) + rest
    ensures Reaches(Exec(ReadPrim(p, lv), rx, env, c), env, d, Decoded(c, Prim(p), v, Eval(lv, env), rt, rest))
  {
    hide Put, Get, Live, ReadInt, PackString, FromWord, Reverse;
    var at := Eval(lv, env);
    ReadyFresh(c, Prim(p), at);
    match p
    case String => ReadIntRoundTrip(v.chars, rest);
    case Sample =>
      TakeAll(Word(ToWire(rt.toWire, v.sample)), rest);
      WordRoundTrip(ToWire(rt.toWire, v.sample));
      assert c.live + {} == c.live;
    case _ =>
      TakeAll(Reverse(v.image), rest);
      ReverseTwice(v.image);
      assert c.live + {} == c.live;
  }

  // ---------------------------------------------------------------------- structs

  /** The record with its first i fields decoded. */
  ghost function PartRec(t: Type, v: Value, rt: RefTables, i: nat): Value
    requires t.Struct? && HasType(v, t)
  {
    Rec(seq(|t.fields|, j requires 0 <= j < |t.fields| =>
      if j < i then Carried(v.fields[j], rt) else Blank(t.fields[j].ty)))
  }

  ghost function FieldState(c: Core, t: Type, v: Value, at: Place, rt: RefTables, rest: seq<byte>, i: nat): Core
    requires t.Struct? && HasType(v, t) && i <= |t.fields| && Get(c.mem, at) != []
  {
    c.(mem := Put(c.mem, at, PartRec(t, v, rt, i)), live := c.live + FieldBlocks(t, v, at, i),
       input := EncFields(t, v, rt.toWire, i) + rest)
  }

  lemma FieldReady(c: Core, t: Type, v: Value, at: Place, rt: RefTables, rest: seq<byte>, i: nat)
    requires t.Struct? && HasType(v, t) && i < |t.fields|
    requires Get(c.mem, at) != [] && Live(c.live, at) && Fresh(c.live, at)
    ensures ReadyFor(FieldState(c, t, v, at, rt, rest, i), t.fields[i].ty, at + [Member(i)])
    ensures FieldState(c, t, v, at, rt, rest, i).input
            == Enc(t.fields[i].ty, v.fields[i], rt.toWire) + (EncFields(t, v, rt.toWire, i + 1) + rest)
  {
    hide Enc, EncFields, BlocksOf, FieldBlocks, Carried, Blank, HasType, Get, Put, Live, Fresh, PartRec;
    var s := FieldState(c, t, v, at, rt, rest, i);
    FieldBlank(c, t, v, at, rt, i);
    LiveDependsOnShorter(c.live, s.live, at);
    LiveAppend(s.live, at, Member(i));
    FreshField(c.live, t, v, at, i);
    UnfoldEncFields(t, v, rt, i);
  }

  lemma FieldBlank(c: Core, t: Type, v: Value, at: Place, rt: RefTables, i: nat)
    requires t.Struct? && HasType(v, t) && i < |t.fields| && Get(c.mem, at) != []
    ensures Get(Put(c.mem, at, PartRec(t, v, rt, i)), at + [Member(i)]) == [Blank(t.fields[i].ty)]
  {
    hide Carried, Blank;
    GetPut(c.mem, at, PartRec(t, v, rt, i));
    GetAppend(Put(c.mem, at, PartRec(t, v, rt, i)), at, Member(i));
  }

  lemma UnfoldEncFields(t: Type, v: Value, rt: RefTables, i: nat)
    requires t.Struct? && HasType(v, t) && i < |t.fields|
    ensures v.Rec? && |v.fields| == |t.fields| && HasType(v.fields[i], t.fields[i].ty)
    ensures EncFields(t, v, rt.toWire, i) == Enc(t.fields[i].ty, v.fields[i], rt.toWire) + EncFields(t, v, rt.toWire, i + 1)
  {}

  lemma FieldDone(c: Core, t: Type, v: Value, at: Place, rt: RefTables, rest: seq<byte>, i: nat)
    requires t.Struct? && HasType(v, t) && i < |t.fields| && Get(c.mem, at) != []
    requires Get(FieldState(c, t, v, at, rt, rest, i).mem, at + [Member(i)]) != []
    ensures Decoded(FieldState(c, t, v, at, rt, rest, i), t.fields[i].ty, v.fields[i], at + [Member(i)], rt,
                    EncFields(t, v, rt.toWire, i + 1) + rest)
            == FieldState(c, t, v, at, rt, rest, i + 1)
  {
    hide Enc, EncFields, BlocksOf, Carried, Blank, HasType, Get, Put, PartRec;
    FieldTyped(t, v, i);
    var s := FieldState(c, t, v, at, rt, rest, i);
    var x := Carried(v.fields[i], rt);
    PutPut(c.mem, at, PartRec(t, v, rt, i), PartRec(t, v, rt, i + 1));
    PutAppend(s.mem, at, Member(i), x);
    StoreField(t, v, rt, i);
    assert FieldBlocks(t, v, at, i + 1)
        == FieldBlocks(t, v, at, i) + BlocksOf(t.fields[i].ty, v.fields[i], at + [Member(i)]);
  }

  lemma StoreField(t: Type, v: Value, rt: RefTables, i: nat)
    requires t.Struct? && HasType(v, t) && i < |t.fields|
    ensures Step(PartRec(t, v, rt, i), Member(i)) != []
    ensures Store(PartRec(t, v, rt, i), Member(i), Carried(v.fields[i], rt)) == PartRec(t, v, rt, i + 1)
  {
    hide Carried, Blank;
  }

  lemma {:induction false} DecodeFields(t: Type, lv: Path, d: nat, rx: RefTables, rt: RefTables, outer: Env, env: Env, c: Core,
                                        v: Value, rest: seq<byte>, i: nat)
    requires rx.fromWire == rt.fromWire
    requires t.Struct? && HasType(v, t) && Below(lv, d) && i <= |t.fields| && Same(outer, env, d)
    requires var at := Eval(lv, outer); Get(c.mem, at) != [] && Live(c.live, at) && Fresh(c.live, at)
    ensures var at := Eval(lv, outer);
            Reaches(Exec(EmitFieldDecoders(t, lv, d, i), rx, env, FieldState(c, t, v, at, rt, rest, i)),
                      outer, d, FieldState(c, t, v, at, rt, rest, |t.fields|))
    decreases t, 0, |t.fields| - i + 1
  {
    hide *;
    UnfoldFieldDecoders(t, lv, d, i);
    if i < |t.fields| {
      var at := Eval(lv, outer);
      var s := FieldState(c, t, v, at, rt, rest, i);
      var code := EmitDecoder(t.fields[i].ty, lv + [Dot(i)], d);
      DecodeField(t, lv, d, rx, rt, outer, env, c, v, rest, i);
      ExecSeq(code, EmitFieldDecoders(t, lv, d, i + 1), rx, env, s);
      var r := Exec(code, rx, env, s);
      Reached(r, outer, d, FieldState(c, t, v, at, rt, rest, i + 1));
      DecodeFields(t, lv, d, rx, rt, outer, r.env, c, v, rest, i + 1);
    } else {
      ExecSkip(rx, env, FieldState(c, t, v, Eval(lv, outer), rt, rest, i));
      Reach(outer, env, d, FieldState(c, t, v, Eval(lv, outer), rt, rest, i));
    }
  }

  lemma UnfoldFieldDecoders(t: Type, lv: Path, d: nat, i: nat)
    requires t.Struct? && i <= |t.fields|
    ensures EmitFieldDecoders(t, lv, d, i) ==
            if i == |t.fields| then Skip
            else Seq(EmitDecoder(t.fields[i].ty, lv + [Dot(i)], d), EmitFieldDecoders(t, lv, d, i + 1))
  {}

  lemma {:induction false} DecodeField(t: Type, lv: Path, d: nat, rx: RefTables, rt: RefTables, outer: Env, env: Env, c: Core,
                                       v: Value, rest: seq<byte>, i: nat)
    requires rx.fromWire == rt.fromWire
    requires t.Struct? && HasType(v, t) && Below(lv, d) && i < |t.fields| && Same(outer, env, d)
    requires var at := Eval(lv, outer); Get(c.mem, at) != [] && Live(c.live, at) && Fresh(c.live, at)
    ensures var at := Eval(lv, outer);
            Reaches(Exec(EmitDecoder(t.fields[i].ty, lv + [Dot(i)], d), rx, env, FieldState(c, t, v, at, rt, rest, i)),
                      outer, d, FieldState(c, t, v, at, rt, rest, i + 1))
    decreases t, 0, |t.fields| - i
  {
    hide Enc, EncFields, BlocksOf, Carried, Blank, Exec, FieldState, Decoded, ReadyFor, Get, Live, Fresh, HasType,
         EmitDecoder, Same, Eval, Below;
    var at := Eval(lv, outer);
    var s := FieldState(c, t, v, at, rt, rest, i);
    var rest' := EncFields(t, v, rt.toWire, i + 1) + rest;
    EvalSame(lv, outer, env, d);
    EvalAppend(lv, Dot(i), env);
    BelowMember(lv, d, i);
    FieldTyped(t, v, i);
    FieldReady(c, t, v, at, rt, rest, i);
    DecoderCorrect(t.fields[i].ty, lv + [Dot(i)], d, rx, rt, env, s, v.fields[i], rest');
    ReadyPlace(s, t.fields[i].ty, at + [Member(i)]);
    FieldDone(c, t, v, at, rt, rest, i);
    var r := Exec(EmitDecoder(t.fields[i].ty, lv + [Dot(i)], d), rx, env, s);
    SameTrans(outer, env, r.env, d, 0, 0);
  }

  lemma ReadyPlace(c: Core, t: Type, at: Place)
    requires ReadyFor(c, t, at)
    ensures Get(c.mem, at) != []
  {}

  lemma {:induction false} DecodeStruct(t: Type, lv: Path, d: nat, rx: RefTables, rt: RefTables, env: Env, c: Core,
                                        v: Value, rest: seq<byte>)
    requires rx.fromWire == rt.fromWire
    requires t.Struct? && HasType(v, t) && Below(lv, d) && ReadyFor(c, t, Eval(lv, env))
    requires c.input == Enc(t, v, rt.toWire) + rest
    ensures Reaches(Exec(EmitDecoder(t, lv, d), rx, env, c), env, d, Decoded(c, t, v, Eval(lv, env), rt, rest))
    decreases t, 0, |t.fields| + 2
  {
    var at := Eval(lv, env);
    DecodeFields(t, lv, d, rx, rt, env, env, c, v, rest, 0);
    FieldsBegin(c, t, v, at, rt, rest);
    FieldsEnd(c, t, v, at, rt, rest);
  }

  lemma FieldsBegin(c: Core, t: Type, v: Value, at: Place, rt: RefTables, rest: seq<byte>)
    requires t.Struct? && HasType(v, t) && Get(c.mem, at) == [Blank(t)] && c.input == Enc(t, v, rt.toWire) + rest
    ensures FieldState(c, t, v, at, rt, rest, 0) == c
  {
    PutGet(c.mem, at);
    assert PartRec(t, v, rt, 0) == Blank(t);
    assert FieldBlocks(t, v, at, 0) == {} && c.live + {} == c.live;
  }

  lemma FieldsEnd(c: Core, t: Type, v: Value, at: Place, rt: RefTables, rest: seq<byte>)
    requires t.Struct? && HasType(v, t) && Get(c.mem, at) != []
    ensures FieldState(c, t, v, at, rt, rest, |t.fields|) == Decoded(c, t, v, at, rt, rest)
  {
    assert PartRec(t, v, rt, |t.fields|) == Carried(v, rt);
    assert EncFields(t, v, rt.toWire, |t.fields|) + rest == rest;
  }

  // ----------------------------------------------------------------------- arrays

  /** Dimensions after the first i have been read. */
  ghost function PartDims(exps: seq<Exp>, n: seq<nat>, i: nat): seq<nat>
    requires |exps| == |n|
  {
    seq(|n|, j requires 0 <= j < |n| => if j < i then n[j] else LitDims(exps)[j])
  }

  ghost function LimitState(c: Core, exps: seq<Exp>, n: seq<nat>, a: seq<Value>, at: Place, rest: seq<byte>, i: nat): Core
    requires |exps| == |n| && Get(c.mem, at) != [] && i <= |n|
  {
    c.(mem := Put(c.mem, at, Arr(PartDims(exps, n, i), a)), input := EncLimits(exps, n, i) + rest)
  }

  lemma LimitStep(c: Core, exps: seq<Exp>, n: seq<nat>, a: seq<Value>, lv: Path, rx: RefTables, env: Env,
                  rest: seq<byte>, i: nat)
    requires DimsFit(exps, n) && i < |n|
    requires var at := Eval(lv, env); Get(c.mem, at) != [] && Live(c.live, at)
    ensures var at := Eval(lv, env);
            Exec(if exps[i].Variable? then ReadLimit(lv, i) else Skip, rx, env, LimitState(c, exps, n, a, at, rest, i))
            == Run(env, LimitState(c, exps, n, a, at, rest, i + 1))
  {
    hide Exec, Get, Put, Live, EncLimits, PartDims, Pack, Unpack;
    var at := Eval(lv, env);
    var s := LimitState(c, exps, n, a, at, rest, i);
    UnfoldLimits(exps, n, i);
    PutPut(c.mem, at, Arr(PartDims(exps, n, i), a), Arr(PartDims(exps, n, i + 1), a));
    if exps[i].Variable? {
      var tail := EncLimits(exps, n, i + 1) + rest;
      assert s.input == Pack(n[i]) + tail;
      PackRoundTrip(n[i], tail);
      ExecReadLimit(lv, i, rx, env, s, Arr(PartDims(exps, n, i), a), n[i], tail);
    } else {
      ExecSkip(rx, env, s);
      assert [] + EncLimits(exps, n, i + 1) == EncLimits(exps, n, i + 1);
    }
  }

  lemma UnfoldLimits(exps: seq<Exp>, n: seq<nat>, i: nat)
    requires DimsFit(exps, n) && i < |n|
    ensures |PartDims(exps, n, i)| == |n|
    ensures if exps[i].Variable? then PartDims(exps, n, i)[i := n[i]] == PartDims(exps, n, i + 1)
            else PartDims(exps, n, i) == PartDims(exps, n, i + 1)
    ensures EncLimits(exps, n, i) == (if exps[i].Variable? then Pack(n[i]) else []) + EncLimits(exps, n, i + 1)
  {
    if exps[i].Literal? { assert LitDims(exps)[i] == n[i]; }
  }

  lemma ExecReadLimit(lv: Path, i: nat, rx: RefTables, env: Env, c: Core, u: Value, k: nat, rest: seq<byte>)
    requires var at := Eval(lv, env); Live(c.live, at) && Get(c.mem, at) == [u]
    requires u.Arr? && i < |u.n| && Unpack(c.input) == Ok(k, rest)
    ensures Exec(ReadLimit(lv, i), rx, env, c)
            == Run(env, c.(mem := Put(c.mem, Eval(lv, env), Arr(u.n[i := k], u.a)), input := rest))
  {
    hide Live, Get, Unpack, Put, Eval;
  }

  lemma {:induction false} DecodeLimits(c: Core, exps: seq<Exp>, n: seq<nat>, a: seq<Value>, lv: Path, rx: RefTables,
                                        env: Env, rest: seq<byte>, i: nat)
    requires DimsFit(exps, n) && i <= |n|
    requires var at := Eval(lv, env); Get(c.mem, at) != [] && Live(c.live, at)
    ensures |exps| == |n|
    ensures var at := Eval(lv, env);
            Exec(EmitReadLimits(exps, lv, i), rx, env, LimitState(c, exps, n, a, at, rest, i))
            == Run(env, LimitState(c, exps, n, a, at, rest, |n|))
    decreases |n| - i
  {
    hide *;
    SameLength(exps, n);
    UnfoldReadLimits(exps, lv, i);
    if i == |n| {
      ExecSkip(rx, env, LimitState(c, exps, n, a, Eval(lv, env), rest, i));
    } else {
      LimitStep(c, exps, n, a, lv, rx, env, rest, i);
      ExecSeq(if exps[i].Variable? then ReadLimit(lv, i) else Skip, EmitReadLimits(exps, lv, i + 1), rx, env,
              LimitState(c, exps, n, a, Eval(lv, env), rest, i));
      DecodeLimits(c, exps, n, a, lv, rx, env, rest, i + 1);
    }
  }

  lemma UnfoldReadLimits(exps: seq<Exp>, lv: Path, i: nat)
    requires i <= |exps|
    ensures EmitReadLimits(exps, lv, i) ==
            if i == |exps| then Skip
            else Seq(if exps[i].Variable? then ReadLimit(lv, i) else Skip, EmitReadLimits(exps, lv, i + 1))
  {}

  /** The elements with the first k decoded. */
  ghost function PartElems(elem: Type, a: seq<Value>, rt: RefTables, k: nat): seq<Value> {
    seq(|a|, j requires 0 <= j < |a| => if j < k then Carried(a[j], rt) else Blank(elem))
  }

  /** The state when k elements are decoded; c is the state before the limits. */
  ghost function ElemState(c: Core, exps: seq<Exp>, elem: Type, v: Value, at: Place, rt: RefTables,
                           rest: seq<byte>, k: nat): Core
    requires HasType(v, Array(exps, elem)) && Get(c.mem, at) != []
  {
    c.(mem := Put(c.mem, at, Arr(v.n, PartElems(elem, v.a, rt, k))),
       live := c.live + (if IsVariable(exps) then {at} else {}) + ElemBlocks(exps, elem, v.a, at, k),
       input := EncElems(elem, v.a, rt.toWire, k) + rest)
  }

  /** Reading the limits and allocating leads to the state before element 0. */
  lemma LimitsAndAllocation(c: Core, exps: seq<Exp>, elem: Type, v: Value, lv: Path, rx: RefTables, rt: RefTables, env: Env,
                            rest: seq<byte>)
    requires rx.fromWire == rt.fromWire
    requires HasType(v, Array(exps, elem))
    requires var at := Eval(lv, env);
             && Get(c.mem, at) == [Blank(Array(exps, elem))] && Live(c.live, at) && at !in c.live
             && c.input == Enc(Array(exps, elem), v, rt.toWire) + rest
    ensures Exec(EmitReadLimits(exps, lv, 0), rx, env, c).Run?
    ensures var at := Eval(lv, env);
            var c1 := Exec(EmitReadLimits(exps, lv, 0), rx, env, c).core;
            && Exec(EmitReadLimits(exps, lv, 0), rx, env, c).env == env
            && Exec(if IsVariable(exps) then Alloc(lv, Limits(exps, lv), Blank(elem)) else Skip, rx, env, c1)
               == Run(env, ElemState(c, exps, elem, v, at, rt, rest, 0))
  {
    hide Enc, EncElems, Carried, BlocksOf, HasType;
    var at := Eval(lv, env);
    ArrayTyped(exps, elem, v);
    var n := v.n;
    var a0 := if IsVariable(exps) then [] else seq(Prod(LitDims(exps), 0), _ => Blank(elem));
    var tail := EncElems(elem, v.a, rt.toWire, 0) + rest;
    EncArray(exps, elem, v, rt);
    assert LimitState(c, exps, n, a0, at, tail, 0) == c by {
      PutGet(c.mem, at);
      assert PartDims(exps, n, 0) == LitDims(exps);
      assert EncLimits(exps, n, 0) + tail == c.input;
    }
    DecodeLimits(c, exps, n, a0, lv, rx, env, tail, 0);
    var c1 := LimitState(c, exps, n, a0, at, tail, |n|);
    assert PartDims(exps, n, |n|) == n;
    assert EncLimits(exps, n, |n|) + tail == tail;
    assert c1 == c.(mem := Put(c.mem, at, Arr(n, a0)), input := tail);
    AllocationStep(c, c1, exps, elem, v, lv, rx, rt, env, rest, a0);
  }

  lemma EncArray(exps: seq<Exp>, elem: Type, v: Value, rt: RefTables)
    requires HasType(v, Array(exps, elem))
    ensures Enc(Array(exps, elem), v, rt.toWire) == EncLimits(exps, v.n, 0) + EncElems(elem, v.a, rt.toWire, 0)
  {}

  lemma AllocationStep(c: Core, c1: Core, exps: seq<Exp>, elem: Type, v: Value, lv: Path, rx: RefTables, rt: RefTables, env: Env,
                       rest: seq<byte>, a0: seq<Value>)
    requires rx.fromWire == rt.fromWire
    requires HasType(v, Array(exps, elem))
    requires var at := Eval(lv, env);
             && Get(c.mem, at) != [] && Live(c.live, at) && at !in c.live
             && c1 == c.(mem := Put(c.mem, at, Arr(v.n, a0)), input := EncElems(elem, v.a, rt.toWire, 0) + rest)
    requires a0 == if IsVariable(exps) then [] else seq(Prod(LitDims(exps), 0), _ => Blank(elem))
    ensures var at := Eval(lv, env);
            Exec(if IsVariable(exps) then Alloc(lv, Limits(exps, lv), Blank(elem)) else Skip, rx, env, c1)
            == Run(env, ElemState(c, exps, elem, v, at, rt, rest, 0))
  {
    hide Enc, EncElems, Carried, BlocksOf, HasType, Blank, Prod, Live, Get, Put, EvalLimits, Evaluates, Eval, Limits;
    var at := Eval(lv, env);
    ArrayTyped(exps, elem, v);
    GetPut(c.mem, at, Arr(v.n, a0));
    var blanks := seq(Prod(v.n, 0), _ => Blank(elem));
    assert PartElems(elem, v.a, rt, 0) == blanks;
    assert ElemBlocks(exps, elem, v.a, at, 0) == {};
    if IsVariable(exps) {
      LimitValues(exps, lv, env, c1, v.n);
      PutPut(c.mem, at, Arr(v.n, a0), Arr(v.n, blanks));
    } else {
      SameLength(exps, v.n);
    }
  }

  lemma ElemReady(c: Core, exps: seq<Exp>, elem: Type, v: Value, at: Place, rt: RefTables, rest: seq<byte>, k: nat)
    requires HasType(v, Array(exps, elem)) && k < |v.a|
    requires Get(c.mem, at) != [] && Live(c.live, at) && Fresh(c.live, at)
    ensures ReadyFor(ElemState(c, exps, elem, v, at, rt, rest, k), elem, at + [ElemLoc(exps, k)])
    ensures HasType(v.a[k], elem)
    ensures ElemState(c, exps, elem, v, at, rt, rest, k).input
            == Enc(elem, v.a[k], rt.toWire) + (EncElems(elem, v.a, rt.toWire, k + 1) + rest)
  {
    hide Enc, BlocksOf, Carried, Blank, HasType, Get, Live, Fresh, PartElems, Put, Prod, ElemBlocks;
    ArrayTyped(exps, elem, v);
    var s := ElemState(c, exps, elem, v, at, rt, rest, k);
    ElemBlank(c, v, at, elem, rt, k, ElemLoc(exps, k));
    LiveDependsOnShorter(c.live, s.live, at);
    LiveAppend(s.live, at, ElemLoc(exps, k));
    FreshOwn(c.live, at, if IsVariable(exps) then {at} else {});
    FreshElem(c.live + (if IsVariable(exps) then {at} else {}), exps, elem, v.a, at, k);
  }

  lemma ElemBlank(c: Core, v: Value, at: Place, elem: Type, rt: RefTables, k: nat, s: Loc)
    requires v.Arr? && k < |v.a| && Get(c.mem, at) != [] && (s == InPlace(k) || s == OnHeap(k))
    ensures Get(Put(c.mem, at, Arr(v.n, PartElems(elem, v.a, rt, k))), at + [s]) == [Blank(elem)]
  {
    hide Carried, Blank;
    var u := Arr(v.n, PartElems(elem, v.a, rt, k));
    GetPut(c.mem, at, u);
    GetAppend(Put(c.mem, at, u), at, s);
  }

  lemma FreshOwn(live: set<Place>, at: Place, own: set<Place>)
    requires Fresh(live, at) && own <= {at}
    ensures Fresh(live + own - {at}, at)
  {}

  lemma ElemDone(c: Core, exps: seq<Exp>, elem: Type, v: Value, at: Place, rt: RefTables, rest: seq<byte>, k: nat)
    requires HasType(v, Array(exps, elem)) && k < |v.a| && Get(c.mem, at) != [] && HasType(v.a[k], elem)
    requires Get(ElemState(c, exps, elem, v, at, rt, rest, k).mem, at + [ElemLoc(exps, k)]) != []
    ensures Decoded(ElemState(c, exps, elem, v, at, rt, rest, k), elem, v.a[k], at + [ElemLoc(exps, k)], rt,
                    EncElems(elem, v.a, rt.toWire, k + 1) + rest)
            == ElemState(c, exps, elem, v, at, rt, rest, k + 1)
  {
    hide Enc, EncElems, BlocksOf, Carried, Blank, HasType, Get, Put, Prod;
    ArrayTyped(exps, elem, v);
    var s := ElemState(c, exps, elem, v, at, rt, rest, k);
    var x := Carried(v.a[k], rt);
    var before, after := Arr(v.n, PartElems(elem, v.a, rt, k)), Arr(v.n, PartElems(elem, v.a, rt, k + 1));
    PutPut(c.mem, at, before, after);
    PutAppend(s.mem, at, ElemLoc(exps, k), x);
    assert Store(before, ElemLoc(exps, k), x) == after;
    assert ElemBlocks(exps, elem, v.a, at, k + 1)
        == ElemBlocks(exps, elem, v.a, at, k) + BlocksOf(elem, v.a[k], at + [ElemLoc(exps, k)]);
  }

  lemma ElemsStay(c: Core, exps: seq<Exp>, elem: Type, v: Value, at: Place, rt: RefTables, rest: seq<byte>, k: nat)
    requires HasType(v, Array(exps, elem)) && Get(c.mem, at) != [] && Live(c.live, at)
    ensures ArrayAt(ElemState(c, exps, elem, v, at, rt, rest, k), at, v.n)
  {
    var s := ElemState(c, exps, elem, v, at, rt, rest, k);
    GetPut(c.mem, at, Arr(v.n, PartElems(elem, v.a, rt, k)));
    LiveDependsOnShorter(c.live, s.live, at);
  }

  lemma ElemsEnd(c: Core, exps: seq<Exp>, elem: Type, v: Value, at: Place, rt: RefTables, rest: seq<byte>)
    requires HasType(v, Array(exps, elem)) && Get(c.mem, at) != []
    ensures ElemState(c, exps, elem, v, at, rt, rest, |v.a|) == Decoded(c, Array(exps, elem), v, at, rt, rest)
  {
    hide Get, Put, Enc, Blank, Prod;
    assert PartElems(elem, v.a, rt, |v.a|) == Carried(v, rt).a;
    assert EncElems(elem, v.a, rt.toWire, |v.a|) + rest == rest;
  }

  lemma {:induction false} DecodeElement(t: Type, lv: Path, d: nat, rx: RefTables, rt: RefTables, env: Env, c: Core,
                                         v: Value, rest: seq<byte>, cs: nat -> Core, e: Env, off: nat)
    requires rx.fromWire == rt.fromWire
    requires t.Array? && HasType(v, t) && Below(lv, d) && ReadyFor(c, t, Eval(lv, env)) && Get(c.mem, Eval(lv, env)) != []
    requires forall k: nat :: cs(k) == ElemState(c, t.exps, t.elem, v, Eval(lv, env), rt, rest, k)
    requires off < |v.a| && AtElement(t.exps, lv, d, env, e, off)
    ensures ElementStep(EmitDecoder(t.elem, Nested(t.exps, lv, d), d + 1), rx, e, cs, off, d)
    decreases t, 0, 0
  {
    hide Exec, Enc, EncElems, ElemState, Decoded, EmitDecoder, HasType, Live, Get, Same, Below, Eval, Nested, Blank, Fresh;
    var at := Eval(lv, env);
    var s := cs(off);
    ArrayTyped(t.exps, t.elem, v);
    var rest' := EncElems(t.elem, v.a, rt.toWire, off + 1) + rest;
    ElemReady(c, t.exps, t.elem, v, at, rt, rest, off);
    BelowNested(t.exps, lv, d);
    DecoderCorrect(t.elem, Nested(t.exps, lv, d), d + 1, rx, rt, e, s, v.a[off], rest');
    ReadyPlace(s, t.elem, at + [ElemLoc(t.exps, off)]);
    ElemDone(c, t.exps, t.elem, v, at, rt, rest, off);
  }

  lemma {:induction false} DecodeArray(t: Type, lv: Path, d: nat, rx: RefTables, rt: RefTables, env: Env, c: Core,
                                       v: Value, rest: seq<byte>)
    requires rx.fromWire == rt.fromWire
    requires t.Array? && HasType(v, t) && Below(lv, d) && ReadyFor(c, t, Eval(lv, env))
    requires c.input == Enc(t, v, rt.toWire) + rest
    ensures Reaches(Exec(EmitDecoder(t, lv, d), rx, env, c), env, d, Decoded(c, t, v, Eval(lv, env), rt, rest))
    decreases t, 0, 1
  {
    hide Exec, Enc, EncElems, ElemState, Decoded, HasType, Live, Get, Same, Below, Eval, Nested, Blank, OverElements,
         ElementStep, AtElement, Prod, ArrayAt, EmitReadLimits;
    var at := Eval(lv, env);
    var (exps, elem) := (t.exps, t.elem);
    ReadyPlace(c, t, at);
    ReadyFresh(c, t, at);
    var cs := (k: nat) => ElemState(c, exps, elem, v, at, rt, rest, k);
    var code := EmitDecoder(elem, Nested(exps, lv, d), d + 1);
    ArrayTyped(exps, elem, v);
    forall off: nat | off <= Prod(v.n, 0) ensures ArrayAt(cs(off), at, v.n) {
      ElemsStay(c, exps, elem, v, at, rt, rest, off);
    }
    forall e: Env, off: nat | off < Prod(v.n, 0) && AtElement(exps, lv, d, env, e, off)
      ensures ElementStep(code, rx, e, cs, off, d)
    {
      DecodeElement(t, lv, d, rx, rt, env, c, v, rest, cs, e, off);
    }
    LimitsAndAllocation(c, exps, elem, v, lv, rx, rt, env, rest);
    WalkElements(exps, lv, d, code, rx, env, cs, v.n);
    ElemsEnd(c, exps, elem, v, at, rt, rest);
    UnfoldArrayDecoder(t, lv, d, rx, env, c);
  }

  lemma ReadyFresh(c: Core, t: Type, at: Place)
    requires ReadyFor(c, t, at)
    ensures at !in c.live
  {
    assert at <= at;
  }

  lemma UnfoldArrayDecoder(t: Type, lv: Path, d: nat, rx: RefTables, env: Env, c: Core)
    requires t.Array? && Exec(EmitReadLimits(t.exps, lv, 0), rx, env, c).Run?
    requires var r1 := Exec(EmitReadLimits(t.exps, lv, 0), rx, env, c);
             Exec(if IsVariable(t.exps) then Alloc(lv, Limits(t.exps, lv), Blank(t.elem)) else Skip, rx, r1.env, r1.core).Run?
    ensures var r1 := Exec(EmitReadLimits(t.exps, lv, 0), rx, env, c);
            var r2 := Exec(if IsVariable(t.exps) then Alloc(lv, Limits(t.exps, lv), Blank(t.elem)) else Skip, rx, r1.env, r1.core);
            Exec(EmitDecoder(t, lv, d), rx, env, c)
            == Exec(OverElements(t.exps, lv, d, EmitDecoder(t.elem, Nested(t.exps, lv, d), d + 1)), rx, r2.env, r2.core)
  {
    hide Exec, OverElements, EmitReadLimits, Limits, Nested, Blank;
    var a := EmitReadLimits(t.exps, lv, 0);
    var b := if IsVariable(t.exps) then Alloc(lv, Limits(t.exps, lv), Blank(t.elem)) else Skip;
    var w := OverElements(t.exps, lv, d, EmitDecoder(t.elem, Nested(t.exps, lv, d), d + 1));
    ExecSeq(a, Seq(b, w), rx, env, c);
    var r1 := Exec(a, rx, env, c);
    ExecSeq(b, w, rx, r1.env, r1.core);
  }
}
