/** The C code that compiler/2014/C_CodeGen.jrag emits for a sample, as a small
  * statement language with an interpreter. Paths, loop variables, run-time
  * limits and the linear index are kept as the emitted code has them.
  */
module Codegen {
  import opened Wire
  import opened Types
  import opened Memory

  // -------------------------------------------------------- emitted C programs

  /** `i_d_k` and `i_d`. */
  datatype Var = Loop(depth: nat, dim: nat) | Linear(depth: nat)

  /** One accessor of an emitted path: `.f`, `.a[i_d_0][i_d_1]...` for a fixed
    * array, `.a[i_d]` for a variable one.
    */
  datatype Access = Dot(i: nat) | Fixed(depth: nat, dims: seq<nat>) | Indexed(depth: nat)

  type Path = seq<Access>

  /** C_getLimit: a literal, or `path.n_i`. */
  datatype Limit = Lit(n: nat) | Count(arr: Path, i: nat)

  datatype Stmt =
    | Skip
    | Seq(first: Stmt, second: Stmt)
    | For(x: Var, limit: Limit, body: Stmt)
    | SetLinear(depth: nat, limits: seq<Limit>)
    | ReadPrim(p: Prim, lv: Path)
    | ReadLimit(lv: Path, i: nat)
    | Alloc(lv: Path, limits: seq<Limit>, element: Value)
    | Handle
    | Free(lv: Path)
    | WritePrim(p: Prim, lv: Path)
    | WriteLimit(lv: Path, i: nat)
    | AddConst(n: nat)
    | AddPacked(limit: Limit)
    | AddString(lv: Path)
    | AddProduct(n: nat, limits: seq<Limit>)

  function LimitOf(exps: seq<Exp>, lv: Path, i: nat): Limit
    requires i < |exps|
  {
    if exps[i].Literal? then Lit(exps[i].n) else Count(lv, i)
  }

  function Limits(exps: seq<Exp>, lv: Path): (r: seq<Limit>)
    ensures |r| == |exps|
  {
    seq(|exps|, i requires 0 <= i < |exps| => LimitOf(exps, lv, i))
  }

  /** C_Nest. */
  function Nested(exps: seq<Exp>, lv: Path, d: nat): Path {
    lv + [if IsVariable(exps) then Indexed(d) else Fixed(d, LitDims(exps))]
  }

  /** The nested for loops over all dimensions from k on. */
  function LoopNest(limits: seq<Limit>, d: nat, k: nat, body: Stmt): Stmt
    requires k <= |limits|
    decreases |limits| - k
  {
    if k == |limits| then body else For(Loop(d, k), limits[k], LoopNest(limits, d, k + 1, body))
  }

  /** C_emitCalcIndex followed by the code for one element. */
  function ElementCode(exps: seq<Exp>, lv: Path, d: nat, code: Stmt): Stmt {
    if IsVariable(exps) then Seq(SetLinear(d, Limits(exps, lv)), code) else code
  }

  function OverElements(exps: seq<Exp>, lv: Path, d: nat, code: Stmt): Stmt {
    LoopNest(Limits(exps, lv), d, 0, ElementCode(exps, lv, d, code))
  }

  // -------------------------------------------------------------------- emitters

  /** C_emitDecoder. */
  function EmitDecoder(t: Type, lv: Path, d: nat): Stmt
    decreases t, 1, 0
  {
    match t
    case Void => Skip
    case Prim(p) => ReadPrim(p, lv)
    case User(_, decl) => EmitDecoder(decl, lv, d)
    case Struct(_) => EmitFieldDecoders(t, lv, d, 0)
    case Array(exps, elem) =>
      Seq(EmitReadLimits(exps, lv, 0),
          Seq(if IsVariable(exps) then Alloc(lv, Limits(exps, lv), Blank(elem)) else Skip,
              OverElements(exps, lv, d, EmitDecoder(elem, Nested(exps, lv, d), d + 1))))
  }

  function EmitFieldDecoders(t: Type, lv: Path, d: nat, i: nat): Stmt
    requires t.Struct? && i <= |t.fields|
    decreases t, 0, |t.fields| - i
  {
    if i == |t.fields| then Skip
    else Seq(EmitDecoder(t.fields[i].ty, lv + [Dot(i)], d), EmitFieldDecoders(t, lv, d, i + 1))
  }

  function EmitReadLimits(exps: seq<Exp>, lv: Path, i: nat): Stmt
    requires i <= |exps|
    decreases |exps| - i
  {
    if i == |exps| then Skip
    else Seq(if exps[i].Variable? then ReadLimit(lv, i) else Skip, EmitReadLimits(exps, lv, i + 1))
  }

  /** C_emitDecoderDeallocation. */
  function EmitDealloc(t: Type, lv: Path, d: nat): Stmt
    decreases t, 1, 0
  {
    match t
    case Void => Skip
    case Prim(p) => if p.String? then Free(lv) else Skip
    case User(_, decl) => if IsDynamic(t) then EmitDealloc(decl, lv, d) else Skip
    case Struct(_) => if IsDynamic(t) then EmitFieldDeallocs(t, lv, d, 0) else Skip
    case Array(exps, elem) =>
      Seq(if IsDynamic(elem)
          then OverElements(exps, lv, d, EmitDealloc(elem, Nested(exps, lv, d), d + 1))
          else Skip,
          if IsVariable(exps) then Free(lv) else Skip)
  }

  function EmitFieldDeallocs(t: Type, lv: Path, d: nat, i: nat): Stmt
    requires t.Struct? && i <= |t.fields|
    decreases t, 0, |t.fields| - i
  {
    if i == |t.fields| then Skip
    else Seq(EmitDealloc(t.fields[i].ty, lv + [Dot(i)], d), EmitFieldDeallocs(t, lv, d, i + 1))
  }

  /** The whole decode_<sample> function. */
  function EmitSampleDecoder(t: Type): Stmt {
    Seq(EmitDecoder(t, [], 0), Seq(Handle, if IsDynamic(t) then EmitDealloc(t, [], 0) else Skip))
  }

  /** C_emitEncoder. */
  function EmitEncoder(t: Type, lv: Path, d: nat): Stmt
    decreases t, 1, 0
  {
    match t
    case Void => Skip
    case Prim(p) => WritePrim(p, lv)
    case User(_, decl) => EmitEncoder(decl, lv, d)
    case Struct(_) => EmitFieldEncoders(t, lv, d, 0)
    case Array(exps, elem) =>
      Seq(EmitWriteLimits(exps, lv, 0),
          OverElements(exps, lv, d, EmitEncoder(elem, Nested(exps, lv, d), d + 1)))
  }

  function EmitFieldEncoders(t: Type, lv: Path, d: nat, i: nat): Stmt
    requires t.Struct? && i <= |t.fields|
    decreases t, 0, |t.fields| - i
  {
    if i == |t.fields| then Skip
    else Seq(EmitEncoder(t.fields[i].ty, lv + [Dot(i)], d), EmitFieldEncoders(t, lv, d, i + 1))
  }

  function EmitWriteLimits(exps: seq<Exp>, lv: Path, i: nat): Stmt
    requires i <= |exps|
    decreases |exps| - i
  {
    if i == |exps| then Skip
    else Seq(if exps[i].Variable? then WriteLimit(lv, i) else Skip, EmitWriteLimits(exps, lv, i + 1))
  }

  /** C_emitSizeof, which the compiler only invokes on dynamic types: it throws
    * on primitives of known size and on void.
    */
  function EmitSizeof(t: Type, lv: Path, d: nat): Stmt
    requires IsDynamic(t)
    decreases t, 1, 0
  {
    match t
    case Prim(_) => AddString(lv)
    case User(_, decl) => EmitSizeof(decl, lv, d)
    case Struct(_) =>
      Seq(EmitFieldSizeofs(t, lv, d, 0),
          if FixedPart(t, 0) > 0 then AddConst(FixedPart(t, 0)) else Skip)
    case Array(exps, elem) =>
      Seq(EmitLimitSizeofs(exps, lv, 0),
          if IsDynamic(elem)
          then OverElements(exps, lv, d, EmitSizeof(elem, Nested(exps, lv, d), d + 1))
          else AddProduct(FixedSizeof(elem), Limits(exps, lv)))
  }

  function EmitFieldSizeofs(t: Type, lv: Path, d: nat, i: nat): Stmt
    requires t.Struct? && i <= |t.fields|
    decreases t, 0, |t.fields| - i
  {
    if i == |t.fields| then Skip
    else Seq(if IsDynamic(t.fields[i].ty) then EmitSizeof(t.fields[i].ty, lv + [Dot(i)], d) else Skip,
             EmitFieldSizeofs(t, lv, d, i + 1))
  }

  /** `fixed`: the sizes of the fields that are not dynamic. */
  function FixedPart(t: Type, i: nat): nat
    requires t.Struct? && i <= |t.fields|
    decreases |t.fields| - i
  {
    if i == |t.fields| then 0
    else (if IsDynamic(t.fields[i].ty) then 0 else FixedSizeof(t.fields[i].ty)) + FixedPart(t, i + 1)
  }

  function EmitLimitSizeofs(exps: seq<Exp>, lv: Path, i: nat): Stmt
    requires i <= |exps|
    decreases |exps| - i
  {
    if i == |exps| then Skip
    else Seq(if exps[i].Variable? then AddPacked(Count(lv, i)) else Skip,
             EmitLimitSizeofs(exps, lv, i + 1))
  }

  /** The body of sizeof_<sample> (C_emitSizeofValue). */
  function EmitSampleSizeof(t: Type): Stmt {
    if IsDynamic(t) then EmitSizeof(t, [], 0) else AddConst(FixedSizeof(t))
  }

  // ----------------------------------------------------------------- interpreter

  type Env = map<Var, nat>

  function Val(env: Env, x: Var): nat {
    if x in env then env[x] else 0
  }

  /** `mem` is the sample, `live` the blocks it owns, `input` and `output` the
    * byte streams, `size` the result of sizeof, `handled` the handler's calls.
    */
  datatype Core = Core(
    mem: Value, live: set<Place>, input: seq<byte>, output: seq<byte>,
    size: nat, handled: seq<Value>)

  /** Stuck: end of input, or a C error such as a stale pointer or double free. */
  datatype Outcome = Stuck | Run(env: Env, core: Core)

  /** `(((i_0) * n_1 + i_1) * n_2 + i_2)...` over the first k dimensions. */
  function Horner(env: Env, d: nat, dims: seq<nat>, k: nat): nat
    requires k <= |dims|
  {
    if k == 0 then 0 else Horner(env, d, dims, k - 1) * dims[k - 1] + Val(env, Loop(d, k - 1))
  }

  /** A C array of arrays lies in memory row by row, so `a[i_0][i_1]...` is
    * the element at the same linear index.
    */
  function Resolve(a: Access, env: Env): Loc {
    match a
    case Dot(i) => Member(i)
    case Fixed(d, dims) => InPlace(Horner(env, d, dims, |dims|))
    case Indexed(d) => OnHeap(Val(env, Linear(d)))
  }

  function Eval(p: Path, env: Env): (r: Place)
    ensures |r| == |p|
  {
    seq(|p|, i requires 0 <= i < |p| => Resolve(p[i], env))
  }

  /** The object an emitted path denotes, if every pointer on the way is valid. */
  function Load(p: Path, env: Env, c: Core): (r: seq<Value>)
    ensures |r| <= 1
  {
    if Live(c.live, Eval(p, env)) then Get(c.mem, Eval(p, env)) else []
  }

  function EvalLimit(l: Limit, env: Env, c: Core): (r: seq<nat>)
    ensures |r| <= 1
  {
    match l
    case Lit(n) => [n]
    case Count(arr, i) =>
      var u := Load(arr, env, c);
      if u != [] && u[0].Arr? && i < |u[0].n| then [u[0].n[i]] else []
  }

  predicate Evaluates(ls: seq<Limit>, env: Env, c: Core) {
    forall i :: 0 <= i < |ls| ==> EvalLimit(ls[i], env, c) != []
  }

  function EvalLimits(ls: seq<Limit>, env: Env, c: Core): (r: seq<nat>)
    requires Evaluates(ls, env, c)
    ensures |r| == |ls|
  {
    seq(|ls|, i requires 0 <= i < |ls| => EvalLimit(ls[i], env, c)[0])
  }

  /** strlen: the characters before the first NUL. */
  function CString(s: seq<byte>): seq<byte> {
    if s == [] || s[0] == 0 then [] else [s[0]] + CString(s[1..])
  }

  function ReadObject(p: Prim, at: Place, rt: RefTables, c: Core): (r: Parsed<Core>)
    requires Get(c.mem, at) != []
  {
    match p
    case String =>
      (match ReadInt(c.input)
       case Fail => Fail
       case Ok(s, rest) =>
         if at in c.live then Fail
         else Ok(c.(mem := Put(c.mem, at, Str(s)), live := c.live + {at}, input := rest), rest))
    case Sample =>
      (match TakeBytes(4, c.input)
       case Fail => Fail
       case Ok(w, rest) =>
         Ok(c.(mem := Put(c.mem, at, Ref(FromWire(rt.fromWire, FromWord(w)))), input := rest), rest))
    case _ =>
      (match TakeBytes(PrimSize(p), c.input)
       case Fail => Fail
       case Ok(w, rest) => Ok(c.(mem := Put(c.mem, at, Bits(Reverse(w))), input := rest), rest))
  }

  function WriteObject(p: Prim, at: Place, u: Value, rt: RefTables, live: set<Place>): (r: seq<seq<byte>>)
    ensures |r| <= 1
  {
    match p
    case String => if u.Str? && at in live then [PackString(CString(u.chars))] else []
    case Sample => if u.Ref? then [Word(ToWire(rt.toWire, u.sample))] else []
    case _ => if u.Bits? then [Reverse(u.image)] else []
  }

  function Exec(s: Stmt, rt: RefTables, env: Env, c: Core): Outcome
    decreases s, 1, 0
  {
    match s
    case Skip => Run(env, c)
    case Seq(a, b) =>
      var r := Exec(a, rt, env, c);
      if r.Stuck? then Stuck else Exec(b, rt, r.env, r.core)
    case For(_, limit, _) =>
      var n := EvalLimit(limit, env, c);
      if n == [] then Stuck else Iterate(s, 0, n[0], rt, env, c)
    case SetLinear(d, limits) =>
      if Evaluates(limits, env, c)
      then Run(env[Linear(d) := Horner(env, d, EvalLimits(limits, env, c), |limits|)], c)
      else Stuck
    case ReadPrim(p, lv) =>
      if Load(lv, env, c) == [] then Stuck
      else
        var r := ReadObject(p, Eval(lv, env), rt, c);
        if r.Fail? then Stuck else Run(env, r.value)
    case ReadLimit(lv, i) =>
      var u := Load(lv, env, c);
      var r := Unpack(c.input);
      if u != [] && u[0].Arr? && i < |u[0].n| && r.Ok?
      then Run(env, c.(mem := Put(c.mem, Eval(lv, env), Arr(u[0].n[i := r.value], u[0].a)), input := r.rest))
      else Stuck
    case Alloc(lv, limits, element) =>
      var u := Load(lv, env, c);
      var at := Eval(lv, env);
      if u != [] && u[0].Arr? && at !in c.live && Evaluates(limits, env, c)
      then
        var a := seq(Prod(EvalLimits(limits, env, c), 0), _ => element);
        Run(env, c.(mem := Put(c.mem, at, Arr(u[0].n, a)), live := c.live + {at}))
      else Stuck
    case Handle => Run(env, c.(handled := c.handled + [c.mem]))
    case Free(lv) =>
      if Load(lv, env, c) != [] && Eval(lv, env) in c.live
      then Run(env, c.(live := c.live - {Eval(lv, env)}))
      else Stuck
    case WritePrim(p, lv) =>
      var u := Load(lv, env, c);
      if u == [] then Stuck
      else
        var w := WriteObject(p, Eval(lv, env), u[0], rt, c.live);
        if w == [] then Stuck else Run(env, c.(output := c.output + w[0]))
    case WriteLimit(lv, i) =>
      var n := EvalLimit(Count(lv, i), env, c);
      if n == [] then Stuck else Run(env, c.(output := c.output + Pack(n[0])))
    case AddConst(n) => Run(env, c.(size := c.size + n))
    case AddPacked(limit) =>
      var n := EvalLimit(limit, env, c);
      if n == [] then Stuck else Run(env, c.(size := c.size + SizePacked(n[0])))
    case AddString(lv) =>
      var u := Load(lv, env, c);
      if u != [] && u[0].Str? && Eval(lv, env) in c.live
      then
        var l := |CString(u[0].chars)|;
        Run(env, c.(size := c.size + SizePacked(l) + l))
      else Stuck
    case AddProduct(n, limits) =>
      if Evaluates(limits, env, c)
      then Run(env, c.(size := c.size + n * Prod(EvalLimits(limits, env, c), 0)))
      else Stuck
  }

  /** The for loop from iteration i on. The limit is evaluated again on every
    * iteration, as in C; a body that changed it, or the loop variable, would
    * get stuck here.
    */
  function Iterate(s: Stmt, i: nat, n: nat, rt: RefTables, env: Env, c: Core): Outcome
    requires s.For? && i <= n
    decreases s, 0, n - i
  {
    var at := env[s.x := i];
    if EvalLimit(s.limit, at, c) != [n] then Stuck
    else if i == n then Run(at, c)
    else
      var r := Exec(s.body, rt, at, c);
      if r.Stuck? || Val(r.env, s.x) != i then Stuck
      else Iterate(s, i + 1, n, rt, r.env, r.core)
  }
}
