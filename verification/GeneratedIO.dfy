/** Generated code on the buffered reader and writer: an interpreter that runs the
  * emitted statements in place. Whatever the buffer size and however read() and
  * write() deliver, it does what the emitted code does on byte strings.
  */
module GeneratedIO {
  import opened Wire
  import opened Types
  import opened Memory
  import opened Codegen
  import opened BufferedWriter
  import opened BufferedReader
  import opened SampleCodec
  import ArrayWalk
  import Encoder

  // Only the statements that read look at the input, and only those that write add
  // to the output.

  lemma SameLimit(l: Limit, env: Env, c: Core, i: seq<byte>, o: seq<byte>)
    ensures EvalLimit(l, env, c.(input := i, output := o)) == EvalLimit(l, env, c)
  {}

  lemma SameLimits(ls: seq<Limit>, env: Env, c: Core, i: seq<byte>, o: seq<byte>)
    ensures Evaluates(ls, env, c.(input := i, output := o)) <==> Evaluates(ls, env, c)
    ensures Evaluates(ls, env, c) ==> EvalLimits(ls, env, c.(input := i, output := o)) == EvalLimits(ls, env, c)
  {
    forall k | 0 <= k < |ls| ensures EvalLimit(ls[k], env, c.(input := i, output := o)) == EvalLimit(ls[k], env, c) {
      SameLimit(ls[k], env, c, i, o);
    }
  }

  predicate Plain(s: Stmt) {
    !s.Seq? && !s.For? && !s.ReadPrim? && !s.ReadLimit? && !s.WritePrim? && !s.WriteLimit?
  }

  lemma ExecPlain(s: Stmt, rt: RefTables, env: Env, c: Core, i: seq<byte>, o: seq<byte>)
    requires Plain(s)
    ensures var (r, r') := (Exec(s, rt, env, c), Exec(s, rt, env, c.(input := i, output := o)));
            if r.Stuck? then r'.Stuck?
            else
              && r' == Run(r.env, r.core.(input := i, output := o))
              && r.core.input == c.input && r.core.output == c.output
  {
    hide EvalLimit, Evaluates, EvalLimits, Get, Put, Live, Horner, Prod;
    match s
    case SetLinear(_, limits) => SameLimits(limits, env, c, i, o);
    case Alloc(_, limits, _) => SameLimits(limits, env, c, i, o);
    case AddProduct(_, limits) => SameLimits(limits, env, c, i, o);
    case AddPacked(limit) => SameLimit(limit, env, c, i, o);
    case _ =>
  }

  lemma ExecForIs(s: Stmt, rt: RefTables, env: Env, c: Core)
    requires s.For?
    ensures Exec(s, rt, env, c)
            == var n := EvalLimit(s.limit, env, c); if n == [] then Stuck else Iterate(s, 0, n[0], rt, env, c)
  {}

  lemma IterateIs(s: Stmt, i: nat, n: nat, rt: RefTables, env: Env, c: Core)
    requires s.For? && i <= n
    ensures var at := env[s.x := i];
            Iterate(s, i, n, rt, env, c)
            == if EvalLimit(s.limit, at, c) != [n] then Stuck
               else if i == n then Run(at, c)
               else
                 var r := Exec(s.body, rt, at, c);
                 if r.Stuck? || Val(r.env, s.x) != i then Stuck else Iterate(s, i + 1, n, rt, r.env, r.core)
  {}

  // ------------------------------------------------------------------------ decoding

  /** The outcome, with the input that is left. */
  ghost function Reading(c: Core, input: seq<byte>): Core {
    c.(input := input)
  }

  lemma ExecReadLimitIs(lv: Path, i: nat, rt: RefTables, env: Env, c: Core, input: seq<byte>)
    ensures Exec(ReadLimit(lv, i), rt, env, Reading(c, input))
            == var (u, r) := (Load(lv, env, c), Unpack(input));
               if u != [] && u[0].Arr? && i < |u[0].n| && r.Ok?
               then Run(env, Reading(c.(mem := Put(c.mem, Eval(lv, env), Arr(u[0].n[i := r.value], u[0].a))), r.rest))
               else Stuck
  {
    hide Unpack, Put, Get, Live;
  }

  lemma ExecReadPrimIs(p: Prim, lv: Path, rt: RefTables, env: Env, c: Core, input: seq<byte>)
    ensures var (r, at) := (Exec(ReadPrim(p, lv), rt, env, Reading(c, input)), Eval(lv, env));
            if Load(lv, env, c) == [] then r == Stuck
            else
              match p
              case String =>
                (match ReadInt(input)
                 case Fail => r == Stuck
                 case Ok(s, rest) =>
                   r == if at in c.live then Stuck
                        else Run(env, Reading(c.(mem := Put(c.mem, at, Str(s)), live := c.live + {at}), rest)))
              case Sample =>
                (match TakeBytes(4, input)
                 case Fail => r == Stuck
                 case Ok(w, rest) => r == Run(env, Reading(c.(mem := Put(c.mem, at, Ref(FromWire(rt.fromWire, FromWord(w))))), rest)))
              case _ =>
                (match TakeBytes(PrimSize(p), input)
                 case Fail => r == Stuck
                 case Ok(w, rest) => r == Run(env, Reading(c.(mem := Put(c.mem, at, Bits(Reverse(w)))), rest)))
  {
    hide ReadInt, Put, Get, Live, FromWord, Reverse;
  }

  method PerformReads(s: Stmt, rt: RefTables, env: Env, c: Core, reader: FdReader) returns (ok: bool, env': Env, c': Core)
    requires reader.Valid() && !reader.error
    modifies reader`pos, reader`count, reader`error, reader`incoming, reader.data
    ensures reader.Valid() && (ok ==> |reader.Stream()| <= |old(reader.Stream())|)
    ensures ok ==> !reader.error
                   && Exec(s, rt, env, Reading(c, old(reader.Stream()))) == Run(env', Reading(c', reader.Stream()))
    ensures !ok && reader.healthy ==> Exec(s, rt, env, Reading(c, old(reader.Stream()))).Stuck?
    decreases s
  {
    hide Exec, Iterate, EvalLimit, ReadInt, Unpack, TakeBytes, Live, Get;
    ok, env', c' := true, env, c;
    match s {
      case Seq(a, b) =>
        ArrayWalk.ExecSeq(a, b, rt, env, Reading(c, reader.Stream()));
        ok, env', c' := PerformReads(a, rt, env, c, reader);
        if ok { ok, env', c' := PerformReads(b, rt, env', c', reader); }
      case For(_, _, _) => ok, env', c' := PerformLoop(s, rt, env, c, reader);
      case ReadPrim(p, lv) =>
        ExecReadPrimIs(p, lv, rt, env, c, reader.Stream());
        if Load(lv, env, c) == [] { return false, env, c; }
        ok, c' := PerformReadPrim(p, Eval(lv, env), rt, c, reader);
      case ReadLimit(lv, i) =>
        ExecReadLimitIs(lv, i, rt, env, c, reader.Stream());
        var u := Load(lv, env, c);
        if u == [] || !u[0].Arr? || i >= |u[0].n| { return false, env, c; }
        var n := reader.ReadPacked32();
        if reader.error { return false, env, c; }
        c' := c.(mem := Put(c.mem, Eval(lv, env), Arr(u[0].n[i := n], u[0].a)));
      case _ => ok, env', c' := PerformPlain(s, rt, env, c, reader);
    }
  }

  /** Statements that neither read nor write; what is written is not looked at here. */
  method PerformPlain(s: Stmt, rt: RefTables, env: Env, c: Core, reader: FdReader) returns (ok: bool, env': Env, c': Core)
    requires reader.Valid() && !s.Seq? && !s.For? && !s.ReadPrim? && !s.ReadLimit?
    ensures ok ==> Exec(s, rt, env, Reading(c, reader.Stream())) == Run(env', Reading(c', reader.Stream()))
    ensures !ok ==> Exec(s, rt, env, Reading(c, reader.Stream())).Stuck?
  {
    hide Exec;
    var r := Exec(s, rt, env, c);
    ExecNoReads(s, rt, env, c, reader.Stream());
    match r {
      case Stuck => return false, env, c;
      case Run(e, d) => return true, e, d;
    }
  }

  lemma ExecNoReads(s: Stmt, rt: RefTables, env: Env, c: Core, input: seq<byte>)
    requires !s.Seq? && !s.For? && !s.ReadPrim? && !s.ReadLimit?
    ensures var (r, r') := (Exec(s, rt, env, c), Exec(s, rt, env, Reading(c, input)));
            if r.Stuck? then r'.Stuck? else r' == Run(r.env, Reading(r.core, input))
  {
    hide Exec;
    if Plain(s) {
      ExecPlain(s, rt, env, c, input, c.output);
    } else {
      WritesNoReads(s, rt, env, c, input);
    }
  }

  lemma WritesNoReads(s: Stmt, rt: RefTables, env: Env, c: Core, input: seq<byte>)
    requires s.WritePrim? || s.WriteLimit?
    ensures var (r, r') := (Exec(s, rt, env, c), Exec(s, rt, env, Reading(c, input)));
            if r.Stuck? then r'.Stuck? else r' == Run(r.env, Reading(r.core, input))
  {
    hide Get, Live, Pack, PackString, CString, Reverse, Word;
  }

  /** read_string, read_int for a sample reference, and the other primitives. */
  method PerformReadPrim(p: Prim, at: Place, rt: RefTables, c: Core, reader: FdReader) returns (ok: bool, c': Core)
    requires reader.Valid() && !reader.error && Get(c.mem, at) != []
    modifies reader`pos, reader`count, reader`error, reader`incoming, reader.data
    ensures reader.Valid() && (ok ==> !reader.error && |reader.Stream()| <= |old(reader.Stream())|)
    ensures ok || reader.healthy ==>
              match p
              case String =>
                (match ReadInt(old(reader.Stream()))
                 case Fail => !ok
                 case Ok(s, rest) =>
                   if at in c.live then !ok
                   else ok && reader.Stream() == rest && c' == c.(mem := Put(c.mem, at, Str(s)), live := c.live + {at}))
              case Sample =>
                (match TakeBytes(4, old(reader.Stream()))
                 case Fail => !ok
                 case Ok(w, rest) =>
                   ok && reader.Stream() == rest && c' == c.(mem := Put(c.mem, at, Ref(FromWire(rt.fromWire, FromWord(w))))))
              case _ =>
                (match TakeBytes(PrimSize(p), old(reader.Stream()))
                 case Fail => !ok
                 case Ok(w, rest) => ok && reader.Stream() == rest && c' == c.(mem := Put(c.mem, at, Bits(Reverse(w)))))
  {
    hide ReadInt, Put, Get, FromWord, Reverse, FromWire;
    ok, c' := false, c;
    match p {
      case String =>
        var s := reader.ReadString();
        if reader.error || at in c.live { return; }
        return true, c.(mem := Put(c.mem, at, Str(s)), live := c.live + {at});
      case Sample =>
        var image := reader.ReadImage(4);
        if reader.error { return; }
        return true, c.(mem := Put(c.mem, at, Ref(FromWire(rt.fromWire, FromWord(Reverse(image))))));
      case _ =>
        var image := reader.ReadImage(PrimSize(p));
        if reader.error { return; }
        ReverseTwice(image);
        return true, c.(mem := Put(c.mem, at, Bits(image)));
    }
  }

  method PerformLoop(s: Stmt, rt: RefTables, env: Env, c: Core, reader: FdReader) returns (ok: bool, env': Env, c': Core)
    requires s.For? && reader.Valid() && !reader.error
    modifies reader`pos, reader`count, reader`error, reader`incoming, reader.data
    ensures reader.Valid() && (ok ==> |reader.Stream()| <= |old(reader.Stream())|)
    ensures ok ==> !reader.error
                   && Exec(s, rt, env, Reading(c, old(reader.Stream()))) == Run(env', Reading(c', reader.Stream()))
    ensures !ok && reader.healthy ==> Exec(s, rt, env, Reading(c, old(reader.Stream()))).Stuck?
    decreases s, 0
  {
    hide Exec, Iterate, EvalLimit;
    ok, env', c' := false, env, c;
    ghost var whole := Exec(s, rt, env, Reading(c, reader.Stream()));
    ExecForIs(s, rt, env, Reading(c, reader.Stream()));
    SameLimit(s.limit, env, c, reader.Stream(), c.output);
    var limit := EvalLimit(s.limit, env, c);
    if limit == [] { return; }
    var (i, n) := (0, limit[0]);
    while true
      invariant 0 <= i <= n && reader.Valid() && !reader.error && |reader.Stream()| <= |old(reader.Stream())|
      invariant whole == Iterate(s, i, n, rt, env', Reading(c', reader.Stream()))
      decreases n - i
    {
      var at := env'[s.x := i];
      IterateIs(s, i, n, rt, env', Reading(c', reader.Stream()));
      SameLimit(s.limit, at, c', reader.Stream(), c'.output);
      if EvalLimit(s.limit, at, c') != [n] { return; }
      if i == n { return true, at, c'; }
      ok, env', c' := PerformReads(s.body, rt, at, c', reader);
      if !ok { return; }
      if Val(env', s.x) != i { return false, env', c'; }
      ok := false;
      i := i + 1;
    }
  }

  // ------------------------------------------------------------------------ encoding

  /** Strings and dimensions that have a packed32. */
  ghost predicate Small(v: Value)
    decreases v
  {
    match v
    case Str(s) => |s| < TWO32
    case Rec(fs) => forall i :: 0 <= i < |fs| ==> Small(fs[i])
    case Arr(n, a) => (forall i :: 0 <= i < |n| ==> n[i] < TWO32) && forall i :: 0 <= i < |a| ==> Small(a[i])
    case _ => true
  }

  lemma {:induction false} SmallParts(v: Value, p: Place)
    requires Small(v) && Get(v, p) != []
    ensures Small(Get(v, p)[0])
    decreases |p|
  {
    if p != [] { SmallParts(v, p[..|p| - 1]); }
  }

  lemma {:induction false} TypedSmall(v: Value, t: Type)
    requires HasType(v, t)
    ensures Small(v)
    decreases t
  {
    match t
    case Void =>
    case Prim(_) =>
    case User(_, decl) => TypedSmall(v, decl);
    case Struct(fields) =>
      forall i | 0 <= i < |fields| ensures Small(v.fields[i]) { TypedSmall(v.fields[i], fields[i].ty); }
    case Array(_, elem) =>
      forall i | 0 <= i < |v.a| ensures Small(v.a[i]) { TypedSmall(v.a[i], elem); }
  }

  lemma {:induction false} CStringShorter(s: seq<byte>)
    ensures |CString(s)| <= |s|
  {
    if s != [] { CStringShorter(s[1..]); }
  }

  /** What emitted encoders are made of. */
  predicate WriteOnly(s: Stmt) {
    match s
    case Seq(a, b) => WriteOnly(a) && WriteOnly(b)
    case For(_, _, body) => WriteOnly(body)
    case _ => s.Skip? || s.SetLinear? || s.WritePrim? || s.WriteLimit?
  }

  lemma {:induction false} EncodersWriteOnly(t: Type, lv: Path, d: nat)
    ensures WriteOnly(EmitEncoder(t, lv, d))
    decreases t, 1, 0
  {
    match t
    case Void =>
    case Prim(_) =>
    case User(_, decl) => EncodersWriteOnly(decl, lv, d);
    case Struct(_) => FieldEncodersWriteOnly(t, lv, d, 0);
    case Array(exps, elem) =>
      LimitsWriteOnly(exps, lv, 0);
      EncodersWriteOnly(elem, Nested(exps, lv, d), d + 1);
      NestWriteOnly(Limits(exps, lv), d, 0, ElementCode(exps, lv, d, EmitEncoder(elem, Nested(exps, lv, d), d + 1)));
  }

  lemma {:induction false} FieldEncodersWriteOnly(t: Type, lv: Path, d: nat, i: nat)
    requires t.Struct? && i <= |t.fields|
    ensures WriteOnly(EmitFieldEncoders(t, lv, d, i))
    decreases t, 0, |t.fields| - i
  {
    if i < |t.fields| {
      EncodersWriteOnly(t.fields[i].ty, lv + [Dot(i)], d);
      FieldEncodersWriteOnly(t, lv, d, i + 1);
    }
  }

  lemma {:induction false} LimitsWriteOnly(exps: seq<Exp>, lv: Path, i: nat)
    requires i <= |exps|
    ensures WriteOnly(EmitWriteLimits(exps, lv, i))
    decreases |exps| - i
  {
    if i < |exps| { LimitsWriteOnly(exps, lv, i + 1); }
  }

  lemma {:induction false} NestWriteOnly(limits: seq<Limit>, d: nat, k: nat, body: Stmt)
    requires k <= |limits| && WriteOnly(body)
    ensures WriteOnly(LoopNest(limits, d, k, body))
    decreases |limits| - k
  {
    if k < |limits| { NestWriteOnly(limits, d, k + 1, body); }
  }

  ghost function Writing(c: Core, output: seq<byte>): Core {
    c.(output := output)
  }

  /** What the statement adds to the output. */
  ghost function Added(s: Stmt, rt: RefTables, env: Env, c: Core): (r: seq<seq<byte>>)
    requires s.WritePrim? || s.WriteLimit?
    ensures |r| <= 1
  {
    match s
    case WritePrim(p, lv) =>
      var u := Load(lv, env, c);
      if u == [] then [] else WriteObject(p, Eval(lv, env), u[0], rt, c.live)
    case WriteLimit(lv, i) =>
      var n := EvalLimit(Count(lv, i), env, c);
      if n == [] then [] else [Pack(n[0])]
  }

  lemma ExecWriteIs(s: Stmt, rt: RefTables, env: Env, c: Core, out: seq<byte>)
    requires s.WritePrim? || s.WriteLimit?
    ensures Exec(s, rt, env, Writing(c, out))
            == var w := Added(s, rt, env, c); if w == [] then Stuck else Run(env, Writing(c, out + w[0]))
  {
    hide Get, Live, Pack, PackString, CString, Reverse, Word;
  }

  lemma ExecQuietIs(s: Stmt, rt: RefTables, env: Env, c: Core, out: seq<byte>)
    requires s.Skip? || s.SetLinear?
    ensures var (r, r') := (Exec(s, rt, env, c), Exec(s, rt, env, Writing(c, out)));
            if r.Stuck? then r'.Stuck? else r.core == c && r' == Run(r.env, Writing(c, out))
  {
    hide EvalLimit, EvalLimits, Evaluates, Horner;
    if s.SetLinear? { SameLimits(s.limits, env, c, c.input, out); }
  }

  /** Writing on: the buffer is not empty if it was not, unless there is an error. */
  twostate predicate GoesOn(writer: FdWriter)
    reads writer
  {
    writer.Fares() && (!writer.error && old(writer.pos) > 0 ==> writer.pos > 0)
  }

  /** The statements of an encoder. Their results do not depend on whether the bytes
    * get through.
    */
  method PerformWrites(s: Stmt, rt: RefTables, env: Env, c: Core, writer: FdWriter, ghost base: seq<byte>, ghost bytes: seq<byte>)
    returns (ok: bool, env': Env, ghost bytes': seq<byte>)
    requires WriteOnly(s) && Small(c.mem) && writer.Took(base, bytes)
    modifies writer`pos, writer`error, writer`sent, writer.data
    ensures writer.Took(base, bytes') && GoesOn(writer)
    ensures ok ==> Exec(s, rt, env, Writing(c, bytes)) == Run(env', Writing(c, bytes'))
    ensures !ok ==> Exec(s, rt, env, Writing(c, bytes)).Stuck?
    decreases s, 1
  {
    hide Exec, Iterate, EvalLimit, Live, Get, Pack, Small, Added;
    ok, env', bytes' := true, env, bytes;
    match s {
      case Seq(a, b) =>
        ArrayWalk.ExecSeq(a, b, rt, env, Writing(c, bytes));
        ok, env', bytes' := PerformWrites(a, rt, env, c, writer, base, bytes);
        if ok { ok, env', bytes' := PerformWrites(b, rt, env', c, writer, base, bytes'); }
      case For(_, _, _) => ok, env', bytes' := PerformWriteLoop(s, rt, env, c, writer, base, bytes);
      case WritePrim(p, lv) =>
        ExecWriteIs(s, rt, env, c, bytes);
        ok, bytes' := PerformWrite(s, rt, env, c, writer, base, bytes);
      case WriteLimit(lv, i) =>
        ExecWriteIs(s, rt, env, c, bytes);
        ok, bytes' := PerformWrite(s, rt, env, c, writer, base, bytes);
      case _ =>
        ExecQuietIs(s, rt, env, c, bytes);
        var r := Exec(s, rt, env, c);
        match r {
          case Stuck => ok := false;
          case Run(e, _) => env' := e;
        }
    }
  }

  /** write_string, write_int for a sample reference, write_packed32 and the other
    * primitives.
    */
  method PerformWrite(s: Stmt, rt: RefTables, env: Env, c: Core, writer: FdWriter, ghost base: seq<byte>, ghost bytes: seq<byte>)
    returns (ok: bool, ghost bytes': seq<byte>)
    requires (s.WritePrim? || s.WriteLimit?) && Small(c.mem) && writer.Took(base, bytes)
    modifies writer`pos, writer`error, writer`sent, writer.data
    ensures writer.Took(base, bytes') && GoesOn(writer)
    ensures var w := Added(s, rt, env, c); ok == (w != []) && (ok ==> bytes' == bytes + w[0])
  {
    hide Pack, PackString, CString, Reverse, Word, Small, Live, Get;
    ok, bytes' := false, bytes;
    match s {
      case WritePrim(p, lv) =>
        var u := Load(lv, env, c);
        if u == [] { return; }
        SmallParts(c.mem, Eval(lv, env));
        ok, bytes' := WriteValue(p, Eval(lv, env), u[0], rt, c.live, writer, base, bytes);
      case WriteLimit(lv, i) =>
        var n := EvalLimit(Count(lv, i), env, c);
        if n == [] { return; }
        LimitSmall(lv, i, env, c);
        var err := writer.WritePacked32(n[0]);
        ok, bytes' := true, bytes + Pack(n[0]);
        Longer(base, bytes, Pack(n[0]));
    }
  }

  lemma Longer(base: seq<byte>, bytes: seq<byte>, more: seq<byte>)
    ensures base + bytes + more == base + (bytes + more)
  {}

  lemma LimitSmall(lv: Path, i: nat, env: Env, c: Core)
    requires Small(c.mem) && EvalLimit(Count(lv, i), env, c) != []
    ensures EvalLimit(Count(lv, i), env, c)[0] < TWO32
  {
    SmallParts(c.mem, Eval(lv, env));
  }

  method WriteValue(p: Prim, at: Place, u: Value, rt: RefTables, live: set<Place>, writer: FdWriter,
                    ghost base: seq<byte>, ghost bytes: seq<byte>)
    returns (ok: bool, ghost bytes': seq<byte>)
    requires Small(u) && writer.Took(base, bytes)
    modifies writer`pos, writer`error, writer`sent, writer.data
    ensures writer.Took(base, bytes') && GoesOn(writer)
    ensures var w := WriteObject(p, at, u, rt, live); ok == (w != []) && (ok ==> bytes' == bytes + w[0])
  {
    hide Pack, PackString, CString, Reverse, Word, ToWire;
    ok, bytes' := false, bytes;
    match p {
      case String =>
        if !u.Str? || at !in live { return; }
        CStringShorter(u.chars);
        var err := writer.WriteString(CString(u.chars));
        ok, bytes' := true, bytes + PackString(CString(u.chars));
        Longer(base, bytes, PackString(CString(u.chars)));
      case Sample =>
        if !u.Ref? { return; }
        var w := Word(ToWire(rt.toWire, u.sample));
        ReverseTwice(w);
        var err := writer.WriteImage(Reverse(w));
        ok, bytes' := true, bytes + w;
        Longer(base, bytes, w);
      case _ =>
        if !u.Bits? { return; }
        var err := writer.WriteImage(u.image);
        ok, bytes' := true, bytes + Reverse(u.image);
        Longer(base, bytes, Reverse(u.image));
    }
  }

  method PerformWriteLoop(s: Stmt, rt: RefTables, env: Env, c: Core, writer: FdWriter, ghost base: seq<byte>, ghost bytes: seq<byte>)
    returns (ok: bool, env': Env, ghost bytes': seq<byte>)
    requires s.For? && WriteOnly(s) && Small(c.mem) && writer.Took(base, bytes)
    modifies writer`pos, writer`error, writer`sent, writer.data
    ensures writer.Took(base, bytes') && GoesOn(writer)
    ensures ok ==> Exec(s, rt, env, Writing(c, bytes)) == Run(env', Writing(c, bytes'))
    ensures !ok ==> Exec(s, rt, env, Writing(c, bytes)).Stuck?
    decreases s, 0
  {
    hide Exec, Iterate, EvalLimit, Small;
    ok, env', bytes' := false, env, bytes;
    ghost var whole := Exec(s, rt, env, Writing(c, bytes));
    ExecForIs(s, rt, env, Writing(c, bytes));
    SameLimit(s.limit, env, c, c.input, bytes);
    var limit := EvalLimit(s.limit, env, c);
    if limit == [] { return; }
    var (i, n) := (0, limit[0]);
    while true
      invariant 0 <= i <= n && writer.Took(base, bytes')
      invariant writer.Fares() && (!writer.error && old(writer.pos) > 0 ==> writer.pos > 0)
      invariant whole == Iterate(s, i, n, rt, env', Writing(c, bytes'))
      decreases n - i
    {
      var at := env'[s.x := i];
      IterateIs(s, i, n, rt, env', Writing(c, bytes'));
      SameLimit(s.limit, at, c, c.input, bytes');
      if EvalLimit(s.limit, at, c) != [n] { return; }
      if i == n { return true, at, bytes'; }
      ok, env', bytes' := PerformWrites(s.body, rt, at, c, writer, base, bytes');
      if !ok { return; }
      if Val(env', s.x) != i { return false, env', bytes'; }
      ok := false;
      i := i + 1;
    }
  }

  /** The emitted encoder, after what has been written before. */
  lemma EncodesAfter(t: Type, v: Value, rt: RefTables, bytes: seq<byte>)
    requires HasType(v, t)
    ensures WriteOnly(EmitEncoder(t, [], 0)) && Small(Caller(t, v).mem)
    ensures var r := Exec(EmitEncoder(t, [], 0), rt, map[], Writing(Caller(t, v), bytes));
            r.Run? && r.core == Writing(Caller(t, v), bytes + Enc(t, v, rt.toWire))
  {
    hide Exec, Enc, HasType, EmitEncoder;
    EncodersWriteOnly(t, [], 0);
    TypedSmall(v, t);
    CallerHolds(t, v);
    Encoder.EncoderCorrect(t, [], 0, rt, map[], Writing(Caller(t, v), bytes), v);
  }
}
