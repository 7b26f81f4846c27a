/** The three C functions generated for a sample, and how they fit together. */
module SampleCodec {
  import opened Wire
  import opened Types
  import opened Memory
  import opened Codegen
  import opened ArrayWalk
  import opened Blocks
  import opened Decoder
  import opened Encoder
  import opened Sizeof
  import opened Dealloc

  /** The caller's sample, in memory of its own. */
  function Caller(t: Type, v: Value): Core
    requires HasType(v, t)
  {
    Core(v, BlocksOf(t, v, []), [], [], 0, [])
  }

  /** encode_<sample>. */
  function RunEncode(t: Type, v: Value, rt: RefTables): Outcome
    requires HasType(v, t)
  {
    Exec(EmitEncoder(t, [], 0), rt, map[], Caller(t, v))
  }

  /** sizeof_<sample>. */
  function RunSizeof(t: Type, v: Value, rt: RefTables): Outcome
    requires HasType(v, t)
  {
    Exec(EmitSampleSizeof(t), rt, map[], Caller(t, v))
  }

  /** decode_<sample>, on a fresh local variable. */
  function RunDecode(t: Type, input: seq<byte>, rt: RefTables): Outcome {
    Exec(EmitSampleDecoder(t), rt, map[], Core(Blank(t), {}, input, [], 0, []))
  }

  lemma CallerHolds(t: Type, v: Value)
    requires HasType(v, t)
    ensures Holds(Caller(t, v), t, v, Eval([], map[])) && Below([], 0)
  {
    hide HasType, BlocksOf;
    assert Eval([], map[]) == [];
  }

  /** The generated encoder produces the documented encoding. */
  lemma EncodeWrites(t: Type, v: Value, rt: RefTables)
    requires HasType(v, t)
    ensures RunEncode(t, v, rt).Run? && RunEncode(t, v, rt).core.output == Enc(t, v, rt.toWire)
  {
    hide Exec, Enc, Holds, HasType, Below, EmitEncoder;
    CallerHolds(t, v);
    EncoderCorrect(t, [], 0, rt, map[], Caller(t, v), v);
    assert [] + Enc(t, v, rt.toWire) == Enc(t, v, rt.toWire);
  }

  /** The generated sizeof is the length of what the generated encoder writes. */
  lemma SizeofPredicts(t: Type, v: Value, rt: RefTables)
    requires HasType(v, t)
    ensures RunSizeof(t, v, rt).Run? && RunEncode(t, v, rt).Run?
    ensures RunSizeof(t, v, rt).core.size == |RunEncode(t, v, rt).core.output|
  {
    hide Enc, Holds, HasType, Below, EmitEncoder, EmitSizeof, IsDynamic, FixedSizeof, RunEncode;
    EncodeWrites(t, v, rt);
    CallerHolds(t, v);
    if IsDynamic(t) {
      SizeofCorrect(t, [], 0, rt, map[], Caller(t, v), v);
    } else {
      FixedSizeCorrect(t, v, rt);
    }
  }

  /** Decoding, handling and deallocating: the handler sees the sender's value,
    * exactly the sample's bytes are consumed, and no block is left behind.
    */
  lemma DecodeHandlesAndFrees(t: Type, v: Value, rx: RefTables, rt: RefTables, rest: seq<byte>)
    requires HasType(v, t) && rx.fromWire == rt.fromWire
    ensures var r := RunDecode(t, Enc(t, v, rt.toWire) + rest, rx);
            r.Run? && r.core.handled == [Carried(v, rt)] && r.core.input == rest && r.core.live == {}
  {
    hide *;
    var c := Core(Blank(t), {}, Enc(t, v, rt.toWire) + rest, [], 0, []);
    Root(t, c);
    DecoderCorrect(t, [], 0, rx, rt, map[], c, v, rest);
    var c1 := Decoded(c, t, v, [], rt, rest);
    var r1 := Exec(EmitDecoder(t, [], 0), rx, map[], c);
    Reached(r1, map[], 0, c1);
    AfterDecode(c, t, v, rt, rest);
    UnfoldSampleDecoder(t, Enc(t, v, rt.toWire) + rest, rx, c);
    var end := if IsDynamic(t) then EmitDealloc(t, [], 0) else Skip;
    ExecSeq(EmitDecoder(t, [], 0), Seq(Handle, end), rx, map[], c);
    HandleAndFree(t, Carried(v, rt), rx, r1.env, c1);
  }

  lemma HandleAndFree(t: Type, v: Value, rx: RefTables, env: Env, c: Core)
    requires HasType(v, t) && Holds(c, t, v, []) && c.live == BlocksOf(t, v, []) && c.mem == v
    ensures var end := if IsDynamic(t) then EmitDealloc(t, [], 0) else Skip;
            var r := Exec(Seq(Handle, end), rx, env, c);
            r.Run? && r.core.handled == c.handled + [v] && r.core.input == c.input && r.core.live == {}
  {
    hide *;
    var end := if IsDynamic(t) then EmitDealloc(t, [], 0) else Skip;
    ExecSeq(Handle, end, rx, env, c);
    ExecHandle(rx, env, c);
    var c2 := c.(handled := c.handled + [v]);
    if IsDynamic(t) {
      HoldsElsewhere(c, c2, t, v, []);
      EmptyPath(env);
      DeallocCorrect(t, [], 0, rx, env, c2, v);
      Reached(Exec(end, rx, env, c2), env, 0, Freed(c2, BlocksOf(t, v, [])));
      AllFreed(c2, BlocksOf(t, v, []));
    } else {
      ExecSkip(rx, env, c2);
      StaticOwnsNothing(t, v, []);
    }
  }

  lemma EmptyPath(env: Env)
    ensures Eval([], env) == [] && Below([], 0)
  {}

  lemma AllFreed(c: Core, b: set<Place>)
    requires c.live == b
    ensures Freed(c, b).live == {} && Freed(c, b).handled == c.handled && Freed(c, b).input == c.input
  {}

  lemma ExecHandle(rt: RefTables, env: Env, c: Core)
    ensures Exec(Handle, rt, env, c) == Run(env, c.(handled := c.handled + [c.mem]))
  {}

  lemma UnfoldSampleDecoder(t: Type, input: seq<byte>, rt: RefTables, c: Core)
    requires c == Core(Blank(t), {}, input, [], 0, [])
    ensures RunDecode(t, input, rt)
            == Exec(Seq(EmitDecoder(t, [], 0), Seq(Handle, if IsDynamic(t) then EmitDealloc(t, [], 0) else Skip)), rt, map[], c)
  {}

  lemma Root(t: Type, c: Core)
    requires c.mem == Blank(t) && c.live == {}
    ensures Eval([], map[]) == [] && Below([], 0) && Get(c.mem, []) != [] && ReadyFor(c, t, [])
  {}

  lemma AfterDecode(c: Core, t: Type, v: Value, rt: RefTables, rest: seq<byte>)
    requires HasType(v, t) && c.live == {} && c.handled == [] && Get(c.mem, []) != []
    ensures var c1 := Decoded(c, t, v, [], rt, rest);
            && c1.mem == Carried(v, rt) && c1.live == BlocksOf(t, v, []) && c1.input == rest && c1.handled == []
            && Holds(c1, t, Carried(v, rt), [])
            && HasType(Carried(v, rt), t) && BlocksOf(t, Carried(v, rt), []) == BlocksOf(t, v, [])
  {
    hide HasType, BlocksOf, Carried;
    CarriedHasType(v, t, rt);
    CarriedBlocks(t, v, [], rt);
    var c1 := Decoded(c, t, v, [], rt, rest);
    assert {} + BlocksOf(t, v, []) == BlocksOf(t, v, []);
    assert Get(c1.mem, []) == [c1.mem];
  }

  /** Round trip of the generated functions, for every type and value: the sender
    * runs with its own reference table, the receiver with its own.
    */
  lemma SampleRoundTrip(t: Type, v: Value, tx: RefTables, rx: RefTables, rest: seq<byte>)
    requires HasType(v, t)
    ensures RunEncode(t, v, tx).Run?
    ensures var r := RunDecode(t, RunEncode(t, v, tx).core.output + rest, rx);
            r.Run? && r.core.handled == [Carried(v, RefTables(tx.toWire, rx.fromWire))] && r.core.input == rest && r.core.live == {}
  {
    hide RunEncode, RunDecode, Enc, HasType;
    EncodeWrites(t, v, tx);
    DecodeHandlesAndFrees(t, v, rx, RefTables(tx.toWire, rx.fromWire), rest);
  }
}
