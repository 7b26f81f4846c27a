/** The two ends of a session in place: labcomm2014_encoder.c on a buffered writer
  * and labcomm2014_decoder.c on a buffered reader. Their methods do what the steps
  * of the session model say, for any buffer size.
  */
module Endpoints {
  import opened Wire
  import opened Types
  import opened Codegen
  import opened Signatures
  import opened TypeSignatures
  import opened SampleCodec
  import opened BufferedWriter
  import opened BufferedReader
  import opened GeneratedIO
  import opened Session
  import opened SessionRuns

  // ------------------------------------------------------------------------ encoder

  class PacketEncoder {
    const writer: FdWriter
    /** The flags in the three signature arrays. */
    var registered: set<nat>
    var refs: set<nat>
    var typedefs: set<nat>

    /** Between two packets the buffer is empty. */
    ghost predicate Valid()
      reads this, writer
    {
      writer.Valid() && writer.pos == 0
    }

    function State(): EncState
      reads this
    {
      EncState(registered, refs, typedefs)
    }

    method Pack32(n: nat, ghost base: seq<byte>, ghost bytes: seq<byte>)
      requires writer.Took(base, bytes) && n < TWO32
      modifies writer`pos, writer`error, writer`sent, writer.data
      ensures writer.Took(base, bytes + Pack(n)) && writer.Fares() && (!writer.error ==> writer.pos > 0)
    {
      hide Pack;
      var err := writer.WritePacked32(n);
      assert base + bytes + Pack(n) == base + (bytes + Pack(n));
    }

    method Copy(s: seq<byte>, ghost base: seq<byte>, ghost bytes: seq<byte>)
      requires writer.Took(base, bytes)
      modifies writer`pos, writer`error, writer`sent, writer.data
      ensures writer.Took(base, bytes + s) && writer.Fares()
      ensures !writer.error && old(writer.pos) > 0 ==> writer.pos > 0
    {
      var err := writer.WriteBytes(s);
      assert base + bytes + s == base + (bytes + s);
    }

    /** writer_end: the packet is on its way. A packet has at least one byte, so the
      * flush never sees an empty buffer.
      */
    method End(ghost base: seq<byte>, ghost bytes: seq<byte>)
      requires writer.Took(base, bytes) && (!writer.error ==> writer.pos > 0)
      modifies writer`pos, writer`error, writer`sent
      ensures writer.Valid() && writer.pos == 0 && writer.Fares()
      ensures !writer.error ==> writer.sent == base + bytes
    {
      var err := writer.Flush();
    }

    /** labcomm2014_encoder_new: the version packet comes first. */
    constructor (writer: FdWriter)
      requires writer.Valid() && writer.pos == 0 && writer.sent == [] && !writer.error
      modifies writer`pos, writer`error, writer`sent, writer.data
      ensures Valid() && this.writer == writer && State() == EncState({}, {}, {})
      ensures (writer.healthy ==> !writer.error) && (!writer.error ==> writer.sent == VersionPacket())
    {
      this.writer := writer;
      registered, refs, typedefs := {}, {}, {};
      new;
      hide Pack;
      assert writer.Stream() == [];
      Pack32(VERSION, [], []);
      Pack32(SizeString(CURRENT_VERSION), [], [] + Pack(VERSION));
      var err := writer.WriteString(CURRENT_VERSION);
      ghost var all := [] + Pack(VERSION) + Pack(SizeString(CURRENT_VERSION)) + PackString(CURRENT_VERSION);
      assert writer.Took([], all) by {
        assert [] + all == [] + ([] + Pack(VERSION) + Pack(SizeString(CURRENT_VERSION))) + PackString(CURRENT_VERSION);
      }
      End([], all);
      assert [] + all == VersionPacket();
    }

    /** The code that do_sample_register and do_ref_register share. */
    method WriteDef(tag: nat, index: nat, name: seq<byte>, sig: seq<byte>)
      requires Valid() && tag < TWO32 && index < TWO32 && |name| < TWO31 && |sig| < TWO31
      requires DefLength(index, name, |sig|) < TWO32
      modifies writer`pos, writer`error, writer`sent, writer.data
      ensures Valid() && writer.Fares()
      ensures !writer.error ==> writer.sent == old(writer.sent) + DefPacket(tag, index, name, sig)
    {
      hide Pack, SizePacked;
      var err := writer.Start();
      if err { return; }
      ghost var base := writer.sent;
      assert writer.Took(base, []) by { assert base + writer.data[..0] == base; assert base + [] == base; }
      Header(tag, index, name, |sig|, base);
      ghost var h := HeaderBytes(tag, index, name, |sig|);
      Copy(sig, base, h);
      End(base, h + sig);
      HeaderIs(tag, index, name, sig);
    }

    method Header(tag: nat, index: nat, name: seq<byte>, size: nat, ghost base: seq<byte>)
      requires writer.Took(base, []) && tag < TWO32 && index < TWO32 && |name| < TWO31 && size < TWO31
      requires DefLength(index, name, size) < TWO32
      modifies writer`pos, writer`error, writer`sent, writer.data
      ensures writer.Took(base, HeaderBytes(tag, index, name, size)) && writer.Fares()
      ensures !writer.error ==> writer.pos > 0
    {
      hide Pack, DefLength, PackString;
      var length := DefLength(index, name, size);
      ghost var b0: seq<byte> := [];
      Pack32(tag, base, b0);
      ghost var b1 := b0 + Pack(tag);
      Pack32(length, base, b1);
      ghost var b2 := b1 + Pack(length);
      Pack32(index, base, b2);
      ghost var b3 := b2 + Pack(index);
      Pack32(1, base, b3);
      ghost var b4 := b3 + Pack(1);
      Pack32(0, base, b4);
      ghost var b5 := b4 + Pack(0);
      var err := writer.WriteString(name);
      ghost var b6 := b5 + PackString(name);
      assert writer.Took(base, b6) by { assert base + b5 + PackString(name) == base + b6; }
      Pack32(size, base, b6);
      assert b6 + Pack(size) == HeaderBytes(tag, index, name, size) by {
        assert b1 == Pack(tag);
      }
    }

    /** do_sample_register: the flag is set before anything is written, and a second
      * call is refused.
      */
    method SampleRegister(i: nat, s: Sample, ghost tab: Table) returns (done: bool)
      requires Valid() && i in tab && tab[i] == s && GoodSample(i, s)
      modifies this`registered, writer`pos, writer`error, writer`sent, writer.data
      ensures Valid() && (done <==> i !in old(registered) && !writer.error) && writer.Fares()
      ensures State() == EncStep(tab, old(State()), Register(i)).0
      ensures !writer.error ==> writer.sent == old(writer.sent) + EncStep(tab, old(State()), Register(i)).1
    {
      hide Flat, Written, DefPacket, DefLength, GoodSample;
      if i in registered { return false; }
      registered := registered + {i};
      GoodSizes(i, s);
      GoodLength(i, s);
      WriteDef(SAMPLE_DEF, i, s.name, Flat(s.ty));
      done := !writer.error;
    }

    /** do_ref_register. */
    method RefRegister(i: nat, s: Sample, ghost tab: Table) returns (done: bool)
      requires Valid() && i in tab && tab[i] == s && GoodSample(i, s)
      modifies this`refs, writer`pos, writer`error, writer`sent, writer.data
      ensures Valid() && (done <==> i !in old(refs) && !writer.error) && writer.Fares()
      ensures State() == EncStep(tab, old(State()), RegisterRef(i)).0
      ensures !writer.error ==> writer.sent == old(writer.sent) + EncStep(tab, old(State()), RegisterRef(i)).1
    {
      hide Flat, Written, DefPacket, DefLength, GoodSample;
      if i in refs { return false; }
      refs := refs + {i};
      GoodSizes(i, s);
      GoodLength(i, s);
      WriteDef(SAMPLE_REF, i, s.name, Flat(s.ty));
      done := !writer.error;
    }

    /** do_write_signature: bytes as they are, references as packed indices. */
    method WriteTree(t: Tree, ghost base: seq<byte>, ghost bytes: seq<byte>)
      requires writer.Took(base, bytes) && forall k :: 0 <= k < |t.items| && t.items[k].TypeRef? ==> t.items[k].tree.index < TWO32
      modifies writer`pos, writer`error, writer`sent, writer.data
      ensures writer.Took(base, bytes + Written(t, 0)) && writer.Fares()
      ensures !writer.error && old(writer.pos) > 0 ==> writer.pos > 0
    {
      hide Written, Pack;
      var p := 0;
      ghost var out: seq<byte> := [];
      assert bytes + out == bytes && out + Written(t, 0) == Written(t, 0);
      while p < |t.items| && t.items[p] != Bytes([])
        invariant p <= |t.items| && writer.Took(base, bytes + out) && out + Written(t, p) == Written(t, 0)
        invariant writer.Fares() && (!writer.error && old(writer.pos) > 0 ==> writer.pos > 0)
      {
        WrittenStep(t, p);
        ghost var piece := if t.items[p].Bytes? then t.items[p].data else Pack(t.items[p].tree.index);
        assert out + (piece + Written(t, p + 1)) == out + piece + Written(t, p + 1);
        assert bytes + out + piece == bytes + (out + piece);
        match t.items[p] {
          case Bytes(data) => Copy(data, base, bytes + out);
          case TypeRef(u) => Pack32(u.index, base, bytes + out);
        }
        out := out + piece;
        p := p + 1;
      }
      WrittenEnd(t, p);
      assert out + [] == out;
    }

    /** internal_reg_type: the length is computed before the tree is written. */
    method TypeRegister(i: nat, s: Sample, ghost tab: Table) returns (done: bool)
      requires Valid() && i in tab && tab[i] == s && GoodSample(i, s)
      requires forall k :: 0 <= k < |s.tree.items| && s.tree.items[k].TypeRef? ==> s.tree.items[k].tree.index < TWO32
      modifies this`typedefs, writer`pos, writer`error, writer`sent, writer.data
      ensures Valid() && (done <==> i !in old(typedefs) && !writer.error) && writer.Fares()
      ensures State() == EncStep(tab, old(State()), RegisterType(i)).0
      ensures !writer.error ==> writer.sent == old(writer.sent) + EncStep(tab, old(State()), RegisterType(i)).1
    {
      hide Flat, Written, DefPacket, DefLength, GoodSample, HeaderBytes, Pack;
      if i in typedefs { return false; }
      typedefs := typedefs + {i};
      GoodSizes(i, s);
      GoodLength(i, s);
      var err := writer.Start();
      if err { return false; }
      var size := EncodedSize(s.tree);
      ghost var base := writer.sent;
      assert writer.Took(base, []) by { assert base + writer.data[..0] == base; assert base + [] == base; }
      Header(TYPE_DEF, i, s.name, size, base);
      ghost var h := HeaderBytes(TYPE_DEF, i, s.name, size);
      WriteTree(s.tree, base, h);
      End(base, h + Written(s.tree, 0));
      HeaderIs(TYPE_DEF, i, s.name, Written(s.tree, 0));
      done := !writer.error;
    }

    /** do_type_bind. */
    method TypeBind(i: nat, hasDeps: bool, ghost tab: Table)
      requires Valid() && i in tab && GoodSample(i, tab[i])
      modifies writer`pos, writer`error, writer`sent, writer.data
      ensures Valid() && writer.Fares()
      ensures State() == EncStep(tab, old(State()), Bind(i, hasDeps)).0
      ensures !writer.error ==> writer.sent == old(writer.sent) + EncStep(tab, old(State()), Bind(i, hasDeps)).1
    {
      hide Pack, GoodSample, Flat, Written, DefPacket, SizePacked;
      GoodSizes(i, tab[i]);
      var tindex := if hasDeps then i else 0;
      var err := writer.Start();
      if err { return; }
      ghost var base := writer.sent;
      ghost var b0: seq<byte> := [];
      assert writer.Took(base, b0) by { assert base + writer.data[..0] == base; assert base + [] == base; }
      SizeBound(i);
      SizeBound(tindex);
      var length := SizePacked(i) + SizePacked(tindex);
      Pack32(TYPE_BINDING, base, b0);
      ghost var b1 := b0 + Pack(TYPE_BINDING);
      Pack32(length, base, b1);
      ghost var b2 := b1 + Pack(length);
      Pack32(i, base, b2);
      ghost var b3 := b2 + Pack(i);
      Pack32(tindex, base, b3);
      ghost var b4 := b3 + Pack(tindex);
      End(base, b4);
      assert b4 == BindPacket(i, tindex) by { assert b1 == Pack(TYPE_BINDING); }
    }

    /** do_encode with the generated sizeof and encode functions; `c` is the caller's
      * sample.
      */
    method Encode(i: nat, ty: Type, c: Core, ghost v: Value, ghost tab: Table) returns (done: bool)
      requires Valid() && i in tab && tab[i].ty == ty && i < TWO32 && Admissible(tab, Send(i, v)) && c == Caller(ty, v)
      modifies writer`pos, writer`error, writer`sent, writer.data
      ensures Valid() && (done <==> i in registered && !writer.error) && writer.Fares()
      ensures State() == EncStep(tab, old(State()), Send(i, v)).0
      ensures !writer.error ==> writer.sent == old(writer.sent) + EncStep(tab, old(State()), Send(i, v)).1
    {
      hide Pack, Exec, HasType, Enc, OutRefs, Flat, Written, DefPacket, Caller, Small, WriteOnly;
      if i !in registered { return false; }
      var rt := RefTables(OutRefs(State()), map[]);
      SizeofPredicts(ty, v, rt);
      EncodeWrites(ty, v, rt);
      var length := Exec(EmitSampleSizeof(ty), rt, map[], c).core.size;
      assert length < TWO32;
      var err := writer.Start();
      if err { return false; }
      ghost var base := writer.sent;
      ghost var b0: seq<byte> := [];
      assert writer.Took(base, b0) by { assert base + writer.data[..0] == base; assert base + [] == base; }
      Pack32(i, base, b0);
      ghost var b1 := b0 + Pack(i);
      Pack32(length, base, b1);
      ghost var b2 := b1 + Pack(length);
      EncodesAfter(ty, v, rt, b2);
      ghost var body := Enc(ty, v, rt.toWire);
      ghost var b3;
      var ok, env;
      ok, env, b3 := PerformWrites(EmitEncoder(ty, [], 0), rt, map[], c, writer, base, b2);
      SameOutput(c, b3, b2 + body);
      End(base, b2 + body);
      assert b2 + body == DataPacket(i, tab[i], v, OutRefs(State())) by { assert b1 == Pack(i); }
      done := !writer.error;
    }
  }

  lemma SameOutput(c: Core, a: seq<byte>, b: seq<byte>)
    ensures Writing(c, a) == Writing(c, b) ==> a == b
  {}

  ghost function HeaderBytes(tag: nat, index: nat, name: seq<byte>, size: nat): seq<byte> {
    Pack(tag) + Pack(DefLength(index, name, size)) + Pack(index) + Pack(1) + Pack(0) + PackString(name) + Pack(size)
  }

  lemma HeaderIs(tag: nat, index: nat, name: seq<byte>, sig: seq<byte>)
    ensures HeaderBytes(tag, index, name, |sig|) + sig == DefPacket(tag, index, name, sig)
  {
    hide Pack, DefLength, PackString;
  }

  // ------------------------------------------------------------------------ decoder

  /** What one call of decode_one comes to: an error, or events and whether the result
    * is positive.
    */
  datatype PacketResult = Stopped(why: Stop) | Done(events: seq<Event>) | Finished(events: seq<Event>)

  function AsTurn(r: PacketResult, st: DecState, rest: seq<byte>): Turn {
    match r
    case Stopped(why) => Failed(why)
    case Done(events) => Next(st, rest, events)
    case Finished(events) => Last(st, rest, events)
  }

  /** A result that is an int from the packet. */
  function Positive(n: nat): PacketResult {
    if 0 < n < TWO31 then Done([]) else Finished([])
  }

  const NOTHING: Registered := Registered(map[], 0, 0, map[], 0, 0, false, false)

  class PacketDecoder {
    const reader: FdReader
    /** The local arrays; remote_to_local and remote_to_local_ref without zeros. */
    var reg: Registered
    var versionOk: bool
    var r2l: map<nat, nat>
    var r2lRef: map<nat, nat>

    function State(): DecState
      reads this
    {
      DecState(versionOk, r2l, r2lRef)
    }

    constructor (reader: FdReader)
      ensures this.reader == reader && reg == NOTHING && State() == DecNew(NOTHING)
    {
      this.reader := reader;
      reg := NOTHING;
      versionOk, r2l, r2lRef := false, map[], map[];
    }

    /** The scan of handle_sample_def and handle_sample_ref. */
    static method Scan(tab: Table, first: nat, last: nat, name: seq<byte>, sig: seq<byte>) returns (i: nat)
      ensures i == FirstMatch(tab, first, last, name, sig)
    {
      hide Matches;
      var k := first;
      while k < last
        invariant FirstMatch(tab, k, last, name, sig) == FirstMatch(tab, first, last, name, sig)
      {
        if k in tab && Matches(tab[k], name, sig) { return k; }
        k := k + 1;
      }
      return 0;
    }

    /** TODO_read_intentions after the count. */
    method Names(num: nat) returns (name: seq<seq<byte>>)
      requires reader.Valid()
      modifies reader`pos, reader`count, reader`error, reader`incoming, reader.data
      ensures reader.Valid() && (old(reader.error) ==> reader.error)
      ensures !reader.error ==> ReadIntentions(num, [], old(reader.Stream())) == Ok(name, reader.Stream())
      ensures reader.healthy && !old(reader.error) ==> (reader.error <==> ReadIntentions(num, [], old(reader.Stream())).Fail?)
    {
      hide Unpack, ReadInt, SkipBytes;
      name := [];
      var n := num;
      while n > 0
        invariant 0 <= n <= num && reader.Valid() && reader.error == old(reader.error)
        invariant ReadIntentions(n, name, reader.Stream()) == ReadIntentions(num, [], old(reader.Stream()))
      {
        var klen := reader.ReadPacked32();
        if reader.error { return; }
        if klen == 0 {
          var v := reader.ReadString();
          if reader.error { return; }
          name := [v];
        } else {
          Ignore(klen);
          if reader.error { return; }
          var vlen := reader.ReadPacked32();
          if reader.error { return; }
          Ignore(vlen);
          if reader.error { return; }
        }
        n := n - 1;
      }
    }

    /** reader_skip. */
    method Ignore(length: nat)
      requires reader.Valid()
      modifies reader`pos, reader`count, reader`error, reader`incoming, reader.data
      ensures reader.Valid() && (old(reader.error) ==> reader.error)
      ensures !reader.error ==> SkipBytes(length, old(reader.Stream())) == Ok((), reader.Stream())
      ensures reader.healthy && !old(reader.error) ==> (reader.error <==> SkipBytes(length, old(reader.Stream())).Fail?)
    {
      hide TakeInt;
      reader.Skip(length);
    }

    /** The reading part of decode_sample_def_or_ref. A definition without a name
      * would be a NULL string; it is not `ok`.
      */
    method ReadDefinition() returns (ok: bool, d: Def)
      requires reader.Valid() && !reader.error
      modifies reader`pos, reader`count, reader`error, reader`incoming, reader.data
      ensures reader.Valid()
      ensures ok ==> !reader.error && ReadDef(old(reader.Stream())) == Ok(d, reader.Stream())
      ensures reader.healthy && !ok ==> ReadDef(old(reader.Stream())).Fail?
    {
      hide Unpack, ReadIntentions, ReadInt, CString;
      ok, d := false, Def(0, [], []);
      var index := reader.ReadPacked32();
      if reader.error { return; }
      var num := reader.ReadByte();
      if reader.error { return; }
      var name := Names(num);
      if reader.error { return; }
      var sig := reader.ReadString();
      if reader.error || name == [] { return; }
      ok, d := true, Def(index, CString(name[0]), sig);
    }

    /** decode_sample_def_or_ref with handle_sample_def. */
    method OnSampleDef() returns (r: PacketResult)
      requires reader.Valid() && !reader.error
      modifies this`r2l, reader`pos, reader`count, reader`error, reader`incoming, reader.data
      ensures reader.Valid() && (!r.Stopped? ==> !reader.error)
      ensures !r.Stopped? || reader.healthy ==>
                DecodeDef(reg, old(State()), old(reader.Stream())) == AsTurn(r, State(), reader.Stream())
    {
      hide ReadDef, FirstMatch;
      var ok, d := ReadDefinition();
      if !ok { return Stopped(Broken); }
      if reg.first >= reg.last { return Stopped(Unset); }
      var i := Scan(reg.locals, reg.first, reg.last, d.name, d.sig);
      if i == 0 { return Stopped(NoEntry); }
      r2l := r2l[d.index := i];
      return Positive(d.index);
    }

    /** decode_sample_def_or_ref with handle_sample_ref. */
    method OnSampleRef() returns (r: PacketResult)
      requires reader.Valid() && !reader.error
      modifies this`r2lRef, reader`pos, reader`count, reader`error, reader`incoming, reader.data
      ensures reader.Valid() && (!r.Stopped? ==> !reader.error)
      ensures !r.Stopped? || reader.healthy ==>
                DecodeRef(reg, old(State()), old(reader.Stream())) == AsTurn(r, State(), reader.Stream())
    {
      hide ReadDef, FirstMatch;
      var ok, d := ReadDefinition();
      if !ok { return Stopped(Broken); }
      if reg.refFirst >= reg.refLast { return Stopped(Unset); }
      var i := Scan(reg.refs, reg.refFirst, reg.refLast, d.name, d.sig);
      if i == 0 { return Done([]); }
      r2lRef := r2lRef[d.index := i];
      return Positive(d.index);
    }

    /** decode_raw_type_def. */
    method OnTypeDef() returns (r: PacketResult)
      requires reader.Valid() && !reader.error
      modifies reader`pos, reader`count, reader`error, reader`incoming, reader.data
      ensures reader.Valid() && (!r.Stopped? ==> !reader.error)
      ensures !r.Stopped? || reader.healthy ==> RawTypeDef(State(), old(reader.Stream())) == AsTurn(r, State(), reader.Stream())
    {
      hide ReadDef;
      var ok, d := ReadDefinition();
      if !ok { return Stopped(Broken); }
      return Done([TypeDefined(d.index, d.name, d.sig)]);
    }

    /** decode_type_binding. */
    method OnBinding() returns (r: PacketResult)
      requires reader.Valid() && !reader.error
      modifies reader`pos, reader`count, reader`error, reader`incoming, reader.data
      ensures reader.Valid() && (!r.Stopped? ==> !reader.error)
      ensures !r.Stopped? || reader.healthy ==> RawBinding(State(), old(reader.Stream())) == AsTurn(r, State(), reader.Stream())
    {
      hide Unpack;
      var a := reader.ReadPacked32();
      if reader.error { return Stopped(Broken); }
      var b := reader.ReadPacked32();
      if reader.error { return Stopped(Broken); }
      return Done([Bound(a, b)]);
    }

    /** The generated decoder of a sample, on the reader. */
    method OnSample(local: nat) returns (r: PacketResult)
      requires reader.Valid() && !reader.error
      modifies reader`pos, reader`count, reader`error, reader`incoming, reader.data
      ensures reader.Valid() && (!r.Stopped? ==> !reader.error && |reader.Stream()| <= |old(reader.Stream())|)
      ensures !r.Stopped? || reader.healthy ==>
                DecodeSample(reg, State(), local, old(reader.Stream())) == AsTurn(r, State(), reader.Stream())
    {
      hide Exec, EmitSampleDecoder, Blank, InRefs;
      if local !in reg.locals { return Stopped(NoEntry); }
      var t := reg.locals[local].ty;
      var c := Core(Blank(t), {}, [], [], 0, []);
      var ok, env, c' := PerformReads(EmitSampleDecoder(t), RefTables(map[], InRefs(reg, State())), map[], c, reader);
      if !ok || |c'.handled| != 1 { return Stopped(Broken); }
      return Done([Handled(local, c'.handled[0])]);
    }

    /** decode_and_handle. */
    method OnEntry(e: Entry) returns (r: PacketResult)
      requires reader.Valid() && !reader.error
      modifies reader`pos, reader`count, reader`error, reader`incoming, reader.data
      ensures reader.Valid() && (!r.Stopped? ==> !reader.error)
      ensures !r.Stopped? || reader.healthy ==> DecodeEntry(reg, State(), e, old(reader.Stream())) == AsTurn(r, State(), reader.Stream())
    {
      hide RawTypeDef, RawBinding, DecodeSample;
      match e {
        case RawType => r := OnTypeDef();
        case RawBind => r := OnBinding();
        case Generated(local) => r := OnSample(local);
        case NoHandler => r := Stopped(NoEntry);
      }
    }

    method OnSkipped(tag: nat, length: nat) returns (r: PacketResult)
      requires reader.Valid() && !reader.error
      modifies reader`pos, reader`count, reader`error, reader`incoming, reader.data
      ensures reader.Valid() && (!r.Stopped? ==> !reader.error)
      ensures !r.Stopped? || reader.healthy ==>
                Skipped(State(), tag, length, old(reader.Stream())) == AsTurn(r, State(), reader.Stream())
    {
      hide SkipBytes;
      Ignore(length);
      if reader.error { return Stopped(Broken); }
      return Positive(tag);
    }

    /** decode_pragma. */
    method OnPragma(length: nat) returns (r: PacketResult)
      requires reader.Valid() && !reader.error
      modifies reader`pos, reader`count, reader`error, reader`incoming, reader.data
      ensures reader.Valid() && (!r.Stopped? ==> !reader.error)
      ensures !r.Stopped? || reader.healthy ==>
                DecodePragma(State(), length, old(reader.Stream())) == AsTurn(r, State(), reader.Stream())
    {
      hide ReadInt, SkipBytes, CString, SizeString;
      var kind := reader.ReadString();
      if reader.error { return Stopped(Broken); }
      var n := SizeString(CString(kind));
      Ignore(if n <= length < TWO31 then length - n else 0);
      if reader.error { return Stopped(Broken); }
      return Done([]);
    }

    method OnVersion() returns (r: PacketResult)
      requires reader.Valid() && !reader.error
      modifies this`versionOk, reader`pos, reader`count, reader`error, reader`incoming, reader.data
      ensures reader.Valid() && (!r.Stopped? ==> !reader.error)
      ensures !r.Stopped? || reader.healthy ==>
                DecodeVersion(old(State()), old(reader.Stream())) == AsTurn(r, State(), reader.Stream())
    {
      hide ReadInt, CString;
      var v := reader.ReadString();
      if reader.error { return Stopped(Broken); }
      if CString(v) != CURRENT_VERSION { return Stopped(ConnReset); }
      versionOk := true;
      return Done([]);
    }

    /** The branches of do_decode_one. */
    method Body(tag: nat, length: nat) returns (r: PacketResult)
      requires reader.Valid() && !reader.error
      modifies this`versionOk, this`r2l, this`r2lRef, reader`pos, reader`count, reader`error, reader`incoming, reader.data
      ensures reader.Valid() && reg == old(reg) && (!r.Stopped? ==> !reader.error)
      ensures !r.Stopped? || reader.healthy ==>
                DecodeBody(reg, old(State()), tag, length, old(reader.Stream())) == AsTurn(r, State(), reader.Stream())
    {
      hide DecodeVersion, DecodeDef, DecodeRef, DecodeEntry, Skipped, DecodePragma, EntryFor;
      if tag == VERSION {
        r := OnVersion();
      } else if !versionOk {
        r := Stopped(ConnReset);
      } else if tag == SAMPLE_DEF {
        r := OnSampleDef();
      } else if tag == SAMPLE_REF {
        r := OnSampleRef();
      } else if tag == TYPE_DEF || tag == TYPE_BINDING {
        var e := EntryFor(reg, State(), tag);
        if e.NoHandler? { r := OnSkipped(tag, length); } else { r := OnEntry(e); }
      } else if tag == PRAGMA {
        r := OnPragma(length);
      } else if tag < USER || tag >= TWO31 {
        r := OnSkipped(tag, length);
      } else {
        r := OnEntry(EntryFor(reg, State(), tag));
      }
    }

    /** do_decode_one: any packet, well formed or not, has the outcome that the session
      * model gives to its bytes.
      */
    method One() returns (r: PacketResult)
      requires reader.Valid() && !reader.error
      modifies this`versionOk, this`r2l, this`r2lRef, reader`pos, reader`count, reader`error, reader`incoming, reader.data
      ensures reader.Valid() && reg == old(reg) && (!r.Stopped? ==> !reader.error)
      ensures !r.Stopped? || reader.healthy ==>
                DecodeOne(reg, old(State()), old(reader.Stream())) == AsTurn(r, State(), reader.Stream())
    {
      hide Unpack, DecodeBody;
      var tag := reader.ReadPacked32();
      if reader.error { return Stopped(Broken); }
      var length := reader.ReadPacked32();
      if reader.error { return Stopped(Broken); }
      r := Body(tag, length);
    }

    // ------------------------------------------------------------------ registrations

    /** do_register_sample. */
    method SampleRegister(l: nat, s: Sample)
      modifies this`reg
      ensures (reg, State()) == (Hearing(old(reg), AddSample(l, s)), HearingTables(old(reg), old(State()), AddSample(l, s)))
      ensures KeepsSessions(old(reg), old(State()), AddSample(l, s), reg, State())
    {
      ghost var (reg0, st0) := (reg, State());
      if l != 0 { reg := WidenLocals(reg.(locals := reg.locals[l := s]), l); }
      SessionsKept(reg0, st0, AddSample(l, s));
    }

    /** do_ref_register of the decoder. A reference that comes in time is translated in
      * every session from then on; it clears the slot of the remote index that has the
      * number of the local one.
      */
    method RefRegister(l: nat, s: Sample)
      modifies this`reg, this`r2lRef
      ensures (reg, State()) == (Hearing(old(reg), AddReference(l, s)), HearingTables(old(reg), old(State()), AddReference(l, s)))
      ensures KeepsSessions(old(reg), old(State()), AddReference(l, s), reg, State())
    {
      ghost var (reg0, st0) := (reg, State());
      if l != 0 && l !in reg.refs {
        reg := AddRef(reg, l, s);
        r2lRef := r2lRef - {l};
      }
      SessionsKept(reg0, st0, AddReference(l, s));
    }

    /** labcomm2014_decoder_register_labcomm2014_type_def and ..._type_binding. */
    method HandlerRegister(types: bool)
      modifies this`reg, this`r2l
      ensures var h := if types then HandleTypes else HandleBindings;
              && (reg, State()) == (Hearing(old(reg), h), HearingTables(old(reg), old(State()), h))
              && KeepsSessions(old(reg), old(State()), h, reg, State())
    {
      ghost var (reg0, st0) := (reg, State());
      if types {
        reg := WidenLocals(reg.(onTypeDef := true), TYPE_DEF);
        r2l := r2l[TYPE_DEF := TYPE_DEF];
      } else {
        reg := WidenLocals(reg.(onBinding := true), TYPE_BINDING);
        r2l := r2l[TYPE_BINDING := TYPE_BINDING];
      }
      SessionsKept(reg0, st0, if types then HandleTypes else HandleBindings);
    }
  }

  /** A registration in time keeps the decoder linked to any sender it is linked to, so
    * that what the sender does next arrives as expected.
    */
  ghost predicate KeepsSessions(reg: Registered, st: DecState, h: Hear, reg': Registered, st': DecState) {
    forall tab, est ::
      GoodTable(tab) && GoodReceiver(tab, reg) && Linked(tab, reg, est, st) && Timely(tab, reg, est, h)
      ==> GoodReceiver(tab, reg') && Linked(tab, reg', est, st')
  }

  lemma SessionsKept(reg: Registered, st: DecState, h: Hear)
    ensures KeepsSessions(reg, st, h, Hearing(reg, h), HearingTables(reg, st, h))
  {
    hide GoodTable, GoodReceiver, Linked, Timely, Hearing, HearingTables;
    forall tab, est | GoodTable(tab) && GoodReceiver(tab, reg) && Linked(tab, reg, est, st) && Timely(tab, reg, est, h)
      ensures GoodReceiver(tab, Hearing(reg, h)) && Linked(tab, Hearing(reg, h), est, HearingTables(reg, st, h))
    {
      InTime(tab, reg, est, st, h);
    }
  }
}
