/** Both ends of a session in place: an encoder with generated encoders on a buffered
  * writer, a decoder with generated decoders on a buffered reader, and what is handled
  * in the end.
  */
module EndpointRuns {
  import opened Wire
  import opened Types
  import opened Codegen
  import opened TypeSignatures
  import opened SampleCodec
  import ArrayWalk
  import opened BufferedWriter
  import opened BufferedReader
  import opened GeneratedIO
  import opened Session
  import opened SessionRuns
  import opened Endpoints

  // ------------------------------------------------------- every packet takes some bytes

  lemma {:induction false} ExecShrinks(s: Stmt, rt: RefTables, env: Env, c: Core)
    ensures var r := Exec(s, rt, env, c); r.Run? ==> |r.core.input| <= |c.input|
    decreases s, 1, 0
  {
    hide Exec, Iterate, EvalLimit;
    match s
    case Seq(a, b) =>
      ArrayWalk.ExecSeq(a, b, rt, env, c);
      ExecShrinks(a, rt, env, c);
      var r := Exec(a, rt, env, c);
      if r.Run? { ExecShrinks(b, rt, r.env, r.core); }
    case For(_, _, _) =>
      ExecForIs(s, rt, env, c);
      var n := EvalLimit(s.limit, env, c);
      if n != [] { IterateShrinks(s, 0, n[0], rt, env, c); }
    case ReadPrim(p, lv) => ReadPrimShrinks(p, lv, rt, env, c);
    case ReadLimit(lv, i) => ExecReadLimitIs(lv, i, rt, env, c, c.input);
    case WritePrim(_, _) => ExecWriteIs(s, rt, env, c, c.output);
    case WriteLimit(_, _) => ExecWriteIs(s, rt, env, c, c.output);
    case _ => ExecPlain(s, rt, env, c, c.input, c.output);
  }

  lemma ReadPrimShrinks(p: Prim, lv: Path, rt: RefTables, env: Env, c: Core)
    ensures var r := Exec(ReadPrim(p, lv), rt, env, c); r.Run? ==> |r.core.input| <= |c.input|
  {
    hide Exec, ReadInt;
    ExecReadPrimIs(p, lv, rt, env, c, c.input);
  }

  lemma {:induction false} IterateShrinks(s: Stmt, i: nat, n: nat, rt: RefTables, env: Env, c: Core)
    requires s.For? && i <= n
    ensures var r := Iterate(s, i, n, rt, env, c); r.Run? ==> |r.core.input| <= |c.input|
    decreases s, 0, n - i
  {
    hide Exec, Iterate, EvalLimit;
    IterateIs(s, i, n, rt, env, c);
    if i < n {
      var at := env[s.x := i];
      ExecShrinks(s.body, rt, at, c);
      var r := Exec(s.body, rt, at, c);
      if r.Run? { IterateShrinks(s, i + 1, n, rt, r.env, r.core); }
    }
  }

  lemma SkipShrinks(n: nat, s: seq<byte>)
    ensures SkipBytes(n, s).Ok? ==> |SkipBytes(n, s).rest| <= |s|
  {}

  lemma DefShrinks(s: seq<byte>)
    ensures ReadDef(s).Ok? ==> |ReadDef(s).rest| <= |s|
  {
    hide Unpack, ReadInt, CString;
  }

  ghost predicate Shrinks(t: Turn, s: seq<byte>) {
    !t.Failed? ==> |t.rest| <= |s|
  }

  lemma SampleShrinks(reg: Registered, st: DecState, local: nat, s: seq<byte>)
    ensures Shrinks(DecodeSample(reg, st, local, s), s)
  {
    hide Exec, EmitSampleDecoder, Blank, InRefs;
    if local in reg.locals {
      var t := reg.locals[local].ty;
      ExecShrinks(EmitSampleDecoder(t), RefTables(map[], InRefs(reg, st)), map[], Core(Blank(t), {}, s, [], 0, []));
    }
  }

  lemma EntryShrinks(reg: Registered, st: DecState, e: Entry, s: seq<byte>)
    ensures Shrinks(DecodeEntry(reg, st, e, s), s)
  {
    hide Unpack, ReadDef, DecodeSample;
    DefShrinks(s);
    if e.Generated? { SampleShrinks(reg, st, e.local, s); }
  }

  lemma BodyShrinks(reg: Registered, st: DecState, tag: nat, length: nat, s: seq<byte>)
    ensures Shrinks(DecodeBody(reg, st, tag, length, s), s)
  {
    hide Unpack, ReadDef, ReadInt, SkipBytes, DecodeEntry, EntryFor, CString, FirstMatch;
    DefShrinks(s);
    SkipShrinks(length, s);
    EntryShrinks(reg, st, EntryFor(reg, st, tag), s);
    if tag == PRAGMA && ReadInt(s).Ok? {
      var n := SizeString(CString(ReadInt(s).value));
      SkipShrinks(if n <= length < TWO31 then length - n else 0, ReadInt(s).rest);
    }
  }

  /** So decoder_run ends on every finite stream. */
  lemma OneShrinks(reg: Registered, st: DecState, s: seq<byte>)
    ensures var t := DecodeOne(reg, st, s); !t.Failed? ==> |t.rest| < |s|
  {
    hide Unpack, DecodeBody;
    if Unpack(s).Ok? && Unpack(Unpack(s).rest).Ok? {
      BodyShrinks(reg, st, Unpack(s).value, Unpack(Unpack(s).rest).value, Unpack(Unpack(s).rest).rest);
    }
  }

  // ------------------------------------------------------------------------- receiving

  lemma DecRunIs(reg: Registered, st: DecState, s: seq<byte>)
    ensures DecRun(reg, st, s)
            == if s == [] then Report([], EndOfInput)
               else
                 match DecodeOne(reg, st, s)
                 case Failed(why) => Report([], why)
                 case Last(_, _, events) => Report(events, Ended)
                 case Next(st', rest, events) => Before(events, DecRun(reg, st', rest))
  {
    hide DecodeOne;
    OneShrinks(reg, st, s);
  }

  lemma HearRunIs(reg: Registered, st: DecState, s: seq<byte>, script: seq<Act>)
    ensures HearRun(reg, st, s, script)
            == if script == [] then DecRun(reg, st, s)
               else if script[0].Does?
               then HearRun(Hearing(reg, script[0].h), HearingTables(reg, st, script[0].h), s, script[1..])
               else if s == [] then Report([], EndOfInput)
               else
                 match DecodeOne(reg, st, s)
                 case Failed(why) => Report([], why)
                 case Last(_, _, events) => Report(events, Ended)
                 case Next(st', rest, events) => Before(events, HearRun(reg, st', rest, script[1..]))
  {
    hide DecodeOne, DecRun, Hearing, HearingTables;
  }

  lemma BeforeBefore(a: seq<Event>, b: seq<Event>, more: Report)
    ensures Before(a, Before(b, more)) == Before(a + b, more)
    ensures Before(a, Report(b, more.stop)) == Report(a + b, more.stop) && a <= Before(a, more).events
    ensures Before(a, Report([], more.stop)) == Report(a, more.stop)
  {
    assert a + (b + more.events) == a + b + more.events;
    assert a + [] == a;
  }

  /** One packet in a run: `more` is what the run reports from here on, and `next` what
    * it reports after this packet.
    */
  ghost predicate OneOf(reg: Registered, st: DecState, s: seq<byte>, more: Report, next: Report) {
    if s == [] then more == Report([], EndOfInput)
    else
      match DecodeOne(reg, st, s)
      case Failed(why) => more == Report([], why)
      case Last(_, _, events) => more == Report(events, Ended)
      case Next(_, _, events) => more == Before(events, next)
  }

  lemma OneOfRun(reg: Registered, st: DecState, s: seq<byte>, script: seq<Act>)
    requires script != [] ==> script[0].Decode?
    ensures var turn := DecodeOne(reg, st, s);
            OneOf(reg, st, s, HearRun(reg, st, s, script),
                  if turn.Next? then HearRun(reg, turn.st, turn.rest, if script == [] then [] else script[1..])
                  else Report([], Broken))
  {
    hide DecodeOne, DecRun, HearRun;
    HearRunIs(reg, st, s, script);
    DecRunIs(reg, st, s);
    var turn := DecodeOne(reg, st, s);
    if turn.Next? { HearRunIs(reg, turn.st, turn.rest, []); }
  }

  /** The receiving application: it follows its script, and then decoder_run goes on as
    * long as results are positive. With a reader that fails only at the end of the
    * bytes the outcome is that of the session model; with any other it is a beginning
    * of it.
    */
  method Receive(d: PacketDecoder, script: seq<Act>) returns (events: seq<Event>, ghost stop: Stop)
    requires d.reader.Valid() && !d.reader.error
    modifies d, d.reader, d.reader.data
    ensures events <= HearRun(old(d.reg), old(d.State()), old(d.reader.Stream()), script).events
    ensures d.reader.healthy ==>
              Report(events, stop) == HearRun(old(d.reg), old(d.State()), old(d.reader.Stream()), script)
  {
    hide HearRun, DecodeOne, Hearing, HearingTables, KeepsSessions, Before;
    events, stop := [], EndOfInput;
    ghost var whole := HearRun(d.reg, d.State(), d.reader.Stream(), script);
    BeforeNothing(whole);
    var k := 0;
    while true
      invariant 0 <= k <= |script| && d.reader.Valid() && !d.reader.error
      invariant whole == Before(events, HearRun(d.reg, d.State(), d.reader.Stream(), script[k..]))
      decreases |d.reader.Stream()|, |script| - k
    {
      ghost var (reg, st, s) := (d.reg, d.State(), d.reader.Stream());
      ghost var more := HearRun(reg, st, s, script[k..]);
      if k < |script| && script[k].Does? {
        HearRunIs(reg, st, s, script[k..]);
        assert script[k..][1..] == script[k + 1..];
        Register(d, script[k].h);
      } else {
        OneOfRun(reg, st, s, script[k..]);
        OneShrinks(reg, st, s);
        var r := d.One();
        BeforeBefore(events, [], more);
        if r.Stopped? {
          stop := if s == [] then EndOfInput else r.why;
          BeforeBefore(events, [], Report([], stop));
          return;
        }
        NotAtEnd(reg, st, s);
        if r.Finished? {
          BeforeBefore(events, r.events, Report([], Ended));
          return events + r.events, Ended;
        }
        BeforeBefore(events, r.events, HearRun(d.reg, d.State(), d.reader.Stream(), if k == |script| then [] else script[k..][1..]));
        events := events + r.events;
        if k < |script| { assert script[k..][1..] == script[k + 1..]; }
      }
      if k < |script| { k := k + 1; }
    }
  }

  lemma NotAtEnd(reg: Registered, st: DecState, s: seq<byte>)
    ensures s == [] ==> DecodeOne(reg, st, s).Failed?
  {}

  method Register(d: PacketDecoder, h: Hear)
    modifies d
    ensures d.reg == Hearing(old(d.reg), h) && d.State() == HearingTables(old(d.reg), old(d.State()), h)
  {
    hide KeepsSessions, Hearing, HearingTables;
    match h {
      case AddSample(l, s) => d.SampleRegister(l, s);
      case AddReference(l, s) => d.RefRegister(l, s);
      case HandleTypes => d.HandlerRegister(true);
      case HandleBindings => d.HandlerRegister(false);
    }
  }

  // --------------------------------------------------------------------------- sending

  /** Type indices in signature trees are ints. */
  ghost predicate TreesFit(tab: Table) {
    forall i :: i in tab ==> forall k :: 0 <= k < |tab[i].tree.items| && tab[i].tree.items[k].TypeRef? ==>
      tab[i].tree.items[k].tree.index < TWO32
  }

  /** One call of the sending application. */
  method Call(e: PacketEncoder, tab: Table, op: Op)
    requires e.Valid() && GoodTable(tab) && TreesFit(tab) && Admissible(tab, op)
    modifies e, e.writer, e.writer.data
    ensures e.Valid() && e.State() == EncStep(tab, old(e.State()), op).0
    ensures e.writer.Fares()
    ensures !e.writer.error ==> e.writer.sent == old(e.writer.sent) + EncStep(tab, old(e.State()), op).1
  {
    hide EncStep, HasType, Enc, GoodSample, Caller;
    var (i, s) := (op.i, tab[op.i]);
    assert GoodSample(i, s);
    assert i < TWO32 by { GoodIndex(tab, i); }
    var done;
    match op {
      case Register(_) => done := e.SampleRegister(i, s, tab);
      case RegisterRef(_) => done := e.RefRegister(i, s, tab);
      case RegisterType(_) => done := e.TypeRegister(i, s, tab);
      case Bind(_, hasDeps) => e.TypeBind(i, hasDeps, tab);
      case Send(_, v) => done := e.Encode(i, s.ty, Caller(s.ty, v), v, tab);
    }
  }

  lemma EncRunFrom(tab: Table, st: EncState, js: seq<Joint>, k: nat)
    requires AllAdmissible(tab, js) && k < |js|
    ensures AllAdmissible(tab, js[k..]) && AllAdmissible(tab, js[k + 1..])
    ensures EncRun(tab, st, js[k..])
            == if js[k].Hears? then EncRun(tab, st, js[k + 1..])
               else
                 assert Admissible(tab, js[k].op);
                 EncStep(tab, st, js[k].op).1 + EncRun(tab, EncStep(tab, st, js[k].op).0, js[k + 1..])
  {
    hide EncStep, HasType, Enc, Admissible;
    assert js[k..][0] == js[k] && js[k..][1..] == js[k + 1..];
  }

  method Sender(e: PacketEncoder, tab: Table, js: seq<Joint>)
    requires e.Valid() && GoodTable(tab) && TreesFit(tab) && AllAdmissible(tab, js)
    modifies e, e.writer, e.writer.data
    ensures e.Valid()
    ensures e.writer.Fares()
    ensures !e.writer.error ==> e.writer.sent == old(e.writer.sent) + EncRun(tab, old(e.State()), js)
  {
    hide EncStep, EncRun, HasType, Enc, GoodTable, TreesFit;
    ghost var (base, st) := (e.writer.sent, e.State());
    ghost var out: seq<byte> := [];
    var k := 0;
    assert js[0..] == js && [] + EncRun(tab, st, js) == EncRun(tab, st, js);
    assert base + [] == base;
    while k < |js|
      invariant k <= |js| && e.Valid() && e.writer.Fares() && AllAdmissible(tab, js[k..])
      invariant out + EncRun(tab, e.State(), js[k..]) == EncRun(tab, st, js)
      invariant !e.writer.error ==> e.writer.sent == base + out
    {
      EncRunFrom(tab, e.State(), js, k);
      if js[k].Calls? {
        ghost var (packet, rest) := (EncStep(tab, e.State(), js[k].op).1, js[k + 1..]);
        Call(e, tab, js[k].op);
        assert out + (packet + EncRun(tab, e.State(), rest)) == out + packet + EncRun(tab, e.State(), rest);
        assert base + out + packet == base + (out + packet);
        out := out + packet;
      }
      k := k + 1;
    }
    EncRunEnd(tab, e.State(), js);
    assert out + [] == out;
  }

  lemma EncRunEnd(tab: Table, st: EncState, js: seq<Joint>)
    ensures AllAdmissible(tab, js[|js|..]) && EncRun(tab, st, js[|js|..]) == []
  {
    assert js[|js|..] == [];
  }

  // -------------------------------------------------------------------------- sessions

  lemma NothingIsGood(tab: Table)
    ensures GoodReceiver(tab, NOTHING)
  {}

  /** A whole session: for all sequences of calls and registrations in time, all buffer
    * sizes, all partial writes and all short reads, the receiver's handlers get what the
    * sender's calls say, in their order. It fails only if write() does (`canWrite` says
    * that it never does), and if read() fails early at least a beginning is handled
    * (`canRead` says that it fails at the end of the bytes only).
    */
  method Converse(tab: Table, js: seq<Joint>, wsize: nat, canWrite: bool, rsize: nat, canRead: bool)
    returns (failed: bool, events: seq<Event>, ghost stop: Stop)
    requires 0 < wsize && 0 < rsize
    requires GoodTable(tab) && TreesFit(tab) && AllAdmissible(tab, js) && AllTimely(tab, NOTHING, ENC_NEW, js)
    ensures !failed ==> events <= Expected(tab, NOTHING, ENC_NEW, js).events
    ensures canWrite ==> !failed
    ensures !failed && canRead ==> Report(events, stop) == Expected(tab, NOTHING, ENC_NEW, js)
  {
    hide HearRun, Expected, EncRun, GoodTable, TreesFit, AllAdmissible, AllTimely;
    failed, events, stop := true, [], EndOfInput;
    var writer := new FdWriter(wsize, canWrite);
    var e := new PacketEncoder(writer);
    Sender(e, tab, js);
    if writer.error { return; }
    var reader := new FdReader(rsize, writer.sent, canRead);
    var d := new PacketDecoder(reader);
    NothingIsGood(tab);
    SessionDelivers(tab, NOTHING, js);
    failed := false;
    events, stop := Receive(d, [Decode] + Script(ENC_NEW, js));
  }
}
