/** Every session: decoding what was encoded calls the handlers with what was
  * sent, in the same order, whatever indices the two sides use.
  */
module SessionRuns {
  import opened Wire
  import opened Types
  import opened Codegen
  import opened Encoder
  import opened Signatures
  import opened SignatureMatch
  import opened TypeSignatures
  import opened SampleCodec
  import opened Session

  /** A generated signature: user index, C string name, sizes that fit an int. */
  ghost predicate GoodSample(i: nat, s: Sample) {
    && USER <= i < TWO31 && 0 !in s.name
    && Encodable(s.ty)
    && DefLength(i, s.name, |Flat(s.ty)|) < TWO31 && DefLength(i, s.name, |Written(s.tree, 0)|) < TWO31
  }

  ghost predicate GoodTable(tab: Table) {
    forall i :: i in tab ==> GoodSample(i, tab[i])
  }

  /** Samples with equal signatures have their literal indices 0 at the same places,
    * which a signature does not show.
    */
  ghost predicate Compatible(tab: Table, locals: Table) {
    forall i, j :: i in tab && j in locals && Flat(tab[i].ty) == Flat(locals[j].ty) ==>
      Skeleton(tab[i].ty) == Skeleton(locals[j].ty)
  }

  /** For instance because there are none. */
  lemma WithoutZeros(tab: Table, locals: Table)
    requires GoodTable(tab) && GoodTable(locals)
    requires (forall i :: i in tab ==> NoZeroIndex(tab[i].ty)) && forall j :: j in locals ==> NoZeroIndex(locals[j].ty)
    ensures Compatible(tab, locals)
  {
    hide Flat, Skeleton, NoZeroIndex;
    forall i, j | i in tab && j in locals && Flat(tab[i].ty) == Flat(locals[j].ty)
      ensures Skeleton(tab[i].ty) == Skeleton(locals[j].ty)
    {
      assert GoodSample(i, tab[i]) && GoodSample(j, locals[j]);
      MatchWithoutZeros(tab[i].ty, locals[j].ty);
    }
  }

  /** What the receiver has registered are samples, too. */
  ghost predicate GoodReceiver(tab: Table, reg: Registered) {
    GoodTable(reg.locals) && Compatible(tab, reg.locals)
  }

  ghost predicate LinkedSamples(tab: Table, reg: Registered, est: EncState, dst: DecState) {
    && dst.versionOk
    && (forall i :: i in est.registered ==>
          i in tab && i in dst.r2l && dst.r2l[i] == LocalOf(reg, tab[i]) && dst.r2l[i] != 0)
    && Lookup(dst.r2l, TYPE_DEF) == (if reg.onTypeDef then TYPE_DEF else 0)
    && Lookup(dst.r2l, TYPE_BINDING) == (if reg.onBinding then TYPE_BINDING else 0)
  }

  ghost predicate LinkedRefs(tab: Table, reg: Registered, est: EncState, dst: DecState) {
    && (forall i :: i in est.refs ==> i in tab && Lookup(dst.r2lRef, i) == RefOf(reg, tab[i]))
    && (forall k :: k in dst.r2lRef ==> k in est.refs && dst.r2lRef[k] != 0)
  }

  /** What links the sender's flags to the receiver's tables. */
  ghost predicate Linked(tab: Table, reg: Registered, est: EncState, dst: DecState) {
    LinkedSamples(tab, reg, est, dst) && LinkedRefs(tab, reg, est, dst)
  }

  // --------------------------------------------------------------------- scans

  /** The scan finds a match if there is one, and then the lowest. */
  lemma {:induction false} FirstMatchFinds(tab: Table, lo: nat, hi: nat, name: seq<byte>, sig: seq<byte>)
    ensures var m := FirstMatch(tab, lo, hi, name, sig);
            && (m != 0 ==> lo <= m < hi && m in tab && Matches(tab[m], name, sig))
            && (forall j :: j in tab && lo <= j < hi && Matches(tab[j], name, sig) ==>
                  (m == 0 ==> exists z :: z in tab && z == 0 && Matches(tab[z], name, sig)) && m <= j)
    decreases hi - lo
  {
    hide Matches;
    if lo < hi { FirstMatchFinds(tab, lo + 1, hi, name, sig); }
  }

  /** Between tables without duplicates the translation is by identity of name
    * and canonical type, and the receiver's numbering does not matter.
    */
  lemma LocalIsUnique(reg: Registered, s: Sample, j: nat)
    requires GoodTable(reg.locals) && Encodable(s.ty)
    requires forall a, b :: a in reg.locals && b in reg.locals && a != b ==>
               !(reg.locals[a].name == reg.locals[b].name && Flat(reg.locals[a].ty) == Flat(reg.locals[b].ty))
    requires j in reg.locals && reg.first <= j < reg.last
    ensures LocalOf(reg, s) == j <==> reg.locals[j].name == s.name && Flat(reg.locals[j].ty) == Flat(s.ty)
    ensures LocalOf(reg, s) == j ==> Canon(reg.locals[j].ty) == Canon(s.ty)
  {
    hide Flat, Canon, Encodable, FirstMatch;
    FirstMatchFinds(reg.locals, reg.first, reg.last, s.name, Flat(s.ty));
    var m := LocalOf(reg, s);
    assert GoodSample(j, reg.locals[j]);
    if Matches(reg.locals[j], s.name, Flat(s.ty)) {
      NoSmallIndex(reg.locals);
      FlatInjective(reg.locals[j].ty, s.ty);
    }
  }

  // -------------------------------------------------------------------- packets

  lemma ReadHeader(reg: Registered, st: DecState, tag: nat, length: nat, body: seq<byte>, rest: seq<byte>)
    requires tag < TWO32 && length < TWO32
    ensures DecodeOne(reg, st, (Pack(tag) + Pack(length) + body) + rest) == DecodeBody(reg, st, tag, length, body + rest)
  {
    hide Unpack, Pack, DecodeBody;
    assert (Pack(tag) + Pack(length) + body) + rest == Pack(tag) + (Pack(length) + (body + rest));
    PackRoundTrip(tag, Pack(length) + (body + rest));
    PackRoundTrip(length, body + rest);
  }

  lemma ReadName(name: seq<byte>, rest: seq<byte>)
    requires |name| < TWO31
    ensures ReadIntentions(1, [], Pack(0) + PackString(name) + rest) == Ok([name], rest)
  {
    hide Unpack, Pack, ReadInt, PackString;
    assert Pack(0) + PackString(name) + rest == Pack(0) + (PackString(name) + rest);
    PackRoundTrip(0, PackString(name) + rest);
    ReadIntRoundTrip(name, rest);
  }

  lemma OneIntention()
    ensures Pack(1) == [1]
  {
    assert High(0) == [];
  }

  /** The packet body gives back index, name and signature. */
  lemma ReadDefRoundTrip(index: nat, name: seq<byte>, sig: seq<byte>, rest: seq<byte>)
    requires index < TWO32 && |name| < TWO31 && |sig| < TWO31 && 0 !in name
    ensures ReadDef(DefBody(index, name, sig) + rest) == Ok(Def(index, name, sig), rest)
  {
    hide Unpack, Pack, ReadInt, ReadIntentions, CString;
    OneIntention();
    var tail := PackString(sig) + rest;
    var names := Pack(0) + PackString(name) + tail;
    assert DefBody(index, name, sig) + rest == Pack(index) + ([1] + names);
    PackRoundTrip(index, [1] + names);
    assert ([1] + names)[1..] == names;
    ReadName(name, tail);
    ReadIntRoundTrip(sig, rest);
    CStringWhole(name);
  }

  lemma GoodSizes(i: nat, s: Sample)
    requires GoodSample(i, s)
    ensures i < TWO32 && |s.name| < TWO31 && |Flat(s.ty)| < TWO31 && |Written(s.tree, 0)| < TWO31
  {
    hide Flat, Written, Encodable;
  }

  lemma SkipBody(body: seq<byte>, rest: seq<byte>)
    requires |body| < TWO31
    ensures SkipBytes(|body|, body + rest) == Ok((), rest)
  {
    assert (body + rest)[|body|..] == rest;
  }

  // ------------------------------------------------------------------ one packet

  lemma ReceiveDef(tab: Table, reg: Registered, est: EncState, dst: DecState, i: nat, rest: seq<byte>)
    requires GoodTable(tab) && Linked(tab, reg, est, dst) && i in tab
    ensures var turn := DecodeOne(reg, dst, DefPacket(SAMPLE_DEF, i, tab[i].name, Flat(tab[i].ty)) + rest);
            if reg.first >= reg.last then turn == Failed(Unset)
            else if LocalOf(reg, tab[i]) == 0 then turn == Failed(NoEntry)
            else
              && turn.Next? && turn.rest == rest && turn.events == []
              && Linked(tab, reg, est.(registered := est.registered + {i}), turn.st)
  {
    hide Unpack, Pack, ReadDef, DefBody, Flat, FirstMatch, DefLength, RefOf, DecodeSample, GoodSample, LinkedRefs,
         DecodeOptional, DecodeEntry, Skipped;
    var s := tab[i];
    GoodSizes(i, s);
    GoodLength(i, s);
    ReadHeader(reg, dst, SAMPLE_DEF, DefLength(i, s.name, |Flat(s.ty)|), DefBody(i, s.name, Flat(s.ty)), rest);
    GoodName(i, s);
    ReadDefRoundTrip(i, s.name, Flat(s.ty), rest);
    SameRefs(tab, reg, est, dst, est.(registered := est.registered + {i}),
             dst.(r2l := dst.r2l[i := LocalOf(reg, s)]));
  }

  lemma SameRefs(tab: Table, reg: Registered, est: EncState, dst: DecState, est': EncState, dst': DecState)
    requires LinkedRefs(tab, reg, est, dst) && est'.refs == est.refs && dst'.r2lRef == dst.r2lRef
    ensures LinkedRefs(tab, reg, est', dst')
  {
    hide RefOf;
  }

  lemma GoodName(i: nat, s: Sample)
    requires GoodSample(i, s)
    ensures 0 !in s.name && USER <= i < TWO31
  {}

  lemma GoodLength(i: nat, s: Sample)
    requires GoodSample(i, s)
    ensures DefLength(i, s.name, |Flat(s.ty)|) < TWO31 && DefLength(i, s.name, |Written(s.tree, 0)|) < TWO31
  {}

  lemma ReceiveRef(tab: Table, reg: Registered, est: EncState, dst: DecState, i: nat, rest: seq<byte>)
    requires GoodTable(tab) && Linked(tab, reg, est, dst) && i in tab && i !in est.refs
    ensures var turn := DecodeOne(reg, dst, DefPacket(SAMPLE_REF, i, tab[i].name, Flat(tab[i].ty)) + rest);
            if reg.refFirst >= reg.refLast then turn == Failed(Unset)
            else
              && turn.Next? && turn.rest == rest && turn.events == []
              && Linked(tab, reg, est.(refs := est.refs + {i}), turn.st)
  {
    hide Unpack, Pack, ReadDef, DefBody, Flat, FirstMatch, DefLength, LocalOf, DecodeSample, GoodSample,
         DecodeOptional, DecodeEntry, Skipped;
    var s := tab[i];
    GoodSizes(i, s);
    GoodLength(i, s);
    ReadHeader(reg, dst, SAMPLE_REF, DefLength(i, s.name, |Flat(s.ty)|), DefBody(i, s.name, Flat(s.ty)), rest);
    GoodName(i, s);
    ReadDefRoundTrip(i, s.name, Flat(s.ty), rest);
  }

  lemma ReceiveTypeDef(tab: Table, reg: Registered, est: EncState, dst: DecState, i: nat, rest: seq<byte>)
    requires GoodTable(tab) && GoodTable(reg.locals) && Linked(tab, reg, est, dst) && i in tab
    ensures DecodeOne(reg, dst, DefPacket(TYPE_DEF, i, tab[i].name, Written(tab[i].tree, 0)) + rest)
            == Next(dst, rest, if reg.onTypeDef then [TypeDefined(i, tab[i].name, Written(tab[i].tree, 0))] else [])
  {
    hide Unpack, Pack, ReadDef, DefBody, Written, FirstMatch, DefLength, DecodeSample, SkipBytes, GoodSample, LinkedRefs,
         Flat, LocalOf;
    var (s, w) := (tab[i], Written(tab[i].tree, 0));
    GoodSizes(i, s);
    GoodLength(i, s);
    ReadHeader(reg, dst, TYPE_DEF, DefLength(i, s.name, |w|), DefBody(i, s.name, w), rest);
    GoodName(i, s);
    ReadDefRoundTrip(i, s.name, w, rest);
    DefLengthExact(i, s.name, w);
    SkipBody(DefBody(i, s.name, w), rest);
    NoSmallIndex(reg.locals);
  }

  lemma NoSmallIndex(tab: Table)
    requires GoodTable(tab)
    ensures 0 !in tab && forall i :: i in tab ==> USER <= i
  {
    hide Flat, Written, Encodable, DefLength;
    forall i | i in tab ensures USER <= i { assert GoodSample(i, tab[i]); }
  }

  lemma ReceiveBinding(tab: Table, reg: Registered, est: EncState, dst: DecState, a: nat, b: nat, rest: seq<byte>)
    requires GoodTable(reg.locals) && Linked(tab, reg, est, dst) && a < TWO31 && b < TWO31
    ensures DecodeOne(reg, dst, BindPacket(a, b) + rest) == Next(dst, rest, if reg.onBinding then [Bound(a, b)] else [])
  {
    hide Unpack, Pack, SkipBytes, DecodeSample, SizePacked, LinkedRefs, LocalOf, GoodTable;
    var body := Pack(a) + Pack(b);
    var length := SizePacked(a) + SizePacked(b);
    PackSize(a);
    PackSize(b);
    SizeBound(a);
    SizeBound(b);
    assert BindPacket(a, b) == Pack(TYPE_BINDING) + Pack(length) + body;
    ReadHeader(reg, dst, TYPE_BINDING, length, body, rest);
    SkipBody(body, rest);
    assert body + rest == Pack(a) + (Pack(b) + rest);
    PackRoundTrip(a, Pack(b) + rest);
    PackRoundTrip(b, rest);
    NoSmallIndex(reg.locals);
  }

  // ------------------------------------------------------------- data, references

  /** The reference tables of the two ends, put together. */
  lemma RefsAgree(tab: Table, reg: Registered, est: EncState, dst: DecState)
    requires LinkedRefs(tab, reg, est, dst)
    ensures InRefs(reg, dst) == KnownRefs(tab, reg, est)
  {
    hide FirstMatch;
    var m := KnownRefs(tab, reg, est);
    forall k | k in dst.r2lRef ensures k in m && m[k] == dst.r2lRef[k] && dst.r2lRef[k] in reg.refs {
      assert k in est.refs && Lookup(dst.r2lRef, k) == RefOf(reg, tab[k]);
      FirstMatchFinds(reg.refs, reg.refFirst, reg.refLast, tab[k].name, Flat(tab[k].ty));
    }
    forall k | k in m ensures k in dst.r2lRef {
      assert Lookup(dst.r2lRef, k) == RefOf(reg, tab[k]);
    }
  }

  /** A sample is handed over with its references translated by the table. */
  lemma ReceiveSample(tab: Table, reg: Registered, est: EncState, dst: DecState, i: nat, v: Value, rest: seq<byte>)
    requires GoodTable(tab) && GoodReceiver(tab, reg) && LinkedSamples(tab, reg, est, dst)
    requires i in est.registered && Admissible(tab, Send(i, v))
    ensures DecodeOne(reg, dst, DataPacket(i, tab[i], v, OutRefs(est)) + rest)
            == Next(dst, rest, [Handled(LocalOf(reg, tab[i]), Carried(v, RefTables(OutRefs(est), InRefs(reg, dst))))])
  {
    hide Unpack, Pack, RunDecode, RunEncode, RunSizeof, Flat, FirstMatch, HasType, Enc, Carried, Encodable, Skeleton,
         InRefs, OutRefs, DefLength, Written, Skipped;
    var s := tab[i];
    var out := OutRefs(est);
    var bytes := Enc(s.ty, v, out);
    EncodeWrites(s.ty, v, RefTables(out, map[]));
    SizeofPredicts(s.ty, v, RefTables(out, map[]));
    assert |bytes| < TWO32;
    assert GoodSample(i, s);
    ReadHeader(reg, dst, i, |bytes|, bytes, rest);
    var j := LocalOf(reg, s);
    FirstMatchFinds(reg.locals, reg.first, reg.last, s.name, Flat(s.ty));
    var u := reg.locals[j];
    assert GoodSample(j, u);
    SkeletonSameWire(s.ty, v, out);
    SkeletonSameWire(u.ty, v, out);
    DecodeHandlesAndFrees(u.ty, v, RefTables(map[], InRefs(reg, dst)), RefTables(out, InRefs(reg, dst)), rest);
  }

  lemma ReceiveData(tab: Table, reg: Registered, est: EncState, dst: DecState, i: nat, v: Value, rest: seq<byte>)
    requires GoodTable(tab) && GoodReceiver(tab, reg) && Linked(tab, reg, est, dst)
    requires i in est.registered && Admissible(tab, Send(i, v))
    ensures DecodeOne(reg, dst, DataPacket(i, tab[i], v, OutRefs(est)) + rest)
            == Next(dst, rest, [Handled(LocalOf(reg, tab[i]), Translated(tab, reg, est, v))])
  {
    hide *;
    LinkedParts(tab, reg, est, dst);
    ReceiveSample(tab, reg, est, dst, i, v, rest);
    RefsAgree(tab, reg, est, dst);
    TranslatedIs(tab, reg, est, v);
  }

  lemma LinkedParts(tab: Table, reg: Registered, est: EncState, dst: DecState)
    requires Linked(tab, reg, est, dst)
    ensures LinkedSamples(tab, reg, est, dst) && LinkedRefs(tab, reg, est, dst)
  {}

  lemma TranslatedIs(tab: Table, reg: Registered, est: EncState, v: Value)
    ensures Translated(tab, reg, est, v) == Carried(v, RefTables(OutRefs(est), KnownRefs(tab, reg, est)))
  {}

  // -------------------------------------------------------------- one step of a run

  lemma RunNext(reg: Registered, st: DecState, packet: seq<byte>, rest: seq<byte>, st': DecState, events: seq<Event>,
                script: seq<Act>)
    requires packet != [] && DecodeOne(reg, st, packet + rest) == Next(st', rest, events)
    ensures HearRun(reg, st, packet + rest, [Decode] + script) == Before(events, HearRun(reg, st', rest, script))
  {
    hide DecodeOne;
    assert ([Decode] + script)[1..] == script;
  }

  lemma RunFails(reg: Registered, st: DecState, packet: seq<byte>, rest: seq<byte>, why: Stop, script: seq<Act>)
    requires packet != [] && DecodeOne(reg, st, packet + rest) == Failed(why)
    ensures HearRun(reg, st, packet + rest, [Decode] + script) == Report([], why)
  {
    hide DecodeOne;
  }

  lemma RunHears(reg: Registered, st: DecState, s: seq<byte>, h: Hear, script: seq<Act>)
    ensures HearRun(reg, st, s, [Does(h)] + script) == HearRun(Hearing(reg, h), HearingTables(reg, st, h), s, script)
  {
    hide DecodeOne, Hearing, HearingTables;
    assert ([Does(h)] + script)[1..] == script;
  }

  /** Each call that writes something: its packet is received, or stops the receiver. */
  lemma OneCall(tab: Table, reg: Registered, est: EncState, dst: DecState, op: Op, rest: seq<byte>)
    requires GoodTable(tab) && GoodReceiver(tab, reg) && Linked(tab, reg, est, dst) && Admissible(tab, op) && !Silent(est, op)
    ensures var (packet, halt) := (PacketOf(tab, est, op), Halts(tab, reg, op));
            && packet != []
            && var turn := DecodeOne(reg, dst, packet + rest);
               if halt != [] then turn == Failed(halt[0])
               else
                 && turn.Next? && turn.rest == rest && turn.events == Here(tab, reg, est, op)
                 && Linked(tab, reg, NextFlags(est, op), turn.st)
  {
    hide Pack, DecodeOne, Flat, Written, FirstMatch, HasType, Enc, Translated, DataPacket, DefPacket, BindPacket, GoodSample,
         LocalOf, RefOf, OutRefs, LinkedSamples, LinkedRefs, Compatible;
    var (i, s) := (op.i, tab[op.i]);
    assert i < TWO31 by { GoodIndex(tab, i); }
    match op
    case Register(_) =>
      ReceiveDef(tab, reg, est, dst, i, rest);
      PacketsNonEmpty(i, s.name, Flat(s.ty), SAMPLE_DEF, 0);
    case RegisterRef(_) =>
      ReceiveRef(tab, reg, est, dst, i, rest);
      PacketsNonEmpty(i, s.name, Flat(s.ty), SAMPLE_REF, 0);
    case RegisterType(_) =>
      ReceiveTypeDef(tab, reg, est, dst, i, rest);
      PacketsNonEmpty(i, s.name, Written(s.tree, 0), TYPE_DEF, 0);
      SameFlags(tab, reg, est, dst, NextFlags(est, op));
    case Bind(_, hasDeps) =>
      ReceiveBinding(tab, reg, est, dst, i, if hasDeps then i else 0, rest);
      PacketsNonEmpty(i, s.name, [], 0, if hasDeps then i else 0);
    case Send(_, v) =>
      ReceiveData(tab, reg, est, dst, i, v, rest);
      DataNonEmpty(i, s, v, OutRefs(est));
  }

  lemma SameFlags(tab: Table, reg: Registered, est: EncState, dst: DecState, est': EncState)
    requires Linked(tab, reg, est, dst) && est'.registered == est.registered && est'.refs == est.refs
    ensures Linked(tab, reg, est', dst)
  {
    hide LocalOf, RefOf;
  }

  lemma PacketsNonEmpty(i: nat, name: seq<byte>, sig: seq<byte>, tag: nat, b: nat)
    ensures |DefPacket(tag, i, name, sig)| > 0 && |BindPacket(i, b)| > 0
  {}

  lemma DataNonEmpty(i: nat, s: Sample, v: Value, out: Outgoing)
    requires HasType(v, s.ty)
    ensures |DataPacket(i, s, v, out)| > 0
  {}

  lemma GoodIndex(tab: Table, i: nat)
    requires GoodTable(tab) && i in tab
    ensures USER <= i < TWO31
  {
    hide Flat, Written, Encodable, DefLength;
    assert GoodSample(i, tab[i]);
  }

  // ------------------------------------------------------ registering during a session

  ghost predicate InRange(tab: Table, first: nat, last: nat) {
    0 !in tab && forall k :: k in tab ==> first <= k < last
  }

  /** No entry has the name and the signature of s. */
  ghost predicate IsNew(tab: Table, s: Sample) {
    forall k :: k in tab ==> !Matches(tab[k], s.name, Flat(s.ty))
  }

  /** The scan after an entry was added that no other matches: it finds that entry
    * exactly for its own name and signature, and otherwise what it found before.
    */
  lemma MatchAfterAdd(tab: Table, first: nat, last: nat, l: nat, s: Sample, name: seq<byte>, sig: seq<byte>)
    requires 0 < l && InRange(tab, first, last) && l !in tab && IsNew(tab, s)
    ensures var (first', last') := Widen(first, last, l);
            && InRange(tab[l := s], first', last')
            && FirstMatch(tab[l := s], first', last', name, sig)
               == if Matches(s, name, sig) then l else FirstMatch(tab, first, last, name, sig)
  {
    hide FirstMatch, Flat;
    var (now, (first', last')) := (tab[l := s], Widen(first, last, l));
    FirstMatchFinds(tab, first, last, name, sig);
    FirstMatchFinds(now, first', last', name, sig);
    var (m, n) := (FirstMatch(tab, first, last, name, sig), FirstMatch(now, first', last', name, sig));
    assert n != 0 && n != l ==> n in tab && Matches(tab[n], name, sig);
    assert m != 0 ==> now[m] == tab[m];
    assert now[l] == s;
  }

  /** A wider range finds the same. */
  lemma MatchAfterWiden(tab: Table, first: nat, last: nat, l: nat, name: seq<byte>, sig: seq<byte>)
    requires 0 < l && InRange(tab, first, last)
    ensures var (first', last') := Widen(first, last, l);
            InRange(tab, first', last') && FirstMatch(tab, first', last', name, sig) == FirstMatch(tab, first, last, name, sig)
  {
    hide FirstMatch, Flat;
    var (first', last') := Widen(first, last, l);
    FirstMatchFinds(tab, first, last, name, sig);
    FirstMatchFinds(tab, first', last', name, sig);
  }

  /** The sender's samples whose references a new one would disturb: what it has
    * announced of them does not fit any more.
    */
  ghost predicate Affected(tab: Table, reg: Registered, est: EncState, l: nat, s: Sample, k: nat) {
    && l !in reg.refs && k in est.refs && k in tab
    && ((k == l && RefOf(reg, tab[k]) != 0) || Matches(s, tab[k].name, Flat(tab[k].ty)))
  }

  /** A registration that comes in time. Handlers may come at any time, if no two have
    * the same name and signature; an unknown sample stops the receiver anyway.
    */
  ghost predicate Timely(tab: Table, reg: Registered, est: EncState, h: Hear) {
    match h
    case AddSample(l, s) =>
      && InRange(reg.locals, reg.first, reg.last)
      && (if l in reg.locals then reg.locals[l] == s
          else IsNew(reg.locals, s) && GoodSample(l, s) && Compatible(tab, map[l := s]))
    case AddReference(l, s) =>
      && 0 < l
      && (l !in reg.refs ==>
            && InRange(reg.refs, reg.refFirst, reg.refLast) && IsNew(reg.refs, s)
            && forall k :: k in est.refs ==> !Affected(tab, reg, est, l, s, k))
    case _ => InRange(reg.locals, reg.first, reg.last)
  }

  ghost predicate AllTimely(tab: Table, reg: Registered, est: EncState, js: seq<Joint>)
    decreases |js|
  {
    js == [] ||
    match js[0]
    case Hears(h) => Timely(tab, reg, est, h) && AllTimely(tab, Hearing(reg, h), est, js[1..])
    case Calls(op) => AllTimely(tab, reg, if Silent(est, op) then est else NextFlags(est, op), js[1..])
  }

  lemma SampleInTime(tab: Table, reg: Registered, est: EncState, dst: DecState, l: nat, s: Sample)
    requires GoodReceiver(tab, reg) && Linked(tab, reg, est, dst) && Timely(tab, reg, est, AddSample(l, s))
    ensures var reg' := Hearing(reg, AddSample(l, s)); GoodReceiver(tab, reg') && Linked(tab, reg', est, dst)
  {
    hide FirstMatch, Flat, GoodSample, Skeleton, RefOf;
    var reg' := Hearing(reg, AddSample(l, s));
    if l in reg.locals {
      assert reg'.locals == reg.locals;
      return;
    }
    GoodName(l, s);
    forall i | i in est.registered ensures LocalOf(reg', tab[i]) == LocalOf(reg, tab[i]) {
      var (name, sig) := (tab[i].name, Flat(tab[i].ty));
      MatchAfterAdd(reg.locals, reg.first, reg.last, l, s, name, sig);
      FirstMatchFinds(reg.locals, reg.first, reg.last, name, sig);
    }
    SameRefTables(tab, reg, reg', est, dst);
    GoodAfterAdd(tab, reg.locals, l, s);
  }

  lemma GoodAfterAdd(tab: Table, locals: Table, l: nat, s: Sample)
    requires GoodTable(locals) && GoodSample(l, s) && Compatible(tab, locals) && Compatible(tab, map[l := s])
    ensures GoodTable(locals[l := s]) && Compatible(tab, locals[l := s])
  {
    hide Flat, GoodSample, Skeleton;
    var one := map[l := s];
    assert one[l] == s;
  }

  lemma SameRefTables(tab: Table, reg: Registered, reg': Registered, est: EncState, dst: DecState)
    requires LinkedRefs(tab, reg, est, dst) && reg'.refs == reg.refs && reg'.refFirst == reg.refFirst && reg'.refLast == reg.refLast
    ensures LinkedRefs(tab, reg', est, dst)
  {
    hide FirstMatch, Flat;
  }

  lemma HandlerInTime(tab: Table, reg: Registered, est: EncState, dst: DecState, h: Hear)
    requires (h.HandleTypes? || h.HandleBindings?) && GoodTable(tab)
    requires GoodReceiver(tab, reg) && Linked(tab, reg, est, dst) && Timely(tab, reg, est, h)
    ensures var reg' := Hearing(reg, h);
            GoodReceiver(tab, reg') && Linked(tab, reg', est, HearingTables(reg, dst, h))
  {
    hide FirstMatch, Flat, GoodSample, Skeleton, RefOf;
    NoSmallIndex(tab);
    var (reg', dst', tag) := (Hearing(reg, h), HearingTables(reg, dst, h), if h.HandleTypes? then TYPE_DEF else TYPE_BINDING);
    forall i | i in est.registered ensures LocalOf(reg', tab[i]) == LocalOf(reg, tab[i]) && dst'.r2l[i] == dst.r2l[i] {
      MatchAfterWiden(reg.locals, reg.first, reg.last, tag, tab[i].name, Flat(tab[i].ty));
    }
    SameRefTables(tab, reg, reg', est, dst);
    SameRefs(tab, reg', est, dst, est, dst');
  }

  /** A new reference keeps the two ends linked if and only if none is affected. */
  lemma ReferenceInTime(tab: Table, reg: Registered, est: EncState, dst: DecState, l: nat, s: Sample)
    requires LinkedRefs(tab, reg, est, dst) && 0 < l && l !in reg.refs
    requires InRange(reg.refs, reg.refFirst, reg.refLast) && IsNew(reg.refs, s)
    ensures LinkedRefs(tab, Hearing(reg, AddReference(l, s)), est, HearingTables(reg, dst, AddReference(l, s)))
            <==> forall k :: k in est.refs ==> !Affected(tab, reg, est, l, s, k)
    ensures forall k :: k in est.refs ==>
              (Lookup(dst.r2lRef - {l}, k) == RefOf(Hearing(reg, AddReference(l, s)), tab[k])
               <==> !Affected(tab, reg, est, l, s, k))
  {
    hide FirstMatch, Flat;
    var (now, after) := (Hearing(reg, AddReference(l, s)), HearingTables(reg, dst, AddReference(l, s)));
    forall k | k in est.refs
      ensures Lookup(dst.r2lRef - {l}, k) == RefOf(now, tab[k]) <==> !Affected(tab, reg, est, l, s, k)
    {
      MatchAfterAdd(reg.refs, reg.refFirst, reg.refLast, l, s, tab[k].name, Flat(tab[k].ty));
      FirstMatchFinds(reg.refs, reg.refFirst, reg.refLast, tab[k].name, Flat(tab[k].ty));
    }
  }

  lemma InTime(tab: Table, reg: Registered, est: EncState, dst: DecState, h: Hear)
    requires GoodTable(tab) && GoodReceiver(tab, reg) && Linked(tab, reg, est, dst) && Timely(tab, reg, est, h)
    ensures var reg' := Hearing(reg, h); GoodReceiver(tab, reg') && Linked(tab, reg', est, HearingTables(reg, dst, h))
  {
    hide LinkedSamples, LinkedRefs, GoodReceiver, GoodTable, InRange, IsNew, Affected, GoodSample;
    match h
    case AddSample(l, s) => SampleInTime(tab, reg, est, dst, l, s);
    case AddReference(l, s) =>
      if l !in reg.refs {
        ReferenceInTime(tab, reg, est, dst, l, s);
        SameSamples(tab, reg, Hearing(reg, h), est, dst, HearingTables(reg, dst, h));
      }
    case _ => HandlerInTime(tab, reg, est, dst, h);
  }

  lemma SameSamples(tab: Table, reg: Registered, reg': Registered, est: EncState, dst: DecState, dst': DecState)
    requires LinkedSamples(tab, reg, est, dst) && GoodReceiver(tab, reg) && dst'.r2l == dst.r2l && dst'.versionOk == dst.versionOk
    requires reg' == reg.(refs := reg'.refs, refFirst := reg'.refFirst, refLast := reg'.refLast)
    ensures LinkedSamples(tab, reg', est, dst') && GoodReceiver(tab, reg')
  {
    hide FirstMatch, Flat;
  }

  // -------------------------------------------------------------------- whole runs

  lemma UnfoldCall(tab: Table, reg: Registered, st: EncState, js: seq<Joint>, op: Op)
    requires AllAdmissible(tab, js) && js != [] && js[0] == Calls(op)
    ensures Admissible(tab, op) && op.i in tab && AllAdmissible(tab, js[1..])
    ensures Silent(st, op) ==>
              && EncRun(tab, st, js) == EncRun(tab, st, js[1..])
              && Script(st, js) == Script(st, js[1..])
              && Expected(tab, reg, st, js) == Expected(tab, reg, st, js[1..])
    ensures !Silent(st, op) ==>
              var halt := Halts(tab, reg, op);
              && EncRun(tab, st, js) == PacketOf(tab, st, op) + EncRun(tab, NextFlags(st, op), js[1..])
              && Script(st, js) == [Decode] + Script(NextFlags(st, op), js[1..])
              && Expected(tab, reg, st, js)
                 == if halt != [] then Report([], halt[0])
                    else Before(Here(tab, reg, st, op), Expected(tab, reg, NextFlags(st, op), js[1..]))
  {
    hide PacketOf, Here, Halts, Silent, NextFlags, Before, HasType, Enc;
    var rest := EncRun(tab, st, js[1..]);
    assert [] + rest == rest;
  }

  lemma UnfoldHear(tab: Table, reg: Registered, st: EncState, js: seq<Joint>, h: Hear)
    requires AllAdmissible(tab, js) && js != [] && js[0] == Hears(h)
    ensures AllAdmissible(tab, js[1..]) && EncRun(tab, st, js) == EncRun(tab, st, js[1..])
    ensures Script(st, js) == [Does(h)] + Script(st, js[1..])
    ensures Expected(tab, reg, st, js) == Expected(tab, Hearing(reg, h), st, js[1..])
  {
    hide PacketOf, Here, Halts, Silent, NextFlags, Before, Admissible, Hearing;
  }

  lemma UnfoldTimely(tab: Table, reg: Registered, est: EncState, js: seq<Joint>)
    requires AllTimely(tab, reg, est, js) && js != []
    ensures match js[0]
            case Hears(h) => Timely(tab, reg, est, h) && AllTimely(tab, Hearing(reg, h), est, js[1..])
            case Calls(op) => AllTimely(tab, reg, if Silent(est, op) then est else NextFlags(est, op), js[1..])
  {
    hide Timely, Hearing, NextFlags, Silent;
  }

  lemma RunEnds(tab: Table, reg: Registered, est: EncState, dst: DecState)
    ensures HearRun(reg, dst, EncRun(tab, est, []), Script(est, [])) == Expected(tab, reg, est, []) == Report([], EndOfInput)
  {}

  lemma {:induction false} RunsAgree(tab: Table, reg: Registered, est: EncState, dst: DecState, js: seq<Joint>)
    requires GoodTable(tab) && GoodReceiver(tab, reg) && Linked(tab, reg, est, dst)
    requires AllAdmissible(tab, js) && AllTimely(tab, reg, est, js)
    ensures HearRun(reg, dst, EncRun(tab, est, js), Script(est, js)) == Expected(tab, reg, est, js)
    decreases |js|
  {
    hide *;
    if js == [] {
      RunEnds(tab, reg, est, dst);
    } else {
      UnfoldTimely(tab, reg, est, js);
      match js[0]
      case Hears(h) =>
        UnfoldHear(tab, reg, est, js, h);
        InTime(tab, reg, est, dst, h);
        RunHears(reg, dst, EncRun(tab, est, js[1..]), h, Script(est, js[1..]));
        RunsAgree(tab, Hearing(reg, h), est, HearingTables(reg, dst, h), js[1..]);
      case Calls(op) =>
        UnfoldCall(tab, reg, est, js, op);
        if Silent(est, op) {
          RunsAgree(tab, reg, est, dst, js[1..]);
        } else {
          var (est', packet) := (NextFlags(est, op), PacketOf(tab, est, op));
          var (rest, script) := (EncRun(tab, est', js[1..]), Script(est', js[1..]));
          OneCall(tab, reg, est, dst, op, rest);
          var halt := Halts(tab, reg, op);
          if halt != [] {
            RunFails(reg, dst, packet, rest, halt[0], script);
          } else {
            var turn := DecodeOne(reg, dst, packet + rest);
            RunNext(reg, dst, packet, rest, turn.st, turn.events, script);
            RunsAgree(tab, reg, est', turn.st, js[1..]);
          }
        }
    }
  }

  const ENC_NEW := EncState({}, {}, {})

  lemma ReceiveVersion(reg: Registered, rest: seq<byte>)
    ensures DecodeOne(reg, DecNew(reg), VersionPacket() + rest) == Next(DecNew(reg).(versionOk := true), rest, [])
  {
    hide Unpack, Pack, ReadInt, PackString, DecodeDef, DecodeRef, DecodeOptional, DecodeEntry, Skipped, DecodePragma, EntryFor, DecNew;
    ReadHeader(reg, DecNew(reg), VERSION, SizeString(CURRENT_VERSION), PackString(CURRENT_VERSION), rest);
    ReadIntRoundTrip(CURRENT_VERSION, rest);
    CStringWhole(CURRENT_VERSION);
  }

  lemma LinkedFirst(tab: Table, reg: Registered)
    ensures Linked(tab, reg, ENC_NEW, DecNew(reg).(versionOk := true))
  {}

  /** The session theorem: for every sequence of calls on a new encoder, and of
    * registrations in time on a new decoder that is fed with the bytes, the decoder
    * reports exactly the expected events.
    */
  lemma SessionDelivers(tab: Table, reg: Registered, js: seq<Joint>)
    requires GoodTable(tab) && GoodReceiver(tab, reg) && AllAdmissible(tab, js) && AllTimely(tab, reg, ENC_NEW, js)
    ensures HearRun(reg, DecNew(reg), VersionPacket() + EncRun(tab, ENC_NEW, js), [Decode] + Script(ENC_NEW, js))
            == Expected(tab, reg, ENC_NEW, js)
  {
    hide *;
    var rest := EncRun(tab, ENC_NEW, js);
    var dst := DecNew(reg).(versionOk := true);
    ReceiveVersion(reg, rest);
    VersionNonEmpty();
    RunNext(reg, DecNew(reg), VersionPacket(), rest, dst, [], Script(ENC_NEW, js));
    LinkedFirst(tab, reg);
    RunsAgree(tab, reg, ENC_NEW, dst, js);
    BeforeNothing(HearRun(reg, dst, rest, Script(ENC_NEW, js)));
  }

  lemma VersionNonEmpty()
    ensures VersionPacket() != []
  {}

  lemma BeforeNothing(more: Report)
    ensures Before([], more) == more
  {
    assert [] + more.events == more.events;
  }
}
