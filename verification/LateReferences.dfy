/** Registering a reference on a decoder in the middle of a session, and what the
  * values that arrive afterwards look like.
  */
module LateReferences {
  import opened Wire
  import opened Types
  import opened Codegen
  import opened Signatures
  import opened SignatureMatch
  import opened TypeSignatures
  import opened Session
  import opened SessionRuns

  /** The value contains a reference to sample k. */
  ghost predicate Mentions(v: Value, k: nat)
    decreases v
  {
    match v
    case Ref(s) => s == k
    case Rec(fs) => exists i :: 0 <= i < |fs| && Mentions(fs[i], k)
    case Arr(_, a) => exists i :: 0 <= i < |a| && Mentions(a[i], k)
    case _ => false
  }

  /** What one reference becomes. */
  function Arrives(k: nat, rt: RefTables): nat {
    FromWire(rt.fromWire, ToWire(rt.toWire, k))
  }

  ghost predicate ArriveAlike(v: Value, a: RefTables, b: RefTables) {
    forall k :: Mentions(v, k) ==> Arrives(k, a) == Arrives(k, b)
  }

  lemma AlikeParts(v: Value, parts: seq<Value>, a: RefTables, b: RefTables)
    requires v == Rec(parts) || (v.Arr? && v.a == parts)
    ensures ArriveAlike(v, a, b) <==> forall i :: 0 <= i < |parts| ==> ArriveAlike(parts[i], a, b)
  {
    hide Arrives;
    if ArriveAlike(v, a, b) {
      forall i, k | 0 <= i < |parts| && Mentions(parts[i], k) ensures Arrives(k, a) == Arrives(k, b) {
        assert Mentions(v, k);
      }
    }
  }

  lemma {:induction false} CarriedSameIff(v: Value, a: RefTables, b: RefTables)
    ensures Carried(v, a) == Carried(v, b) <==> ArriveAlike(v, a, b)
    decreases v
  {
    hide ArriveAlike;
    match v
    case Rec(fs) =>
      AlikeParts(v, fs, a, b);
      var (x, y) := (Carried(v, a).fields, Carried(v, b).fields);
      forall i | 0 <= i < |fs| ensures x[i] == y[i] <==> ArriveAlike(fs[i], a, b) { CarriedSameIff(fs[i], a, b); }
    case Arr(_, es) =>
      AlikeParts(v, es, a, b);
      var (x, y) := (Carried(v, a).a, Carried(v, b).a);
      forall i | 0 <= i < |es| ensures x[i] == y[i] <==> ArriveAlike(es[i], a, b) { CarriedSameIff(es[i], a, b); }
    case _ => LeafAlike(v, a, b);
  }

  lemma LeafAlike(v: Value, a: RefTables, b: RefTables)
    requires !v.Rec? && !v.Arr?
    ensures Carried(v, a) == Carried(v, b) <==> ArriveAlike(v, a, b)
  {
    if v.Ref? { assert Mentions(v, v.sample); }
  }

  lemma ArrivesIff(tab: Table, reg: Registered, est: EncState, dst: DecState, k: nat)
    requires GoodTable(tab) && LinkedKeys(tab, est, dst)
    ensures Arrives(k, RefTables(OutRefs(est), InRefs(reg, dst))) == Arrives(k, RefTables(OutRefs(est), KnownRefs(tab, reg, est)))
            <==> (k in est.refs ==> Known(reg, Lookup(dst.r2lRef, k)) == RefOf(reg, tab[k]))
  {
    hide RefOf, GoodTable;
    NoSmallIndex(tab);
    if k in est.refs { GoodIndex(tab, k); }
  }

  /** The signature array gives no reference for an index without an entry. */
  function Known(reg: Registered, l: nat): nat {
    if l in reg.refs then l else 0
  }

  /** Only announced references have been translated. */
  ghost predicate LinkedKeys(tab: Table, est: EncState, dst: DecState) {
    && (forall i :: i in est.refs ==> i in tab)
    && (forall k :: k in dst.r2lRef ==> k in est.refs && dst.r2lRef[k] != 0)
  }

  lemma NewArrives(tab: Table, reg: Registered, est: EncState, dst: DecState, l: nat, s: Sample, k: nat)
    requires GoodTable(tab) && LinkedRefs(tab, reg, est, dst) && 0 < l && l !in reg.refs
    requires InRange(reg.refs, reg.refFirst, reg.refLast) && IsNew(reg.refs, s)
    ensures var (reg', dst') := (Hearing(reg, AddReference(l, s)), HearingTables(reg, dst, AddReference(l, s)));
            Arrives(k, RefTables(OutRefs(est), InRefs(reg', dst'))) == Arrives(k, RefTables(OutRefs(est), KnownRefs(tab, reg', est)))
            <==> !Affected(tab, reg, est, l, s, k)
  {
    hide FirstMatch, Flat, GoodTable, InRange, IsNew, Arrives, KnownRefs, InRefs, OutRefs;
    var (reg', dst') := (Hearing(reg, AddReference(l, s)), HearingTables(reg, dst, AddReference(l, s)));
    ReferenceInTime(tab, reg, est, dst, l, s);
    ArrivesIff(tab, reg', est, dst', k);
    if k in est.refs {
      FirstMatchFinds(reg.refs, reg.refFirst, reg.refLast, tab[k].name, Flat(tab[k].ty));
    }
  }

  /** A reference that is registered late spoils exactly the values with an affected
    * reference: after it a sample arrives as if all had been registered in time if and
    * only if no reference in it is to the sample whose index was taken, or to the one
    * that was announced before.
    */
  lemma LateReference(tab: Table, reg: Registered, est: EncState, dst: DecState, l: nat, s: Sample, i: nat, v: Value, rest: seq<byte>)
    requires GoodTable(tab) && GoodReceiver(tab, reg) && Linked(tab, reg, est, dst)
    requires 0 < l && l !in reg.refs && InRange(reg.refs, reg.refFirst, reg.refLast) && IsNew(reg.refs, s)
    requires i in est.registered && Admissible(tab, Send(i, v))
    ensures var (reg', dst') := (Hearing(reg, AddReference(l, s)), HearingTables(reg, dst, AddReference(l, s)));
            DecodeOne(reg', dst', DataPacket(i, tab[i], v, OutRefs(est)) + rest)
            == Next(dst', rest, [Handled(LocalOf(reg', tab[i]), Translated(tab, reg', est, v))])
            <==> forall k :: Mentions(v, k) ==> !Affected(tab, reg, est, l, s, k)
  {
    hide *;
    var (reg', dst') := (Hearing(reg, AddReference(l, s)), HearingTables(reg, dst, AddReference(l, s)));
    LinkedParts(tab, reg, est, dst);
    AddingReference(reg, dst, l, s);
    SameSamples(tab, reg, reg', est, dst, dst');
    ReceiveSample(tab, reg', est, dst', i, v, rest);
    var (a, b) := (RefTables(OutRefs(est), InRefs(reg', dst')), RefTables(OutRefs(est), KnownRefs(tab, reg', est)));
    CarriedSameIff(v, a, b);
    AlikeIs(v, a, b);
    TranslatedIs(tab, reg', est, v);
    forall k ensures Arrives(k, a) == Arrives(k, b) <==> !Affected(tab, reg, est, l, s, k) {
      NewArrives(tab, reg, est, dst, l, s, k);
    }
  }

  lemma AlikeIs(v: Value, a: RefTables, b: RefTables)
    ensures ArriveAlike(v, a, b) <==> forall k :: Mentions(v, k) ==> Arrives(k, a) == Arrives(k, b)
  {}

  lemma AddingReference(reg: Registered, dst: DecState, l: nat, s: Sample)
    ensures var reg' := Hearing(reg, AddReference(l, s)); reg' == reg.(refs := reg'.refs, refFirst := reg'.refFirst, refLast := reg'.refLast)
    ensures var dst' := HearingTables(reg, dst, AddReference(l, s)); dst'.r2l == dst.r2l && dst'.versionOk == dst.versionOk
  {}

  // ------------------------------------------------------------------ a lost reference

  /** The sender has b and a sample s of type sample_ref. */
  function Sending(b: Sample, s: Sample): Table {
    map[0x40 := b, 0x41 := s]
  }

  /** The receiver handles s, and knows b under another index than the sender. */
  function Receiving(b: Sample, s: Sample): Registered {
    Registered(map[0x42 := s], 0x42, 0x43, map[0x41 := b], 0x41, 0x42, false, false)
  }

  ghost predicate Usable(a: Sample, b: Sample, s: Sample) {
    && GoodSample(0x40, b) && GoodSample(0x41, s) && GoodSample(0x42, s) && s.ty == Type.Prim(Prim.Sample)
    && !(a.name == b.name && Flat(a.ty) == Flat(b.ty)) && Compatible(Sending(b, s), map[0x42 := s])
  }

  /** b is announced, s is announced, the receiver registers a under the index that b
    * has at the sender, and a reference to b is sent.
    */
  function Moments(a: Sample): seq<Joint> {
    [Calls(RegisterRef(0x40)), Calls(Register(0x41)), Hears(AddReference(0x40, a)), Calls(Send(0x41, Ref(0x40)))]
  }

  const ANNOUNCED: EncState := EncState({0x41}, {0x40}, {})

  lemma RefAdmissible(tab: Table, i: nat, k: nat)
    requires i in tab && tab[i].ty == Type.Prim(Prim.Sample)
    ensures Admissible(tab, Send(i, Ref(k))) && HasType(Ref(k), tab[i].ty)
  {}

  lemma {:induction false} OnlyEntry(s: Sample, l: nat, name: seq<byte>, sig: seq<byte>)
    ensures FirstMatch(map[l := s], l, l + 1, name, sig) == if Matches(s, name, sig) then l else 0
  {
    hide Matches;
    assert FirstMatch(map[l := s], l + 1, l + 1, name, sig) == 0;
  }

  /** Both announcements are received, and the two ends are linked. */
  lemma Announcements(a: Sample, b: Sample, s: Sample, rest: seq<byte>) returns (dst: DecState)
    requires Usable(a, b, s)
    ensures var (tab, reg, first) := (Sending(b, s), Receiving(b, s), EncState({}, {0x40}, {}));
            && Linked(tab, reg, ANNOUNCED, dst) && GoodTable(tab) && GoodReceiver(tab, reg)
            && RefOf(reg, b) == 0x41 && LocalOf(reg, s) == 0x42
            && forall script ::
                 HearRun(reg, DecNew(reg),
                         VersionPacket() + (DefPacket(SAMPLE_REF, 0x40, b.name, Flat(b.ty)) + (DefPacket(SAMPLE_DEF, 0x41, s.name, Flat(s.ty)) + rest)),
                         [Decode] + ([Decode] + ([Decode] + script)))
                 == HearRun(reg, dst, rest, script)
  {
    hide Flat, FirstMatch, DecodeOne, HearRun, DefPacket, VersionPacket, GoodSample, Linked, Skeleton, HasType, Enc, DataPacket;
    var (tab, reg) := (Sending(b, s), Receiving(b, s));
    OnlyEntry(b, 0x41, b.name, Flat(b.ty));
    OnlyEntry(s, 0x42, s.name, Flat(s.ty));
    assert RefOf(reg, b) == 0x41 && LocalOf(reg, s) == 0x42;
    var p2 := DefPacket(SAMPLE_DEF, 0x41, s.name, Flat(s.ty));
    var p1 := DefPacket(SAMPLE_REF, 0x40, b.name, Flat(b.ty));
    var d0 := DecNew(reg).(versionOk := true);
    ReceiveVersion(reg, p1 + (p2 + rest));
    VersionNonEmpty();
    LinkedFirst(tab, reg);
    OneCall(tab, reg, ENC_NEW, d0, RegisterRef(0x40), p2 + rest);
    var t1 := DecodeOne(reg, d0, p1 + (p2 + rest));
    assert NextFlags(ENC_NEW, RegisterRef(0x40)) == EncState({}, {0x40}, {});
    OneCall(tab, reg, EncState({}, {0x40}, {}), t1.st, Register(0x41), rest);
    var t2 := DecodeOne(reg, t1.st, p2 + rest);
    assert NextFlags(EncState({}, {0x40}, {}), Register(0x41)) == ANNOUNCED;
    dst := t2.st;
    forall script
      ensures HearRun(reg, DecNew(reg), VersionPacket() + (p1 + (p2 + rest)), [Decode] + ([Decode] + ([Decode] + script)))
           == HearRun(reg, dst, rest, script)
    {
      RunNext(reg, DecNew(reg), VersionPacket(), p1 + (p2 + rest), d0, [], [Decode] + ([Decode] + script));
      RunNext(reg, d0, p1, p2 + rest, t1.st, [], [Decode] + script);
      RunNext(reg, t1.st, p2, rest, t2.st, [], script);
      BeforeNothing(HearRun(reg, dst, rest, script));
      BeforeNothing(HearRun(reg, t1.st, p2 + rest, [Decode] + script));
      BeforeNothing(HearRun(reg, d0, p1 + (p2 + rest), [Decode] + ([Decode] + script)));
    }
  }

  /** The bytes and the script of these moments, and what should be handled. */
  lemma UnfoldMoments(a: Sample, b: Sample, s: Sample)
    requires Usable(a, b, s)
    ensures var (tab, reg, js) := (Sending(b, s), Receiving(b, s), Moments(a));
            && AllAdmissible(tab, js) && Admissible(tab, Send(0x41, Ref(0x40))) && HasType(Ref(0x40), s.ty)
            && EncRun(tab, ENC_NEW, js)
               == DefPacket(SAMPLE_REF, 0x40, b.name, Flat(b.ty))
                  + (DefPacket(SAMPLE_DEF, 0x41, s.name, Flat(s.ty)) + (DataPacket(0x41, s, Ref(0x40), OutRefs(ANNOUNCED)) + []))
            && Script(ENC_NEW, js) == [Decode] + ([Decode] + ([Does(AddReference(0x40, a))] + ([Decode] + [])))
            && (RefOf(reg, b) == 0x41 && LocalOf(reg, s) == 0x42 ==>
                  Expected(tab, reg, ENC_NEW, js)
                  == Report([Handled(0x42, Translated(tab, Hearing(reg, AddReference(0x40, a)), ANNOUNCED, Ref(0x40)))], EndOfInput))
  {
    hide Flat, FirstMatch, DefPacket, GoodSample, Skeleton, HasType, Enc, DataPacket, EncRun, Script, Expected, Translated, OutRefs;
    var (tab, reg, js) := (Sending(b, s), Receiving(b, s), Moments(a));
    var (js1, js2, js3) := (js[1..], js[1..][1..], js[1..][1..][1..]);
    assert js1[0] == Calls(Register(0x41)) && js2[0] == Hears(AddReference(0x40, a)) && js3 == [Calls(Send(0x41, Ref(0x40)))];
    RefAdmissible(tab, 0x41, 0x40);
    var e1 := EncState({}, {0x40}, {});
    assert NextFlags(ENC_NEW, RegisterRef(0x40)) == e1 && NextFlags(e1, Register(0x41)) == ANNOUNCED;
    UnfoldCall(tab, reg, ENC_NEW, js, RegisterRef(0x40));
    UnfoldCall(tab, reg, e1, js1, Register(0x41));
    UnfoldHear(tab, reg, ANNOUNCED, js2, AddReference(0x40, a));
    var reg' := Hearing(reg, AddReference(0x40, a));
    UnfoldCall(tab, reg', ANNOUNCED, js3, Send(0x41, Ref(0x40)));
    assert js3[1..] == [];
    RunEnds(tab, reg', ANNOUNCED, DecNew(reg'));
    Nothing(tab, ANNOUNCED);
    BeforeNothing(Expected(tab, reg, e1, js1));
    BeforeNothing(Expected(tab, reg, ANNOUNCED, js2));
    var h := [Handled(0x42, Translated(tab, reg', ANNOUNCED, Ref(0x40)))];
    assert h + [] == h;
  }

  lemma Nothing(tab: Table, est: EncState)
    ensures EncRun(tab, est, []) == [] && Script(est, []) == []
  {}

  /** In this session the reference arrives as NULL although the receiver knows b. */
  lemma LostReference(a: Sample, b: Sample, s: Sample)
    requires Usable(a, b, s)
    ensures var (tab, reg, js) := (Sending(b, s), Receiving(b, s), Moments(a));
            && AllAdmissible(tab, js)
            && Expected(tab, reg, ENC_NEW, js) == Report([Handled(0x42, Ref(0x41))], EndOfInput)
            && HearRun(reg, DecNew(reg), VersionPacket() + EncRun(tab, ENC_NEW, js), [Decode] + Script(ENC_NEW, js))
               == Report([Handled(0x42, Ref(0))], EndOfInput)
  {
    hide *;
    UnfoldMoments(a, b, s);
    var (tab, reg) := (Sending(b, s), Receiving(b, s));
    var data := DataPacket(0x41, s, Ref(0x40), OutRefs(ANNOUNCED)) + [];
    var dst := Announcements(a, b, s, data);
    RunHears(reg, dst, data, AddReference(0x40, a), [Decode] + []);
    var reg' := Hearing(reg, AddReference(0x40, a));
    var dst' := HearingTables(reg, dst, AddReference(0x40, a));
    LinkedParts(tab, reg, ANNOUNCED, dst);
    AddingReference(reg, dst, 0x40, a);
    SameSamples(tab, reg, reg', ANNOUNCED, dst, dst');
    Indices(b, s);
    ReceiveSample(tab, reg', ANNOUNCED, dst', 0x41, Ref(0x40), []);
    DataNonEmpty(0x41, s, Ref(0x40), OutRefs(ANNOUNCED));
    RunNext(reg', dst', DataPacket(0x41, s, Ref(0x40), OutRefs(ANNOUNCED)), [], dst',
            [Handled(LocalOf(reg', s), Carried(Ref(0x40), RefTables(OutRefs(ANNOUNCED), InRefs(reg', dst'))))], []);
    Outcomes(a, b, s, dst);
    Finished(reg', dst');
  }

  lemma Indices(b: Sample, s: Sample)
    ensures 0x41 in Sending(b, s) && Sending(b, s)[0x41] == s && 0x41 in ANNOUNCED.registered
  {}

  lemma Finished(reg: Registered, dst: DecState)
    ensures HearRun(reg, dst, [], []) == Report([], EndOfInput)
    ensures forall e :: Before([e], Report([], EndOfInput)) == Report([e], EndOfInput)
  {}

  lemma Outcomes(a: Sample, b: Sample, s: Sample, dst: DecState)
    requires Usable(a, b, s) && RefOf(Receiving(b, s), b) == 0x41 && LocalOf(Receiving(b, s), s) == 0x42
    ensures var (tab, reg) := (Sending(b, s), Receiving(b, s));
            var (reg', dst') := (Hearing(reg, AddReference(0x40, a)), HearingTables(reg, dst, AddReference(0x40, a)));
            && Translated(tab, reg', ANNOUNCED, Ref(0x40)) == Ref(0x41)
            && Carried(Ref(0x40), RefTables(OutRefs(ANNOUNCED), InRefs(reg', dst'))) == Ref(0)
            && LocalOf(reg', s) == 0x42
  {
    hide Flat, FirstMatch, GoodSample;
    var reg := Receiving(b, s);
    MatchAfterAdd(reg.refs, reg.refFirst, reg.refLast, 0x40, a, b.name, Flat(b.ty));
    assert ToWire(OutRefs(ANNOUNCED), 0x40) == 0x40;
  }

  /** Samples with one-letter names. */
  function Named(c: byte, p: Prim): Sample {
    Session.Sample([c], Type.Prim(p), Tree(0, []))
  }

  lemma NamedIsGood(i: nat, c: byte, p: Prim)
    requires USER <= i < 128 && c != 0
    ensures GoodSample(i, Named(c, p))
  {
    var s := Named(c, p);
    assert High(0) == [];
    assert Flat(s.ty) == Pack(PrimCode(p)) == [PrimCode(p)];
    assert Written(s.tree, 0) == [];
    assert SizePacked(i) == 1 && SizePacked(1) == 1 && SizePacked(0) == 1;
  }

  lemma SuchSamplesExist()
    ensures Usable(Named(1, Byte), Named(2, Byte), Named(3, Prim.Sample))
  {
    NamedIsGood(0x40, 2, Byte);
    NamedIsGood(0x41, 3, Prim.Sample);
    NamedIsGood(0x42, 3, Prim.Sample);
    assert High(0) == [];
    assert Pack(0x21) == [0x21] && Pack(0x28) == [0x28];
    assert Flat(Type.Prim(Byte)) == [0x21] && Flat(Type.Prim(Prim.Sample)) == [0x28];
  }
}
