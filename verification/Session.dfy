/** A whole LabComm session: what labcomm2014_encoder.c writes for a sequence of
  * calls, and what labcomm2014_decoder.c does with the bytes.
  */
module Session {
  import opened Wire
  import opened Types
  import opened Codegen
  import opened Signatures
  import opened TypeSignatures
  import opened SampleCodec

  const VERSION: nat := 0x01
  const SAMPLE_DEF: nat := 0x02
  const SAMPLE_REF: nat := 0x03
  const TYPE_DEF: nat := 0x04
  const TYPE_BINDING: nat := 0x05
  const PRAGMA: nat := 0x3f
  const USER: nat := 0x40

  /** "LabComm2014" */
  const CURRENT_VERSION: seq<byte> := [76, 97, 98, 67, 111, 109, 109, 50, 48, 49, 52]

  /** A struct labcomm2014_signature: its name, the type whose flat signature it
    * carries, and its signature tree.
    */
  datatype Sample = Sample(name: seq<byte>, ty: Type, tree: Tree)

  /** Signatures by local index. */
  type Table = map<nat, Sample>

  // -------------------------------------------------------------------- packets

  function SizeString(s: seq<byte>): nat {
    SizePacked(|s|) + |s|
  }

  /** TODO_encode_intentions: one intention, with the empty key and the name. */
  function NameIntention(name: seq<byte>): seq<byte> {
    Pack(1) + Pack(0) + PackString(name)
  }

  function VersionPacket(): seq<byte> {
    Pack(VERSION) + Pack(SizeString(CURRENT_VERSION)) + PackString(CURRENT_VERSION)
  }

  /** The body that SAMPLE_DEF, SAMPLE_REF and TYPE_DEF packets share. */
  function DefBody(index: nat, name: seq<byte>, sig: seq<byte>): seq<byte> {
    Pack(index) + NameIntention(name) + Pack(|sig|) + sig
  }

  /** The length field, summed up from the parts before anything is written. */
  function DefLength(index: nat, name: seq<byte>, sigSize: nat): nat {
    SizePacked(index) + (SizeString(name) + 2) + SizePacked(sigSize) + sigSize
  }

  function DefPacket(tag: nat, index: nat, name: seq<byte>, sig: seq<byte>): seq<byte> {
    Pack(tag) + Pack(DefLength(index, name, |sig|)) + DefBody(index, name, sig)
  }

  function BindPacket(sample: nat, ty: nat): seq<byte> {
    Pack(TYPE_BINDING) + Pack(SizePacked(sample) + SizePacked(ty)) + Pack(sample) + Pack(ty)
  }

  /** A sample: index, the generated sizeof, and what the generated encoder writes. */
  ghost function DataPacket(index: nat, s: Sample, v: Value, out: Outgoing): seq<byte>
    requires HasType(v, s.ty)
  {
    EncodeWrites(s.ty, v, RefTables(out, map[]));
    SizeofPredicts(s.ty, v, RefTables(out, map[]));
    Pack(index) + Pack(RunSizeof(s.ty, v, RefTables(out, map[])).core.size)
    + RunEncode(s.ty, v, RefTables(out, map[])).core.output
  }

  /** Length fields are exact. */
  lemma DefLengthExact(index: nat, name: seq<byte>, sig: seq<byte>)
    ensures DefLength(index, name, |sig|) == |DefBody(index, name, sig)|
  {
    PackSize(index);
    PackSize(1);
    PackSize(0);
    PackSize(|name|);
    PackSize(|sig|);
    assert SizePacked(1) == 1 && SizePacked(0) == 1;
  }

  // -------------------------------------------------------------------- encoder

  /** The flags in the encoder's signature arrays. */
  datatype EncState = EncState(registered: set<nat>, refs: set<nat>, typedefs: set<nat>)

  datatype Op =
    | Register(i: nat)
    | RegisterRef(i: nat)
    | RegisterType(i: nat)
    | Bind(i: nat, hasDeps: bool)
    | Send(i: nat, v: Value)

  /** sample_ref_to_index: the local index, if registered as a reference. */
  function OutRefs(st: EncState): Outgoing {
    map i | i in st.refs && i < TWO32 :: i
  }

  /** The calls C's types and the generated wrappers admit; a sample's length is
    * an unsigned int.
    */
  ghost predicate Admissible(tab: Table, op: Op) {
    && op.i in tab
    && (op.Send? ==> HasType(op.v, tab[op.i].ty) && forall out :: |Enc(tab[op.i].ty, op.v, out)| < TWO32)
  }

  /** The flags after a call. */
  function NextFlags(st: EncState, op: Op): EncState {
    match op
    case Register(i) => st.(registered := st.registered + {i})
    case RegisterRef(i) => st.(refs := st.refs + {i})
    case RegisterType(i) => st.(typedefs := st.typedefs + {i})
    case _ => st
  }

  /** Refused, or repeated. */
  predicate Silent(st: EncState, op: Op) {
    match op
    case Register(i) => i in st.registered
    case RegisterRef(i) => i in st.refs
    case RegisterType(i) => i in st.typedefs
    case Bind(_, _) => false
    case Send(i, _) => i !in st.registered
  }

  ghost function PacketOf(tab: Table, st: EncState, op: Op): seq<byte>
    requires Admissible(tab, op)
  {
    var (i, s) := (op.i, tab[op.i]);
    match op
    case Register(_) => DefPacket(SAMPLE_DEF, i, s.name, Flat(s.ty))
    case RegisterRef(_) => DefPacket(SAMPLE_REF, i, s.name, Flat(s.ty))
    case RegisterType(_) => DefPacket(TYPE_DEF, i, s.name, Written(s.tree, 0))
    case Bind(_, hasDeps) => BindPacket(i, if hasDeps then i else 0)
    case Send(_, v) => DataPacket(i, s, v, OutRefs(st))
  }

  /** The new flags and what is written. */
  ghost function EncStep(tab: Table, st: EncState, op: Op): (EncState, seq<byte>)
    requires Admissible(tab, op)
  {
    if Silent(st, op) then (st, []) else (NextFlags(st, op), PacketOf(tab, st, op))
  }

  // -------------------------------------------------------------------- decoder

  /** What the decoder has registered: samples with handlers and references, each
    * in a signature array spanning [first, last), and the two optional handlers.
    */
  datatype Registered = Registered(
    locals: Table, first: nat, last: nat,
    refs: Table, refFirst: nat, refLast: nat,
    onTypeDef: bool, onBinding: bool)

  /** `r2l` and `r2lRef` are remote_to_local and remote_to_local_ref, absent is 0. */
  datatype DecState = DecState(versionOk: bool, r2l: map<nat, nat>, r2lRef: map<nat, nat>)

  datatype Event =
    | Handled(local: nat, v: Value)
    | TypeDefined(index: nat, name: seq<byte>, sig: seq<byte>)
    | Bound(sample: nat, ty: nat)

  /** Why decoding stopped. Ended: the result of decode_one was not positive. Unset:
    * it was not initialised.
    */
  datatype Stop = EndOfInput | Ended | Broken | NoEntry | ConnReset | Unset

  /** What decode_one comes to. After Last its result is not positive, which ends
    * decoder_run although there was no error.
    */
  datatype Turn =
    | Failed(why: Stop)
    | Next(st: DecState, rest: seq<byte>, events: seq<Event>)
    | Last(st: DecState, rest: seq<byte>, events: seq<Event>)

  /** A result that is an index or a tag of the packet: an int, so from 2^31 on it is
    * negative.
    */
  function WithResult(n: nat, st: DecState, rest: seq<byte>, events: seq<Event>): Turn {
    if 0 < n < TWO31 then Next(st, rest, events) else Last(st, rest, events)
  }

  // What the application at the receiving end does.

  datatype Hear = AddSample(l: nat, s: Sample) | AddReference(l: nat, s: Sample) | HandleTypes | HandleBindings

  /** A signature array that has to hold an index. */
  function Widen(first: nat, last: nat, l: nat): (nat, nat) {
    if first == 0 && last == 0 then (l, l + 1)
    else (if l < first then l else first, if last <= l then l + 1 else last)
  }

  function WidenLocals(reg: Registered, l: nat): Registered {
    var (first, last) := Widen(reg.first, reg.last, l);
    reg.(first := first, last := last)
  }

  function AddRef(reg: Registered, l: nat, s: Sample): Registered {
    var (first, last) := Widen(reg.refFirst, reg.refLast, l);
    reg.(refs := reg.refs[l := s], refFirst := first, refLast := last)
  }

  /** The registrations after one more. A reference is entered once only. */
  function Hearing(reg: Registered, h: Hear): Registered {
    match h
    case AddSample(l, s) => if l == 0 then reg else WidenLocals(reg.(locals := reg.locals[l := s]), l)
    case AddReference(l, s) => if l == 0 || l in reg.refs then reg else AddRef(reg, l, s)
    case HandleTypes => WidenLocals(reg.(onTypeDef := true), TYPE_DEF)
    case HandleBindings => WidenLocals(reg.(onBinding := true), TYPE_BINDING)
  }

  /** The translation tables after a registration. Registering a reference clears the
    * slot of the remote index that has the number of the local one.
    */
  function HearingTables(reg: Registered, st: DecState, h: Hear): DecState {
    match h
    case AddSample(_, _) => st
    case AddReference(l, _) => if l == 0 || l in reg.refs then st else st.(r2lRef := st.r2lRef - {l})
    case HandleTypes => st.(r2l := st.r2l[TYPE_DEF := TYPE_DEF])
    case HandleBindings => st.(r2l := st.r2l[TYPE_BINDING := TYPE_BINDING])
  }

  /** A decoder before its first packet. */
  function DecNew(reg: Registered): DecState {
    var types := if reg.onTypeDef then map[TYPE_DEF := TYPE_DEF] else map[];
    DecState(false, if reg.onBinding then types[TYPE_BINDING := TYPE_BINDING] else types, map[])
  }

  /** Name by strcmp, signature by memcmp. */
  predicate Matches(s: Sample, name: seq<byte>, sig: seq<byte>) {
    s.name == name && Flat(s.ty) == sig
  }

  /** The scan over a signature array: the first match, 0 if there is none. */
  function FirstMatch(tab: Table, lo: nat, hi: nat, name: seq<byte>, sig: seq<byte>): nat
    decreases hi - lo
  {
    if lo >= hi then 0
    else if lo in tab && Matches(tab[lo], name, sig) then lo
    else FirstMatch(tab, lo + 1, hi, name, sig)
  }

  function Lookup(m: map<nat, nat>, k: nat): nat {
    if k in m then m[k] else 0
  }

  function SkipBytes(n: nat, s: seq<byte>): (r: Parsed<()>) {
    match TakeInt(n, s)
    case Fail => Fail
    case Ok(_, rest) => Ok((), rest)
  }

  /** TODO_read_intentions: the value whose key is empty, none for NULL. */
  function ReadIntentions(n: nat, name: seq<seq<byte>>, s: seq<byte>): (r: Parsed<seq<seq<byte>>>)
    ensures r.Ok? ==> |r.rest| <= |s|
  {
    if n == 0 then Ok(name, s)
    else
      match Unpack(s)
      case Fail => Fail
      case Ok(klen, s1) =>
        if klen == 0 then
          match ReadInt(s1)
          case Fail => Fail
          case Ok(v, s2) => ReadIntentions(n - 1, [v], s2)
        else
          match SkipBytes(klen, s1)
          case Fail => Fail
          case Ok(_, s2) =>
            match Unpack(s2)
            case Fail => Fail
            case Ok(vlen, s3) =>
              match SkipBytes(vlen, s3)
              case Fail => Fail
              case Ok(_, s4) => ReadIntentions(n - 1, name, s4)
  }

  datatype Def = Def(index: nat, name: seq<byte>, sig: seq<byte>)

  /** Index, intentions (their number is one byte), signature. */
  function ReadDef(s: seq<byte>): (r: Parsed<Def>) {
    match Unpack(s)
    case Fail => Fail
    case Ok(index, s1) =>
      if s1 == [] then Fail
      else
        match ReadIntentions(s1[0], [], s1[1..])
        case Fail => Fail
        case Ok(name, s2) =>
          match ReadInt(s2)
          case Fail => Fail
          case Ok(sig, s3) => if name == [] then Fail else Ok(Def(index, CString(name[0]), sig), s3)
  }

  /** The references a decoded sample_ref can stand for. */
  function InRefs(reg: Registered, st: DecState): Incoming {
    map k | k in st.r2lRef && st.r2lRef[k] in reg.refs :: st.r2lRef[k]
  }

  ghost function DecodeSample(reg: Registered, st: DecState, local: nat, s: seq<byte>): Turn {
    if local !in reg.locals then Failed(NoEntry)
    else
      var r := RunDecode(reg.locals[local].ty, s, RefTables(map[], InRefs(reg, st)));
      if r.Stuck? || |r.core.handled| != 1 then Failed(Broken)
      else Next(st, r.core.input, [Handled(local, r.core.handled[0])])
  }

  function DecodeDef(reg: Registered, st: DecState, s: seq<byte>): Turn {
    match ReadDef(s)
    case Fail => Failed(Broken)
    case Ok(d, rest) =>
      var i := FirstMatch(reg.locals, reg.first, reg.last, d.name, d.sig);
      if reg.first >= reg.last then Failed(Unset)
      else if i == 0 then Failed(NoEntry)
      else WithResult(d.index, st.(r2l := st.r2l[d.index := i]), rest, [])
  }

  /** An unknown reference is skipped in silence. */
  function DecodeRef(reg: Registered, st: DecState, s: seq<byte>): Turn {
    match ReadDef(s)
    case Fail => Failed(Broken)
    case Ok(d, rest) =>
      var i := FirstMatch(reg.refs, reg.refFirst, reg.refLast, d.name, d.sig);
      if reg.refFirst >= reg.refLast then Failed(Unset)
      else if i == 0 then Next(st, rest, [])
      else WithResult(d.index, st.(r2lRef := st.r2lRef[d.index := i]), rest, [])
  }

  function RawTypeDef(st: DecState, s: seq<byte>): Turn {
    match ReadDef(s)
    case Fail => Failed(Broken)
    case Ok(d, rest) => Next(st, rest, [TypeDefined(d.index, d.name, d.sig)])
  }

  function RawBinding(st: DecState, s: seq<byte>): Turn {
    match Unpack(s)
    case Fail => Failed(Broken)
    case Ok(a, s1) =>
      match Unpack(s1)
      case Fail => Failed(Broken)
      case Ok(b, rest) => Next(st, rest, [Bound(a, b)])
  }

  /** The decode function that lookup_h finds: the raw readers have entries of their
    * own in the array of samples.
    */
  datatype Entry = NoHandler | RawType | RawBind | Generated(local: nat)

  function EntryFor(reg: Registered, st: DecState, tag: nat): Entry {
    var local := Lookup(st.r2l, tag);
    if local == TYPE_DEF && reg.onTypeDef then RawType
    else if local == TYPE_BINDING && reg.onBinding then RawBind
    else if local in reg.locals then Generated(local)
    else NoHandler
  }

  /** decode_and_handle. */
  ghost function DecodeEntry(reg: Registered, st: DecState, e: Entry, s: seq<byte>): Turn {
    match e
    case RawType => RawTypeDef(st, s)
    case RawBind => RawBinding(st, s)
    case Generated(local) => DecodeSample(reg, st, local, s)
    case NoHandler => Failed(NoEntry)
  }

  function Skipped(st: DecState, tag: nat, length: nat, s: seq<byte>): Turn {
    match SkipBytes(length, s)
    case Fail => Failed(Broken)
    case Ok(_, rest) => WithResult(tag, st, rest, [])
  }

  /** Type definitions and bindings, which are skipped without a handler. */
  ghost function DecodeOptional(reg: Registered, st: DecState, tag: nat, length: nat, s: seq<byte>): Turn {
    var e := EntryFor(reg, st, tag);
    if e.NoHandler? then Skipped(st, tag, length, s) else DecodeEntry(reg, st, e, s)
  }

  function DecodePragma(st: DecState, length: nat, s: seq<byte>): Turn {
    match ReadInt(s)
    case Fail => Failed(Broken)
    case Ok(kind, s1) =>
      var n := SizeString(CString(kind));
      match SkipBytes(if n <= length < TWO31 then length - n else 0, s1)
      case Fail => Failed(Broken)
      case Ok(_, rest) => Next(st, rest, [])
  }

  function DecodeVersion(st: DecState, s: seq<byte>): Turn {
    match ReadInt(s)
    case Fail => Failed(Broken)
    case Ok(v, rest) =>
      if CString(v) == CURRENT_VERSION then Next(st.(versionOk := true), rest, []) else Failed(ConnReset)
  }

  /** do_decode_one after the two header fields. */
  ghost function DecodeBody(reg: Registered, st: DecState, tag: nat, length: nat, s: seq<byte>): Turn {
    if tag == VERSION then DecodeVersion(st, s)
    else if !st.versionOk then Failed(ConnReset)
    else if tag == SAMPLE_DEF then DecodeDef(reg, st, s)
    else if tag == SAMPLE_REF then DecodeRef(reg, st, s)
    else if tag == TYPE_DEF || tag == TYPE_BINDING then DecodeOptional(reg, st, tag, length, s)
    else if tag == PRAGMA then DecodePragma(st, length, s)
    else if tag < USER || tag >= TWO31 then Skipped(st, tag, length, s)
    else DecodeEntry(reg, st, EntryFor(reg, st, tag), s)
  }

  ghost function DecodeOne(reg: Registered, st: DecState, s: seq<byte>): Turn {
    match Unpack(s)
    case Fail => Failed(Broken)
    case Ok(tag, s1) =>
      match Unpack(s1)
      case Fail => Failed(Broken)
      case Ok(length, s2) => DecodeBody(reg, st, tag, length, s2)
  }

  /** All events up to the end of the input or the first failure. */
  datatype Report = Report(events: seq<Event>, stop: Stop)

  function Before(events: seq<Event>, more: Report): Report {
    Report(events + more.events, more.stop)
  }

  /** labcomm2014_decoder_run. */
  ghost function DecRun(reg: Registered, st: DecState, s: seq<byte>): Report
    decreases |s|
  {
    if s == [] then Report([], EndOfInput)
    else
      match DecodeOne(reg, st, s)
      case Failed(why) => Report([], why)
      case Last(_, _, events) => Report(events, Ended)
      case Next(st', rest, events) =>
        if |rest| >= |s| then Report(events, Broken) else Before(events, DecRun(reg, st', rest))
  }

  /** The receiving application decodes a packet or registers something. */
  datatype Act = Decode | Does(h: Hear)

  /** A script of the receiving application, and decoder_run after it. */
  ghost function HearRun(reg: Registered, st: DecState, s: seq<byte>, script: seq<Act>): Report
    decreases |script|
  {
    if script == [] then DecRun(reg, st, s)
    else if script[0].Does? then HearRun(Hearing(reg, script[0].h), HearingTables(reg, st, script[0].h), s, script[1..])
    else if s == [] then Report([], EndOfInput)
    else
      match DecodeOne(reg, st, s)
      case Failed(why) => Report([], why)
      case Last(_, _, events) => Report(events, Ended)
      case Next(st', rest, events) => Before(events, HearRun(reg, st', rest, script[1..]))
  }

  // ------------------------------------------------------- what should be handled

  /** The receiver's entry for a sender's sample. */
  function LocalOf(reg: Registered, s: Sample): nat {
    FirstMatch(reg.locals, reg.first, reg.last, s.name, Flat(s.ty))
  }

  function RefOf(reg: Registered, s: Sample): nat {
    FirstMatch(reg.refs, reg.refFirst, reg.refLast, s.name, Flat(s.ty))
  }

  /** The value the handler should get: a reference that the sender registered
    * and the receiver knows becomes the receiver's, any other becomes NULL.
    */
  function Translated(tab: Table, reg: Registered, st: EncState, v: Value): Value {
    Carried(v, RefTables(OutRefs(st), KnownRefs(tab, reg, st)))
  }

  function KnownRefs(tab: Table, reg: Registered, st: EncState): Incoming {
    map i | i in st.refs && i in tab && RefOf(reg, tab[i]) != 0 :: RefOf(reg, tab[i])
  }

  /** What happens at the two ends, in the order in which the packets are decoded. */
  datatype Joint = Calls(op: Op) | Hears(h: Hear)

  ghost predicate AllAdmissible(tab: Table, js: seq<Joint>) {
    forall k :: 0 <= k < |js| && js[k].Calls? ==> Admissible(tab, js[k].op)
  }

  /** Everything the sender's calls write. */
  ghost function EncRun(tab: Table, st: EncState, js: seq<Joint>): seq<byte>
    requires AllAdmissible(tab, js)
    decreases |js|
  {
    if js == [] then []
    else if js[0].Hears? then EncRun(tab, st, js[1..])
    else
      var (st', packet) := EncStep(tab, st, js[0].op);
      packet + EncRun(tab, st', js[1..])
  }

  /** What the receiver does, decoding each packet when it comes. */
  function Script(st: EncState, js: seq<Joint>): seq<Act>
    decreases |js|
  {
    if js == [] then []
    else
      match js[0]
      case Hears(h) => [Does(h)] + Script(st, js[1..])
      case Calls(op) =>
        if Silent(st, op) then Script(st, js[1..]) else [Decode] + Script(NextFlags(st, op), js[1..])
  }

  /** The session as its users see it, no bytes involved. */
  ghost function Expected(tab: Table, reg: Registered, st: EncState, js: seq<Joint>): Report
    requires AllAdmissible(tab, js)
    decreases |js|
  {
    if js == [] then Report([], EndOfInput)
    else
      match js[0]
      case Hears(h) => Expected(tab, Hearing(reg, h), st, js[1..])
      case Calls(op) =>
        if Silent(st, op) then Expected(tab, reg, st, js[1..])
        else
          var halt := Halts(tab, reg, op);
          if halt != [] then Report([], halt[0])
          else Before(Here(tab, reg, st, op), Expected(tab, reg, NextFlags(st, op), js[1..]))
  }

  /** What the receiver's handlers get from one call. */
  ghost function Here(tab: Table, reg: Registered, st: EncState, op: Op): seq<Event>
    requires op.i in tab
  {
    var s := tab[op.i];
    match op
    case Send(i, v) => [Handled(LocalOf(reg, s), Translated(tab, reg, st, v))]
    case RegisterType(i) => if reg.onTypeDef then [TypeDefined(i, s.name, Written(s.tree, 0))] else []
    case Bind(i, hasDeps) => if reg.onBinding then [Bound(i, if hasDeps then i else 0)] else []
    case _ => []
  }

  /** Why the receiver stops at a call, if it does: an unknown sample is announced, or
    * anything to a decoder that has nothing registered.
    */
  function Halts(tab: Table, reg: Registered, op: Op): (r: seq<Stop>)
    requires op.i in tab
    ensures |r| <= 1
  {
    match op
    case Register(i) =>
      if reg.first >= reg.last then [Unset] else if LocalOf(reg, tab[i]) == 0 then [NoEntry] else []
    case RegisterRef(_) => if reg.refFirst >= reg.refLast then [Unset] else []
    case _ => []
  }
}
